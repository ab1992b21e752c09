// Values shared by every component: options, bytes, byte strings of the sizes
// the firmware stores, and little-endian words.
module Basics {

  datatype Option<+T> = None | Some(value: T)

  type byte = b: int | 0 <= b < 256

  type bytes = seq<byte>

  type bytes16 = b: bytes | |b| == 16 witness seq(16, _ => 0)

  type bytes32 = b: bytes | |b| == 32 witness seq(32, _ => 0)

  type bytes64 = b: bytes | |b| == 64 witness seq(64, _ => 0)

  function Zeros32(): bytes32 { seq(32, _ => 0) }

  function Least(a: nat, b: nat): nat { if a < b then a else b }

  // A C string: the bytes before the first zero byte.
  function Cut(s: bytes): (r: bytes)
    ensures |r| <= |s| && r == s[..|r|] && (|r| < |s| ==> s[|r|] == 0) && forall i :: 0 <= i < |r| ==> r[i] != 0
  {
    if s == [] || s[0] == 0 then [] else [s[0]] + Cut(s[1..])
  }

  lemma Associate<T>(a: seq<T>, b: seq<T>, c: seq<T>)
    ensures a + b + c == a + (b + c)
  {
  }

  lemma Nothing<T>(a: seq<T>)
    ensures a + [] == a && [] + a == a
  {
  }

  lemma Parts<T>(a: seq<T>, b: seq<T>)
    ensures (a + b)[..|a|] == a && (a + b)[|a|..] == b
  {
  }
}
