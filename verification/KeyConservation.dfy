// The device key survives every run of the client-PIN commands: whatever format
// EF_KEY_DEV is in, it encodes the same 32 bytes, and whoever knows the PIN can load them.
module KeyConservation {
  import opened Basics
  import opened ClientPin

  // A 32-byte file of the older firmware that loads to k. With an older PIN file it opens
  // under the session key of every PIN that file accepts; otherwise under any session key.
  ghost predicate LegacyEncodes(c: Crypto, pin: bytes, keydev: bytes, k: bytes32) {
    && |keydev| == 32
    && (forall h: bytes16 :: |pin| == 34 && Matches(c, pin, h) ==> c.legacyOpen(c.hashMulti(h), keydev) == Some(k))
    && (|pin| != 34 ==> forall session: bytes32 :: c.legacyOpen(session, keydev) == Some(k))
  }

  // A 61-byte file sealed under the session key of the PIN that the 35-byte PIN file accepts.
  ghost predicate SealedEncodes(c: Crypto, pin: bytes, keydev: bytes, k: bytes32) {
    |pin| == 35 && exists h: bytes16, nonce: bytes ::
      Matches(c, pin, h) && keydev == [2] + c.seal(c.sessionKey(h), nonce, c.wrap(k))
  }

  ghost predicate Encodes(c: Crypto, pin: bytes, keydev: bytes, k: bytes32) {
    || (LegacyEncodes(c, pin, keydev, k) && (|pin| == 34 || keydev[0] != 1))
    || keydev == PlainKeydev(c, k)
    || SealedEncodes(c, pin, keydev, k)
  }

  // The device key is k, whatever the format.
  ghost predicate Holds(c: Crypto, s: State, k: bytes32) {
    WellFormed(s) && Encodes(c, s.pin, s.keydev, k)
  }

  predicate Loads(c: Crypto, s: State, k: bytes32) {
    LoadKeydev(c, s.keydev, s.session) == Some(k)
  }

  // ---------- the two formats that load ----------

  lemma PlainLoads(c: Crypto, k: bytes32, session: bytes32)
    requires Laws(c)
    ensures LoadKeydev(c, PlainKeydev(c, k), session) == Some(k)
  {
    assert PlainKeydev(c, k)[1..33] == c.wrap(k);
  }

  lemma SealedPlain(c: Crypto, k: bytes32, key: bytes32, nonce: bytes, beyond: bytes32)
    requires Laws(c)
    ensures SealKeydev(c, PlainKeydev(c, k), key, nonce, beyond) == [2] + c.seal(key, nonce, c.wrap(k))
    ensures LoadKeydev(c, [2] + c.seal(key, nonce, c.wrap(k)), key) == Some(k)
  {
    assert KeydevBody(PlainKeydev(c, k), beyond) == c.wrap(k);
    assert ([2] + c.seal(key, nonce, c.wrap(k)))[1..] == c.seal(key, nonce, c.wrap(k));
  }

  // A sealed file is left alone by sealing it again and loads under the right PIN's key only
  // because the verifier pins that PIN down.
  lemma SealedOpens(c: Crypto, pin: bytes, keydev: bytes, k: bytes32, h: bytes16)
    requires Laws(c) && SealedEncodes(c, pin, keydev, k) && Matches(c, pin, h)
    ensures LoadKeydev(c, keydev, c.sessionKey(h)) == Some(k)
    ensures |keydev| == 61 && keydev[0] == 2
  {
    var g: bytes16, nonce: bytes :|
      Matches(c, pin, g) && keydev == [2] + c.seal(c.sessionKey(g), nonce, c.wrap(k));
    assert g == h;
    SealedPlain(c, k, c.sessionKey(h), nonce, Zeros32());
  }

  // ---------- paying for an attempt changes nothing ----------

  lemma AcceptanceIgnoresRetries(c: Crypto, pin: bytes, n: byte, k: bytes32, keydev: bytes)
    requires PinSet(pin)
    ensures forall h: bytes16 :: Matches(c, pin[0 := n], h) == Matches(c, pin, h)
    ensures Encodes(c, pin, keydev, k) ==> Encodes(c, pin[0 := n], keydev, k)
  {
    assert pin[0 := n][2..] == pin[2..];
    assert |pin| == 35 ==> pin[0 := n][3..] == pin[3..];
  }

  // ---------- the right PIN ----------

  lemma UnlockConserves(c: Crypto, s: State, h: bytes16, e: Entropy, k: bytes32)
    requires Laws(c) && Holds(c, s, k) && PinSet(s.pin) && Matches(c, s.pin, h)
    ensures var (t, ok) := Unlock(c, s, h, e);
            ok && |t.pin| == 35 && Matches(c, t.pin, h) && Holds(c, t, k) && Loads(c, t, k)
  {
    var (t, ok) := Unlock(c, s, h, e);
    var key := c.sessionKey(h);
    if s.keydev == PlainKeydev(c, k) || |s.pin| == 34 {
      PlainLoads(c, k, c.hashMulti(h));
      SealedPlain(c, k, key, e.nonce, e.beyond);
      assert SealedEncodes(c, t.pin, t.keydev, k);
    } else if SealedEncodes(c, s.pin, s.keydev, k) {
      SealedOpens(c, s.pin, s.keydev, k, h);
      AcceptanceIgnoresRetries(c, s.pin, MAX_PIN_RETRIES, k, s.keydev);
    } else {
      AcceptanceIgnoresRetries(c, s.pin, MAX_PIN_RETRIES, k, s.keydev);
    }
  }

  // The PIN is exchanged after the key was re-sealed for the new one. Between the two writes
  // a refused reuse of the current PIN returns early: the verifiers agree, so the PINs do.
  lemma ReplacePinConserves(c: Crypto, s: State, newPin: Option<bytes64>, e: Entropy, k: bytes32)
    requires Laws(c) && Holds(c, s, k) && Loads(c, s, k) && |s.pin| == 35
    ensures var t := ReplacePin(c, s, newPin, e).0; Holds(c, t, k) && Loads(c, t, k)
  {
    var t := ReplacePin(c, s, newPin, e).0;
    ReplacePinWellFormed(c, s, newPin, e);
    if newPin.Some? && newPin.value[63] == 0 && PinLength(newPin.value) >= MinPin(s) {
      var h := PinHash(c, newPin.value);
      SealedPlain(c, k, c.sessionKey(h), e.nonce', e.beyond);
      assert Matches(c, t.pin, h);
      assert SealedEncodes(c, t.pin, t.keydev, k);
    }
  }

  // ---------- one command ----------

  lemma SpendConserves(c: Crypto, s: State, k: bytes32)
    requires Holds(c, s, k) && s.pin != [] && s.pin[0] > 0
    ensures Holds(c, Spend(s), k)
    ensures forall h: bytes16 :: Matches(c, Spend(s).pin, h) == Matches(c, s.pin, h)
  {
    AcceptanceIgnoresRetries(c, s.pin, s.pin[0] - 1, k, s.keydev);
  }

  lemma SetPinConserves(c: Crypto, s: State, ch: Channel, p: Option<bytes64>, e: Entropy, k: bytes32)
    requires Laws(c) && Holds(c, s, k)
    ensures Holds(c, SetPinStep(c, s, ch, p, e).0, k)
  {
    var (t, out) := SetPinStep(c, s, ch, p, e);
    if out.status == Ok {
      var h := PinHash(c, p.value);
      SealedPlain(c, k, c.sessionKey(h), e.nonce, e.beyond);
      assert Matches(c, t.pin, h);
    }
  }

  lemma TryPinConserves(c: Crypto, s: State, h: Option<bytes16>, e: Entropy, k: bytes32)
    requires Laws(c) && Holds(c, s, k) && PinSet(s.pin) && s.pin[0] > 0
    ensures var (t, end) := TryPin(c, s, h, e);
            && Holds(c, t, k)
            && (end.None? ==> |t.pin| == 35 && Loads(c, t, k))
            && (end.Some? ==> !end.value.accepted)
  {
    SpendConserves(c, s, k);
    if h.Some? && Matches(c, s.pin, h.value) {
      UnlockConserves(c, Spend(s), h.value, e, k);
    }
  }

  lemma ChangePinConserves(c: Crypto, s: State, ch: Channel, h: Option<bytes16>, p: Option<bytes64>, e: Entropy, k: bytes32)
    requires Laws(c) && Holds(c, s, k)
    ensures var (t, out) := ChangePinStep(c, s, ch, h, p, e);
            Holds(c, t, k) && (out.accepted ==> Loads(c, t, k))
  {
    var a := Awake(s, e);
    if ChangePinRefusal(a, ch).None? {
      TryPinConserves(c, a, h, e, k);
      var (t, end) := TryPin(c, a, h, e);
      if end.None? {
        ReplacePinConserves(c, t, p, e, k);
      }
    }
  }

  lemma PinTokenConserves(c: Crypto, s: State, ch: Channel, plain: bool, h: Option<bytes16>,
                          perms: Permissions, rp: Option<bytes32>, e: Entropy, k: bytes32)
    requires Laws(c) && Holds(c, s, k)
    ensures var (t, out) := PinTokenStep(c, s, ch, plain, h, perms, rp, e);
            Holds(c, t, k) && (out.accepted ==> Loads(c, t, k))
  {
    var a := Awake(s, e);
    if PinTokenRefusal(a, ch, plain, perms, rp).None? {
      TryPinConserves(c, a, h, e, k);
      IssueTokenKeepsFiles(TryPin(c, a, h, e).0, plain, perms, rp, e);
    }
  }

  lemma StepConserves(c: Crypto, s: State, cmd: Command, e: Entropy, k: bytes32)
    requires Laws(c) && Holds(c, s, k)
    ensures var (t, out) := Step(c, s, cmd, e);
            Holds(c, t, k) && (out.accepted ==> Loads(c, t, k))
  {
    match cmd
    case SetPin(ch, p) => SetPinConserves(c, s, ch, p, e, k);
    case ChangePin(ch, h, p) => ChangePinConserves(c, s, ch, h, p, e, k);
    case PinToken(ch, plain, h, perms, rp) => PinTokenConserves(c, s, ch, plain, h, perms, rp, e, k);
    case _ => OtherCommandsKeepFiles(c, s, cmd, e);
  }

  // ---------- every run ----------

  // After any run the device still holds k.
  lemma {:induction false} RunConserves(c: Crypto, s: State, ins: seq<Input>, k: bytes32)
    requires Laws(c) && Holds(c, s, k)
    ensures Holds(c, Run(c, s, ins), k)
  {
    if ins != [] {
      var n := |ins| - 1;
      RunConserves(c, s, ins[..n], k);
      StepConserves(c, Run(c, s, ins[..n]), ins[n].0, ins[n].1, k);
    }
  }

  // Wherever in a run a PIN is accepted, load_keydev returns k at the end of that command.
  lemma AcceptedPinLoads(c: Crypto, s: State, ins: seq<Input>, i: nat, k: bytes32)
    requires Laws(c) && Holds(c, s, k) && i < |ins|
    ensures Answer(c, s, ins, i).accepted ==> Loads(c, Run(c, s, ins[..i + 1]), k)
  {
    RunConserves(c, s, ins[..i], k);
    StepConserves(c, Run(c, s, ins[..i]), ins[i].0, ins[i].1, k);
    RunStep(c, s, ins, i);
  }

  // ---------- where the format byte is ambiguous ----------

  // setPIN on a device whose 32-byte key file happens to start with 1 takes it for a plain
  // file. The key survives exactly when the file does not start with 1, or the bytes sealed
  // instead happen to unwrap to it.
  lemma LegacyFormatByte(c: Crypto, s: State, ch: Channel, p: Option<bytes64>, e: Entropy, k: bytes32)
    requires Laws(c) && WellFormed(s) && LegacyEncodes(c, s.pin, s.keydev, k)
    requires SetPinStep(c, s, ch, p, e).1.status == Ok
    ensures Loads(c, SetPinStep(c, s, ch, p, e).0, k) <==>
            (s.keydev[0] != 1 || c.unwrap(KeydevBody(s.keydev, e.beyond)) == k)
  {
    var t := SetPinStep(c, s, ch, p, e).0;
    var key := c.sessionKey(PinHash(c, p.value));
    if s.keydev[0] == 1 {
      var w := KeydevBody(s.keydev, e.beyond);
      assert t.keydev == [2] + c.seal(key, e.nonce, w);
      assert t.keydev[1..] == c.seal(key, e.nonce, w);
    }
  }

  // Cryptography in which every legacy file opens to k, and hashes and ciphers only pad.
  function PaddingCrypto(k: bytes32): Crypto {
    Crypto(
      (data: bytes) => Zeros32(),
      (key: bytes, data: bytes) => Zeros32(),
      (h: bytes16) => Widened(h),
      (h: bytes16) => Widened(h),
      (h: bytes16) => Widened(h),
      (h: bytes16) => Widened(h),
      (w: bytes32) => w,
      (w: bytes32) => w,
      (key: bytes32, nonce: bytes, w: bytes32) => w + seq(28, _ => 0),
      (key: bytes32, b: bytes) => if |b| == 60 then Some(b[..32]) else None,
      (key: bytes32, b: bytes) => Some(k))
  }

  function Widened(h: bytes16): bytes32 {
    h + seq(16, _ => 0)
  }

  // Cryptography that obeys the laws exists, and under it every legacy file encodes k: neither
  // the laws nor the results about legacy files hold vacuously.
  lemma LawsCanHold(k: bytes32)
    ensures Laws(PaddingCrypto(k))
    ensures forall pin: bytes, keydev: bytes :: |keydev| == 32 ==> LegacyEncodes(PaddingCrypto(k), pin, keydev, k)
  {
    var c := PaddingCrypto(k);
    forall key: bytes32, n: bytes, w: bytes32
      ensures |c.seal(key, n, w)| == 60 && c.open(key, c.seal(key, n, w)) == Some(w)
    {
      assert (w + seq(28, _ => 0))[..32] == w;
    }
    forall g: bytes16, h: bytes16 | c.verifier(g) == c.verifier(h)
      ensures g == h
    {
      assert Widened(g)[..16] == g && Widened(h)[..16] == h;
    }
  }

  // A device without a PIN whose key lies in a legacy file that starts with 1.
  function LegacyDevice(): State {
    State([], [1] + Zeros32()[1..], [], Zeros32(), 0, false, false,
          Token(Zeros32(), false, {}, Zeros32(), false, false, false), Zeros32(), {}, MAX_UV_RETRIES)
  }

  // The PIN 1111, padded.
  function FourOnes(): bytes64 {
    [0x31, 0x31, 0x31, 0x31] + Zeros32() + Zeros32()[4..]
  }

  lemma FourOnesAccepted()
    ensures FourOnes()[63] == 0 && PinLength(FourOnes()) >= MinPin(LegacyDevice())
  {
    var p := FourOnes();
    assert p[1..][0] == p[1] && p[1..][1..][0] == p[2] && p[1..][1..][1..][0] == p[3];
  }

  lemma LegacyBody(beyond: bytes32)
    ensures KeydevBody(LegacyDevice().keydev, beyond)[0] == 0
  {
    var f := LegacyDevice().keydev;
    assert (f[1..] + beyond)[..32][0] == (f[1..] + beyond)[0] == f[1..][0] == f[1];
    assert f[1] == Zeros32()[1..][0] == Zeros32()[1];
  }

  // An input that loses the key: the legacy file starts with 1, setPIN succeeds, and what
  // loads afterwards is not the key.
  lemma LegacyKeyLost(k: bytes32, e: Entropy)
    requires k[0] != 0
    ensures var c, s := PaddingCrypto(k), LegacyDevice();
            var (t, out) := SetPinStep(c, s, Channel(true, 1, true, true, true), Some(FourOnes()), e);
            && WellFormed(s) && LegacyEncodes(c, s.pin, s.keydev, k)
            && out.status == Ok && !Loads(c, t, k)
  {
    LawsCanHold(k);
    FourOnesAccepted();
    LegacyBody(e.beyond);
    LegacyFormatByte(PaddingCrypto(k), LegacyDevice(), Channel(true, 1, true, true, true), Some(FourOnes()), e, k);
  }

  // What load_keydev returns for any file. It fails for no file, for a legacy file that the
  // session does not unlock, and for a sealed one whose seal does not open under it; a file of
  // no known size or format counts as the all-zero key.
  lemma KeydevLoads(c: Crypto, keydev: bytes, session: bytes32)
    ensures var r := LoadKeydev(c, keydev, session);
            && (|keydev| == 32 ==> r == c.legacyOpen(session, keydev))
            && (|keydev| in {33, 61} && keydev[0] == 1 ==> r == Some(c.unwrap(keydev[1..33])))
            && (|keydev| in {33, 61} && keydev[0] == 2 ==>
                  && (r == None <==> c.open(session, keydev[1..]) == None)
                  && (r.Some? ==> r == Some(c.unwrap(c.open(session, keydev[1..]).value))))
            && (|keydev| == 0 ==> r == None)
            && (|keydev| !in {0, 32, 33, 61} || (|keydev| in {33, 61} && keydev[0] !in {1, 2}) ==> r == Some(Zeros32()))
  {
  }
}
