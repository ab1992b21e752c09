// The credential id: a CBOR map sealed under the device key, and the map's printer and
// parser (src/fido/credential.c; RFC 8949 section 3).
module CredentialId {
  import opened Basics
  import opened Cbor
  import opened Credentials

  // ---------- text keys ----------

  const KEY_CRED_BLOB: bytes := [0x63, 0x72, 0x65, 0x64, 0x42, 0x6C, 0x6F, 0x62]
  const KEY_CRED_PROTECT: bytes := [0x63, 0x72, 0x65, 0x64, 0x50, 0x72, 0x6F, 0x74, 0x65, 0x63, 0x74]
  const KEY_HMAC_SECRET: bytes := [0x68, 0x6D, 0x61, 0x63, 0x2D, 0x73, 0x65, 0x63, 0x72, 0x65, 0x74]
  const KEY_LARGE_BLOB: bytes := [0x6C, 0x61, 0x72, 0x67, 0x65, 0x42, 0x6C, 0x6F, 0x62, 0x4B, 0x65, 0x79]
  const KEY_PAYMENT: bytes :=
    [0x74, 0x68, 0x69, 0x72, 0x64, 0x50, 0x61, 0x72, 0x74, 0x79, 0x50, 0x61, 0x79, 0x6D, 0x65, 0x6E, 0x74]
  const KEY_RK: bytes := [0x72, 0x6B]

  const MAX_CREDBLOB_LENGTH: nat := 128

  // ---------- printing ----------

  function PutText(key: nat, s: Option<bytes>): bytes {
    if s.Some? && s.value != [] then Uint(key) + String(TEXT, Cut(s.value)) else []
  }

  function PutBytes(key: nat, s: Option<bytes>): bytes {
    if s.Some? && s.value != [] then Uint(key) + String(BYTES, s.value) else []
  }

  predicate IsTrue(b: Option<bool>) {
    b.Some? && b.value
  }

  function PutFlag(key: bytes, present: bool, v: bool): bytes {
    if present then String(TEXT, key) + Bool(v) else []
  }

  predicate BlobKept(b: Option<bytes>) {
    b.Some? && |b.value| < MAX_CREDBLOB_LENGTH
  }

  // The extensions map without its first byte, and its last entries.
  function PutBlob(b: Option<bytes>): bytes {
    if BlobKept(b) then String(TEXT, KEY_CRED_BLOB) + String(BYTES, b.value) else []
  }

  function PutProtect(n: nat): bytes {
    if n != 0 then String(TEXT, KEY_CRED_PROTECT) + Uint(n) else []
  }

  function PutExtensions(x: Extensions): bytes {
    PutBlob(x.credBlob) + PutFromProtect(x)
  }

  function PutFromProtect(x: Extensions): bytes {
    PutProtect(x.credProtect)
    + (PutFlag(KEY_HMAC_SECRET, x.hmacSecret.Some?, IsTrue(x.hmacSecret)) + PutFromLargeBlob(x))
  }

  function PutFromLargeBlob(x: Extensions): bytes {
    PutFlag(KEY_LARGE_BLOB, IsTrue(x.largeBlobKey), true)
    + (PutFlag(KEY_PAYMENT, IsTrue(x.thirdPartyPayment), true) + [BREAK])
  }

  predicate DefaultAlgorithm(c: Credential) {
    c.alg == ALG_ES256 && c.curve == CURVE_P256
  }

  // The options map without its first byte.
  function PutOptions(rk: Option<bool>): bytes {
    PutFlag(KEY_RK, rk.Some?, IsTrue(rk)) + [BREAK]
  }

  function PutAlgorithm(c: Credential): bytes {
    if DefaultAlgorithm(c) then [] else Uint(9) + Int(c.alg) + (Uint(10) + Int(c.curve))
  }

  function PutOptionsMember(options: Option<Option<bool>>): bytes {
    if options.Some? then Uint(11) + ([MAP_START] + PutOptions(options.value)) else []
  }

  function PutExtensionsMember(x: Option<Extensions>): bytes {
    if x.Some? then Uint(7) + ([MAP_START] + PutExtensions(x.value)) else []
  }

  // The members of a credential, in the order they are written; each function runs to the end.
  function PutFromAlgorithm(c: Credential): bytes {
    PutAlgorithm(c) + (PutOptionsMember(c.options) + [BREAK])
  }

  function PutFromExtensions(c: Credential): bytes {
    PutExtensionsMember(c.extensions) + (Uint(8) + Bool(IsTrue(c.useSignCount)) + PutFromAlgorithm(c))
  }

  function PutFromNames(c: Credential): bytes {
    PutText(4, c.userName)
    + (PutText(5, c.userDisplayName) + (Uint(6) + Uint(c.creation) + PutFromExtensions(c)))
  }

  // The plaintext of a credential id. The stored RP hash is never read back.
  function Print(c: Credential, rpHash: bytes): bytes {
    [MAP_START] + (PutText(1, c.rpId) + (Uint(2) + String(BYTES, rpHash) + (PutBytes(3, c.userId) + PutFromNames(c))))
  }

  // ---------- parsing ----------

  const NO_EXTENSIONS := Extensions(None, 0, None, None, None)
  const NO_CREDENTIAL := Credential(None, None, None, None, 0, None, None, ALG_ES256, CURVE_P256, None)

  // The value of the extension with this key.
  function ParseExtensionValue(key: bytes, b: bytes, x: Extensions): (r: Option<(Extensions, bytes)>)
    ensures r.Some? ==> |r.value.1| < |b|
  {
    if key == KEY_HMAC_SECRET then
      var v := ReadBool(b);
      if v.None? then None else Some((x.(hmacSecret := Some(v.value.0)), v.value.1))
    else if key == KEY_CRED_PROTECT then
      var v := ReadUint(b);
      if v.None? then None else Some((x.(credProtect := v.value.0), v.value.1))
    else if key == KEY_CRED_BLOB then
      var v := ReadString(BYTES, b);
      if v.None? then None else Some((x.(credBlob := Some(v.value.0)), v.value.1))
    else if key == KEY_LARGE_BLOB then
      var v := ReadBool(b);
      if v.None? then None else Some((x.(largeBlobKey := Some(v.value.0)), v.value.1))
    else if key == KEY_PAYMENT then
      var v := ReadBool(b);
      if v.None? then None else Some((x.(thirdPartyPayment := Some(v.value.0)), v.value.1))
    else
      var v := Skip(b);
      if v.None? then None else Some((x, v.value))
  }

  // One key and value of the extensions map. A key of 64 bytes or more does not fit the
  // buffer it is copied to.
  function ParseExtension(b: bytes, x: Extensions): (r: Option<(Extensions, bytes)>)
    ensures r.Some? ==> |r.value.1| < |b|
  {
    var k := ReadString(TEXT, b);
    if k.None? || |k.value.0| >= 64 then None else ParseExtensionValue(Cut(k.value.0), k.value.1, x)
  }

  function ParseExtensions(b: bytes, x: Extensions): (r: Option<(Extensions, bytes)>)
    ensures r.Some? ==> |r.value.1| < |b|
    decreases |b|
  {
    if b == [] then None
    else if b[0] == BREAK then Some((x, b[1..]))
    else
      var f := ParseExtension(b, x);
      if f.None? then None else ParseExtensions(f.value.1, f.value.0)
  }

  function ParseOption(b: bytes, rk: Option<bool>): (r: Option<(Option<bool>, bytes)>)
    ensures r.Some? ==> |r.value.1| < |b|
  {
    var k := ReadString(TEXT, b);
    if k.None? || |k.value.0| >= 64 then None
    else if Cut(k.value.0) == KEY_RK then
      var v := ReadBool(k.value.1);
      if v.None? then None else Some((Some(v.value.0), v.value.1))
    else
      var v := Skip(k.value.1);
      if v.None? then None else Some((rk, v.value))
  }

  function ParseOptions(b: bytes, rk: Option<bool>): (r: Option<(Option<bool>, bytes)>)
    ensures r.Some? ==> |r.value.1| < |b|
    decreases |b|
  {
    if b == [] then None
    else if b[0] == BREAK then Some((rk, b[1..]))
    else
      var f := ParseOption(b, rk);
      if f.None? then None else ParseOptions(f.value.1, f.value.0)
  }

  function ParseExtensionsMap(b: bytes, x: Extensions): (r: Option<(Extensions, bytes)>)
    ensures r.Some? ==> |r.value.1| < |b|
  {
    if b == [] || b[0] != MAP_START then None else ParseExtensions(b[1..], x)
  }

  function ParseOptionsMap(b: bytes, rk: Option<bool>): (r: Option<(Option<bool>, bytes)>)
    ensures r.Some? ==> |r.value.1| < |b|
  {
    if b == [] || b[0] != MAP_START then None else ParseOptions(b[1..], rk)
  }

  // The value of the member with this key.
  function ParseValue(key: nat, b: bytes, c: Credential): (r: Option<(Credential, bytes)>)
    ensures r.Some? ==> |r.value.1| < |b|
  {
    if key == 1 then
      var v := ReadString(TEXT, b);
      if v.None? then None else Some((c.(rpId := Some(v.value.0)), v.value.1))
    else if key == 3 then
      var v := ReadString(BYTES, b);
      if v.None? then None else Some((c.(userId := Some(v.value.0)), v.value.1))
    else if key == 4 then
      var v := ReadString(TEXT, b);
      if v.None? then None else Some((c.(userName := Some(v.value.0)), v.value.1))
    else if key == 5 then
      var v := ReadString(TEXT, b);
      if v.None? then None else Some((c.(userDisplayName := Some(v.value.0)), v.value.1))
    else if key == 6 then
      var v := ReadUint(b);
      if v.None? then None else Some((c.(creation := v.value.0), v.value.1))
    else if key == 7 then
      var v := ParseExtensionsMap(b, if c.extensions.Some? then c.extensions.value else NO_EXTENSIONS);
      if v.None? then None else Some((c.(extensions := Some(v.value.0)), v.value.1))
    else if key == 8 then
      var v := ReadBool(b);
      if v.None? then None else Some((c.(useSignCount := Some(v.value.0)), v.value.1))
    else if key == 9 then
      var v := ReadInt(b);
      if v.None? then None else Some((c.(alg := v.value.0), v.value.1))
    else if key == 10 then
      var v := ReadInt(b);
      if v.None? then None else Some((c.(curve := v.value.0), v.value.1))
    else if key == 11 then
      var v := ParseOptionsMap(b, if c.options.Some? then c.options.value else None);
      if v.None? then None else Some((c.(options := Some(v.value.0)), v.value.1))
    else
      var v := Skip(b);
      if v.None? then None else Some((c, v.value))
  }

  function ParseMember(b: bytes, c: Credential): (r: Option<(Credential, bytes)>)
    ensures r.Some? ==> |r.value.1| < |b|
  {
    var k := ReadUint(b);
    if k.None? then None else ParseValue(k.value.0, k.value.1, c)
  }

  // The members up to the end of the map; what follows the map is not looked at.
  function ParseMembers(b: bytes, c: Credential): Option<Credential>
    decreases |b|
  {
    if b == [] then None
    else if b[0] == BREAK then Some(c)
    else
      var f := ParseMember(b, c);
      if f.None? then None else ParseMembers(f.value.1, f.value.0)
  }

  function Parse(b: bytes): Option<Credential> {
    if b == [] || b[0] != MAP_START then None else ParseMembers(b[1..], NO_CREDENTIAL)
  }

  // ---------- the normal form a round trip ends in ----------

  function KeptText(s: Option<bytes>): Option<bytes> {
    if s.Some? && s.value != [] then Some(Cut(s.value)) else None
  }

  function KeptBytes(s: Option<bytes>): Option<bytes> {
    if s == Some([]) then None else s
  }

  function OnlyTrue(b: Option<bool>): Option<bool> {
    if IsTrue(b) then b else None
  }

  function KeptExtensions(x: Extensions): Extensions {
    Extensions(if BlobKept(x.credBlob) then x.credBlob else None, x.credProtect, x.hmacSecret,
               OnlyTrue(x.largeBlobKey), OnlyTrue(x.thirdPartyPayment))
  }

  function NormalForm(c: Credential): Credential {
    Credential(KeptText(c.rpId), KeptBytes(c.userId), KeptText(c.userName), KeptText(c.userDisplayName), c.creation,
               if c.extensions.Some? then Some(KeptExtensions(c.extensions.value)) else None,
               Some(IsTrue(c.useSignCount)), c.alg, c.curve, c.options)
  }

  // The numbers fit the 64-bit words they are held in.
  predicate InRange(c: Credential) {
    && c.creation < WORD && -WORD <= c.alg < WORD && -WORD <= c.curve < WORD
    && (c.extensions.Some? ==> c.extensions.value.credProtect < WORD)
  }

  // Each string that is written can be measured by one, as it can when the map fits a buffer.
  predicate Encodable(c: Credential) {
    && InRange(c)
    && |Cut(Contents(c.rpId))| < WORD && |Contents(c.userId)| < WORD
    && |Cut(Contents(c.userName))| < WORD && |Cut(Contents(c.userDisplayName))| < WORD
  }

  lemma PrintedIsEncodable(c: Credential, rpHash: bytes)
    requires InRange(c) && |Print(c, rpHash)| < WORD
    ensures Encodable(c) && |rpHash| < WORD
  {
    assert |PutText(1, c.rpId)| >= |Cut(Contents(c.rpId))|;
    assert |PutBytes(3, c.userId)| >= |Contents(c.userId)|;
    assert |PutText(4, c.userName)| >= |Cut(Contents(c.userName))|;
    assert |PutText(5, c.userDisplayName)| >= |Cut(Contents(c.userDisplayName))|;
  }

  // ---------- one member at a time ----------

  // A member written before b is read first.
  lemma MemberFirst(key: nat, v: bytes, b: bytes, c: Credential, d: Credential)
    requires key < WORD && ParseValue(key, v + b, c) == Some((d, b))
    ensures ParseMembers(Uint(key) + v + b, c) == ParseMembers(b, d)
  {
    var m := Uint(key) + v + b;
    assert m == Uint(key) + (v + b);
    UintRoundTrip(key, v + b);
    HeadIsNoBreak(UINT, key);
    assert m[0] == Uint(key)[0];
  }

  lemma TextMember(key: nat, s: Option<bytes>, b: bytes, c: Credential, d: Credential)
    requires |Cut(Contents(s))| < WORD && (key == 1 || key == 4 || key == 5)
    requires d == if KeptText(s).None? then c
                  else if key == 1 then c.(rpId := KeptText(s))
                  else if key == 4 then c.(userName := KeptText(s))
                  else c.(userDisplayName := KeptText(s))
    ensures ParseMembers(PutText(key, s) + b, c) == ParseMembers(b, d)
  {
    if KeptText(s).None? {
      assert PutText(key, s) + b == b;
    } else {
      StringRoundTrip(TEXT, Cut(s.value), b);
      MemberFirst(key, String(TEXT, Cut(s.value)), b, c, d);
    }
  }

  lemma UserMember(s: Option<bytes>, b: bytes, c: Credential)
    requires |Contents(s)| < WORD && c.userId.None?
    ensures ParseMembers(PutBytes(3, s) + b, c) == ParseMembers(b, c.(userId := KeptBytes(s)))
  {
    if s.None? || s.value == [] {
      assert PutBytes(3, s) + b == b;
    } else {
      StringRoundTrip(BYTES, s.value, b);
      MemberFirst(3, String(BYTES, s.value), b, c, c.(userId := s));
    }
  }

  lemma RpHashMember(h: bytes, b: bytes, c: Credential)
    requires |h| < WORD
    ensures ParseMembers(Uint(2) + String(BYTES, h) + b, c) == ParseMembers(b, c)
  {
    StringRoundTrip(BYTES, h, b);
    MemberFirst(2, String(BYTES, h), b, c, c);
  }

  // ---------- the extensions map ----------

  lemma {:induction false} CutKeepsAll(s: bytes)
    requires 0 !in s
    ensures Cut(s) == s
  {
    if s != [] {
      CutKeepsAll(s[1..]);
    }
  }

  lemma KeyReads(key: bytes, rest: bytes)
    requires |key| < 64 && 0 !in key
    ensures ReadString(TEXT, String(TEXT, key) + rest) == Some((key, rest)) && Cut(key) == key
    ensures (String(TEXT, key) + rest)[0] != BREAK
  {
    StringRoundTrip(TEXT, key, rest);
    CutKeepsAll(key);
    HeadIsNoBreak(TEXT, |key|);
    assert (String(TEXT, key) + rest)[0] == Head(TEXT, |key|)[0];
  }

  // An entry written before b is read first.
  lemma ExtensionFirst(key: bytes, v: bytes, b: bytes, x: Extensions, y: Extensions)
    requires |key| < 64 && 0 !in key && ParseExtensionValue(key, v + b, x) == Some((y, b))
    ensures ParseExtensions(String(TEXT, key) + v + b, x) == ParseExtensions(b, y)
  {
    KeyReads(key, v + b);
    assert String(TEXT, key) + v + b == String(TEXT, key) + (v + b);
  }

  lemma BlobEntry(blob: Option<bytes>, b: bytes, x: Extensions, y: Extensions)
    requires y == if BlobKept(blob) then x.(credBlob := blob) else x
    ensures ParseExtensions(PutBlob(blob) + b, x) == ParseExtensions(b, y)
  {
    if BlobKept(blob) {
      var v := String(BYTES, blob.value);
      StringRoundTrip(BYTES, blob.value, b);
      assert ParseExtensionValue(KEY_CRED_BLOB, v + b, x) == Some((y, b));
      ExtensionFirst(KEY_CRED_BLOB, v, b, x, y);
    } else {
      assert [] + b == b;
    }
  }

  lemma ProtectEntry(n: nat, b: bytes, x: Extensions)
    requires n < WORD && x.credProtect == 0
    ensures ParseExtensions(PutProtect(n) + b, x) == ParseExtensions(b, x.(credProtect := n))
  {
    if n != 0 {
      var y := x.(credProtect := n);
      UintRoundTrip(n, b);
      assert KEY_CRED_PROTECT[0] != KEY_HMAC_SECRET[0];
      assert ParseExtensionValue(KEY_CRED_PROTECT, Uint(n) + b, x) == Some((y, b));
      ExtensionFirst(KEY_CRED_PROTECT, Uint(n), b, x, y);
    } else {
      assert [] + b == b;
    }
  }

  function Flagged(key: bytes, v: bool, x: Extensions): Extensions {
    if key == KEY_HMAC_SECRET then x.(hmacSecret := Some(v))
    else if key == KEY_LARGE_BLOB then x.(largeBlobKey := Some(v))
    else x.(thirdPartyPayment := Some(v))
  }

  // A flag that is left out leaves the value it would have set.
  lemma FlagEntry(key: bytes, present: bool, v: bool, b: bytes, x: Extensions)
    requires key == KEY_HMAC_SECRET || key == KEY_LARGE_BLOB || key == KEY_PAYMENT
    ensures ParseExtensions(PutFlag(key, present, v) + b, x) == ParseExtensions(b, if present then Flagged(key, v, x) else x)
  {
    if present {
      BoolRoundTrip(v, b);
      assert ParseExtensionValue(key, Bool(v) + b, x) == Some((Flagged(key, v, x), b));
      ExtensionFirst(key, Bool(v), b, x, Flagged(key, v, x));
    } else {
      assert PutFlag(key, present, v) + b == b;
    }
  }

  lemma FromLargeBlob(x: Extensions, b: bytes, y: Extensions)
    requires y.largeBlobKey.None? && y.thirdPartyPayment.None?
    ensures ParseExtensions(PutFromLargeBlob(x) + b, y)
            == Some((y.(largeBlobKey := OnlyTrue(x.largeBlobKey), thirdPartyPayment := OnlyTrue(x.thirdPartyPayment)), b))
  {
    var big, pay := IsTrue(x.largeBlobKey), IsTrue(x.thirdPartyPayment);
    var t := [BREAK] + b;
    var y1 := y.(largeBlobKey := OnlyTrue(x.largeBlobKey));
    assert t[1..] == b;
    FlagEntry(KEY_PAYMENT, pay, true, t, y1);
    FlagEntry(KEY_LARGE_BLOB, big, true, PutFlag(KEY_PAYMENT, pay, true) + t, y);
    assert PutFromLargeBlob(x) + b == PutFlag(KEY_LARGE_BLOB, big, true) + (PutFlag(KEY_PAYMENT, pay, true) + t);
  }

  lemma FromProtect(x: Extensions, b: bytes, y: Extensions)
    requires x.credProtect < WORD && y.credProtect == 0
    requires y.hmacSecret.None? && y.largeBlobKey.None? && y.thirdPartyPayment.None?
    ensures ParseExtensions(PutFromProtect(x) + b, y) == Some((KeptExtensions(x).(credBlob := y.credBlob), b))
  {
    var secret := IsTrue(x.hmacSecret);
    var hmac := PutFlag(KEY_HMAC_SECRET, x.hmacSecret.Some?, secret);
    var t := PutFromLargeBlob(x) + b;
    var y1 := y.(credProtect := x.credProtect);
    var y2 := y1.(hmacSecret := x.hmacSecret);
    assert PutFromProtect(x) + b == PutProtect(x.credProtect) + (hmac + t);
    ProtectEntry(x.credProtect, hmac + t, y);
    FlagEntry(KEY_HMAC_SECRET, x.hmacSecret.Some?, secret, t, y1);
    FromLargeBlob(x, b, y2);
  }

  lemma ExtensionsRoundTrip(x: Extensions, b: bytes)
    requires x.credProtect < WORD
    ensures ParseExtensions(PutExtensions(x) + b, NO_EXTENSIONS) == Some((KeptExtensions(x), b))
  {
    var y := NO_EXTENSIONS.(credBlob := KeptExtensions(x).credBlob);
    assert PutExtensions(x) + b == PutBlob(x.credBlob) + (PutFromProtect(x) + b);
    BlobEntry(x.credBlob, PutFromProtect(x) + b, NO_EXTENSIONS, y);
    FromProtect(x, b, y);
  }

  // ---------- the members from the extensions on ----------

  lemma RkEntry(v: bool, b: bytes)
    ensures ParseOptions(String(TEXT, KEY_RK) + (Bool(v) + b), None) == ParseOptions(b, Some(v))
  {
    KeyReads(KEY_RK, Bool(v) + b);
    BoolRoundTrip(v, b);
  }

  lemma OptionsEnd(rk: Option<bool>, b: bytes)
    ensures ParseOptions([BREAK] + b, rk) == Some((rk, b))
  {
    assert ([BREAK] + b)[1..] == b;
  }

  lemma OptionsText(v: bool, b: bytes)
    ensures PutOptions(Some(v)) + b == String(TEXT, KEY_RK) + (Bool(v) + ([BREAK] + b))
    ensures PutOptions(None) + b == [BREAK] + b
  {
  }

  lemma OptionsRoundTrip(rk: Option<bool>, b: bytes)
    ensures ParseOptions(PutOptions(rk) + b, None) == Some((rk, b))
  {
    OptionsText(IsTrue(rk), b);
    OptionsEnd(rk, b);
    if rk.Some? { RkEntry(rk.value, [BREAK] + b); }
  }

  lemma OptionsValue(all: bytes, rk: Option<bool>, c: Credential, b: bytes)
    requires c.options.None? && ParseOptionsMap(all, None) == Some((rk, b))
    ensures ParseValue(11, all, c) == Some((c.(options := Some(rk)), b))
  {
  }

  lemma OptionsMember(options: Option<Option<bool>>, c: Credential, b: bytes)
    requires c.options.None?
    ensures ParseMembers(PutOptionsMember(options) + b, c) == ParseMembers(b, c.(options := options))
  {
    if options.Some? {
      var v := [MAP_START] + PutOptions(options.value);
      OptionsRoundTrip(options.value, b);
      assert (v + b)[1..] == PutOptions(options.value) + b;
      OptionsValue(v + b, options.value, c, b);
      MemberFirst(11, v, b, c, c.(options := options));
    } else {
      assert [] + b == b;
    }
  }

  function KeptMaybe(x: Option<Extensions>): Option<Extensions> {
    if x.Some? then Some(KeptExtensions(x.value)) else None
  }

  lemma AfterMapStart(body: bytes, b: bytes)
    ensures ([MAP_START] + body + b)[0] == MAP_START && ([MAP_START] + body + b)[1..] == body + b
  {
  }

  lemma MapValue(all: bytes, x: Extensions, c: Credential, b: bytes)
    requires c.extensions.None? && ParseExtensionsMap(all, NO_EXTENSIONS) == Some((x, b))
    ensures ParseValue(7, all, c) == Some((c.(extensions := Some(x)), b))
  {
  }

  lemma ExtensionsValue(body: bytes, x: Extensions, c: Credential, b: bytes)
    requires c.extensions.None? && ParseExtensions(body + b, NO_EXTENSIONS) == Some((x, b))
    ensures ParseValue(7, [MAP_START] + body + b, c) == Some((c.(extensions := Some(x)), b))
  {
    AfterMapStart(body, b);
    MapValue([MAP_START] + body + b, x, c, b);
  }

  lemma ExtensionsMember(x: Option<Extensions>, c: Credential, b: bytes)
    requires c.extensions.None? && (x.Some? ==> x.value.credProtect < WORD)
    ensures ParseMembers(PutExtensionsMember(x) + b, c) == ParseMembers(b, c.(extensions := KeptMaybe(x)))
  {
    if x.Some? {
      ExtensionsRoundTrip(x.value, b);
      var body, d := PutExtensions(x.value), c.(extensions := KeptMaybe(x));
      ExtensionsValue(body, KeptExtensions(x.value), c, b);
      MemberFirst(7, [MAP_START] + body, b, c, d);
    } else {
      assert [] + b == b;
    }
  }

  lemma AlgorithmMember(i: int, d: Credential, b: bytes)
    requires -WORD <= i < WORD
    ensures ParseMembers(Uint(9) + Int(i) + b, d) == ParseMembers(b, d.(alg := i))
  {
    IntRoundTrip(i, b);
    MemberFirst(9, Int(i), b, d, d.(alg := i));
  }

  lemma CurveMember(i: int, d: Credential, b: bytes)
    requires -WORD <= i < WORD
    ensures ParseMembers(Uint(10) + Int(i) + b, d) == ParseMembers(b, d.(curve := i))
  {
    IntRoundTrip(i, b);
    MemberFirst(10, Int(i), b, d, d.(curve := i));
  }

  lemma AlgorithmMembers(c: Credential, d: Credential, b: bytes)
    requires -WORD <= c.alg < WORD && -WORD <= c.curve < WORD && DefaultAlgorithm(d)
    ensures ParseMembers(PutAlgorithm(c) + b, d) == ParseMembers(b, d.(alg := c.alg, curve := c.curve))
  {
    if DefaultAlgorithm(c) {
      assert [] + b == b;
    } else {
      var first, second := Uint(9) + Int(c.alg), Uint(10) + Int(c.curve);
      AlgorithmMember(c.alg, d, second + b);
      CurveMember(c.curve, d.(alg := c.alg), b);
      Associate(first, second, b);
    }
  }

  lemma FromAlgorithm(c: Credential, d: Credential, after: bytes)
    requires Encodable(c) && d.options.None? && DefaultAlgorithm(d)
    ensures ParseMembers(PutFromAlgorithm(c) + after, d) == Some(d.(alg := c.alg, curve := c.curve, options := c.options))
  {
    var alg, opt, t := PutAlgorithm(c), PutOptionsMember(c.options), [BREAK] + after;
    AlgorithmMembers(c, d, opt + t);
    OptionsMember(c.options, d.(alg := c.alg, curve := c.curve), t);
    assert alg + (opt + [BREAK]) + after == alg + (opt + t);
  }

  lemma SignCountMember(v: bool, d: Credential, b: bytes)
    ensures ParseMembers(Uint(8) + Bool(v) + b, d) == ParseMembers(b, d.(useSignCount := Some(v)))
  {
    BoolRoundTrip(v, b);
    MemberFirst(8, Bool(v), b, d, d.(useSignCount := Some(v)));
  }

  lemma Regroup(a: bytes, b: bytes, c: bytes, after: bytes)
    ensures a + (b + c) + after == a + (b + (c + after))
  {
  }

  lemma FromExtensions(c: Credential, d: Credential, after: bytes)
    requires Encodable(c) && d.extensions.None? && d.options.None? && DefaultAlgorithm(d)
    ensures ParseMembers(PutFromExtensions(c) + after, d)
            == Some(d.(extensions := KeptMaybe(c.extensions), useSignCount := Some(IsTrue(c.useSignCount)),
                       alg := c.alg, curve := c.curve, options := c.options))
  {
    var ext, count, t := PutExtensionsMember(c.extensions), IsTrue(c.useSignCount), PutFromAlgorithm(c);
    var d1 := d.(extensions := KeptMaybe(c.extensions));
    Regroup(ext, Uint(8) + Bool(count), t, after);
    ExtensionsMember(c.extensions, d, Uint(8) + Bool(count) + (t + after));
    SignCountMember(count, d1, t + after);
    FromAlgorithm(c, d1.(useSignCount := Some(count)), after);
  }

  lemma CreationMember(n: nat, d: Credential, b: bytes)
    requires n < WORD && d.creation == 0
    ensures ParseMembers(Uint(6) + Uint(n) + b, d) == ParseMembers(b, d.(creation := n))
  {
    UintRoundTrip(n, b);
    MemberFirst(6, Uint(n), b, d, d.(creation := n));
  }

  lemma FromNames(c: Credential, d: Credential, after: bytes)
    requires Encodable(c) && d.userName.None? && d.userDisplayName.None? && d.creation == 0
    requires d.extensions.None? && d.options.None? && DefaultAlgorithm(d)
    ensures ParseMembers(PutFromNames(c) + after, d)
            == Some(NormalForm(c).(rpId := d.rpId, userId := d.userId))
  {
    var t2 := PutFromExtensions(c) + after;
    var t1 := Uint(6) + Uint(c.creation) + t2;
    var t0 := PutText(5, c.userDisplayName) + t1;
    var d1 := d.(userName := KeptText(c.userName));
    var d2 := d1.(userDisplayName := KeptText(c.userDisplayName));
    assert PutFromNames(c) + after == PutText(4, c.userName) + t0;
    TextMember(4, c.userName, t0, d, d1);
    TextMember(5, c.userDisplayName, t1, d1, d2);
    CreationMember(c.creation, d2, t2);
    FromExtensions(c, d2.(creation := c.creation), after);
  }

  lemma Members(a: bytes, b: bytes, c: bytes, d: bytes, after: bytes)
    ensures ([MAP_START] + (a + (b + (c + d))) + after)[1..] == a + (b + (c + (d + after)))
  {
    assert a + (b + (c + d)) + after == a + (b + (c + (d + after)));
    AfterMapStart(a + (b + (c + d)), after);
  }

  // The parser undoes the printer, up to the normal form and whatever follows the map.
  lemma PrintRoundTrip(c: Credential, rpHash: bytes, after: bytes)
    requires Encodable(c) && |rpHash| < WORD
    ensures Parse(Print(c, rpHash) + after) == Some(NormalForm(c))
  {
    var hash, t := Uint(2) + String(BYTES, rpHash), PutFromNames(c) + after;
    var c1 := NO_CREDENTIAL.(rpId := KeptText(c.rpId));
    TextMember(1, c.rpId, hash + (PutBytes(3, c.userId) + t), NO_CREDENTIAL, c1);
    RpHashMember(rpHash, PutBytes(3, c.userId) + t, c1);
    UserMember(c.userId, t, c1);
    FromNames(c, c1.(userId := KeptBytes(c.userId)), after);
    Members(PutText(1, c.rpId), hash, PutBytes(3, c.userId), PutFromNames(c), after);
  }

  // ---------- parsed credentials are in range ----------

  lemma {:induction false} ParsedExtensionsInRange(b: bytes, x: Extensions)
    requires x.credProtect < WORD
    ensures ParseExtensions(b, x).Some? ==> ParseExtensions(b, x).value.0.credProtect < WORD
    decreases |b|
  {
    if b != [] && b[0] != BREAK {
      var f := ParseExtension(b, x);
      if f.Some? {
        ParsedExtensionsInRange(f.value.1, f.value.0);
      }
    }
  }

  lemma ParsedValueInRange(key: nat, b: bytes, c: Credential)
    requires InRange(c)
    ensures ParseValue(key, b, c).Some? ==> InRange(ParseValue(key, b, c).value.0)
  {
    if key == 7 && b != [] && b[0] == MAP_START {
      ParsedExtensionsInRange(b[1..], if c.extensions.Some? then c.extensions.value else NO_EXTENSIONS);
    }
  }

  lemma {:induction false} ParsedMembersInRange(b: bytes, c: Credential)
    requires InRange(c)
    ensures ParseMembers(b, c).Some? ==> InRange(ParseMembers(b, c).value)
    decreases |b|
  {
    if b != [] && b[0] != BREAK {
      var k := ReadUint(b);
      if k.Some? {
        ParsedValueInRange(k.value.0, k.value.1, c);
        var f := ParseMember(b, c);
        if f.Some? {
          ParsedMembersInRange(f.value.1, f.value.0);
        }
      }
    }
  }
}
