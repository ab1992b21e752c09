// Sealing a printed credential into a credential id and loading it back, in the buffers the
// firmware uses (src/fido/credential.c), and the resident store on top of it.
module CredentialSeal {
  import opened Basics
  import opened Cbor
  import opened Credentials
  import opened CredentialId
  import CredentialSearch
  import opened CredentialStore

  const PROTO: bytes := [0xF1, 0xD0, 0x02, 0x02]
  const PROTO_LEN: nat := 4
  const IV_LEN: nat := 12
  const HEADER: nat := 16
  const TAG_LEN: nat := 16
  const HASH_LEN: nat := 32
  const KEY_HANDLE_LEN: nat := 64
  const MAX_CRED_ID_LENGTH: nat := 1024
  const ENCODER_LIMIT: nat := 992

  type bytes12 = b: bytes | |b| == 12 witness seq(12, _ => 0)

  // The foreign cryptography under one device key: ChaCha20-Poly1305 with the RP hash as
  // associated data (ciphertext followed by the tag), its key per format, the hash whose
  // first half is the silent tag, and the check of a U2F key handle.
  datatype Sealer = Sealer(
    sha256: bytes -> bytes32,
    key: bytes -> bytes32,
    seal: (bytes32, bytes, bytes32, bytes) -> bytes,
    open: (bytes32, bytes, bytes32, bytes) -> Option<bytes>,
    silent: (bytes32, bytes) -> bytes32,
    keyHandle: (bytes32, bytes) -> bool)

  ghost predicate SealerLaws(z: Sealer) {
    forall k: bytes32, iv: bytes, rp: bytes32, p: bytes ::
      |z.seal(k, iv, rp, p)| == |p| + TAG_LEN && z.open(k, iv, rp, z.seal(k, iv, rp, p)) == Some(p)
  }

  // Authenticity: what opens was sealed under that key and nonce, for that RP.
  ghost predicate Authentic(z: Sealer) {
    forall k: bytes32, iv: bytes, rp: bytes32, b: bytes ::
      z.open(k, iv, rp, b).Some? ==> b == z.seal(k, iv, rp, z.open(k, iv, rp, b).value)
  }

  // Such sealing exists, so nothing below holds vacuously.
  lemma SealerLawsCanHold() returns (z: Sealer)
    ensures SealerLaws(z) && Authentic(z)
  {
    z := Sealer(
      (data: bytes) => Zeros32(),
      (format: bytes) => Zeros32(),
      (key: bytes32, iv: bytes, rp: bytes32, p: bytes) => p + rp[..TAG_LEN],
      (key: bytes32, iv: bytes, rp: bytes32, b: bytes) =>
        if |b| >= TAG_LEN && b[|b| - TAG_LEN..] == rp[..TAG_LEN] then Some(b[..|b| - TAG_LEN]) else None,
      (rp: bytes32, b: bytes) => Zeros32(),
      (rp: bytes32, b: bytes) => false);
    forall k: bytes32, iv: bytes, rp: bytes32, p: bytes
      ensures |z.seal(k, iv, rp, p)| == |p| + TAG_LEN && z.open(k, iv, rp, z.seal(k, iv, rp, p)) == Some(p)
    {
      Parts(p, rp[..TAG_LEN]);
    }
  }

  function Sealed(z: Sealer, rp: bytes32, iv: bytes12, plain: bytes): bytes {
    var body := PROTO + iv + z.seal(z.key(PROTO), iv, rp, plain);
    body + z.silent(rp, body)[..TAG_LEN]
  }

  // The id of a credential. The length that is sealed is measured from the start of the
  // buffer, so the 16 bytes behind the printed map are sealed with it.
  function IdOf(z: Sealer, c: Credential, iv: bytes12, behind: bytes16): bytes {
    var rp := z.sha256(Contents(c.rpId));
    Sealed(z, rp, iv, Print(c, rp) + behind)
  }

  function PrintedLength(z: Sealer, c: Credential): nat {
    |Print(c, z.sha256(Contents(c.rpId)))|
  }

  // The last thing written is the whole hash whose first half is the silent tag: 80 bytes
  // more than the map, where the id is 64 bytes longer.
  predicate StaysInBuffer(z: Sealer, c: Credential) {
    PrintedLength(z, c) + 80 <= MAX_CRED_ID_LENGTH
  }

  datatype Creation = Created(id: bytes) | Refused | Overrun

  // credential_create: refused when the encoder runs out of its 992 bytes, and writing behind
  // the 1024-byte buffer when what the encoder lets through does not leave enough room.
  function CreateId(z: Sealer, c: Credential, iv: bytes12, behind: bytes16): Creation {
    if PrintedLength(z, c) > ENCODER_LIMIT then Refused
    else if !StaysInBuffer(z, c) then Overrun
    else Created(IdOf(z, c, iv, behind))
  }

  // credential_verify with decryption: the bytes handed to the parser, which in the current
  // format are followed by the tag.
  function Unseal(z: Sealer, id: bytes, rp: bytes32): Option<bytes> {
    if |id| < HEADER + TAG_LEN then None
    else
      var current := id[..PROTO_LEN] == PROTO;
      var end := if current then |id| - TAG_LEN else |id|;
      if end < HEADER + TAG_LEN then None
      else
        match z.open(z.key(id[..PROTO_LEN]), id[PROTO_LEN..HEADER], rp, id[HEADER..end])
        case None => None
        case Some(p) => Some(if current then p + id[end - TAG_LEN..end] else p)
  }

  // What a U2F key handle loads as: a zeroed credential.
  const U2F_CREDENTIAL := Credential(None, None, None, None, 0, None, None, 0, 0, None)

  // credential_load
  function LoadId(z: Sealer, id: bytes, rp: bytes32): Option<Credential> {
    var b := Unseal(z, id, rp);
    if b.Some? then Parse(b.value)
    else if |id| == KEY_HANDLE_LEN && z.keyHandle(rp, id) then Some(U2F_CREDENTIAL)
    else None
  }

  // credential_verify in silent mode: only the current format has the tag.
  predicate SilentlyAccepted(z: Sealer, id: bytes, rp: bytes32) {
    && |id| >= HEADER + TAG_LEN && id[..PROTO_LEN] == PROTO
    && id[|id| - TAG_LEN..] == z.silent(rp, id[..|id| - TAG_LEN])[..TAG_LEN]
  }

  lemma UnsealSealed(z: Sealer, rp: bytes32, iv: bytes12, plain: bytes)
    requires SealerLaws(z)
    ensures var id := Sealed(z, rp, iv, plain);
            && |id| == |plain| + HEADER + 2 * TAG_LEN
            && SilentlyAccepted(z, id, rp)
            && Unseal(z, id, rp).Some? && plain <= Unseal(z, id, rp).value
  {
    var sealed := z.seal(z.key(PROTO), iv, rp, plain);
    var body := PROTO + iv + sealed;
    var id := Sealed(z, rp, iv, plain);
    assert id[..PROTO_LEN] == PROTO && id[PROTO_LEN..HEADER] == iv;
    assert id[..|id| - TAG_LEN] == body && id[|id| - TAG_LEN..] == z.silent(rp, body)[..TAG_LEN];
    assert id[HEADER..|id| - TAG_LEN] == sealed;
  }

  lemma IdRoundTrip(z: Sealer, c: Credential, iv: bytes12, behind: bytes16)
    requires SealerLaws(z) && InRange(c) && PrintedLength(z, c) <= ENCODER_LIMIT
    ensures var id, rp := IdOf(z, c, iv, behind), z.sha256(Contents(c.rpId));
            LoadId(z, id, rp) == Some(NormalForm(c)) && SilentlyAccepted(z, id, rp)
  {
    var rp := z.sha256(Contents(c.rpId));
    var map_ := Print(c, rp);
    UnsealSealed(z, rp, iv, map_ + behind);
    var b := Unseal(z, IdOf(z, c, iv, behind), rp).value;
    assert b[..|map_|] == map_ by { assert b[..|map_| + 16] == map_ + behind; }
    assert b == map_ + b[|map_|..];
    PrintedIsEncodable(c, rp);
    PrintRoundTrip(c, rp, b[|map_|..]);
  }

  // For every credential that is created inside the buffer, whatever lay behind the map,
  // loading its id under the same RP and device key gives back the normal form, and the
  // silent check accepts it.
  lemma CredentialIdRoundTrip(z: Sealer, c: Credential, iv: bytes12, behind: bytes16)
    requires SealerLaws(z) && InRange(c) && CreateId(z, c, iv, behind).Created?
    ensures var id, rp := CreateId(z, c, iv, behind).id, z.sha256(Contents(c.rpId));
            LoadId(z, id, rp) == Some(NormalForm(c)) && SilentlyAccepted(z, id, rp)
  {
    IdRoundTrip(z, c, iv, behind);
  }

  // An id of the current format over this text: the mark F1 D0 02 02, the nonce, the sealed
  // text, and any 16 bytes in the place of the silent tag.
  ghost predicate IsCurrentId(z: Sealer, id: bytes, rp: bytes32, iv: bytes12, plain: bytes, last: bytes16) {
    var mark: bytes := [0xF1, 0xD0, 0x02, 0x02];
    id == mark + iv + z.seal(z.key(mark), iv, rp, plain) + last
  }

  // An id of the older format: any other four bytes, the nonce, and the text sealed under the
  // key of these four bytes; no silent tag.
  ghost predicate IsOlderId(z: Sealer, id: bytes, rp: bytes32, format: bytes, iv: bytes12, plain: bytes) {
    && |format| == 4 && format != [0xF1, 0xD0, 0x02, 0x02]
    && id == format + iv + z.seal(z.key(format), iv, rp, plain)
  }

  // What the parser is given for an id that was sealed for the RP: its text, which in the
  // current format is followed by the authentication tag.
  ghost predicate SealedFor(z: Sealer, id: bytes, rp: bytes32, text: bytes) {
    || (exists iv: bytes12, plain: bytes, last: bytes16 ::
          IsCurrentId(z, id, rp, iv, plain, last) && text == plain + id[|id| - 32..|id| - 16])
    || exists format: bytes, iv: bytes12 :: IsOlderId(z, id, rp, format, iv, text)
  }

  ghost predicate NeverSealed(z: Sealer, id: bytes, rp: bytes32) {
    forall text: bytes :: !SealedFor(z, id, rp, text)
  }

  // What opens was sealed, and what was sealed opens, to the text given here.
  lemma UnsealIff(z: Sealer, id: bytes, rp: bytes32, text: bytes)
    requires SealerLaws(z) && Authentic(z)
    ensures Unseal(z, id, rp) == Some(text) <==> SealedFor(z, id, rp, text)
  {
    if Unseal(z, id, rp) == Some(text) {
      OpenedWasSealed(z, id, rp, text);
    }
    if SealedFor(z, id, rp, text) {
      if iv: bytes12, plain: bytes, last: bytes16 :|
           IsCurrentId(z, id, rp, iv, plain, last) && text == plain + id[|id| - 32..|id| - 16] {
        CurrentIdOpens(z, id, rp, iv, plain, last);
      } else {
        var format: bytes, iv: bytes12 :| IsOlderId(z, id, rp, format, iv, text);
        OlderIdOpens(z, id, rp, format, iv, text);
      }
    }
  }

  lemma OpenedWasSealed(z: Sealer, id: bytes, rp: bytes32, text: bytes)
    requires Authentic(z) && SealerLaws(z) && Unseal(z, id, rp) == Some(text)
    ensures SealedFor(z, id, rp, text)
  {
    var format, iv: bytes12 := id[..PROTO_LEN], id[PROTO_LEN..HEADER];
    var end := if format == PROTO then |id| - TAG_LEN else |id|;
    var plain := z.open(z.key(format), iv, rp, id[HEADER..end]).value;
    assert id[HEADER..end] == z.seal(z.key(format), iv, rp, plain);
    if format == PROTO {
      assert IsCurrentId(z, id, rp, iv, plain, id[end..]);
    } else {
      assert IsOlderId(z, id, rp, format, iv, plain);
    }
  }

  lemma CurrentIdOpens(z: Sealer, id: bytes, rp: bytes32, iv: bytes12, plain: bytes, last: bytes16)
    requires SealerLaws(z) && IsCurrentId(z, id, rp, iv, plain, last)
    ensures |id| == |plain| + 48 && Unseal(z, id, rp) == Some(plain + id[|id| - 32..|id| - 16])
  {
    var sealed := z.seal(z.key(PROTO), iv, rp, plain);
    assert id[..PROTO_LEN] == PROTO && id[PROTO_LEN..HEADER] == iv && id[HEADER..|id| - TAG_LEN] == sealed;
  }

  lemma OlderIdOpens(z: Sealer, id: bytes, rp: bytes32, format: bytes, iv: bytes12, plain: bytes)
    requires SealerLaws(z) && IsOlderId(z, id, rp, format, iv, plain)
    ensures |id| == |plain| + 32 && Unseal(z, id, rp) == Some(plain)
  {
    assert id[..PROTO_LEN] == format && id[PROTO_LEN..HEADER] == iv;
    assert id[HEADER..|id|] == z.seal(z.key(format), iv, rp, plain);
  }

  // Which ids load for an RP, and as what: those sealed for that RP whose text parses, as the
  // credential parsed, and those never sealed for it that are key handles of 64 bytes, as a
  // credential without members. No other id loads.
  lemma LoadsIff(z: Sealer, id: bytes, rp: bytes32, c: Credential)
    requires SealerLaws(z) && Authentic(z)
    ensures LoadId(z, id, rp) == Some(c) <==>
            || (exists text: bytes :: SealedFor(z, id, rp, text) && Parse(text) == Some(c))
            || (NeverSealed(z, id, rp) && |id| == 64 && z.keyHandle(rp, id)
                && c == Credential(None, None, None, None, 0, None, None, 0, 0, None))
  {
    var b := Unseal(z, id, rp);
    if b.Some? {
      UnsealIff(z, id, rp, b.value);
    }
    forall text: bytes
      ensures SealedFor(z, id, rp, text) <==> b == Some(text)
    {
      UnsealIff(z, id, rp, text);
    }
  }

  // So an id of the older format over a printed credential loads as its normal form.
  lemma OlderIdLoads(z: Sealer, id: bytes, rp: bytes32, format: bytes, iv: bytes12, c: Credential)
    requires SealerLaws(z) && InRange(c) && |Print(c, rp)| < WORD
    requires IsOlderId(z, id, rp, format, iv, Print(c, rp))
    ensures LoadId(z, id, rp) == Some(NormalForm(c))
  {
    OlderIdOpens(z, id, rp, format, iv, Print(c, rp));
    Nothing(Print(c, rp));
    PrintedIsEncodable(c, rp);
    PrintRoundTrip(c, rp, []);
  }

  // The id of one RP loads for another only if some other text, sealed for that other RP
  // under the same key and nonce, gives the same bytes, tag included.
  lemma LoadsForItsRpOnly(z: Sealer, c: Credential, iv: bytes12, behind: bytes16, rp: bytes32)
    requires SealerLaws(z) && Authentic(z) && CreateId(z, c, iv, behind).Created?
    requires LoadId(z, CreateId(z, c, iv, behind).id, rp).Some?
    ensures var own, key := z.sha256(Contents(c.rpId)), z.key([0xF1, 0xD0, 0x02, 0x02]);
            rp == own || exists plain: bytes :: z.seal(key, iv, rp, plain) == z.seal(key, iv, own, Print(c, own) + behind)
  {
    var id, own, key := CreateId(z, c, iv, behind).id, z.sha256(Contents(c.rpId)), z.key(PROTO);
    var sealed := z.seal(key, iv, own, Print(c, own) + behind);
    UnsealSealed(z, own, iv, Print(c, own) + behind);
    assert id[..PROTO_LEN] == PROTO && id[PROTO_LEN..HEADER] == iv && id[HEADER..|id| - TAG_LEN] == sealed;
    assert |id| > KEY_HANDLE_LEN;
    var plain := z.open(key, iv, rp, sealed).value;
    assert z.seal(key, iv, rp, plain) == sealed;
  }

  // The silent check accepts exactly the ids that start with the mark of the current format
  // and end with the first half of the hash over all that comes before.
  lemma SilentIff(z: Sealer, id: bytes, rp: bytes32)
    ensures SilentlyAccepted(z, id, rp) <==>
            exists body: bytes :: |body| >= 16 && body[..4] == [0xF1, 0xD0, 0x02, 0x02] && id == body + z.silent(rp, body)[..16]
  {
    if SilentlyAccepted(z, id, rp) {
      var body := id[..|id| - TAG_LEN];
      assert body[..4] == id[..4] && id == body + z.silent(rp, body)[..16];
    }
    if body: bytes :| |body| >= 16 && body[..4] == [0xF1, 0xD0, 0x02, 0x02] && id == body + z.silent(rp, body)[..16] {
      Parts(body, z.silent(rp, body)[..16]);
      assert id[..4] == body[..4];
    }
  }

  // What survives the trip unchanged: names without zero bytes, no empty string, a credBlob
  // below 128 bytes, flags that are only ever set, a sign-count choice.
  predicate PlainText(s: Option<bytes>) {
    s.Some? ==> s.value != [] && 0 !in s.value
  }

  predicate Faithful(c: Credential) {
    && PlainText(c.rpId) && c.userId != Some([]) && PlainText(c.userName) && PlainText(c.userDisplayName)
    && c.useSignCount.Some?
    && (c.extensions.Some? ==>
          var x := c.extensions.value;
          (x.credBlob.Some? ==> |x.credBlob.value| < MAX_CREDBLOB_LENGTH)
          && (x.largeBlobKey.Some? ==> x.largeBlobKey.value) && (x.thirdPartyPayment.Some? ==> x.thirdPartyPayment.value))
  }

  lemma {:induction false} CutUnchanged(s: bytes)
    ensures Cut(s) == s <==> 0 !in s
  {
    if s != [] {
      assert s == [s[0]] + s[1..];
      CutUnchanged(s[1..]);
      if s[0] != 0 && Cut(s) == s {
        assert Cut(s)[1..] == Cut(s[1..]);
      }
    }
  }

  lemma KeptTextUnchanged(s: Option<bytes>)
    ensures KeptText(s) == s <==> PlainText(s)
  {
    if s.Some? {
      CutUnchanged(s.value);
    }
  }

  // The round trip returns the credential itself exactly for these.
  lemma RoundTripIsIdentity(c: Credential)
    ensures NormalForm(c) == c <==> Faithful(c)
  {
    KeptTextUnchanged(c.rpId);
    KeptTextUnchanged(c.userName);
    KeptTextUnchanged(c.userDisplayName);
    if c.extensions.Some? {
      ExtensionsUnchanged(c.extensions.value);
    }
  }

  lemma ExtensionsUnchanged(x: Extensions)
    ensures KeptExtensions(x) == x <==>
            (x.credBlob.Some? ==> |x.credBlob.value| < MAX_CREDBLOB_LENGTH)
            && (x.largeBlobKey.Some? ==> x.largeBlobKey.value) && (x.thirdPartyPayment.Some? ==> x.thirdPartyPayment.value)
  {
  }

  // An id is 64 bytes longer than its map, so it has at most 1024 bytes exactly up to a map of
  // 960; what is written while making it has exactly up to 944. The encoder lets 992 through.
  lemma IdFits(z: Sealer, c: Credential, iv: bytes12, behind: bytes16)
    requires SealerLaws(z)
    ensures |IdOf(z, c, iv, behind)| == PrintedLength(z, c) + 64
    ensures |IdOf(z, c, iv, behind)| <= MAX_CRED_ID_LENGTH <==> PrintedLength(z, c) <= 960
    ensures |IdOf(z, c, iv, behind)| - TAG_LEN + HASH_LEN <= MAX_CRED_ID_LENGTH <==> PrintedLength(z, c) <= 944
    ensures CreateId(z, c, iv, behind).Created? <==> PrintedLength(z, c) <= 944
    ensures CreateId(z, c, iv, behind).Refused? <==> PrintedLength(z, c) > 992
  {
    var rp := z.sha256(Contents(c.rpId));
    UnsealSealed(z, rp, iv, Print(c, rp) + behind);
  }

  lemma LongStringHead(n: nat)
    requires 256 <= n < 0x1_0000
    ensures |Head(TEXT, n)| == 3
  {
    PowerValues();
  }

  // A credential with an RP id of 925 characters and little else prints to 970 bytes: the
  // encoder accepts it, and its id of 1034 bytes does not fit the buffer.
  lemma LongRpIdOverruns(z: Sealer, c: Credential, iv: bytes12, behind: bytes16)
    requires SealerLaws(z) && c == NO_CREDENTIAL.(rpId := Some(seq(925, _ => 0x61)))
    ensures InRange(c) && PrintedLength(z, c) == 970
    ensures CreateId(z, c, iv, behind) == Overrun && |IdOf(z, c, iv, behind)| == 1034
  {
    var rp := z.sha256(Contents(c.rpId));
    var name: bytes := c.rpId.value;
    CutUnchanged(name);
    LongStringHead(925);
    assert |PutText(1, c.rpId)| == 929;
    IdFits(z, c, iv, behind);
  }

  // ---------- loading, with the source's loops ----------

  method LoadExtensions(b: bytes, x: Extensions) returns (r: Option<(Extensions, bytes)>)
    ensures r == ParseExtensions(b, x)
  {
    var rest, acc := b, x;
    while rest != [] && rest[0] != BREAK
      invariant ParseExtensions(rest, acc) == ParseExtensions(b, x)
      decreases |rest|
    {
      var f := ParseExtension(rest, acc);
      if f.None? { return None; }
      acc, rest := f.value.0, f.value.1;
    }
    if rest == [] { return None; }
    return Some((acc, rest[1..]));
  }

  method LoadMembers(b: bytes, c: Credential) returns (r: Option<Credential>)
    ensures r == ParseMembers(b, c)
  {
    var rest, acc := b, c;
    while rest != [] && rest[0] != BREAK
      invariant ParseMembers(rest, acc) == ParseMembers(b, c)
      decreases |rest|
    {
      var k := ReadUint(rest);
      if k.None? { return None; }
      var f: Option<(Credential, bytes)>;
      if k.value.0 == 7 && k.value.1 != [] && k.value.1[0] == MAP_START {
        var x := LoadExtensions(k.value.1[1..], if acc.extensions.Some? then acc.extensions.value else NO_EXTENSIONS);
        f := if x.None? then None else Some((acc.(extensions := Some(x.value.0)), x.value.1));
      } else {
        f := ParseValue(k.value.0, k.value.1, acc);
      }
      if f.None? { return None; }
      acc, rest := f.value.0, f.value.1;
    }
    if rest == [] { return None; }
    return Some(acc);
  }

  // credential_load: decrypt in a copy of the id, then parse what follows its 16-byte header;
  // an id that does not decrypt may be a U2F key handle.
  method Load(z: Sealer, id: bytes, rp: bytes32) returns (r: Option<Credential>)
    ensures r == LoadId(z, id, rp)
  {
    var b := Unseal(z, id, rp);
    if b.None? {
      if |id| != KEY_HANDLE_LEN || !z.keyHandle(rp, id) { return None; }
      return Some(U2F_CREDENTIAL);
    }
    if b.value == [] || b.value[0] != MAP_START { return None; }
    r := LoadMembers(b.value[1..], NO_CREDENTIAL);
  }

  // ---------- creating, in the caller's buffer ----------

  // Appends a chunk at pos unless that passes limit.
  method Put(buffer: array<byte>, pos: nat, limit: nat, chunk: bytes) returns (end: nat, ok: bool)
    requires pos <= limit <= buffer.Length
    modifies buffer
    ensures ok == (pos + |chunk| <= limit) && (ok ==> end == pos + |chunk|) && (!ok ==> end == pos)
    ensures ok ==> buffer[pos..end] == chunk && buffer[end..] == old(buffer[pos + |chunk|..])
    ensures buffer[..pos] == old(buffer[..pos])
  {
    if pos + |chunk| > limit { return pos, false; }
    var i := 0;
    while i < |chunk|
      invariant i <= |chunk| && buffer[pos..pos + i] == chunk[..i]
      invariant buffer[..pos] == old(buffer[..pos]) && buffer[pos + i..] == old(buffer[pos + i..])
    {
      buffer[pos + i] := chunk[i];
      i := i + 1;
    }
    return pos + |chunk|, true;
  }

  // Appends a list of chunks; the bytes written are their concatenation, and it fails exactly
  // when that does not fit.
  method PutAll(buffer: array<byte>, pos: nat, limit: nat, chunks: seq<bytes>) returns (end: nat, ok: bool)
    requires pos <= limit <= buffer.Length
    modifies buffer
    ensures ok == (pos + |Joined(chunks)| <= limit)
    ensures ok ==> end == pos + |Joined(chunks)| && buffer[pos..end] == Joined(chunks)
    ensures ok ==> buffer[end..] == old(buffer[pos + |Joined(chunks)|..])
    ensures buffer[..pos] == old(buffer[..pos])
  {
    end, ok := pos, true;
    var i := 0;
    while i < |chunks|
      invariant i <= |chunks| && pos <= end <= limit
      invariant buffer[pos..end] + Joined(chunks[i..]) == Joined(chunks)
      invariant buffer[..pos] == old(buffer[..pos]) && buffer[end..] == old(buffer[..])[end..]
    {
      ghost var before := buffer[pos..end];
      ghost var start := end;
      JoinedFirst(chunks, i);
      assert Joined(chunks) == before + chunks[i] + Joined(chunks[i + 1..]);
      end, ok := Put(buffer, end, limit, chunks[i]);
      if !ok { return; }
      assert buffer[pos..start] == before by {
        assert buffer[..start][pos..] == buffer[pos..start];
      }
      assert buffer[pos..end] == before + chunks[i];
      i := i + 1;
    }
    assert Joined(chunks[i..]) == [];
  }

  function Joined(chunks: seq<bytes>): bytes {
    if chunks == [] then [] else chunks[0] + Joined(chunks[1..])
  }

  lemma JoinedFirst(chunks: seq<bytes>, i: nat)
    requires i < |chunks|
    ensures Joined(chunks[i..]) == chunks[i] + Joined(chunks[i + 1..])
  {
    assert chunks[i..][1..] == chunks[i + 1..];
  }

  // The 16 bytes behind a map of n bytes in a buffer that had this content before.
  function Behind(buffer: bytes, n: nat): bytes16
    requires HEADER + n + 16 <= |buffer|
  {
    buffer[HEADER + n..HEADER + n + 16]
  }

  lemma StillBehind(was: bytes, now: bytes, start: nat, end: nat)
    requires start <= end && end + 16 <= |now| == |was| && now[end..] == was[end..]
    ensures now[start..end + 16] == now[start..end] + was[end..end + 16]
  {
    assert now[end..end + 16] == now[end..][..16] == was[end..][..16] == was[end..end + 16];
  }

  // The encoder calls, and what they leave behind the map.
  method PrintInto(z: Sealer, c: Credential, buffer: array<byte>) returns (end: nat, ok: bool)
    requires buffer.Length == MAX_CRED_ID_LENGTH
    modifies buffer
    ensures ok == (PrintedLength(z, c) <= ENCODER_LIMIT)
    ensures ok ==> end == HEADER + PrintedLength(z, c)
                   && buffer[HEADER..end + 16] == Print(c, z.sha256(Contents(c.rpId))) + Behind(old(buffer[..]), PrintedLength(z, c))
  {
    var rp := z.sha256(Contents(c.rpId));
    var chunks := Chunks(c, rp);
    ChunksPrint(c, rp);
    ghost var was := buffer[..];
    end, ok := PutAll(buffer, HEADER, HEADER + ENCODER_LIMIT, chunks);
    if ok {
      StillBehind(was, buffer[..], HEADER, end);
      assert buffer[HEADER..end] == buffer[..][HEADER..end] && buffer[HEADER..end + 16] == buffer[..][HEADER..end + 16];
    }
  }

  // credential_create in the caller's 1024-byte buffer: print behind the header, seal in
  // place, then write the header and the silent tag. None is a refusal; a map that would make
  // it write behind the buffer is reported as such and not written.
  method Create(z: Sealer, c: Credential, iv: bytes12, buffer: array<byte>) returns (r: Option<nat>, overrun: bool)
    requires SealerLaws(z) && buffer.Length == MAX_CRED_ID_LENGTH
    modifies buffer
    ensures var n := PrintedLength(z, c);
            && (r.None? && !overrun <==> n > ENCODER_LIMIT)
            && (overrun <==> n <= ENCODER_LIMIT && !StaysInBuffer(z, c))
            && (r.Some? ==> r.value <= buffer.Length
                            && CreateId(z, c, iv, Behind(old(buffer[..]), n)) == Created(buffer[..r.value]))
  {
    var end, ok := PrintInto(z, c, buffer);
    if !ok { return None, false; }
    if end - HEADER + 80 > buffer.Length { return None, true; }
    var len := SealInPlace(z, z.sha256(Contents(c.rpId)), iv, buffer, end);
    return Some(len), false;
  }

  // rs is measured from the start of the buffer and not of the map: 16 bytes more are sealed.
  // Then the header goes in front and the hash behind, of which half belongs to the id.
  method SealInPlace(z: Sealer, rp: bytes32, iv: bytes12, buffer: array<byte>, end: nat) returns (len: nat)
    requires SealerLaws(z) && HEADER <= end && end - HEADER + 80 <= buffer.Length
    modifies buffer
    ensures len <= buffer.Length && buffer[..len] == Sealed(z, rp, iv, old(buffer[HEADER..end + 16]))
  {
    var rs := end;
    var sealed := z.seal(z.key(PROTO), iv, rp, buffer[HEADER..HEADER + rs]);
    var body := PROTO + iv + sealed;
    var top, ok := Put(buffer, 0, buffer.Length, body);
    var last;
    last, ok := Put(buffer, top, buffer.Length, z.silent(rp, body));
    len := PROTO_LEN + IV_LEN + rs + 2 * TAG_LEN;
    assert buffer[..len] == buffer[..top] + buffer[top..last][..TAG_LEN];
  }

  // The encoder calls of credential_create, one chunk each.
  function Chunks(c: Credential, rp: bytes32): seq<bytes> {
    [[MAP_START], PutText(1, c.rpId), Uint(2) + String(BYTES, rp), PutBytes(3, c.userId), PutText(4, c.userName),
     PutText(5, c.userDisplayName), Uint(6) + Uint(c.creation), PutExtensionsMember(c.extensions),
     Uint(8) + Bool(IsTrue(c.useSignCount)), PutAlgorithm(c), PutOptionsMember(c.options), [BREAK]]
  }

  lemma ChunksPrint(c: Credential, rp: bytes32)
    ensures Joined(Chunks(c, rp)) == Print(c, rp)
  {
    var k := Chunks(c, rp);
    assert Joined(k[12..]) == [];
    JoinedFirst(k, 11);
    JoinedFirst(k, 10);
    JoinedFirst(k, 9);
    assert Joined(k[9..]) == PutFromAlgorithm(c);
    JoinedFirst(k, 8);
    JoinedFirst(k, 7);
    assert Joined(k[7..]) == PutFromExtensions(c);
    JoinedFirst(k, 6);
    JoinedFirst(k, 5);
    JoinedFirst(k, 4);
    assert Joined(k[4..]) == PutFromNames(c);
    JoinedFirst(k, 3);
    JoinedFirst(k, 2);
    JoinedFirst(k, 1);
    JoinedFirst(k, 0);
    assert k[0..] == k;
  }

  // ---------- the resident store over these ids ----------

  // What updateUserInformation passes on: the sign-count choice is handed over by address,
  // so any stored choice counts as "use it".
  function UpdateInput(c: Credential, stamp: Stamp): Credential {
    c.(creation := stamp.millis, useSignCount := Some(c.useSignCount.Some?))
  }

  function NonceOf(stamp: Stamp): bytes12 {
    (stamp.nonce + seq(IV_LEN, _ => 0))[..IV_LEN]
  }

  function BehindOf(stamp: Stamp): bytes16 {
    (stamp.behind + seq(16, _ => 0))[..16]
  }

  function StoreVault(z: Sealer, resident: bytes -> bytes42): Vault {
    Vault(z.sha256,
          (id: bytes, rp: bytes32) => LoadId(z, id, rp),
          resident,
          (c: Credential, stamp: Stamp) => Recreated(z, c, stamp))
  }

  // The id of an updated credential, where the buffer holds it.
  function Recreated(z: Sealer, c: Credential, stamp: Stamp): Option<bytes> {
    var r := CreateId(z, UpdateInput(c, stamp), NonceOf(stamp), BehindOf(stamp));
    if stamp.millis < WORD && r.Created? then Some(r.id) else None
  }

  lemma LoadedInRange(z: Sealer, id: bytes, rp: bytes32)
    requires LoadId(z, id, rp).Some?
    ensures InRange(LoadId(z, id, rp).value)
  {
    if Unseal(z, id, rp).Some? { ParsedMembersInRange(Unseal(z, id, rp).value[1..], NO_CREDENTIAL); }
  }

  // What an update makes of a stored credential: the new names, the new time, and everything
  // else as it was, except that the sign-count choice survives only if it was "use it".
  lemma UpdatedCredential(z: Sealer, resident: bytes -> bytes42, id: bytes, rp: bytes32, names: Names, stamp: Stamp)
    requires SealerLaws(z)
    requires var v := StoreVault(z, resident);
             BoundTo(v, id, rp) && v.create(Renamed(v.load(id, rp).value, names), stamp).Some?
    ensures var v := StoreVault(z, resident);
            var c, id' := v.load(id, rp).value, v.create(Renamed(v.load(id, rp).value, names), stamp).value;
            && BoundTo(v, id', rp)
            && var d := v.load(id', rp).value;
            && Contents(d.rpId) == Contents(c.rpId) && Contents(d.userId) == Contents(c.userId)
            && d.alg == c.alg && d.curve == c.curve && d.options == c.options && d.creation == stamp.millis
            && d.extensions == (if c.extensions.Some? then Some(KeptExtensions(c.extensions.value)) else None)
            && d.userName == KeptText(names.user) && d.userDisplayName == KeptText(names.display)
            && (d.useSignCount == c.useSignCount <==> c.useSignCount == Some(true))
  {
    var c := LoadId(z, id, rp).value;
    var input := UpdateInput(Renamed(c, names), stamp);
    LoadedInRange(z, id, rp);
    CredentialIdRoundTrip(z, input, NonceOf(stamp), BehindOf(stamp));
    CutKeepsAll(Contents(c.rpId));
  }

  // So the ids keep the store's promise of one credential per user.
  // A credential of the RP "a" that asked for no sign count.
  const NO_SIGN_COUNT := NO_CREDENTIAL.(rpId := Some([0x61]), useSignCount := Some(false))

  lemma NoSignCountPrints(z: Sealer, c: Credential)
    requires c == NO_SIGN_COUNT || c == NO_SIGN_COUNT.(useSignCount := Some(true))
    ensures InRange(c) && PrintedLength(z, c) <= 100
  {
    assert |PutText(1, c.rpId)| <= 10;
  }

  lemma NoSignCountCreated(z: Sealer, c: Credential, iv: bytes12, behind: bytes16)
    requires SealerLaws(z) && (c == NO_SIGN_COUNT || c == NO_SIGN_COUNT.(useSignCount := Some(true)))
    ensures CreateId(z, c, iv, behind).Created?
    ensures LoadId(z, CreateId(z, c, iv, behind).id, z.sha256([0x61])) == Some(NormalForm(c))
  {
    NoSignCountPrints(z, c);
    IdFits(z, c, iv, behind);
    CredentialIdRoundTrip(z, c, iv, behind);
  }

  // An update that gives it one.
  lemma SignCountAppears(z: Sealer, resident: bytes -> bytes42, iv: bytes12, behind: bytes16)
    requires SealerLaws(z)
    ensures var v, rp := StoreVault(z, resident), z.sha256([0x61]);
            var r := CreateId(z, NO_SIGN_COUNT, iv, behind);
            && r.Created? && v.load(r.id, rp).Some? && v.load(r.id, rp).value.useSignCount == Some(false)
            && var id' := v.create(Renamed(v.load(r.id, rp).value, Names(None, None)), Stamp(0, [], []));
            && id'.Some? && v.load(id'.value, rp).Some? && v.load(id'.value, rp).value.useSignCount == Some(true)
  {
    var stamp := Stamp(0, [], []);
    NoSignCountCreated(z, NO_SIGN_COUNT, iv, behind);
    NoSignCountNormal();
    NoSignCountCreated(z, NO_SIGN_COUNT.(useSignCount := Some(true)), NonceOf(stamp), BehindOf(stamp));
  }

  lemma NoSignCountNormal()
    ensures NormalForm(NO_SIGN_COUNT) == NO_SIGN_COUNT
    ensures NormalForm(NO_SIGN_COUNT.(useSignCount := Some(true))) == NO_SIGN_COUNT.(useSignCount := Some(true))
    ensures UpdateInput(Renamed(NO_SIGN_COUNT, Names(None, None)), Stamp(0, [], []))
            == NO_SIGN_COUNT.(useSignCount := Some(true))
  {
    CutUnchanged([0x61]);
  }

  lemma IdsRecreate(z: Sealer, resident: bytes -> bytes42)
    requires SealerLaws(z)
    ensures Recreates(StoreVault(z, resident))
  {
    var v := StoreVault(z, resident);
    forall id: bytes, rp: bytes32, names: Names, stamp: Stamp |
      BoundTo(v, id, rp) && v.create(Renamed(v.load(id, rp).value, names), stamp).Some?
      ensures var id' := v.create(Renamed(v.load(id, rp).value, names), stamp).value;
              BoundTo(v, id', rp) && Contents(v.load(id', rp).value.userId) == Contents(v.load(id, rp).value.userId)
    {
      UpdatedCredential(z, resident, id, rp, names, stamp);
    }
  }
  // credential_derive_resident: the start of the device's hash, the mark, and the id's hash.
  function ResidentOf(device: bytes32, hash: bytes32): bytes42 {
    device[..4] + CredentialSearch.RESIDENT_MARK + [0, 0] + hash
  }

  // Its bytes in order; the same device names two ids alike only if their hashes agree.
  lemma ResidentIdIs(device: bytes32, h: bytes32, g: bytes32)
    ensures var r := ResidentOf(device, h);
            && r[..4] == device[..4] && r[4..8] == [0xF1, 0xD0, 0x02, 0x03] && r[8..10] == [0, 0] && r[10..] == h
    ensures ResidentOf(device, h) == ResidentOf(device, g) <==> h == g
  {
    assert ResidentOf(device, h)[10..] == h && ResidentOf(device, g)[10..] == g;
  }

  // With resident ids made this way nothing ends the search through an allow list early.
  lemma IdsMark(z: Sealer, device: bytes32, hash: bytes -> bytes32)
    ensures CredentialSearch.Marks(StoreVault(z, (id: bytes) => ResidentOf(device, hash(id))))
  {
    forall id: bytes
      ensures CredentialSearch.IsResident(ResidentOf(device, hash(id)))
    {
      assert ResidentOf(device, hash(id))[4..8] == CredentialSearch.RESIDENT_MARK;
    }
  }
}
