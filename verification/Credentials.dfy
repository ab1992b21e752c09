// What a credential id decodes to.
module Credentials {
  import opened Basics

  // The extension data kept in a credential; hmacSecret, largeBlobKey and thirdPartyPayment
  // are the source's nullable references to a constant true or false.
  datatype Extensions = Extensions(
    credBlob: Option<bytes>,
    credProtect: nat,
    hmacSecret: Option<bool>,
    largeBlobKey: Option<bool>,
    thirdPartyPayment: Option<bool>)

  // A string or byte member that is absent is None; rk is Some when the options are present.
  datatype Credential = Credential(
    rpId: Option<bytes>,
    userId: Option<bytes>,
    userName: Option<bytes>,
    userDisplayName: Option<bytes>,
    creation: nat,
    extensions: Option<Extensions>,
    useSignCount: Option<bool>,
    alg: int,
    curve: int,
    options: Option<Option<bool>>)

  // What credential_create takes from outside: the clock, the random nonce, and the bytes its
  // buffer happens to hold behind the printed map.
  datatype Stamp = Stamp(millis: nat, nonce: bytes, behind: bytes)

  const ALG_ES256: int := -7
  const CURVE_P256: int := 1

  const PROTECT_OPTIONAL_WITH_LIST: nat := 2
  const PROTECT_REQUIRED: nat := 3

  // The bytes of a member; an absent one has none.
  function Contents(b: Option<bytes>): bytes {
    if b.Some? then b.value else []
  }
}
