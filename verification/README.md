# pico-fido: a verified model of the authenticator's state

pico-fido is the firmware of a security key: a CTAP 2.1 authenticator with resident credentials, a client
PIN, fingerprints and a large-blob array, and a Yubico OTP keyboard. Nearly all of it is global state that
command handlers change, partly in flash files and partly in RAM. This project models the handlers with the most
state and proves what whole runs of them guarantee.

Every component has the same shape. A datatype holds the files and globals; a step function says what one command
does to them, branch for branch; a class holds the same variables as fields and arrays and performs the command
write by write, and each method is proved to have the effect of the step function. The lemmas are about runs of
steps. `dafny verify dfyconfig.toml` checks everything.

| file | component |
|---|---|
| `ClientPin.dfy`, `ClientPinDevice.dfy` | PIN and device-key files, retries, PIN/UV auth token, minimum PIN length: step functions, and the class that performs them |
| `KeyConservation.dfy` | the device key survives its migrations between three file formats |
| `PinPolicy.dfy`, `LockOut.dfy` | bounds on guessing; the minimum PIN length over runs; the lock-out that does not come |
| `AcceptedPin.dfy` | which PIN the device accepts: the last one set, over every run |
| `Tokens.dfy` | getAssertion and makeCredential as consumers of the token; histories in which the user-verified flag appears |
| `TokenUse.dfy`, `Presence.dfy` | what a grant is worth and who gets one; where permissions and the user-present flag come from, over every run |
| `Credentials.dfy`, `CredentialStore.dfy` | 256 credential files and 256 RP files: store, update, delete, and their agreement |
| `StoredFiles.dfy` | what store, update and delete do to the files, in the files' own terms; what was deleted is gone |
| `CredentialManagement.dfy`, `CredentialManager.dfy` | the enumeration cursors, and the class that owns the files and the cursors |
| `Cbor.dfy`, `CredentialId.dfy`, `CredentialSeal.dfy` | the credential id: CBOR printer and parser, sealing, the silent tag |
| `CredentialSearch.dfy`, `Assertions.dfy` | the search with and without an allow list; filter and sort in place; getNextAssertion |
| `Protection.dfy` | what credProtect withholds, and that everything else is answered |
| `OlderLists.dfy`, `Clock.dfy` | answers from an older list and without a credential; the 30 seconds in real time |
| `JointDevice.dfy` | token, pending list and credential files as one machine |
| `LargeBlobs.dfy` | fragment assembly in one buffer, commit, ranged read |
| `OtpCrc.dfy`, `OtpFrames.dfy`, `OtpCounter.dfy` | the frame CRC, HID packets both ways, the two-level use counter |
| `BioSlots.dfy`, `BioNames.dfy` | fingerprint slot cache and enrolment against the sensor worker; the names file |
| `Basics.dfy`, `Runs.dfy` | options and bytes; runs of a step function |

Cryptography is a record of functions about which only stated laws are assumed (`ClientPin.Laws`,
`CredentialSeal.SealerLaws`, and for what does not load `CredentialSeal.Authentic`); that the laws can hold is proved. Randomness, clocks, the answers of the user and of the
fingerprint sensor, and what the ECDH channel established about a request are parameters of the steps. CBOR requests
arrive parsed.

## Where the code does less than its specification

The model follows the code. These are the places where a promised property fails in it; each has lemmas that say exactly
when, and an input or a run for which it does, unless it always does.

- A 32-byte legacy device-key file whose first byte happens to be 1 is taken for the plain format when the first PIN is
  set (`KeyConservation.LegacyFormatByte`, `KeyConservation.LegacyKeyLost`). With a 34-byte PIN file the key is
  re-encoded first and is safe.
- setMinPINLength stores the low byte of the requested length, so a length above 255 can lower the minimum
  (`PinPolicy.MinPinFalls`, `PinPolicy.MinPinWraps`).
- Three PIN mismatches set a flag that the retries subcommand reports and no other command reads
  (`LockOut.FlagDecidesNothing`). There is no lock-out until the retries are used up: a PIN is compared if and only if an
  attempt is left (`LockOut.ComparedIffAttemptLeft`, `LockOut.NoLockOut`, `LockOut.FourthGuessIsCompared`), so the bound
  is 8 comparisons (`PinAttempts.GuessesBounded`).
- The RP count is one byte: it reads 0 when one RP owns all 256 slots, which is then not listed
  (`CredentialStore.AgreementPerRp`, `CredentialManagement.ListedIff`, `CredentialManagement.OneOwnerIsNotListed`). The
  cursors are bytes: both enumerations end with "not allowed" up to 254 entries, with "no credentials" at 255, and after
  the first at 256 (`CredentialManagement.RpEnumeration`, `CredentialManagement.CredEnumeration`,
  `CredentialManagement.ManyOwnersAreNotListed`, `CredentialManagement.FullCredTable`).
- User ids are compared on the shorter length, so a store can replace another user's credential
  (`CredentialStore.StoreOverwritesAnotherUser`, `CredentialStore.PrefixUserIdDropsCredential`).
- An update passes the sign-count member by address where a truth value is expected: a credential created without a sign
  count has one afterwards (`CredentialSeal.UpdatedCredential`, `CredentialSeal.SignCountAppears`).
- credential_create measures the length to seal from the start of its buffer and not from the map, so it seals the 16
  bytes behind the map too, and it writes a 32-byte hash where the id ends in 16 bytes of it. The encoder lets a map of
  992 bytes through, while an id fits the 1024-byte buffer up to a map of 960 and all that is written up to 944
  (`CredentialSeal.IdFits`, `CredentialSeal.LongRpIdOverruns`).
- makeCredential never uses its token up: the branch that would do so tests an option that has been refused before
  (`Tokens.MakeCanRepeat`).
- Whether a listed credential is on the device is decided by comparing its id with a file's resident id, which never
  succeeds; only resident ids count as such (`CredentialSearch.NeverOnDevice`). A getAssertion without options counts as
  silent although it asks for presence: when nothing in its allow list loads but a silent tag verifies, it is answered
  with a made-up signature (`OlderLists.BogusAnswers`, `OlderLists.PresenceIsAnsweredBogus`).
- A getAssertion that yields a single credential leaves an older list for getNextAssertion in place, which then answers
  for the older RP (`OlderLists.OlderListStays`, `OlderLists.OlderRpIsAnswered`).
- The 30-second comparison is done in 32 bits of milliseconds. Around a wrap it finds expired what is in time, and
  afterwards does not find what is late (`Clock.TestIsRight`, `Clock.TwoRuns`).
- The maximum fragment length is compared with the wrong variable in a large-blob read, after a check that makes the
  comparison unreachable, so reads may ask for more than 960 bytes (`LargeBlobs.LongReads`,
  `LargeBlobs.LongReadIsAnswered`). An unauthorised first fragment already discards the assembly under way
  (`LargeBlobs.RefusedRestart`, `LargeBlobs.UnauthorisedRestartDiscards`).
- A status query on the OTP keyboard marks the slots as scanned without counting the power-up. When it comes before the
  first scan, the next ticket can repeat a counter pair (`OtpCounter.PressAfterStatus`, `OtpCounter.StatusRepeatsPair`).
  The pair also stops growing when the counter is at its end (`OtpCounter.PressTwice`, `OtpCounter.PressAcrossPowerUp`).
- An enrolment whose wait ran out stays queued; its slot can be handed out again and then holds two models
  (`BioSlots.LateEnrolmentOverwrites`). That is the only way: no run overwrites a model whose begins hand out no slot
  with an enrolment in the queue (`BioSlots.GuardedNeverOverwrites`, `BioSlots.GuardIsExact`).

## Model

| member | source | states |
|---|---|---|
| ClientPin.PinLength | src/fido/cbor_client_pin.c:497-500 | the length of a padded PIN: no zero byte before it, and one at it unless all 64 bytes are used |
| ClientPin.RestoredPin | src/fido/cbor_client_pin.c:601-616 | after a right PIN the file is in the 35-byte format with 8 attempts, the PIN length kept, and accepts that PIN |
| ClientPin.IssueTokenKeepsFiles | src/fido/cbor_client_pin.c:794-818 | issuing a token touches neither the PIN, device-key and minimum-length files nor the session key |
| ClientPin.OtherCommandsKeepFiles | src/fido/cbor_config.c:249-281 | fingerprint tokens, setMinPINLength and power cycles leave PIN file, device-key file and spent attempts alone |
| ClientPin.StepWellFormed | src/fido/cbor_client_pin.c:457-823 | every command leaves the PIN file absent, 34 or 35 bytes long, and the minimum-length file absent or at least 2 |
| ClientPinDevice.Authenticator.constructor | src/fido/fido.c:367-495 | a powered-up device: RAM globals at their initial values over whatever the files hold; a device without a PIN is valid |
| ClientPinDevice.Authenticator.PowerUp | src/fido/cbor_client_pin.c:45-47 | a power cycle forgets session key, mismatches, flags and permissions and keeps the files |
| ClientPinDevice.Authenticator.Awaken | src/fido/cbor_client_pin.c:240-243 | the first client-PIN command after power-up replaces the token value and drops its permissions, later ones do not |
| ClientPinDevice.Authenticator.MeasurePin | src/fido/cbor_client_pin.c:497-500 | the counting loop returns the PIN length and stays within the padded buffer |
| ClientPinDevice.Authenticator.CheckKeydevEncrypted | src/fido/cbor_client_pin.c:270-280 | a file marked plain is sealed under the given key; any other file is left as it is |
| ClientPinDevice.Authenticator.ResetPinUvAuthToken | src/fido/cbor_client_pin.c:148-166 | a fresh token value without permissions, every other part of the token kept |
| ClientPinDevice.Authenticator.GrantToken | src/fido/cbor_client_pin.c:804-816 | a granted token: fresh value, exactly the low byte of the permissions, bound to the RP only if one was named |
| ClientPinDevice.Authenticator.SetPin | src/fido/cbor_client_pin.c:457-526 | setPIN with every refusal in order; on success the PIN file, the session key and the re-sealed device key |
| ClientPinDevice.Authenticator.CountMismatch | src/fido/cbor_client_pin.c:587-600 | a wrong PIN: blocked when no attempt is left, otherwise counted, and auth-blocked from the third on |
| ClientPinDevice.Authenticator.UpgradeKeydev | src/fido/cbor_client_pin.c:601-612 | the upgrade rewrites the device key in the plain format, or fails and leaves the file alone |
| ClientPinDevice.Authenticator.AttemptPin | src/fido/cbor_client_pin.c:732-791 | the attempt is stored before the comparison; a right PIN restores 8 attempts and seals the key under its session key |
| ClientPinDevice.Authenticator.TakeOver | src/fido/cbor_client_pin.c:601-622 | after a right PIN: upgrade, session key, attempts restored, key sealed; or the upgrade failed and nothing but the session key changed |
| ClientPinDevice.Authenticator.ChangePin | src/fido/cbor_client_pin.c:527-683 | changePIN from its first check to its last write, every early exit included |
| ClientPinDevice.Authenticator.StoreNewPin | src/fido/cbor_client_pin.c:624-650 | the new PIN is refused for its padding, its length or an unloadable key before anything is written |
| ClientPinDevice.Authenticator.ExchangePin | src/fido/cbor_client_pin.c:650-681 | the key is sealed for the new PIN; refused reuse exits between the writes; success replaces PIN, flag and both tokens |
| ClientPinDevice.Authenticator.GetPinToken | src/fido/cbor_client_pin.c:695-823 | both PIN-token subcommands: refusals in order, the attempt, then the token |
| ClientPinDevice.Authenticator.HandOut | src/fido/cbor_client_pin.c:794-818 | no token while a change is forced; PCMR gives the persistent token, anything else a fresh one |
| ClientPinDevice.Authenticator.GetUvToken | src/fido/cbor_client_pin.c:284-365 | the fingerprint token: refusals in order, retries spent by every failed match, restored by a match |
| ClientPinDevice.Authenticator.SetMinPinLength | src/fido/cbor_config.c:121-281 | setMinPINLength: never below the current minimum as requested, forces a change for a short PIN, resets tokens when forced |
| ClientPinDevice.Authenticator.WriteMinPin | src/fido/cbor_config.c:262-281 | the writes of an accepted setMinPINLength: the minimum, the flag for a PIN that is too short, the RP hashes, and the tokens taken away |
| ClientPinDevice.Authenticator.Perform | src/fido/cbor_client_pin.c:457-823 | whichever command it is: one comparison at most and paid for, no token for a PIN that is too short, a PIN shorter than the minimum marked for change, the device key conserved and loadable once a PIN was accepted |
| ClientPinDevice.Authenticator.Concatenate | src/fido/cbor_config.c:274-276 | the RP hashes follow one another in the file in request order |
| ClientPinDevice.Authenticator.GetUserVerifiedFlag | src/fido/cbor_client_pin.c:95-100 | reading the flag clears it for a token not in use and returns what is left |
| ClientPinDevice.Authenticator.AuthorizeAssertion | src/fido/cbor_get_assertion.c:213-276 | the checks of getAssertion up to the credential search refuse for the stated reasons in the stated order |
| ClientPinDevice.Authenticator.ClearFlags | src/fido/cbor_client_pin.c:59-75 | a used token loses both flags and every permission but large-blob write |
| ClientPinDevice.Authenticator.TakePresence | src/fido/cbor_get_assertion.c:436-455 | presence is taken from the token or asked for, and then the token is used up |
| ClientPinDevice.Authenticator.AuthorizeCredential | src/fido/cbor_make_credential.c:324-343 | makeCredential accepts a token with the MC permission for this RP and binds an unbound one |
| KeyConservation.PlainLoads | src/fido/fido.c:350-365 | what encrypt_keydev_f1 wrote for a key loads as that key under any session key |
| KeyConservation.SealedPlain | src/fido/fido.c:213-259 | sealing a plain file gives a file that loads as the same key under the sealing key |
| KeyConservation.SealedOpens | src/fido/fido.c:213-259 | a file sealed under the accepted PIN's session key loads for whoever presents an accepted PIN |
| KeyConservation.AcceptanceIgnoresRetries | src/fido/cbor_client_pin.c:566-570 | changing the retry byte changes neither which PIN is accepted nor what the key file encodes |
| KeyConservation.UnlockConserves | src/fido/cbor_client_pin.c:769-790 | from any of the three formats, a right PIN leaves a 35-byte PIN file accepting it and a key file that loads to the same key |
| KeyConservation.ReplacePinConserves | src/fido/cbor_client_pin.c:623-682 | changePIN's second half keeps the key loadable under the accepted PIN, also at the exit between the two writes |
| KeyConservation.SetPinConserves | src/fido/cbor_client_pin.c:509-522 | setPIN, accepted or refused, leaves the device key what it was |
| KeyConservation.TryPinConserves | src/fido/cbor_client_pin.c:732-791 | paying for, failing or passing an attempt keeps the key; after passing, it loads; no accepted PIN is ever answered with an error here |
| KeyConservation.StepConserves | src/fido/cbor_client_pin.c:457-823 | every command keeps the key in one of the three formats; after an accepted PIN load_keydev returns it |
| KeyConservation.RunConserves | src/fido/cbor_client_pin.c:270-280 | over every run of commands, wrong PINs, upgrades and power cycles the file encodes the same key |
| KeyConservation.AcceptedPinLoads | src/fido/fido.c:213-259 | wherever in a run a PIN is accepted, load_keydev returns the key at the end of that command |
| KeyConservation.LegacyFormatByte | src/fido/cbor_client_pin.c:271-275 | setPIN keeps a 32-byte legacy key if and only if its first byte is not 1 or the bytes sealed instead unwrap to it |
| KeyConservation.LegacyKeyLost | src/fido/cbor_client_pin.c:509-522 | an input that loses it: a legacy file starting with 1, no PIN, a successful setPIN of 1111, and another key loads |
| KeyConservation.KeydevLoads | src/fido/fido.c:213-259 | what load_keydev returns for any file, when it fails, and that a file of no known size or format counts as the all-zero key |
| PinAttempts.StepCharged | src/fido/cbor_client_pin.c:566-600 | no comparison without a stored attempt; a wrong PIN stores exactly one fewer; only a right PIN raises the number |
| PinAttempts.GuessesBounded | src/fido/cbor_client_pin.c:566-623 | in every run, comparisons since the last right PIN plus attempts left are at most 8, and mismatches stay within the attempts spent |
| PinAttempts.BlockedStep | src/fido/cbor_client_pin.c:539-541 | with no attempts left no command compares a PIN, changes the PIN or key file, or grants a token for a PIN |
| PinAttempts.BlockedForGood | src/fido/cbor_client_pin.c:717-719 | the same over every run: once blocked, PIN file and key file never change |
| LockOut.ComparedIffAttemptLeft | src/fido/cbor_client_pin.c:562-600 | a PIN presented in order is compared if and only if an attempt is left, whatever the mismatch count and the flag say |
| LockOut.NoLockOut | src/fido/cbor_client_pin.c:587-600 | of any number of wrong PINs in a row without a power cycle exactly as many are compared as there were attempts, the first ones, and so many attempts are gone |
| LockOut.MismatchesCount | src/fido/cbor_client_pin.c:587-597 | as long as attempts remain each of them counts as a mismatch, and from the third on the flag is up and the answer is the lock-out's |
| LockOut.FourthGuessIsCompared | src/fido/cbor_client_pin.c:587-597 | a run: three wrong PINs raise the flag, and the fourth is compared all the same |
| LockOut.FlagDecidesNothing | src/fido/cbor_client_pin.c:457-823 | no command, whatever the flag says, answers or does anything differently but keep or raise the flag |
| LockOut.AnswersIgnoreFlag | src/fido/cbor_client_pin.c:457-823 | so in no run does the flag change any answer |
| AcceptedPin.SetPinIsAccepted | src/fido/cbor_client_pin.c:509-522 | after an accepted setPIN or changePIN of a PIN of n bytes the file has 8 attempts and the length n, and accepts the first 16 bytes of the SHA-256 of these n bytes and nothing else; n is at least the minimum |
| AcceptedPin.FilesAccept | src/fido/cbor_client_pin.c:577-586 | what a PIN file accepts: the older layout every hash with the double hash written there, the present one just the hash whose verifier was written, no file nothing |
| AcceptedPin.SetPinSucceedsIff | src/fido/cbor_client_pin.c:457-508 | setPIN succeeds if and only if the request is in order, there is no PIN, and the new one is padded and not too short |
| AcceptedPin.ChangePinSucceedsIff | src/fido/cbor_client_pin.c:527-661 | changePIN succeeds if and only if the stored PIN is presented in order with an attempt left, the new one is padded and not too short, and it is not the old one when a change is forced |
| AcceptedPin.AcceptedIff | src/fido/cbor_client_pin.c:566-600 | a PIN presented in order is accepted if and only if an attempt is left and the file accepts it |
| AcceptedPin.OthersKeepPin | src/fido/cbor_client_pin.c:457-823 | whatever does not set a PIN, refused setPIN and changePIN included, keeps the stored length and what is accepted; only bringing an older file to the new layout leaves the accepted PIN the only one |
| AcceptedPin.RunHoldsLastSet | src/fido/cbor_client_pin.c:650-661 | over every run that has set a PIN the device holds the last one set and accepts no other |
| AcceptedPin.NextPinAccepted | src/fido/cbor_client_pin.c:732-791 | so the next PIN presented is accepted if and only if it is the hash of the last PIN set and an attempt is left |
| AcceptedPin.ShortPinIsMarked | src/fido/cbor_config.c:255-273 | after every run, if the last PIN set has fewer bytes than the minimum, a change is forced |
| AcceptedPin.NoTokenForRealShortPin | src/fido/cbor_client_pin.c:794-797 | in no run is a PIN token issued while the last PIN set has fewer bytes than the minimum |
| PinPolicy.StepPolicy | src/fido/cbor_config.c:255-273 | every command keeps "a PIN shorter than the minimum is marked for change"; the minimum falls only by narrowing |
| PinPolicy.MinPinFalls | src/fido/cbor_config.c:272-273 | an accepted setMinPINLength keeps the minimum from falling if and only if the length does not wrap to a smaller byte |
| PinPolicy.MinPinWraps | src/fido/cbor_config.c:272-273 | a run in which the minimum falls: asked for 260, the device lowers it from 6 to 4 |
| PinPolicy.RunPolicy | src/fido/cbor_config.c:249-281 | the policy holds after every run |
| PinPolicy.NoTokenForShortPin | src/fido/cbor_client_pin.c:794-797 | in no run is a token issued for a PIN while the stored PIN is shorter than the minimum |
| PinPolicy.MinPinMonotone | src/fido/cbor_config.c:258-273 | over runs whose requested lengths fit a byte the minimum never decreases |
| TokenUse.PinTokenGrantedIff | src/fido/cbor_client_pin.c:695-818 | a PIN token is granted if and only if the stored PIN is presented in order with an attempt left and no change is forced |
| TokenUse.UvTokenGrantedIff | src/fido/cbor_client_pin.c:284-352 | a fingerprint token is granted if and only if the request is in order, retries are left and the finger matches |
| TokenUse.GrantMeans | src/fido/cbor_client_pin.c:804-818 | what a grant hands out: a new value, in use and verified, for exactly what was asked within eight permissions and for the RP named; present after a finger and not after a PIN; PCMR the persistent token instead |
| TokenUse.FingerRetries | src/fido/cbor_client_pin.c:319-345 | a failed or missing finger costs one retry, a match and a power cycle restore five, nothing else changes them |
| TokenUse.FingerAnswers | src/fido/cbor_client_pin.c:319-345 | what a fingerprint request in order is answered with, and that the last retry to fail blocks further ones |
| TokenUse.ProtocolFirst | src/fido/cbor_client_pin.c:457-480 | a missing member or protocol is refused first, an unknown protocol next, and neither compares a PIN or changes a file |
| TokenUse.FailedFingersBounded | src/fido/cbor_client_pin.c:309-345 | in every run at most five fingers fail after the last that matched, power cycles aside |
| TokenUse.ChangedPinTakesTokens | src/fido/cbor_client_pin.c:661-681 | a changed PIN leaves neither token with a value or a permission of before, and no forced change |
| TokenUse.FirstCommandRenews | src/fido/cbor_client_pin.c:240-243 | the first client-PIN command after power-up renews the token value and drops its permissions, also when it fails; later ones that neither grant a token nor change the PIN leave it alone; a power cycle takes every flag and permission |
| TokenUse.SetMinPinSucceedsIff | src/fido/cbor_config.c:121-262 | setMinPINLength succeeds if and only if the token has the configuration permission, the minimum asked for is not below the one there is, and a forced change has a PIN to change |
| TokenUse.SetMinPinMeans | src/fido/cbor_config.c:249-281 | what it writes: the low byte of the minimum, each RP hash in its place, and the flag if and only if a change is asked for or the PIN is too short; when both tokens are taken away |
| Tokens.CommandTokenKept | src/fido/cbor_client_pin.c:160-166 | a client-PIN command grants a token, empties its permissions, or keeps value, permissions and binding |
| Tokens.GrantNeedsUser | src/fido/cbor_client_pin.c:732-818 | no command grants a token unless the PIN it presents matches the stored one or the finger matches |
| Tokens.GrantedTokenAccepts | src/fido/cbor_client_pin.c:50-57 | a token just granted is accepted for exactly the permissions and the RP of the grant, and under its own value only |
| Tokens.MakeCanRepeat | src/fido/cbor_make_credential.c:324-343 | makeCredential never uses its token up: what was accepted once is accepted again |
| Tokens.AssertionTokenKept | src/fido/cbor_get_assertion.c:436-455 | a getAssertion with both flags leaves the token without the GA permission |
| Tokens.PermissionIsBacked | src/fido/cbor_client_pin.c:342-352 | a token that allows assertions was granted for them by an event of the run with that value and binding, since which there was no other grant and no response with both flags |
| Tokens.GrantIsUserGrant | src/fido/cbor_client_pin.c:342-352 | every grant for assertions in a run is a client-PIN command that presented the stored PIN or a matching finger |
| Tokens.OpeningIsBacked | src/fido/cbor_get_assertion.c:260-276 | a getAssertion whose token passed was MACed under the value that one earlier PIN or finger grant handed out, at the RP that grant named and that every makeCredential in between bound, with no other grant and no response with both flags in between |
| Tokens.ReplyMeans | src/fido/cbor_get_assertion.c:460-505 | a first assertion carries the flags and RP of its own request, a next one those of the list it is taken from |
| Tokens.ListStep | src/fido/cbor_get_assertion.c:469-486 | an event that leaves a list is a getAssertion and the list has its flags and RP; any other event keeps the flags and RP of a list that still has something |
| Tokens.PendingIsTraced | src/fido/cbor_get_assertion.c:469-486 | a list with something left was left by the last getAssertion of the run that left one, with its flags and RP |
| Tokens.AssertionHasOrigin | src/fido/cbor_get_assertion.c:45-79 | every assertion answers one getAssertion of the run, itself or the last one before it that left a list: its RP, its presence, and user-verified if and only if its token passed |
| Tokens.UvAssertionIsBacked | src/fido/cbor_get_assertion.c:260-276 | every user-verified assertion, first or next, answers a getAssertion that was MACed under a token granted for a PIN or a finger, not used by a response with both flags in between, and bound to no other RP |
| Tokens.BothFlagsNeedPermission | src/fido/cbor_get_assertion.c:268-270 | a response with both flags needed the GA permission just before and grants nothing |
| Tokens.OneResponsePerGrant | src/fido/cbor_client_pin.c:71-75 | between two getAssertion responses with both flags lies another grant, for which the user was verified again |
| Presence.MacMeans | src/fido/cbor_client_pin.c:223-238 | protocol 1 takes the first half of the MAC for a signature, protocol 2 all of it, any other protocol nothing |
| Presence.MakeUsesTokenIff | src/fido/cbor_make_credential.c:324-343 | makeCredential uses the token if and only if it is in use and verified, has the MC permission, is for this RP or none, and made the MAC; it then is bound to the RP, and is refused otherwise |
| Presence.MakeWithoutToken | src/fido/cbor_make_credential.c:324-343 | a malformed makeCredential does nothing, and one without a MAC leaves the token alone |
| Presence.AssertionAnsweredIff | src/fido/cbor_get_assertion.c:213-455 | a getAssertion is answered if and only if its token, options and extensions are in order, something is found, and the user is there if wanted: confirming now, or under a token in use for which they were present |
| Presence.DeniedWithoutUser | src/fido/cbor_get_assertion.c:436-441 | one that is in order and wants the user, who is not there, is denied and keeps the token |
| Presence.EmptyMacProbes | src/fido/cbor_get_assertion.c:213-224 | an empty MAC only asks for a touch and whether a PIN is set, and changes nothing |
| Presence.BadTokenIsRefused | src/fido/cbor_get_assertion.c:225-276 | a missing or unknown protocol and options that do not exist are refused first; then a request the token is not good for is refused as unauthenticated, whatever was found |
| Presence.PresenceUsesUp | src/fido/cbor_get_assertion.c:436-455 | presence costs the token both flags and every permission but large-blob write; without presence it is as before |
| Presence.PermissionHasGrant | src/fido/cbor_client_pin.c:88-100 | over every run each permission but large-blob write goes back to one command that verified the user, was asked for it, and whose token no power cycle, PIN change, other grant or answer with presence has ended since |
| Presence.MakeHasGrant | src/fido/cbor_make_credential.c:324-343 | a makeCredential that used the token stands on such a grant for makeCredential, at its RP if the grant named one |
| Presence.SetMinPinHasGrant | src/fido/cbor_config.c:121-145 | an accepted setMinPINLength stands on such a grant for configuration |
| Presence.UpHasUser | src/fido/cbor_get_assertion.c:436-486 | every answer with the user-present flag, first or next, answers a getAssertion that wanted the user and for which they confirmed, or whose token a matching finger was handed, not ended since |
| Presence.PowerCycleForgetsList | src/fido/cbor_get_assertion.c:45-79 | a power cycle forgets the pending list, no other client-PIN command touches it |
| CredentialStore.AgreementPerRp | src/fido/credential.c:361-376 | under agreement an RP without credentials has no record and one with n has exactly one, whose count is n if and only if n is not 256 |
| CredentialStore.CountUpdated | src/fido/credential.c:343-378 | replacing one file changes an RP's number of credentials by what leaves and what comes |
| CredentialStore.RpFileFree | src/fido/credential.c:343-360 | pigeonhole: while a credential file is free, so is an RP file |
| CredentialStore.StoreAllOrNothing | src/fido/credential.c:330-360 | a store succeeds if and only if the credential loads and a file is free or replaceable; otherwise both tables are untouched |
| CredentialStore.StoreAgrees | src/fido/credential.c:295-382 | a store keeps files and counts in agreement |
| CredentialStore.DeleteAgrees | src/fido/cbor_cred_mgmt.c:375-402 | a delete keeps them in agreement and removes the record with the last credential |
| CredentialStore.OpAgrees | src/fido/cbor_cred_mgmt.c:417-445 | so does an update, whatever it is refused for |
| CredentialStore.RunAgrees | src/fido/credential.c:295-382 | from empty tables every sequence of store, update and delete keeps the agreement |
| CredentialStore.StoreKeepsOnePerUser | src/fido/credential.c:305-341 | with user ids of one length a store replaces exactly the file the user has, and no two files hold one user at one RP |
| CredentialStore.UpdateChangesOneSlot | src/fido/cbor_cred_mgmt.c:417-445 | an update changes the named file only, keeps its user and RP, and leaves everything alone when refused |
| CredentialStore.RunKeepsOnePerUser | src/fido/credential.c:322-327 | one credential for each user and RP after every run |
| CredentialStore.StoreOverwritesAnotherUser | src/fido/credential.c:322-327 | a store drops another user's credential if and only if the first file matching on the shorter length is another user's |
| CredentialStore.PrefixUserIdDropsCredential | src/fido/credential.c:322-327 | a run in which storing for user 01 drops the credential of user 01 02 |
| StoredFiles.CountIsSize | src/fido/credential.c:343-378 | the count of an RP is the number of files with its hash |
| StoredFiles.DeleteMeans | src/fido/cbor_cred_mgmt.c:362-403 | a delete is answered Ok if and only if some file carries the id; then exactly the first such file is emptied, the count of its RP drops by one, and its record reads that count or goes at zero; otherwise nothing changes |
| StoredFiles.StoreMeans | src/fido/credential.c:295-382 | a store is answered Ok if and only if the id loads and a file gives way or is empty; then exactly the file at its place holds the RP, the resident id and the id, and the record counts it: not when one gave way, in the RP's record, or in a new one with count 1 and the RP id; otherwise nothing changes |
| StoredFiles.UpdateMeans | src/fido/cbor_cred_mgmt.c:404-447 | an update re-creates the credential of the first file that carries the id under the new names and stores that, and is refused, for each reason, without a change |
| StoredFiles.DeletedIsGone | src/fido/cbor_cred_mgmt.c:375-402 | over every run, with user ids of one length, no file has a credential of a deleted one's user and RP until the next store for them |
| StoredFiles.GoneIsNotFound | src/fido/cbor_get_assertion.c:288-360 | then no search of that RP and no resident id finds one |
| StoredFiles.GoneIsNotShown | src/fido/cbor_cred_mgmt.c:209-361 | and no request of credential management shows one |
| StoredFiles.DeleteMakesRoom | src/fido/cbor_cred_mgmt.c:375-402 | after a delete the next store of a credential that loads is accepted |
| CredentialManager.Manager.ChooseSlot | src/fido/credential.c:305-329 | the scan finds the first replaceable file, else the first empty one |
| CredentialManager.Manager.ChooseRpSlot | src/fido/credential.c:343-360 | the scan finds the RP's record, else the first empty one |
| CredentialManager.Manager.Store | src/fido/credential.c:295-382 | the two scans and writes have the effect of the store step on both tables |
| CredentialManager.Manager.FindNamed | src/fido/cbor_cred_mgmt.c:375-377 | the first file whose resident id is the first 42 bytes asked for |
| CredentialManager.Manager.Delete | src/fido/cbor_cred_mgmt.c:362-403 | deletes the named file and counts its RP down, dropping a record that reaches 0 |
| CredentialManager.Manager.Update | src/fido/cbor_cred_mgmt.c:404-447 | re-creates the named credential under the new names and stores it, or refuses with the step's status |
| CredentialManager.Manager.ScanLive | src/fido/cbor_cred_mgmt.c:166-190 | the begin scan finds the first live RP record and their number modulo 256 |
| CredentialManager.Manager.EnumerateRpsBegin | src/fido/cbor_cred_mgmt.c:150-208 | begin resets the RP cursor, shows the first RP and reports the total |
| CredentialManager.Manager.SeekRp | src/fido/cbor_cred_mgmt.c:174-190 | the next scan finds the record the byte counter points at, or none |
| CredentialManager.Manager.EnumerateRpsNext | src/fido/cbor_cred_mgmt.c:169-208 | next is refused past the total and otherwise moves on by one |
| CredentialManager.Manager.ScanOwn | src/fido/cbor_cred_mgmt.c:230-256 | the begin scan finds the RP's first credential and their number modulo 256 |
| CredentialManager.Manager.EnumerateCredsBegin | src/fido/cbor_cred_mgmt.c:209-274 | begin resets the credential cursor, shows the first credential and reports the total |
| CredentialManager.Manager.SeekCred | src/fido/cbor_cred_mgmt.c:239-256 | the next scan finds the credential the byte counter points at, or none |
| CredentialManager.Manager.EnumerateCredsNext | src/fido/cbor_cred_mgmt.c:233-274 | next continues at the remembered RP and is refused past the total |
| CredentialManager.Manager.Show | src/fido/cbor_cred_mgmt.c:261-336 | an unloadable or unusable credential is refused without moving; otherwise the RP is remembered while more follow |
| CredentialManagement.CursorsIndependent | src/fido/cbor_cred_mgmt.c:27-31 | dropping the other cursor's requests from any interleaving changes neither a cursor nor its replies |
| CredentialManagement.RpEnumeration | src/fido/cbor_cred_mgmt.c:150-208 | begin and next show up to 255 RPs once each in slot order with the right total; one further next is refused, as stated by count |
| CredentialManagement.FullRpTable | src/fido/cbor_cred_mgmt.c:186-188 | with 256 RPs the total wraps to 0 and enumeration stops after the first |
| CredentialManagement.ManyOwnersAreNotListed | src/fido/cbor_cred_mgmt.c:186-188 | tables of 256 RPs with a credential each, in agreement, for which that happens |
| CredentialManagement.ListedIff | src/fido/cbor_cred_mgmt.c:174-190 | an RP is among those enumerated if and only if it has a credential and does not own all 256 files |
| CredentialManagement.OneOwnerIsNotListed | src/fido/credential.c:361-376 | tables in which one RP owns all the files, in agreement, of which no RP is listed |
| CredentialManagement.FullCredTable | src/fido/cbor_cred_mgmt.c:252-254 | with 256 credentials of one RP the total wraps to 0 and enumeration stops after the first |
| CredentialManagement.ShownIsUsable | src/fido/cbor_cred_mgmt.c:209-280 | only a credential of the RP that loads and whose key can be derived is shown; a refused next does not move |
| CredentialManagement.CredEnumeration | src/fido/cbor_cred_mgmt.c:209-274 | begin and next show up to 255 credentials of an RP once each in slot order, and leave the RP cursor alone; one further next is refused, as stated by count |
| CredentialManagement.ListingReplies | src/fido/cbor_cred_mgmt.c:150-274 | credential runs nested in an RP run answer every request with the expected slots and totals |
| CredentialManagement.ListedShowsAll | src/fido/cbor_cred_mgmt.c:150-336 | taken apart by the cursor they answer, the replies name the live RPs in order and, block by block, their credentials |
| CredentialManagement.FullEnumeration | src/fido/cbor_cred_mgmt.c:150-336 | of the replies to the nested listing, those to RP requests show every live RP in order, and those to credential requests show each stored credential exactly once and nothing else |
| Cbor.HeadRoundTrip | src/fido/credential.c:102-151 | reading back a printed major type and argument of up to 64 bits gives both and the rest of the input |
| Cbor.IntRoundTrip | src/fido/credential.c:139-140 | signed integers round-trip (RFC 8949, section 3.1) |
| Cbor.StringRoundTrip | src/fido/credential.c:103-108 | byte and text strings round-trip |
| Cbor.BoolRoundTrip | src/fido/credential.c:136-137 | booleans round-trip |
| CredentialId.PrintedIsEncodable | src/fido/credential.c:101-151 | a credential whose print fits the encoder has only strings short enough to be read back |
| CredentialId.ExtensionsRoundTrip | src/fido/credential.c:110-135 | the extensions map parses back to its normal form |
| CredentialId.PrintRoundTrip | src/fido/credential.c:102-151 | the parser undoes the printer up to the normal form, whatever follows the map |
| CredentialId.ParsedMembersInRange | src/fido/credential.c:206-261 | whatever is parsed, the numbers of the result are in the ranges the printer takes |
| CredentialSeal.UnsealSealed | src/fido/credential.c:152-171 | a sealed id is 48 bytes longer than what was sealed, opens to that with something behind it, and passes the silent tag check |
| CredentialSeal.CredentialIdRoundTrip | src/fido/credential.c:86-277 | credential_load of an id that credential_create made within its buffer, whatever lay behind the map, under the same RP and key, gives the normal form; the silent check accepts it |
| CredentialSeal.RoundTripIsIdentity | src/fido/credential.c:110-141 | the round trip gives back the very credential if and only if it is in normal form already, field by field |
| CredentialSeal.LoadsIff | src/fido/credential.c:183-277 | an id loads for an RP, and as what, if and only if it was sealed for that RP under the key of its format and its text parses, or it was never sealed for it, has 64 bytes and is a key handle of the RP |
| CredentialSeal.OlderIdLoads | src/fido/credential.c:51-84 | an id of the older format, without a silent tag, over a printed credential loads as its normal form |
| CredentialSeal.LoadsForItsRpOnly | src/fido/credential.c:51-84 | an id created for one RP loads for another only if another text sealed for that RP under the same key and nonce gives the same bytes |
| CredentialSeal.SilentIff | src/fido/credential.c:75-82 | the silent check accepts exactly the ids that start with the mark of the current format and end in half the hash of all before |
| CredentialSeal.IdFits | src/fido/credential.c:101-181 | the id is 64 bytes longer than its map: it fits 1024 bytes if and only if the map has at most 960, and all that is written does if and only if it has at most 944 |
| CredentialSeal.LongRpIdOverruns | src/fido/credential.c:101-171 | a credential that overruns: an RP id of 925 characters prints to 970 bytes, which the encoder accepts, and the id has 1034 |
| CredentialSeal.LoadExtensions | src/fido/credential.c:226-237 | the reading loop over the extensions map has the parser's result |
| CredentialSeal.LoadMembers | src/fido/credential.c:206-261 | the reading loop over the members has the parser's result |
| CredentialSeal.Load | src/fido/credential.c:183-277 | opens and parses the id, falls back to a U2F key handle, and otherwise refuses |
| CredentialSeal.Put | src/fido/credential.c:101-151 | one append to the bounded encoder: all of the item or an overflow |
| CredentialSeal.PutAll | src/fido/credential.c:102-151 | the appends give the joined text and leave what is behind it, or overflow if and only if it exceeds the limit |
| CredentialSeal.PrintInto | src/fido/credential.c:101-152 | the item-by-item encoder leaves the printed map in the buffer with the 16 bytes found behind it, or refuses if and only if the map exceeds 992 bytes |
| CredentialSeal.SealInPlace | src/fido/credential.c:152-181 | sealing in place from the measured length gives the sealed id at the start of the buffer |
| CredentialSeal.Create | src/fido/credential.c:86-181 | printing and sealing give the specified id over the bytes found behind the map; refused if and only if the encoder overflows, an overrun if and only if what is written would leave the buffer |
| CredentialSeal.ChunksPrint | src/fido/credential.c:102-151 | the items appended, joined, are the printed map |
| CredentialSeal.UpdatedCredential | src/fido/cbor_cred_mgmt.c:431-436 | an updated credential keeps its sign-count member if and only if that was true |
| CredentialSeal.SignCountAppears | src/fido/cbor_cred_mgmt.c:431-436 | an update that gives a credential created without a sign count one |
| CredentialSeal.IdsRecreate | src/fido/cbor_cred_mgmt.c:429-441 | the printer and parser meet what the one-credential-per-user results ask of re-creation |
| CredentialSeal.ResidentIdIs | src/fido/credential.c:428-442 | a resident id byte by byte: four bytes of the device's hash, the mark, two zeros, the id's hash; two ids get one resident id if and only if their hashes agree |
| CredentialSeal.IdsMark | src/fido/credential.c:428-442 | resident ids and loadable ids meet what the search results ask of them |
| CredentialSearch.CollectedExact | src/fido/cbor_get_assertion.c:345-358 | what is collected comes from the first 16 loadable slots of the RP, in slot order, none left out but behind a full list |
| CredentialSearch.Collect | src/fido/cbor_get_assertion.c:344-360 | the search loop collects the first 16 credentials of the RP that load, in slot order |
| CredentialSearch.ListedExact | src/fido/cbor_get_assertion.c:289-343 | through an allow list the search finds what its members stand for, each in its turn, none left out but behind the one that ends it |
| CredentialSearch.GivenIff | src/fido/cbor_get_assertion.c:288-360 | a member of the allow list gives a credential if and only if it is of the public-key type and its id stands for it: a resident id for what the first file of the RP with that id that loads holds, any other for the credential sealed in it |
| CredentialSearch.NeverOnDevice | src/fido/cbor_get_assertion.c:325-335 | the id of a credential never starts a file that begins with a resident id, so it is never recognised as one on the device |
| CredentialSearch.AllGiven | src/fido/cbor_get_assertion.c:289-343 | so over the files of any run a complete allow list yields the credential of every member that stands for one |
| CredentialSearch.ResidentIff | src/fido/cbor_get_assertion.c:288-360 | over the files of any run, what is found counts as on the device if and only if there is no allow list or a member of it names its credential by resident id |
| CredentialSearch.SearchedLoads | src/fido/cbor_get_assertion.c:287-360 | everything found loads for the RP from the id kept with it |
| CredentialSearch.FindStored | src/fido/cbor_get_assertion.c:298-316 | the loop finds the first file under a resident id whose credential loads |
| CredentialSearch.CollectListed | src/fido/cbor_get_assertion.c:289-343 | the loop over the allow list has the search's result, its early end and its refusal of incomplete members included |
| Assertions.EligibleExact | src/fido/cbor_get_assertion.c:361-388 | the filter keeps each entry as often as it occurs if credProtect allows it, and never otherwise |
| Assertions.Compact | src/fido/cbor_get_assertion.c:361-388 | the in-place compaction leaves exactly the filtered list in its first places |
| Assertions.SwapKeeps | src/fido/cbor_get_assertion.c:427-431 | one exchange keeps the entries, the settled places and the lead of place i |
| Assertions.SortNewestFirst | src/fido/cbor_get_assertion.c:424-434 | the exchange sort leaves a permutation in non-increasing creation order |
| Assertions.NextRefines | src/fido/cbor_get_assertion.c:45-79 | the list of credentials and the list's length as the token results see it take the same steps |
| Assertions.OpenRefines | src/fido/cbor_get_assertion.c:287-486 | the token results are about these lists: refused for want of credentials exactly when the search yields none that may be asserted, otherwise the same reply and the same list left |
| Assertions.Iteration | src/fido/cbor_get_assertion.c:45-79 | timely requests hand out the rest of the list in order under the opening's flags; then all is cleared and every request refused |
| Assertions.FullIteration | src/fido/cbor_get_assertion.c:287-493 | first and next answers together are newest first and hold every credential found exactly as often as credProtect allows, with or without an allow list |
| Assertions.InterruptionEnds | src/fido/cbor_get_assertion.c:45-79 | a request that is late or cannot be signed ends the list for good: it and every later one get nothing |
| Assertions.AnswersAreProper | src/fido/cbor_get_assertion.c:361-388 | over every run of openings, with allow lists and without, and next requests, every answer is a credential that loads for the RP it is given for and that credProtect allows under the flag it carries |
| Assertions.ProtectedNeedsVerification | src/fido/cbor_get_assertion.c:364-366 | so a credential that requires user verification is never answered without the user-verified flag |
| Protection.SelectedExactly | src/fido/cbor_get_assertion.c:361-388 | selected is every entry found, as often as found, but without verification none of level 3, and of level 2 only with an allow list; newest first |
| Protection.OpeningMeans | src/fido/cbor_get_assertion.c:361-505 | with n entries not withheld: none is refused, but for the silent request; otherwise the newest is answered under the request's flags, and with several their number is reported and they become the list, unless one answer is all there is |
| Protection.AllNotWithheldShown | src/fido/cbor_get_assertion.c:45-79 | a getAssertion and its timely next requests show every entry found that is not withheld, as often as found, and no other |
| Protection.AnswersHaveOpenings | src/fido/cbor_get_assertion.c:361-388 | over every run each answer is an entry that one opening of the run found, for its RP and flags, and is not of level 3 without that opening's verification, nor of level 2 without verification and allow list |
| Assertions.Desk.Select | src/fido/cbor_get_assertion.c:287-434 | search, compact and sort: a permutation of what was found and credProtect allows, newest first |
| Assertions.Desk.GetAssertion | src/fido/cbor_get_assertion.c:287-493 | the search, and the newest answered with the number found; refusals and the silent answer included |
| Assertions.Desk.Conclude | src/fido/cbor_get_assertion.c:390-493 | the list is kept only when there are several to hand out, otherwise the old one stays |
| Assertions.Desk.GetNextAssertion | src/fido/cbor_get_assertion.c:45-79 | one next request has the effect of the step, clearing included |
| Clock.TestIsRight | src/fido/cbor_get_assertion.c:52-54 | the 30-second test is right about real time if and only if the deadline falls into the same turn of the millisecond counter, or by chance in a later one |
| Clock.ExpiredAtOnce | src/fido/cbor_get_assertion.c:52-54 | a list left in the last 30 seconds of a turn is found expired at once |
| Clock.ForgottenByWrap | src/fido/cbor_get_assertion.c:52-54 | one left before that is not found expired just after the counter has wrapped |
| Clock.TwoRuns | src/fido/cbor_get_assertion.c:52-54 | both happen: a list refused in the millisecond it was left, and one handed out two minutes later |
| Clock.InTimeIsTimely | src/fido/cbor_get_assertion.c:51-61 | requests in time whose deadlines do not cross a turn are what the results about whole iterations ask for |
| OlderLists.OlderListStays | src/fido/cbor_get_assertion.c:465-486 | after two openings of which the first left a list, the next request is answered from the second's list if it left one, and otherwise from the first's, for its RP |
| OlderLists.OlderRpIsAnswered | src/fido/cbor_get_assertion.c:465-486 | a run in which the RP answered is not the RP of the last getAssertion |
| OlderLists.BogusAnswers | src/fido/cbor_get_assertion.c:288-288 | a request that wants presence is answered without a credential if and only if it has no options, nothing in its allow list loads and a silent tag verifies |
| OlderLists.PresenceIsAnsweredBogus | src/fido/cbor_get_assertion.c:390-421 | such a request |
| JointDevice.StepProjects | src/fido/cbor_get_assertion.c:45-493 | token, list and files together take the steps the token results are about, with what the search finds in the files at that time |
| JointDevice.ListIsOf | src/fido/cbor_get_assertion.c:469-486 | a list with something left holds the entries that the last getAssertion that left one selected |
| JointDevice.ProtectedIsBacked | src/fido/cbor_get_assertion.c:260-388 | over every run, the files changing in between: an answer with a credential that requires user verification carries the flag, loads for its RP, was selected by the getAssertion it answers, and that was authorised by a token granted for the stored PIN or a matching finger |
| LargeBlobs.StepKeeps | src/fido/cbor_large_blobs.c:98-159 | every request keeps received at most expected at most 2048, and a file it writes is sound and at most 2048 bytes |
| LargeBlobs.AcceptedIff | src/fido/cbor_large_blobs.c:98-142 | a fragment is taken if and only if it is well-formed and in its place, does not pass the end, and is MACed over 32 times FF, 0C 00, the offset as four bytes and the fragment's hash, with a token that has the fifth permission |
| LargeBlobs.OnlyAcceptedWrites | src/fido/cbor_large_blobs.c:143-156 | nothing else changes the file, adds to the buffer or is answered as done |
| LargeBlobs.Store.constructor | src/fido/fido.c:488-491 | a device without the file starts from the 17-byte empty array |
| LargeBlobs.Store.CheckHeader | src/fido/cbor_large_blobs.c:99-127 | an acceptable first fragment starts over before any authentication; others must continue at the expected offset |
| LargeBlobs.Store.Append | src/fido/cbor_large_blobs.c:143-148 | the fragment lands in the buffer right behind what was received |
| LargeBlobs.Store.Commit | src/fido/cbor_large_blobs.c:148-156 | the complete buffer becomes the file if and only if it is 17 bytes or ends in its truncated hash |
| LargeBlobs.Store.Write | src/fido/cbor_large_blobs.c:98-159 | the buffer, the two counters and the file follow the step on the received bytes |
| LargeBlobs.Store.Handle | src/fido/cbor_large_blobs.c:72-169 | one request, read or write, refused or not, follows the step |
| LargeBlobs.RunKeeps | src/fido/cbor_large_blobs.c:148-156 | after every request sequence the file is the one there was, 17 bytes long, or ends in the first 16 bytes of the SHA-256 of the rest |
| LargeBlobs.BufferIsFragments | src/fido/cbor_large_blobs.c:143-147 | the received bytes are the fragments accepted since the last beginning, joined in order |
| LargeBlobs.FileStep | src/fido/cbor_large_blobs.c:148-156 | the file changes only at an accepted fragment that completes a sound blob |
| LargeBlobs.FileIsOneAssembly | src/fido/cbor_large_blobs.c:98-159 | the file is the one there was, or one blob made of the authorised fragments of a single assembly |
| LargeBlobs.RefusalKeeps | src/fido/cbor_large_blobs.c:102-142 | a refusal leaves the file, and the assembly too unless an acceptable first fragment already discarded it |
| LargeBlobs.RefusedRestart | src/fido/cbor_large_blobs.c:99-142 | an event refused before its fragment is taken changes the state if and only if it restarts an assembly, authorised or not |
| LargeBlobs.UnauthorisedRestartDiscards | src/fido/cbor_large_blobs.c:99-142 | ten bytes of twenty discarded by a first fragment without authorisation |
| LargeBlobs.LongReads | src/fido/cbor_large_blobs.c:83-97 | a read is refused for everything but the length asked for, and returns more than 960 bytes if and only if so many are asked for and there |
| LargeBlobs.LongReadIsAnswered | src/fido/cbor_large_blobs.c:83-97 | a read of 961 bytes that is answered |
| LargeBlobs.WritesCommit | src/fido/cbor_large_blobs.c:98-159 | any cut of a blob into non-empty fragments is accepted throughout if and only if the blob is sound, and only then stored |
| LargeBlobs.ReadsAll | src/fido/cbor_large_blobs.c:83-97 | consecutive reads in any chunks give the file from the first offset on and change nothing |
| LargeBlobs.WriteThenRead | src/fido/cbor_large_blobs.c:72-169 | from any state a sound blob written in any cut reads back unchanged; an unsound one leaves the file alone |
| OtpCrc.CalculateCrc | src/fido/otp.c:189-202 | the bit loop computes the CRC that the results below are about |
| OtpCrc.ShiftsLinear | src/fido/otp.c:193-199 | the bit loop is linear in the register |
| OtpCrc.ShiftInjective | src/fido/otp.c:193-199 | the bit loop loses no information |
| OtpCrc.TwoBytes | src/fido/otp.c:191-200 | feeding two bytes is sixteen turns on the register combined with both |
| OtpCrc.Residue | src/fido/otp.c:293-294 | the CRC over a message and two more bytes is 0xF0B8 if and only if these are the complement of the message's CRC, low byte first |
| OtpCrc.AdjacentErrors | src/fido/otp.c:189-202 | two messages of one length that differ at most in two adjacent bytes have one CRC if and only if they are equal |
| OtpCrc.PassesIffSealed | src/fido/otp.c:379-382 | a configuration passes its check if and only if it ends in the complement of the CRC of the rest |
| OtpCrc.DamageIsNoticed | src/fido/otp.c:575-576 | a sealed message passes, and damage to two adjacent bytes never does |
| OtpFrames.StepValid | src/fido/otp.c:586-667 | what waits to be sent always lies inside the 70-byte buffer |
| OtpFrames.Keyboard.SendFrame | src/fido/otp.c:574-584 | the complement of the CRC is put behind the frame and the packet count is the rounded-up seventh of its length |
| OtpFrames.Keyboard.Poll | src/fido/otp.c:640-667 | a packet while bytes wait, one terminator after the last, the status record otherwise |
| OtpFrames.Keyboard.Store | src/fido/otp.c:594-598 | a packet lands at its place; packet 0 clears the buffer first |
| OtpFrames.Keyboard.Clear | src/fido/otp.c:589-593 | a reset report clears the frame to send and its counters |
| OtpFrames.Keyboard.Complete | src/fido/otp.c:599-625 | a complete frame executes its command if and only if the payload's CRC is the word behind the slot byte; the command may change the receive buffer |
| OtpFrames.Keyboard.Report | src/fido/otp.c:586-631 | one report from the host follows the step: reset, packet, last packet or nothing |
| OtpFrames.Drains | src/fido/otp.c:645-654 | as many polls as packets hand out exactly the waiting bytes, consecutively numbered, zero-filled at the end |
| OtpFrames.FrameArrives | src/fido/otp.c:574-663 | a frame of n bytes arrives whole in the rounded-up seventh of n + 2 packets numbered from 0, with a CRC that passes; then comes one terminator and, however often it is polled, the status record |
| OtpFrames.TerminatorOnce | src/fido/otp.c:655-663 | when all packets are out, one terminator and only status records after it, in any number of polls |
| OtpFrames.PutChunk | src/fido/otp.c:598-598 | a packet changes its own seven bytes of the receive buffer and no others |
| OtpFrames.MiddleFills | src/fido/otp.c:594-598 | packets 1 to 8 in any order and number fill in exactly the chunks they carry and cause nothing else |
| OtpFrames.DeliveryRebuilds | src/fido/otp.c:594-631 | packet 0 first, 9 last, only all-zero ones omitted: the frame is rebuilt over any old content, and executed if and only if it checks |
| OtpFrames.ExecutedIff | src/fido/otp.c:604-625 | a rebuilt frame is executed, as the command of its slot on its 64 bytes, if and only if the word at 65 is the CRC of these bytes; any other changes nothing |
| OtpFrames.HostFrameIsExecuted | src/fido/otp.c:594-631 | the host's frame delivered whole is executed for its slot, and refused with up to two adjacent bytes of the payload damaged |
| OtpFrames.SlotIsNotCovered | src/fido/otp.c:604-605 | the CRC does not cover the slot byte |
| OtpFrames.AnswerArrives | src/fido/otp.c:586-663 | from command to answer: the host's frame delivered whole is executed, and the polls then hand out exactly its answer, sealed, one terminator and status records |
| OtpFrames.NoAnswer | src/fido/otp.c:616-623 | an empty answer leaves to the host what was waiting before |
| OtpFrames.OtherReports | src/fido/otp.c:586-598 | a report ending in FF drops all that waits, one that is no packet of a frame changes nothing, and packets 0 to 8 only fill their place |
| OtpCounter.Otp.Initialise | src/fido/otp.c:161-182 | once for each power-up every OTP slot counts it, within fifteen bits |
| OtpCounter.Otp.EmitTicket | src/fido/otp.c:269-318 | a ticket carries the counter, at least 1, and the session counter; the file and the session counter afterwards |
| OtpCounter.Otp.ButtonPressed | src/fido/otp.c:205-318 | a press initialises first and then acts by the slot's kind |
| OtpCounter.PressEmits | src/fido/otp.c:269-318 | a press emits the announced pair and the next one is larger |
| OtpCounter.PressMeans | src/fido/otp.c:161-318 | what a press does by the slot's kind, and for an OTP slot the counters of its ticket and those it leaves, in 16, 15 and 8 bits |
| OtpCounter.StepOrdered | src/fido/otp.c:161-318 | every regular event keeps all emitted pairs below the next one |
| OtpCounter.RunIncreases | src/fido/otp.c:161-318 | over every regular run the pairs a slot emits strictly increase, across the session wrap, the start at 0 and power-ups |
| OtpCounter.PressTwice | src/fido/otp.c:307-311 | of two presses in a row the second pair is larger if and only if not both counters are at their ends |
| OtpCounter.PressAcrossPowerUp | src/fido/otp.c:170-176 | across a power-up it is larger if and only if the stored counter is below 0x7fff |
| OtpCounter.PressAfterStatus | src/fido/otp.c:336-340 | after a power-up and a status query it is larger if and only if the first press itself moved the counter |
| OtpCounter.StatusRepeatsPair | src/fido/otp.c:336-340 | a run in which the same pair is emitted twice |
| BioSlots.ScanIsExact | src/fido/biometric.c:64-83 | the scan that stops at the count marks every slot that loads if and only if the count covers them all |
| BioSlots.StepHolds | src/fido/biometric.c:48-85 | a cache marked valid equals the sensor's memory after every request, however late the sensor worker is |
| BioSlots.StepOrderly | src/fido/cbor_bio_enroll.c:302-409 | whatever is late: queued enrolments stay for different free slots, a pending slot stays free and not queued for, and nothing is overwritten, if no begin hands out a slot queued for |
| BioSlots.GuardedNeverOverwrites | src/fido/cbor_bio_enroll.c:302-409 | so it is over every run of begin, capture, cancel, remove, list, wipe, fingerprint checks and late answers whose begins hand out no slot with an enrolment in the queue |
| BioSlots.GuardIsExact | src/fido/cbor_bio_enroll.c:302-341 | a begin and a capture can overwrite a model, for some answers of the sensor, if and only if that begin does and the queue has room |
| BioSlots.LateEnrolmentOverwrites | src/fido/cbor_bio_enroll.c:331-341 | a run in which a capture that was given up and its successor store two models in one slot |
| BioSlots.AnswersAreTheSensors | src/fido/biometric.c:422-455 | listing names exactly the occupied slots; a new enrolment gets the lowest free one and is refused if and only if all are occupied, or the sensor does not say |
| BioSlots.ListedExact | src/fido/biometric.c:430-437 | a listing holds each used slot once, in ascending order |
| BioSlots.WorkMeans | src/fido/biometric.c:182-259 | after the worker has worked, each slot is as the last done enrolment, removal or wipe for it has left it, and as before if there was none |
| BioSlots.CheckMeans | src/fido/cbor_client_pin.c:319-345 | what a fingerprint check hands on: a match only for a check that was done, a time-out for one that timed out or was cancelled and for an enrolment that timed out, nothing when the wait runs out, and no check behind a full queue |
| BioSlots.CheckKeeps | src/fido/biometric.c:182-259 | a check that is answered in time changes nothing |
| BioSlots.CaptureAnswers | src/fido/cbor_bio_enroll.c:318-349 | with any queue: a capture succeeds if and only if the first command reported on is a done enrolment, its own or an earlier one's, and the enrolment begun is over |
| BioSlots.DeleteAnswers | src/fido/cbor_bio_enroll.c:390-409 | a removal is refused if and only if the slot is not used or not known, and succeeds if and only if the first command reported on is a done removal |
| BioSlots.ClearAnswers | src/fido/biometric.c:250-259 | deleting all succeeds if and only if the first command reported on is its own and done |
| BioSlots.CancelMeans | src/fido/cbor_bio_enroll.c:350-357 | after a cancel a capture is refused until the next begin, and nothing else has changed |
| BioSlots.DeleteMeans | src/fido/cbor_bio_enroll.c:390-409 | a removal answered in time succeeds if and only if the slot is used, known and the sensor has done it; then that slot and no other is free, and it is not listed any more |
| BioSlots.CaptureMeans | src/fido/cbor_bio_enroll.c:318-349 | an enrolment finished in time uses the slot handed out and no other, if and only if the sensor has done it |
| BioSlots.ClearMeans | src/fido/biometric.c:250-259 | deleting all in time leaves every slot free if and only if the sensor has done it |
| BioSlots.Slots.constructor | src/fido/biometric.c:301-315 | the module starts with the sensor's count and an invalid cache |
| BioSlots.Slots.Scan | src/fido/biometric.c:64-79 | the loop marks the first count slots that load and returns how many it found |
| BioSlots.Slots.RefreshSlotCache | src/fido/biometric.c:48-85 | with any answers of the sensor: the marked slots, the corrected count, a valid cache; nothing when the count fails |
| BioSlots.Slots.GetTemplateIds | src/fido/biometric.c:422-438 | the ids written are the listing of the refreshed cache; none when the cache cannot be refreshed |
| BioSlots.Slots.GetNextFree | src/fido/biometric.c:440-455 | the first unused slot of the refreshed cache; none when there is none or the cache cannot be refreshed |
| BioSlots.Slots.EnrollBegin | src/fido/cbor_bio_enroll.c:302-316 | begin reserves the lowest free slot or reports a full database, also when the sensor gives no count |
| BioSlots.Slots.RunNext | src/fido/biometric.c:182-259 | one command of the sensor worker: what it changes, that enrol and remove invalidate the cache, and that the count stays if the sensor does not give it |
| BioSlots.Slots.Wait | src/fido/cbor_bio_enroll.c:331-341 | the worker works through its queue while a request waits |
| BioSlots.Slots.CaptureNext | src/fido/cbor_bio_enroll.c:318-349 | capture clears the pending enrolment in every case and answers by the first event it sees |
| BioSlots.Slots.EnrollCancel | src/fido/cbor_bio_enroll.c:350-357 | cancel drops a pending enrolment or reports that there is none |
| BioSlots.Slots.RemoveEnrollment | src/fido/cbor_bio_enroll.c:390-409 | only a template known to exist is removed, and a pending enrolment of that slot with it |
| BioSlots.Slots.CheckFinger | src/fido/cbor_client_pin.c:319-345 | a fingerprint check takes its turn in the same queue, and its verdict is the first event it sees |
| Basics.Cut | src/fido/cbor_bio_enroll.c:99-99 | the name shown is what stands before the first NUL |
| BioNames.SavedFits | src/fido/cbor_bio_enroll.c:163-170 | the saved size is at most 10665 bytes and fits 16 bits |
| BioNames.Names.ClearCache | src/fido/cbor_bio_enroll.c:110-113 | every slot is blank and unnamed |
| BioNames.Names.Take | src/fido/cbor_bio_enroll.c:139-144 | an entry is taken only for an existing slot and a name of 1 to 63 bytes |
| BioNames.Names.Load | src/fido/cbor_bio_enroll.c:115-148 | on any file content the loop ends within the file with the table the parser specifies |
| BioNames.Names.Needed | src/fido/cbor_bio_enroll.c:163-170 | the size computed first is the size written |
| BioNames.Names.Fill | src/fido/cbor_bio_enroll.c:176-191 | the buffer is filled exactly, with header and entries in slot order |
| BioNames.Names.Save | src/fido/cbor_bio_enroll.c:156-201 | an unread table is loaded first, then the file is the table's saved form; without the file, or when the write fails, it stays as it was |
| BioNames.Names.SetFriendlyName | src/fido/cbor_bio_enroll.c:381-387 | a name of up to 63 bytes is set, and saved if that works; a longer one changes nothing |
| BioNames.Names.Forget | src/fido/cbor_bio_enroll.c:405-407 | the slot loses its name in RAM and, if saving works, in the file |
| BioNames.KeptIsShown | src/fido/cbor_bio_enroll.c:184-184 | cutting at 63 bytes loses nothing of a terminated name |
| BioNames.NamesSurvive | src/fido/cbor_bio_enroll.c:115-201 | after save and load every slot shows the same name |
| BioNames.LoadedTerminated | src/fido/cbor_bio_enroll.c:135-147 | whatever the file holds, every loaded buffer is terminated |
| BioNames.SetNameSurvives | src/fido/cbor_bio_enroll.c:373-388 | a name set shows after a restart up to its first NUL, a forgotten one is gone, the others are as before |
| BioNames.FileShows | src/fido/cbor_bio_enroll.c:115-148 | any file with the right beginning shows for each slot the last entry of 1 to 63 bytes, up to its first NUL, an unfinished entry at the end left out |
| BioNames.OtherFileShowsNothing | src/fido/cbor_bio_enroll.c:128-130 | a file with any other beginning shows no name |

## Left out

- Cryptography itself (ECDSA, ECDH, AES, ChaCha20-Poly1305, HMAC, HKDF, SHA-256, X.509) and the uniqueness of its outputs beyond the stated laws.
- Device lock, backup and vendor commands: they expect a 32-byte device key and a peer that is not part of this model.
- OATH, U2F, getInfo, selection, reset, the metadata and retries subcommands, makeCredential beyond its token check: little state of their own.
- The flash driver, power loss between two writes, failing flash writes, USB transport, LED and button waits: not part of this model.
- Parsing of requests, and the MAC and permission checks of credential management and of bio enrolment: commands arrive parsed, and those two authorised.
- The token's usage timers, which nothing reads, and the key pair regenerated after a wrong PIN.
- Memory management of credentials: they are values, so aliasing and double release are not captured.
- ClientPinDevice.Authenticator.AttemptPin: models changePIN and getPinToken alike; they store the PIN file and seal the key in opposite orders, which only a power loss in between could tell apart.
- ClientPinDevice.Authenticator.GrantToken: fingerprint and PIN grants share it; the response's encryption is not modelled.
- ClientPinDevice.Authenticator.ResetPinUvAuthToken: the flash write and the RAM reference into the file are one value here.
- KeyConservation.RunConserves: does not speak of a 32-byte legacy file starting with 1 on a device without a 34-byte PIN file, where the property fails as `KeyConservation.LegacyFormatByte` says.
- PinPolicy.MinPinMonotone: requires requested lengths below 256, since `PinPolicy.MinPinFalls` shows where it fails otherwise.
- Tokens.MacAccepts: a MAC shorter than the compared length is refused, where the firmware would compare bytes behind it.
- CredentialStore.RunKeepsOnePerUser: requires user ids of one length and RP ids without NUL, since it fails otherwise.
- CredentialManagement.FullEnumeration: requires that every credential loads with a usable key and that there are at most 255 RPs and 255 credentials for each, since the byte cursors fail beyond.
- CredentialId.PrintRoundTrip: the parser covers the items the printer writes and skips unknown scalar and string members; definite-length maps and nested unknown values are refused.
- CredentialSeal.Load: an id with the current mark and fewer than 48 bytes is refused here, where the firmware's unsigned length would wrap around.
- CredentialSeal.LoadsForItsRpOnly: that no other text seals to the same bytes is left to the cipher.
- StoredFiles.DeletedIsGone: requires user ids of one length and RP ids without NUL, like `CredentialStore.RunKeepsOnePerUser`; a deleted credential still loads from its own sealed id in an allow list, as in the firmware.
- CredentialSeal.Create: what an overrun of the buffer destroys is not modelled, nor the narrowing of algorithm and curve to int in an update.
- CredentialSeal.IdsRecreate: an update whose new id would overrun the buffer counts as refused here.
- Assertions.Desk.GetAssertion: requires at most 16 ids in the allow list, the size of the array they are parsed into; a resident id shorter than 42 bytes names nothing here; files in the older layout without a resident id are not modelled.
- LargeBlobs.Store.Handle: refusals carry no code, since the firmware reports all of them as one.
- OtpCounter.RunIncreases: configuring, updating and swapping slots are excluded; an update drops the counter bytes and a swap leaves the session counters behind. HOTP and static slots are modelled only as not emitting pairs.
- OtpFrames.Keyboard.Report: the executed command is a parameter, by its answer and by what it leaves in the receive buffer; the reserved bits of the sequence byte are ignored as in the firmware.
- BioSlots.GuardedNeverOverwrites: what the sensor answers is true, though it may give no count; a scan is one step, so that the sensor worker may interleave with a scan is not captured; an idle worker takes a command at once, as it has while a request waits, so that the instant between two commands, in which the queue of two has a place less, is not captured either.
