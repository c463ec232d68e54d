# Crypto-USB: a verified model

Crypto-USB encrypts files onto a USB stick as `.cusc` containers, keeps a protected
metadata record for each, and lets an authenticated user view them under device, machine,
expiry and one-time rules. This project models that life of a protected file and of the
credentials guarding it, and proves what no input and no run can break.

There are two levels. The byte level follows the stored formats, the strings authentication
tags are computed over, the usage log and the volume byte for byte; hashes and ciphers are
arbitrary functions there, and "no forgery" or "no collision" is always a hypothesis about
the values at hand. The symbolic level follows the services: a ciphertext is a term holding
its key and plaintext, random draws are parameters whose freshness is a hypothesis on the run,
the clock is a parameter for each place the code reads it, and so is whether a call into a
library raises. `StoredBytes` joins the two: what the services store as terms, the volume
holds as bytes. Objects the code updates in place are classes; each method is proved against
a step function; lemmas named `...Exactly` and `...Explained` say what that function means in
terms of the stored fields alone, and the run theorems are about it too.

| part | files |
|---|---|
| byte strings, text, numerals | `Results`, `Bytes`, `Text`, `Decimal`, `MacInputs` |
| stored formats and the volume | `FileContainer`, `PortableEnvelope`, `SecureContainer`, `StorageWriter`, `PortableRepository`, `StoredBytes` |
| records and usage log under their tags | `RecordProtection`, `TamperEvidentLog`, `Tracking` |
| lockout and throttle | `Lockout`, `Throttle` |
| keys, buffers, devices | `KeyWrapping`, `SecureMemory`, `FileCrypto`, `DeviceIdentity` |
| one attempt and whole runs | `Metadata`, `Validation`, `Controller`, `OneTime`, `Rebind`, `Storage`, `Access`, `AccessRuns` |
| accounts and the vault master key | `VaultKeys`, `Accounts`, `AccountRuns` |
| the decoy PDF | `Pdf` |

`hide` statements in some proofs only keep definitions from the solver where the proof does
not need them.

## Where the code and its documentation differ

The model follows the code. Each difference has a lemma or a contract.

- `verify_chain` alone does not catch every change of an entry: bytes may move between nonce
  and ciphertext where the ciphertext holds a `|`. Opening the entries catches it
  (`TamperEvidentLog.ChainAloneMissesResplit`, `ChainAloneIffPrefix`).
- The policy check and the device key do not always agree. They agree on every reading exactly
  when all four recorded fields are present, non-empty and free of `|`
  (`DeviceIdentity.PolicyAndKeyAgreeExactly`). With an unread hardware field some accepted
  device cannot derive the key (`AcceptedDevicesDeriveTheKey`); with a `|` in a vendor token a
  rejected one can (`SeparatorLetsAnotherDeviceDeriveTheKey`).
- Loading protection keys with a stale vault key replaces the master key instead of failing
  (`AccountRuns.StaleLoadLosesMasterKey`).
- A one-time file is not burned when the view raises or when wrapping the decoy does, although
  it was shown; a copy outside the mirrors stays readable, and so does a row put back from
  before the burn (`AccessRuns.UnfinishedViewIsRepeatable`, `UnmirroredCopyStillOpens`,
  `RolledBackRowOpensAgain`).
- Burning wipes buffers copied from the session keys; the keys the caller holds stay as they
  were (`OneTime.WipeCopy`, `OneTimeAccessEnforcer.Burn`).
- The page's rebind button presents the selected device as both the old and the new one, so a
  file bound to a device and no machine can only be re-enrolled on a device with the same
  fingerprint (`Rebind.OneDevicePresentedTwiceMovesNothing`).

## Model

| member | source | states |
|---|---|---|
| Lockout.CountersFollowFailures | security/lockout_policy.py:24-43 | Over any history of guesses the stored counters equal the number and time of counted failures since the last success, and each counted failure waited out the lockout before it |
| Lockout.GuessRateBound | security/lockout_policy.py:16-43 | The n-th failure is counted at least 30*(2^(n-5)-1) seconds after the fifth for n up to 12 and at least 3810+3600*(n-12) seconds after it beyond |
| Lockout.BoundIsTight | security/lockout_policy.py:33-38 | A guesser retrying at each deadline attains that bound exactly, for every n |
| Throttle.DeviceMismatchThrottle.IsLocked | security/device_mismatch_throttle.py:55-59 | Locked exactly while the file's own deadline lies ahead |
| Throttle.DeviceMismatchThrottle.RemainingSeconds | security/device_mismatch_throttle.py:61-66 | Whole seconds left, zero when unlocked |
| Throttle.DeviceMismatchThrottle.RegisterMismatch | security/device_mismatch_throttle.py:68-74 | Counts one mismatch for this file by the shared lockout rule and leaves other files alone |
| Throttle.DeviceMismatchThrottle.RegisterSuccess | security/device_mismatch_throttle.py:76-80 | Clears a known file's counters and creates none |
| Throttle.ThrottleRefinesLockout | security/device_mismatch_throttle.py:32-80 | After any interleaving over files, a file's state is the account lockout run on that file's matches and mismatches alone |
| Throttle.ProbeRateBound | security/device_mismatch_throttle.py:68-80 | Probing one file with devices obeys the same rate bound, whatever happens on other files |
| Text.DecodesWhatWasEncoded | usb/secure_container.py:63-117 | The UTF-8 encoding of every file id decodes to it |
| Text.OnlyEncodingsDecode | usb/secure_container.py:117 | Strict decoding accepts nothing but encodings |
| FileContainer.ParsesPrinted | crypto/file_encryptor.py:39-88 | What parsing recovers from any printed file container, the unprefixed nonce being the first twelve bytes after the key |
| FileContainer.RoundTripExactly | crypto/file_encryptor.py:39-88 | The file container round-trips exactly when its nonce has twelve bytes (or is shorter and followed by nothing) |
| FileContainer.FileAcceptsExactly | crypto/file_encryptor.py:62-88 | Exactly which bytes parse as a file container |
| FileContainer.FileFields | crypto/file_encryptor.py:39-57 | Where each field of a printed file container stands and how long it is |
| PortableEnvelope.ReadsPrintedRecord | usb/secure_container.py:150-186 | A printed record section reads back wherever it stands, taking the file id it is given |
| PortableEnvelope.EnvelopeRoundTrip | metadata/portable_envelope.py:42-112 | Every portable envelope within its field widths parses back to itself |
| PortableEnvelope.RecordFields | usb/secure_container.py:150-161 | Where version, nonce, tag and ciphertext of a printed record stand |
| PortableEnvelope.EnvelopeFields | metadata/portable_envelope.py:42-66 | Where file id, salt and record of a printed portable envelope stand |
| PortableEnvelope.EnvelopeAcceptsExactly | metadata/portable_envelope.py:68-112 | Exactly which bytes parse as a portable envelope |
| SecureContainer.BothVersionsParse | usb/secure_container.py:61-147 | Both format versions of every printable container parse, to the container with the outer file id on its record |
| SecureContainer.RoundTrip | usb/secure_container.py:61-147 | Serializing a well-formed container succeeds and parsing gives it back through all nested sections |
| SecureContainer.RoundTripNeeds | usb/secure_container.py:61-186 | For a printable container the equal file id and the nonce size are exactly what the round trip needs |
| SecureContainer.OldVersionParses | usb/secure_container.py:19-23 | A version-1 layout parses to the same container without a portable section |
| SecureContainer.SerializationInjective | usb/secure_container.py:61-86 | Equal payloads come from equal containers |
| SecureContainer.SerializesExactly | usb/secure_container.py:61-86 | Serializing succeeds exactly for a container whose every field fits its width |
| SecureContainer.ContainerFields | usb/secure_container.py:61-86 | Where each section of a payload stands, and that its last 32 bytes are the hash of all before |
| SecureContainer.ContainerAcceptsExactly | usb/secure_container.py:88-147 | Exactly which bytes parse: long enough, under their own hash, magic, version 1 or 2, sections that parse; short data and a wrong hash have errors of their own |
| SecureContainer.DamageIsDetected | usb/secure_container.py:95-100 | A payload whose body or checksum was changed fails the hash check unless two bodies collide |
| SecureContainer.ChecksumNamesThePayload | usb/secure_container.py:95-100 | Without a collision the one payload that parses under a container's checksum is that container's |
| StorageWriter.PutAtomically | usb/storage_writer.py:77-90 | It succeeds exactly without a fault on the way; under any fault the volume passes only through states with the old or the whole new file, others untouched |
| StorageWriter.WriteContainer | usb/storage_writer.py:37-103 | An existing file is never changed without overwrite; a normal return means the bytes on the volume are the payload and parse to the container; a crash at any instant leaves the old bytes or the whole payload |
| StorageWriter.WriteSucceedsExactly | usb/storage_writer.py:50-103 | For which container, device, name, overwrite flag and faults a write succeeds, exactly |
| StorageWriter.RewriteInPlace | usb/storage_writer.py:105-137 | The same safety under faults and crashes for a rewrite, without the read-back check |
| StorageWriter.VerifyContainer | usb/storage_writer.py:144-163 | True exactly when the file exists, equals what was written and parses |
| StorageWriter.CrashLeavesOldOrNew | usb/storage_writer.py:1-8 | If every state since a write began is old or new, then after a crash at any instant, losing whatever was unsynced, the destination holds its old bytes or all the new ones and other files are as before |
| PortableRepository.PortableMetadataRepository.Load | metadata/portable_repository.py:50-54 | Returns the portable record only for its own file id |
| PortableRepository.PortableMetadataRepository.Save | metadata/portable_repository.py:56-62 | Replaces the record and keeps the salt; the file on the volume becomes the new container or stays, the object's container changes either way |
| PortableRepository.SavesChangeOnlyTheRecord | metadata/portable_repository.py:50-62 | After any sequence of saves the container parses to the same id, content, local record and salt, loading returns the last record, and the content bytes hashed are the same |
| PortableRepository.SaveInTurn | metadata/portable_repository.py:56-62 | Through any sequence of saves, whichever fail and wherever, the bytes on the volume parse to the original container with the record of the last save that succeeded |
| StoredBytes.StoredReadsBack | usb/secure_storage_service.py:193-233 | Every stored container that can be serialized reads back from its bytes as the same file id, file, record and portable copy |
| StoredBytes.WriteStored | usb/secure_storage_service.py:193-208 | A successful write leaves bytes that stand for the new container beside all the others; a failed one leaves every container readable as it was unless the medium lied |
| RecordProtection.UnprotectsWhatWasProtected | metadata/protection.py:109-139 | Unprotect undoes protect |
| RecordProtection.AcceptedWasIssued | metadata/protection.py:98-139 | With unforged tags and ids without a separator, any accepted envelope is one protect issued, and the record's id and version are the envelope's |
| RecordProtection.MovedRecordsAreRejected | metadata/protection.py:124-137 | An issued envelope presented under another file id or version is rejected |
| RecordProtection.SeparatorInIdIsAmbiguous | metadata/protection.py:99-107 | With a separator in the id a different envelope passes the same tag, whatever the ciphertext, and is reported tampered exactly when the cipher itself rejects it |
| TamperEvidentLog.VerifyChain | tracking/tamper_evident_log.py:112-136 | Ok exactly when every link holds; otherwise reports the length of the longest intact prefix |
| TamperEvidentLog.HonestLogReadsBack | tracking/tamper_evident_log.py:84-110 | Every log built by sealing verifies and opens to the sealed records in order |
| TamperEvidentLog.AcceptedIffPrefix | tracking/tamper_evident_log.py:99-136 | With no forged and no repeated tag, a list verifies and opens exactly when it is a prefix of the honest log |
| TamperEvidentLog.ChainAloneIffPrefix | tracking/tamper_evident_log.py:112-136 | The chain check alone needs only twelve-byte nonces for the same equivalence |
| TamperEvidentLog.ChainAloneMissesResplit | tracking/tamper_evident_log.py:81-82 | Otherwise a changed entry passes the chain check wherever a ciphertext holds the separator, and opening rejects it |
| Tracking.TrackingRepository.LastEntryMac | tracking/repository.py:54-60 | The last tag, or the chain root for an empty log |
| Tracking.TrackingRepository.Append | tracking/repository.py:62-78 | Adds one entry at the end and keeps the rest |
| Tracking.TrackingRepository.Clear | tracking/repository.py:95-103 | Empties the whole log and reports how many entries went |
| Tracking.UsageTracker.StartSession | tracking/tracking_service.py:47-60 | A new record with the identity fields and login time set and nothing else |
| Tracking.UsageTracker.RecordClose | tracking/tracking_service.py:87-104 | Completes the record and appends exactly it, keeping the table the honest chain of all sealed records |
| Tracking.UsageTracker.RecordDeviceRebind | tracking/tracking_service.py:106-153 | Appends one instantaneous rebind entry with exactly these fields, keeping the chain |
| Tracking.UsageTracker.ReadAllRecords | tracking/tracking_service.py:155-159 | On the tracker's own table returns the sealed records in order; fails only if the log is not accepted |
| Tracking.UsageTracker.VerifyLogIntegrity | tracking/tracking_service.py:161-165 | The tracker's own log always verifies in full |
| KeyWrapping.UnwrapExactly | crypto/key_wrapper.py:74-120 | Unwrapping recovers the key exactly for the same device layers around the matching private key, and otherwise nothing |
| KeyWrapping.UnwrapFindsCarriedKey | crypto/key_wrapper.py:80-120 | Whatever unwraps is the key carried inside all layers |
| SecureMemory.SecureBytes.Reveal | crypto/secure_bytes.py:34-50 | Reveals the contents until destroyed and an error after |
| SecureMemory.SecureBytes.Destroy | crypto/secure_bytes.py:51-56 | Afterwards the buffer is marked destroyed and every byte is zero |
| SecureMemory.ManagedKey.Material | crypto/key_manager.py:80-83 | The material while active and an error once destroyed |
| SecureMemory.ManagedKey.Destroy | crypto/key_manager.py:85-95 | Afterwards inactive and its buffer all zero, also when called again |
| SecureMemory.ZeroInPlace | usb/secure_container.py:222-223 | Every byte of the array becomes zero |
| FileCrypto.OpensOwnFiles | crypto/file_encryptor.py:97-117 | Decrypting what was encrypted gives the plaintext exactly for a matching wrapper |
| FileCrypto.WrapAndDestroy | metadata/one_time_access.py:103-107 | A key is wrapped from a buffer that is destroyed whether wrapping returns or raises |
| FileCrypto.FileEncryptor.EncryptBytes | crypto/file_encryptor.py:97-110 | The sealed file, or the error of the cipher or of key wrapping; the key buffer was made on every exit and is destroyed on all |
| FileCrypto.FileEncryptor.DecryptBytes | crypto/file_encryptor.py:112-117 | The plaintext or the exact failure, with every key buffer destroyed either way |
| FileCrypto.SecureDecryptor.OpenDecrypted | crypto/secure_decryptor.py:44-66 | The callback sees exactly the plaintext; no buffer outlives the scope, whether it returns or raises |
| FileCrypto.VerifyContainerDeep | usb/secure_container.py:189-231 | Succeeds exactly when content and record both open, leaving no key or plaintext behind |
| DeviceIdentity.DeviceBindingValidator.Validate | validation/device_binding_validator.py:63-84 | The result records exactly the specified checks and is ok exactly when all are true |
| DeviceIdentity.DeviceBindingValidator.CheckDevice | validation/device_binding_validator.py:87-154 | The USB checks for each combination of recorded and presented identity |
| DeviceIdentity.ChecksPassIffAccepted | validation/device_binding_validator.py:63-154 | All checks pass exactly when every recorded device field and the machine match |
| DeviceIdentity.ChecksPassExactly | validation/device_binding_validator.py:63-154 | Exactly what the checks ask of a reading, field by field, for current, older and unbound records |
| DeviceIdentity.AcceptedDevicesDeriveTheKey | validation/usb_identifier.py:136-165 | Every accepted device derives the enrolled device's key exactly when all three hardware fields were recorded |
| DeviceIdentity.PolicyAgreesWithDeviceKey | validation/usb_identifier.py:136-165 | With plainly recorded fields, acceptance coincides with an equal fingerprint |
| DeviceIdentity.PolicyAndKeyAgreeExactly | validation/usb_identifier.py:136-165 | Acceptance coincides with an equal fingerprint on every reading exactly when all four recorded fields are present, non-empty and free of the separator |
| DeviceIdentity.SeparatorLetsAnotherDeviceDeriveTheKey | validation/usb_identifier.py:158-165 | Whenever a vendor token holds a separator, a rejected device whose tokens divide there has the enrolled fingerprint |
| Metadata.UnprotectExactly | metadata/protection.py:109-139 | A protected record opens exactly under its own keys |
| Metadata.MetadataRepository.Load | metadata/repository.py:71-86 | The stored envelope of that file, if any |
| Metadata.MetadataRepository.Save | metadata/repository.py:47-69 | Stores the envelope under its file id, replacing only that row |
| Metadata.SaveEverywhere | metadata/one_time_access.py:115-118 | The primary and every mirror get the same envelope, aliases included |
| Validation.ValidationEngine.Validate | validation/validation_engine.py:83-151 | The report holds exactly the specified checks and is ok exactly when every one is true |
| Validation.ValidationEngine.ValidatePolicy | validation/validation_engine.py:175-199 | The three policy checks, read-only |
| Validation.ValidationEngine.CopyChecks | validation/validation_engine.py:138-140 | All device checks are added unchanged to the report |
| Validation.PassesIffAdmitted | validation/validation_engine.py:83-151 | Every check passes exactly when the row opens under the keys and its record admits the attempt |
| Validation.FailuresAreExplained | usb/secure_access_service.py:161-179 | For every failing report exactly when each trigger is chosen; the final fallback is unreachable |
| Controller.MetadataController.Read | metadata/controller.py:70-76 | The record, or which of not found, tampered and invalid it is |
| Controller.MetadataController.RecordAccess | metadata/controller.py:89-98 | Saves the counted record exactly when the policy allows it and it stays valid, and nothing otherwise |
| Controller.EngineAndControllerAgree | metadata/controller.py:100-121 | At one instant the engine's policy checks all pass exactly when enforcing raises nothing |
| Controller.CountIsExact | metadata/controller.py:89-121 | From a new record the count equals the successes, within the limit and at most one for one-time files |
| Controller.AccessSucceedsExactly | metadata/controller.py:89-121 | Exactly when an access to a valid record is counted, what changes, and which error it is otherwise |
| Controller.CountReachesTheLimit | metadata/controller.py:89-121 | Before expiry under a sane clock the count is exactly the smaller of the calls and the limit |
| Controller.ReadsOwnRecords | metadata/controller.py:70-76 | A protected record reads back under its own keys alone, and only while valid |
| OneTime.OneTimeAccessEnforcer.Burn | metadata/one_time_access.py:75-124 | Decoy key, count zero and rotated keys in every copy; a reusable file, or an error while wrapping the decoy, changes nothing; no key buffer survives any exit and the session keys are untouched |
| OneTime.WipeCopy | metadata/one_time_access.py:111-113 | The buffer copied from a session key is destroyed and the key itself is as before |
| OneTime.BurnLeavesChecksUnchanged | metadata/one_time_access.py:13-31 | Under the rotated keys every later validation reports the same checks as before the burn |
| OneTime.OldKeysSeeTampering | metadata/one_time_access.py:80-91 | Under any other keys a burned record reports tampering |
| OneTime.BurnedRecordNeverOpens | metadata/one_time_access.py:101-107 | No wrapper opens the content through a burned record |
| Rebind.DeviceRebindService.RebindDevice | metadata/device_rebind.py:95-174 | A wrong passphrase, and any other failure even after the file key was unwrapped, changes neither record nor repositories; after a success every repository holds the rebound record under the given keys; the key buffer was made and is destroyed either way |
| Rebind.RebindSucceedsExactly | metadata/device_rebind.py:119-151 | A rebind of an enrolled record succeeds exactly with the key file's own passphrase, the owner's key pair, wrapping that does not raise and, without a machine binding, the enrolled fingerprint presented; which error comes first otherwise |
| Rebind.OneDevicePresentedTwiceMovesNothing | ui/pages/decryption_page.py:794-803 | Presenting one device as old and new succeeds for a device-only file only if it has the enrolled fingerprint, and leaves the wrapped key as it was |
| Rebind.RebindsKeepTheKey | metadata/device_rebind.py:119-162 | Any sequence of rebinds keeps the file key, the machine binding and the rest of the record, enrolled on the last device that succeeded |
| Rebind.NewestDeviceOpens | metadata/device_rebind.py:119-162 | Then the newest device is accepted and reaches the key, and for a device-only file a device with another fingerprint reaches nothing |
| Storage.SecureStorageService.DeviceBindingAndWrapper | usb/secure_storage_service.py:266-314 | The binding names the target machine, the current one or none as asked, and the device read or nothing; the wrapper gets a device layer only for a device without a machine |
| Storage.SecureStorageService.StoreFile | usb/secure_storage_service.py:116-223 | The outcome for every combination of faults, what the device and the repository then hold, that the returned keys open the saved record, and that no key buffer survives |
| Storage.StoresExactly | usb/secure_storage_service.py:153-208 | Exactly when storing succeeds and which error comes first otherwise |
| Storage.StoreIsReadable | usb/secure_storage_service.py:167-223 | After a successful store the keys in the result, the caller's if it gave any, open one record in repository and container that says what was asked; the portable copy opens under its own keys; nothing else changed |
| Storage.SecureStorageService.ReadEncryptedFileBytes | usb/secure_storage_service.py:225-233 | The stored file id and encrypted bytes |
| Storage.SecureStorageService.VerifyStoredFile | usb/secure_storage_service.py:235-264 | True exactly when content and record open under the presented arguments |
| Storage.StoredContainerVerifies | usb/secure_storage_service.py:235-264 | A stored container verifies under its own arguments and not under a device with another fingerprint |
| Storage.StoredBindingAccepted | usb/secure_storage_service.py:266-314 | A binding accepts the readings it was built from, and is device-only exactly for the device axis without a machine |
| Access.SecureAccessService.AttemptAccess | usb/secure_access_service.py:239-446 | The whole effect on every repository, the throttle, the viewer and the device is the step function's, as are the answer and the usage record; keys handed out with a grant open the row left behind and report the same checks; no key or plaintext buffer survives |
| Access.SecureAccessService.ViewAndBurn | usb/secure_access_service.py:368-446 | Decrypt, show, burn and delete after validation, for each ending |
| Access.GrantedKeysOpenTheRow | usb/secure_access_service.py:413-445 | Keys handed out with a grant open the row then standing in the primary and, after a one-time view, in every mirror, with the same checks as before under the keys presented |
| AccessRuns.ShownOnlyToTheRightDevice | usb/secure_access_service.py:324-386 | One attempt shows content only if the record found admits it, and for a device-only file only to the device its key layer was made for |
| AccessRuns.StoredFileShownExactly | usb/secure_access_service.py:301-446 | The exact conditions under which a freshly stored file is shown, the content then being the plaintext |
| AccessRuns.StoreThenView | usb/secure_storage_service.py:116-233 | What storing left, read back from the path in the result and attempted with the keys in the result, is granted and shown unchanged under every binding on the device and machine asked for; so is the portable copy under its keys |
| AccessRuns.AnswersExplained | usb/secure_access_service.py:291-446 | Exactly which answer each attempt gets |
| AccessRuns.MalformedMeansTampering | metadata/controller.py:123-146 | A readable record is reported as tampering exactly for the malformations listed |
| AccessRuns.SessionsRecordTheAttempt | usb/secure_access_service.py:311-361 | What the usage record of an attempt says, field by field |
| AccessRuns.OnlyACompletedBurnDeletes | usb/secure_access_service.py:416-430 | A container disappears exactly after a completed one-time view naming it |
| AccessRuns.AttemptIsThrottleEvent | usb/secure_access_service.py:301-361 | An attempt counts a mismatch only when not locked and only for a device mismatch |
| AccessRuns.StoreInWorld | usb/secure_storage_service.py:116-223 | Storing through the service has on all repositories and the device the effect of a run's store step |
| AccessRuns.RebindInWorld | ui/pages/decryption_page.py:770-803 | Loading a record and rebinding it through the service has the effect of a run's rebind step |
| AccessRuns.StepKeepsInv | usb/secure_access_service.py:301-446 | Storing, viewing, rebinding and tampering (noise, relabelled bodies and tags, rows copied between repositories, deletion) each keep the invariant over all copies |
| AccessRuns.ViewedAtMostOnce | usb/secure_access_service.py:301-446 | In every run a one-time file is shown at most once, and nothing is ever shown but the file's own plaintext |
| AccessRuns.ShownToTheRightDeviceOnly | usb/secure_access_service.py:301-446 | In every run content is shown only for an unspent file before its own expiry, on the current or target machine the order asked for, to a reading accepted as a device the file is enrolled on, with that device's fingerprint when it is bound to no machine |
| AccessRuns.ShownExactly | usb/secure_access_service.py:301-446 | In every run the exact conditions under which an attempt on a readable row is shown |
| AccessRuns.OnlyTheNewDevice | metadata/device_rebind.py:119-162 | After a rebind that reached every copy, whatever else happens until a rebind of the file succeeds again, only a reading that passes for the new device is shown it |
| AccessRuns.SpentFilesStayClosed | metadata/one_time_access.py:75-124 | After that view every further attempt on any copy with any arguments is deceived, and reports the access as used if it passes validation |
| AccessRuns.GrantedKeysOpenWhatStands | usb/secure_access_service.py:413-445 | In every run the keys granted open the row that then stands in the primary and, after a one-time view, in every mirror, with unchanged checks |
| AccessRuns.AttemptsAlwaysParse | usb/secure_access_service.py:368 | In every run no attempt escapes with a parse error after validation |
| AccessRuns.ReusableFilesKeepTheirKey | metadata/device_rebind.py:137-151 | In every run each readable copy of a reusable file keeps its own key, machine binding and every other field but its device |
| AccessRuns.ThrottleCountsMismatchesOnly | usb/secure_access_service.py:301-361 | In every run a file's throttle state is the lockout policy run on its own matches and mismatches |
| AccessRuns.UnfinishedViewIsRepeatable | usb/secure_access_service.py:388-421 | A view that raises, or whose burn raises, was shown, changes no record and can be repeated |
| AccessRuns.UnmirroredCopyStillOpens | metadata/one_time_access.py:58-70 | A copy outside primary and mirrors still opens after the burn |
| AccessRuns.RolledBackRowOpensAgain | metadata/one_time_access.py:75-124 | A row put back from before the burn is shown again |
| VaultKeys.AppMeta.Load | app/protection_keys.py:64-81 | The wrapped value exactly when both rows exist and the key opens them |
| VaultKeys.AppMeta.Save | app/protection_keys.py:84-94 | Both rows of the slot replaced, no other |
| VaultKeys.AppMeta.LoadOrCreateMasterKey | app/protection_keys.py:97-114 | The existing master key, or a drawn one saved in the password slot |
| VaultKeys.AppMeta.EstablishMasterKey | app/protection_keys.py:143-152 | Both slots wrap the one master key |
| VaultKeys.AppMeta.LoadOrCreateProtectionKeys | app/protection_keys.py:155-194 | The stored pair if both halves open, otherwise a drawn pair now stored |
| VaultKeys.LoadKeepsMasterKey | app/protection_keys.py:97-194 | A load keeps the master key reachable exactly when the vault key opens the password slot |
| VaultKeys.LoadStoresPair | app/protection_keys.py:155-194 | After a load the returned pair is stored under the master key, newly drawn only if none was, and the other purpose's pair is untouched |
| VaultKeys.MixedRowsStayShut | app/protection_keys.py:64-81 | The rows of two different saves do not open together |
| Accounts.LockoutPolicy.RegisterFailure | security/lockout_policy.py:33-38 | One more failure and, from the fifth, the doubling capped deadline |
| Accounts.LockoutPolicy.RegisterSuccess | security/lockout_policy.py:40-43 | Counters cleared and the login time set |
| Accounts.AuthController.RequireUnlocked | security/auth_controller.py:413-430 | Missing and locked accounts change nothing, a wrong method counts as a failure, otherwise the stored account |
| Accounts.OutcomesExplained | security/auth_controller.py:133-454 | For every operation exactly which outcome it has, by the scrypt digests and the enrolled public key alone: real keys only for what fits, decoys for what does not |
| Accounts.WrongAttemptsExplained | security/auth_controller.py:413-454 | A wrong attempt adds one failure with its deadline and changes nothing else; a refused one changes nothing |
| Accounts.SignInsExplained | security/auth_controller.py:146-152 | A sign-in clears the counters, keeps a present wrap salt and hands out the key stretched from what was presented under it |
| Accounts.ConfirmationsExplained | security/auth_controller.py:240-305 | A confirmation only clears counters; a deletion removes the account, every record and the log and no other account |
| Accounts.ReplacementsExplained | security/auth_controller.py:201-351 | After a change or reset the new password and code fit; a weak password changes nothing |
| Accounts.RegistrationExplained | security/auth_controller.py:84-110 | Registration makes an account its password and code fit, and refuses an existing owner or a weak password |
| Accounts.AuthController.RegisterPasswordAccount | security/auth_controller.py:84-110 | The account and both slots as the step function has them; existing accounts and weak passwords change nothing |
| Accounts.AuthController.RegisterPrivateKeyAccount | security/auth_controller.py:112-129 | A private-key account without recovery code, never replacing one |
| Accounts.AuthController.AuthenticatePassword | security/auth_controller.py:133-161 | A session exactly for a password whose scrypt is the stored digest on an unlocked password account, with the effect of the step function |
| Accounts.AuthController.AuthenticatePrivateKey | security/auth_controller.py:163-197 | A session with the key of that pair, passphrase and stored salt exactly for a loading key file of the enrolled pair on an unlocked key account; another key gets a decoy and one more failure |
| Accounts.AuthController.ChangeOwnPassword | security/auth_controller.py:201-238 | Password change as the step function has it, rows and account together |
| Accounts.AuthController.VerifyOwnPassword | security/auth_controller.py:240-263 | Confirmed exactly for the right password, with lockout accounting and no other effect |
| Accounts.AuthController.DeleteOwnAccount | security/auth_controller.py:265-305 | Deletion after confirmation, clearing records and log |
| Accounts.AuthController.ResetPasswordWithRecoveryCode | security/auth_controller.py:307-351 | Recovery reset as the step function has it |
| AccountRuns.OneLockoutForAll | security/auth_controller.py:413-454 | Through any mixture of operations the counters are the lockout policy run on all guesses together |
| AccountRuns.GuessRateAcrossEntryPoints | security/auth_controller.py:413-454 | The guess-rate bound holds however guesses are spread over the entry points |
| AccountRuns.RegistrationGuards | security/auth_controller.py:84-110 | Registration leaves one master key reachable from both slots |
| AccountRuns.OperationKeepsMasterKey | security/auth_controller.py:355-411 | Every operation that keeps the account keeps the master key under the current password and code, and every stored pair |
| AccountRuns.LoginYieldsTheVaultKey | security/auth_controller.py:146-152 | A login hands out exactly the vault key that opens the password slot |
| AccountRuns.MasterKeySurvives | app/protection_keys.py:97-152 | Until deletion any sequence of operations and loads keeps one master key in both slots |
| AccountRuns.LoadsAgree | app/protection_keys.py:155-194 | Every load with the current vault key returns the same pair across any rotations |
| AccountRuns.StaleLoadLosesMasterKey | app/protection_keys.py:97-114 | A load keeps the guard exactly when its vault key is the current one |
| AccountRuns.NextEpochIsFresh | security/auth_controller.py:84-110 | After deletion a registration with a new salt guards a newly drawn master key |
| Decimal.PaddedDenotes | deception/content_generators.py:90-91 | A padded numeral denotes its number and has the width exactly when the number fits it |
| Pdf.UnescapeUndoesEscape | deception/content_generators.py:64-66 | Unescaping an escaped line gives it back and leaves no parenthesis bare |
| Pdf.EntryIsTwentyBytes | deception/content_generators.py:90-91 | A table entry is twenty bytes exactly for offsets below ten digits and its numeral is the offset |
| Pdf.GeneratePdf | deception/content_generators.py:58-96 | Every object stands where its table entry says, the table where startxref says, and the trailer ends the file |
| Pdf.ObjectsAreLabelled | deception/content_generators.py:70-80 | Object k stands in the file beginning with its own number |
| Pdf.ReaderFindsTheTable | deception/content_generators.py:86-95 | The last numeral of the file denotes where the table stands |
| Pdf.ReaderFindsTheObject | deception/content_generators.py:82-91 | Each table entry denotes where its object stands with its number |
| Pdf.FileShowsTheText | deception/content_generators.py:61-80 | The stream of object 5 has the length its entry denotes and, read back and unescaped, shows the lines in order |
| Pdf.StreamLengthIsExact | deception/content_generators.py:77-79 | The length entry counts exactly the bytes between the stream keywords |

## Left out

- The Qt user interface but for how the rebind button loads a record and calls the service; the viewer, screen capture protection and `app/main.py`.
- Real cryptography and its key sizes beyond AES: RSA, scrypt, HKDF, SHA-256, HMAC and AES-GCM are functions or terms.
- SQLite, SQLCipher and schema migration: repositories are maps and sequences.
- Windows probes, device detection and the writability probe: their readings are inputs, so `compute_usb_identifier` and the parsing of device ids are not modelled.
- JSON and base64 encodings of records: a codec that decodes what it encodes.
- Deception content, its event store and the PNG, corrupted-data and metadata decoys: only which trigger is chosen, and the PDF.
- Log messages, failure reasons as text, timing and constant-time comparison.
- Lone surrogates in file ids: characters are Unicode scalar values, so encoding never fails.
- Record fields no rule reads: `allow_multiple_devices` and `notes`.
- `MetadataController.create`, `update` and `delete`: they add no rule of their own.
- Python traits of the two repository kinds: the access service is modelled over one repository class, and the portable one is proved separately to load what it saved.
- Failures half-way through saving to mirrors, and a crash between saving an account and rewrapping its slots.
- A rebind of a record loaded before a burn: the rebind step of a run reloads the record first, as the user interface does.
- Several accounts sharing one database: the master-key runs concern a single owner, as the program has.
- StorageWriter.RewriteInPlace: does not promise that the medium kept the bytes, because the code does not read them back.
- Storage.SecureStorageService.StoreFile: writes containers as terms; that the bytes written stand for them is StoredBytes.WriteStored, and what a write that fails its read-back leaves on the volume is not part of the term-level device.
- AccessRuns.ViewedAtMostOnce: speaks of runs in which a one-time view completes and reaches every copy and nobody restores an earlier row; for each of these a lemma shows that without it the file is shown twice.
