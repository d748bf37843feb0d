# GPG Meister: verified models

Dafny models of the parts of GPG Meister that are hardest to get right, with proofs:

- **The lock file and the chained audit log.** Any number of processes open, flock, compare, close and unlink one lock file, one system call at a time. On top of that lock every emit re-scans the tail of the log, appends a record carrying `prev_hash` and `seq`, and rewrites the tip file. (`LockProtocol`, `FileLock`, `AuditTail`, `AuditChain`, `AuditRuns`, `AuditLog`, `AuditInterleaving`, `AuditAtomic`)
- **Vaults.** The outer frame, the segmented payload inside it, the in-place conversion of legacy payloads, key slots, and the whole way from collected keys to an opened vault. (`VaultModel` … `VaultService`)
- **The scripted GnuPG driver.** Answer queues on the heap, shared by several prompts, and the loop that answers a chunked status stream from them. (`CardScripts`, `PromptScript`, `PromptDriver`)
- **Unlock slots.** Enrolment with rollback when any step fails, and the slot-trying loops. (`UnlockSlots`, `UnlockStore`, `KeyUnlock`)
- **Folder archives.** Tree to member list to tree, arbitrary crafted archives, staging and rename. (`FolderTree`, `FolderUnpack`, `FolderRoundTrip`)
- **Two small algorithms.** The device-graph search and the TOML printer. (`BlockGraph`, `Toml`)

Code that changes state in the application is a class or a loop here, tied by its `ensures` to a specification function; what the application promises is proved about that function. Pure code is functions and lemmas. Faults (a failing write, a refused flock, a slot that does not insert, a system call that fails) are inputs, so every statement ranges over all of them. Cryptography, JSON, msgpack and SQLite are abstract: their laws are the predicates `VaultSeal.Ideal`, `VaultSeal.KeyBound`, `VaultFrame.FaithfulHeader`, `VaultPayload.FaithfulManifest`, `AuditChain.Faithful` and `AuditChain.CollisionFree`. Collision freedom is only ever assumed of the lines of the logs at hand. `KeyBound` says that a ciphertext opens under no other key than its own; it is an idealisation of sealing under independent random keys, which ChaCha20-Poly1305 and AES-GCM do not promise of ciphertexts crafted to open under two keys. Only the results that say what wrong credentials get, and which row of the slot table a secret came from, use it. `IdealWitness` shows that the cryptographic laws are consistent.

Nothing here was executed; all statements are checked by Dafny's verifier. `dafny verify dfyconfig.toml` checks the project.

## Where the code does not do what one would expect

Each of these is proved. Where an expected property can fail, the exact condition under which it holds is proved too.

- `release` unlocks before it unlinks (`file_lock.py` 162-168). Two exclusive holders at once are reachable (`TwoHoldersReachable`), and from *any* state in which an unlink removes the path under a holder, an idle process can become a second one (`OrphanBreaksExclusion`). Exclusion holds in every run without such an unlink (`ExclusionWithoutOrphans`); holders stay linked to the path exactly in those runs (`LinkedIffNeverOrphans`). With the unlink first and all locks exclusive no condition is needed (`UnlinkFirstExcludes`).
- `verify_chain` skips over records without `prev_hash` that come before the first chained one, and looks at the tip only if it met a chained one. Under an unchanged tip it therefore approves a file exactly if, after whatever such records it starts with, the file has the very records of the log's chain, or none (`ChainDeterminesHistory`, `PassesForLog`): emptying the log, replacing it by unchained records (`UnchainedLogPasses`) and inserting unchained records in front (`FrontInsertionPasses`) go unnoticed, any other edit of its records is found. Empty lines do not count as records.
- The audit log relies on the lock. With the scan, the append and the tip write of every emit interleaved in any way with every call on the lock file, and no assumption on who holds what, `verify_chain` (without a tip file) approves the log exactly if every landing write found as many records as its object's own scan (`ApprovedIffCurrent`); with the tip file as the run left it, exactly if moreover no tip was written or the last one written is that of the last record (`VerdictOfAnyRun`). Runs in which no release orphans a holder satisfy the first condition (`NeverOrphansIsCurrent`). A run in which one does, without any failing write, may violate it and end in a log that `verify_chain` rejects (`OrphanBreaksTheLog`), or not (`OrphanNeedNotBreak`).
- The 64 KiB tail scan agrees with a scan of the whole file exactly when the last record, with the whitespace after it, fits in the chunk, or the chunk is nothing but whitespace (`TailScanExact`).
- `balanced_params` has `time_cost` 4, above the import limit of 3: a vault sealed under it can never be opened by its passphrase again (`CreateOpenV2`, `CreateOpenV3`; `ShippedProfiles` compares the profile with the limits).
- A legacy payload with a key that carries no armor is always refused, whether other keys carry armor or not (`PartialArmorRefused`).
- `keytocard_script` checks the admin PIN but not the key passphrase; a newline in it makes one answer read as two (`OneLinePerAnswer`).
- A folder with a backslash in some packed name packs but does not unpack (`PackUnpack`, `PackThenExtract`).
- The TOML printer leaves U+007F in strings as it is, which TOML does not allow; the dump is then not TOML (`DumpParse`).
- The nonce-length check after decryption (`vault_service.py` 1008-1009) cannot fire (`VaultService.NonceAlreadyChecked`).
- A failed enrolment leaves a key behind exactly when storing the slots failed and deleting the key failed too (`CreateKeyWithToken`).

## Model

| member | source | states |
|---|---|---|
| LockProtocol.FlocksExcludeAlways | src/gpg_meister/storage/file_lock.py:80-168 | in every interleaving, under either release order, an exclusive flock on an inode excludes every other flock on it |
| LockProtocol.LinkedIffNeverOrphans | src/gpg_meister/storage/file_lock.py:147-168 | along a run, every holder's inode stays the path's inode if and only if no unlink removes the path under a holder |
| LockProtocol.ExclusionWithoutOrphans | src/gpg_meister/storage/file_lock.py:80-168 | from any start, after any run without such an unlink, an exclusive holder is the only holder |
| LockProtocol.OrphanBreaksExclusion | src/gpg_meister/storage/file_lock.py:147-168 | right after any such unlink, any idle process can complete an acquire beside the holder: the condition is exact |
| LockProtocol.TwoHoldersReachable | src/gpg_meister/storage/file_lock.py:147-168 | three exclusive processes reach two holders from the initial state |
| LockProtocol.UnlinkFirstExcludes | src/gpg_meister/storage/file_lock.py:147-168 | if all locks were exclusive and the unlink came before LOCK_UN, exclusion would hold in every run |
| FileLocks.FileLock.OpenLockFile | src/gpg_meister/storage/file_lock.py:80-92 | the open, interleaved with other processes, is a step of the protocol |
| FileLocks.FileLock.CompareOrReopen | src/gpg_meister/storage/file_lock.py:103-123 | the fstat/stat comparison and both re-open branches are steps of the protocol |
| FileLocks.FileLock.Turn | src/gpg_meister/storage/file_lock.py:93-123 | one turn of the retry loop ends as acquired, timed out, refused or still trying, with the descriptor to match |
| FileLocks.FileLock.Acquire | src/gpg_meister/storage/file_lock.py:55-123 | every acquire, with other processes stepping in between its system calls, extends a run of the protocol; it holds iff it reports so, a second acquire changes nothing, and an undisturbed one on a free lock succeeds at once |
| FileLocks.FileLock.Release | src/gpg_meister/storage/file_lock.py:147-168 | the run gains exactly this process's LOCK_UN, close and unlink, in this order, whatever fails, with only other processes' calls in between; without a descriptor nothing happens |
| FileLocks.FileLock.HolderIsAlone | src/gpg_meister/storage/file_lock.py:31-39 | the guarantee for callers: in a run without an orphaning unlink nobody else holds while this object holds exclusively |
| AuditTail.ScanLastRecord | src/gpg_meister/storage/audit_log.py:298-319 | the chunked scan with its full-scan fallback, as loops |
| AuditTail.FullScanIsLastRecord | src/gpg_meister/storage/audit_log.py:314-319 | the forward walk over the file finds the last non-blank line, stripped |
| AuditTail.TailScanExact | src/gpg_meister/storage/audit_log.py:289-322 | for every file and chunk size: fast scan = full scan if and only if the chunk covers the last record |
| AuditTail.TerminatedLineSuffices | src/gpg_meister/storage/audit_log.py:289-322 | a newline-terminated, trimmed last line that fits in the chunk is found |
| AuditChain.VerifyChain | src/gpg_meister/storage/audit_log.py:354-427 | the verifier's loop computes the walk that the results below are about, including where it stops or raises |
| AuditChain.WalkedIsLinked | src/gpg_meister/storage/audit_log.py:367-398 | once a chain has begun, a walk that gets through has seen each record name the hash of the one before |
| AuditChain.VerifiedIsLinked | src/gpg_meister/storage/audit_log.py:367-427 | the chain in a verified file is linked and the tip names its last record |
| AuditChain.SameHeadSameHistory | src/gpg_meister/storage/audit_log.py:386-398 | two linked record sequences with the same last hash are the same sequence |
| AuditChain.ChainDeterminesHistory | src/gpg_meister/storage/audit_log.py:354-427 | for every file put in place of a verified log with a chain, under an unchanged tip: it verifies if and only if, after its leading records without `prev_hash`, it has the same records, or none |
| AuditChain.PassesForLog | src/gpg_meister/storage/audit_log.py:354-427 | the same for a log of chained records only, as a split of the other file |
| AuditChain.UnchainedLogPasses | src/gpg_meister/storage/audit_log.py:381-400 | a file of records without `prev_hash` verifies under any tip |
| AuditChain.FrontInsertionPasses | src/gpg_meister/storage/audit_log.py:381-400 | a verified log still verifies with any such records in front |
| AuditRuns.ScanOfChain | src/gpg_meister/storage/audit_log.py:289-322 | scanning a well-formed log gives its last hash and the next number |
| AuditRuns.EmitKeepsChain | src/gpg_meister/storage/audit_log.py:213-274 | one emit, by any process and with any fault outcome, keeps files and counters what the hash-free reference says |
| AuditRuns.RunKeepsChain | src/gpg_meister/storage/audit_log.py:213-322 | in every run of emits of any number of processes that do not overlap, from an empty log, the file is exactly the chain over the landed records, numbered from 0 |
| AuditRuns.VerdictOfTip | src/gpg_meister/storage/audit_log.py:404-427 | a tip for record k approves the chain if and only if k is its last record |
| AuditRuns.VerdictOfRun | src/gpg_meister/storage/audit_log.py:354-427 | after any run of emits that do not overlap, verify_chain counts all landed records and approves iff nothing landed, no tip was ever written, or the last landed record's tip was |
| AuditLogs.Disk.HoldsChain | src/gpg_meister/storage/audit_log.py:213-274 | whatever objects and faults produced it, as long as their emits did not overlap, the log file's lines are the chain over the landed records |
| AuditLogs.OpenAuditLog | src/gpg_meister/storage/audit_log.py:174-201 | scan, then a first record: two steps of the run; there is no object if the lock is refused |
| AuditLogs.AuditLog.EmitRecord | src/gpg_meister/storage/audit_log.py:213-238 | emit, with the lock granted for the whole of it or refused, is one step of the run; it is refused only when the lock times out, and the drop counter follows the write's outcome |
| AuditLogs.AuditLog.WriteRecord | src/gpg_meister/storage/audit_log.py:240-274 | log, tip and the object's three counters after each of the write's outcomes |
| AuditLogs.AuditLog.ScanTailState | src/gpg_meister/storage/audit_log.py:289-322 | the object's hash and number are re-read from the file |
| AuditInterleaving.ProjectsToLocks | src/gpg_meister/storage/audit_log.py:232-238 | the calls on the lock file in an interleaved run of emits are a run of the lock protocol |
| AuditInterleaving.AnyRun | src/gpg_meister/storage/audit_log.py:213-322 | in every run of every interleaving, with faults, crashes and several holders: while every landing write was current the log is the chain of the landed records, and after one that was not no walk gets through it |
| AuditInterleaving.ApprovedIffCurrent | src/gpg_meister/storage/audit_log.py:213-401 | in every such run, verify_chain without a tip approves the log if and only if every landing write found as many records as its object's own scan |
| AuditInterleaving.VerdictOfAnyRun | src/gpg_meister/storage/audit_log.py:213-427 | the same with the tip file as the run left it: and moreover no tip was written, or the last one is that of the last record |
| AuditInterleaving.NeverOrphansIsCurrent | src/gpg_meister/storage/audit_log.py:232-238 | as long as no release orphans a holder, every landing write is current |
| AuditInterleaving.InterleavedKeepsChain | src/gpg_meister/storage/audit_log.py:213-322 | so with exclusive locks and without an orphaning unlink, log, tip and counters are those of the landed records |
| AuditInterleaving.OrphanBreaksTheLog | src/gpg_meister/storage/audit_log.py:213-274 | a run with an orphaning unlink and no failing write ends in a log that verify_chain rejects |
| AuditAtomic.OrphanNeedNotBreak | src/gpg_meister/storage/audit_log.py:213-274 | another run with the same orphaning unlink ends in a log of two records that verify_chain approves |
| AuditAtomic.AtomicIsInterleaved | src/gpg_meister/storage/audit_log.py:213-274 | every run of whole emits is an interleaved run without an orphaning unlink, with the same log, tip and counters |
| VaultModel.HexRoundTrip | src/gpg_meister/services/vault_service.py:248-284 | a fingerprint's hex digits survive the binary form, upper-cased |
| VaultModel.BytesRoundTrip | src/gpg_meister/services/vault_service.py:457-486 | binary fingerprints survive the hex form |
| VaultFrame.UnpackPack | src/gpg_meister/security/vault_format.py:69-155 | for every valid header, unpack of pack returns header, associated data and ciphertext if the ciphertext is non-empty, and the error for an empty one otherwise |
| VaultFrame.AcceptedIsLayout | src/gpg_meister/security/vault_format.py:93-155 | every accepted input is the byte layout rebuilt from the returned parts |
| VaultFrame.FramesPrefixFree | src/gpg_meister/security/vault_format.py:93-155 | no accepted frame is a proper prefix of another |
| VaultPayload.AppendKeyMaterial | src/gpg_meister/services/vault_service.py:248-264 | one key's segment is appended if its armor lengths are legal, else the buffer is untouched |
| VaultPayload.AppendAll | src/gpg_meister/services/vault_service.py:276-284 | the segments of all keys in order, if all are legal |
| VaultPayload.SerialisePayload | src/gpg_meister/services/vault_service.py:267-284 | manifest frame and key stream in a fresh buffer |
| VaultPayload.ReadKeyStream | src/gpg_meister/services/vault_service.py:442-454 | the offset loop computes the slice walk and rejects leftovers |
| VaultPayload.SliceBytes | src/gpg_meister/services/vault_service.py:457-486 | the bytes a slice was read from are exactly the segment of its material, and a private flag is backed by bytes |
| VaultPayload.WalkCovers | src/gpg_meister/services/vault_service.py:442-486 | a walk cuts its stretch of the payload into ordered, disjoint slices and their framing |
| VaultPayload.ExactCover | src/gpg_meister/services/vault_service.py:429-486 | every accepted payload has length 4 + manifest + the sum of 28 + public + private, with all slice bounds in range, ordered and disjoint |
| VaultPayload.LengthIsExact | src/gpg_meister/services/vault_service.py:429-454 | adding or dropping bytes after the manifest makes the reader reject |
| VaultRoundTrip.WalkOfSegments | src/gpg_meister/services/vault_service.py:442-486 | the walk accepts a written stream if and only if every entry matches its material |
| VaultRoundTrip.AcceptedIsWritten | src/gpg_meister/services/vault_service.py:429-486 | every accepted payload is the written form of its own manifest bytes and key material |
| VaultRoundTrip.PayloadRoundTrip | src/gpg_meister/services/vault_service.py:183-190 | a written payload reads back if and only if every private flag is backed by private armor; then each fingerprint yields its private bytes if any, else its public ones |
| VaultLegacy.PopKeyMaterial | src/gpg_meister/services/vault_service.py:370-397 | the armor of each raw entry, or the error of the first malformed one |
| VaultLegacy.ReplacePayload | src/gpg_meister/services/vault_service.py:400-426 | the caller's buffer holds the modern payload, or its old bytes on failure |
| VaultLegacy.RebuildPayload | src/gpg_meister/services/vault_service.py:310-367 | the conversion in the caller's buffer: the manifest and where the key stream starts, or the old bytes on failure |
| VaultLegacy.DeserialisePayload | src/gpg_meister/services/vault_service.py:429-454 | the buffer afterwards and what was read from it, legacy or modern |
| VaultLegacy.LegacyKeepsMeaning | src/gpg_meister/services/vault_service.py:310-437 | a legacy payload with armor everywhere is accepted if and only if lengths are legal and private flags backed; then manifest and per-key material are unchanged |
| VaultLegacy.PartialArmorRefused | src/gpg_meister/services/vault_service.py:310-397 | a legacy payload in which some entry lacks armor is refused |
| VaultSeal.WrapForKeys | src/gpg_meister/services/vault_service.py:1106-1137 | one slot per unlock key in order, or the error of the first unusable key |
| VaultSeal.UnwrapPassphraseSlot | src/gpg_meister/services/vault_service.py:592-618 | the first passphrase slot that opens, skipping what the code skips |
| VaultSeal.UnwrapOpenPgpSlot | src/gpg_meister/services/vault_service.py:1084-1104 | the first slot the card accepts |
| VaultSeal.RecoverVaultKey | src/gpg_meister/services/vault_service.py:1047-1082 | which unlock method is used for which header and credentials |
| VaultSeal.SealedUnpacks | src/gpg_meister/services/vault_service.py:509-589 | a sealed frame unpacks to the very associated data it was sealed with, although that came from packing an empty ciphertext |
| VaultSeal.CreateOpenV2 | src/gpg_meister/services/vault_service.py:489-540 | a version 2 frame opens with its passphrase to the payload if the KDF parameters are within the import limits, else it is refused for them |
| VaultSeal.AnyCardYieldsFileKey | src/gpg_meister/services/vault_service.py:1084-1104 | every OpenPGP slot yields the same file key, to exactly the cards that unlock one of them |
| VaultSeal.CreateOpenV3 | src/gpg_meister/services/vault_service.py:541-618 | a version 3 frame opens to its payload with any card for any unlock key, and with the master passphrase exactly within the import limits |
| VaultSeal.OnlyThatKeyV2 | src/gpg_meister/services/vault_service.py:1021-1082 | within the import limits a version 2 frame opens to exactly the passphrases that derive its key; all others are refused |
| VaultSeal.OnlyThoseCredentialsV3 | src/gpg_meister/services/vault_service.py:1021-1104 | the exact answer of a version 3 frame to every combination of passphrase and card |
| VaultService.EncryptUnder | src/gpg_meister/services/vault_service.py:509-589 | the plaintext buffer is zeroed once the ciphertext exists, and never altered otherwise |
| VaultService.EncryptPayload | src/gpg_meister/services/vault_service.py:509-540 | the version 2 frame, and a wiped plaintext |
| VaultService.EncryptPayloadWithSlots | src/gpg_meister/services/vault_service.py:541-589 | the version 3 frame, and a wiped plaintext |
| VaultService.OpenedVault.Close | src/gpg_meister/services/vault_service.py:192-198 | the whole plaintext is overwritten |
| VaultService.Open | src/gpg_meister/services/vault_service.py:978-1045 | succeeds exactly when the specification does, with its result; on every failure after decryption the plaintext has been overwritten |
| VaultService.EndToEndV3 | src/gpg_meister/services/vault_service.py:674-785 | from collected keys to an opened version 3 vault: same manifest, each key's own armor, with any one credential it was built for |
| VaultService.EndToEndV2 | src/gpg_meister/services/vault_service.py:674-785 | the same for version 2 and its passphrase |
| IdealWitness.IdealIsConsistent | src/gpg_meister/security/aead.py:44-80 | the laws assumed of the ciphers, the KDF and OpenPGP have an instance |
| CardScripts.QueueConserved | src/gpg_meister/services/card_scripts.py:75-104 | what a queue gave out, in order and across its aliases, plus what it holds is what it was built with |
| CardScripts.DialogueSafe | src/gpg_meister/services/card_scripts.py:71-104 | any dialogue of a disciplined script hands secrets only to secret prompts, and "y" to replace only if allowed |
| CardScripts.ScriptSafety | src/gpg_meister/services/card_scripts.py:136-224 | all four builders build such scripts: safe for every sequence of prompts GnuPG may send |
| CardScripts.SecretsInOrder | src/gpg_meister/services/card_scripts.py:48-54 | secrets are handed out in queued order across the aliases, each at most once |
| CardScripts.OneLinePerAnswer | src/gpg_meister/services/card_scripts.py:124-224 | every answer is one line if and only if the inputs the builder does not check have no newline |
| CardScripts.PendingCounts | src/gpg_meister/services/card_scripts.py:105-108 | after any conversation, pending tells how many answers of each keyword were not asked for, and is empty iff every queue was handed out to the end |
| PromptScripts.PromptScript.Add | src/gpg_meister/services/card_scripts.py:75-81 | the heap object follows the value model: the keyword's queue gains the answers |
| PromptScripts.PromptScript.Share | src/gpg_meister/services/card_scripts.py:83-96 | all keywords name one new queue object |
| PromptScripts.PromptScript.Take | src/gpg_meister/services/card_scripts.py:98-103 | the next answer leaves the queue, for every keyword that names it |
| PromptScripts.PromptScript.PendingAnswers | src/gpg_meister/services/card_scripts.py:105-108 | the counts of the value model |
| PromptScripts.PromptScript.Wipe | src/gpg_meister/services/card_scripts.py:110-115 | every buffer ever added, handed out or not, is all zero |
| PromptScripts.BuildScript | src/gpg_meister/services/card_scripts.py:136-224 | the builders' objects are the scripts the results above are about, or a refused pin |
| PromptDriver.WriteAll | src/gpg_meister/services/gpg_service.py:464-474 | all of the data despite short writes, or a proper beginning of it and an error |
| PromptDriver.DialogueAppend | src/gpg_meister/services/gpg_service.py:645-666 | a dialogue over more prompts extends the one over fewer, and stops for good at the first unanswered prompt |
| PromptDriver.NextPrompt | src/gpg_meister/services/gpg_service.py:655-663 | answering one more prompt keeps what is written equal to the reference |
| PromptDriver.AnswerPrompt | src/gpg_meister/services/gpg_service.py:655-663 | the answer and its newline are written, or the command pipe is closed when there is none |
| PromptDriver.HandleLine | src/gpg_meister/services/gpg_service.py:650-666 | one status line keeps in step with the reference |
| PromptDriver.HandleBuffer | src/gpg_meister/services/gpg_service.py:647-666 | every complete line in the buffer is handled in order and only the unterminated rest is kept |
| PromptDriver.Converse | src/gpg_meister/services/gpg_service.py:640-666 | the same over all chunks until the stream ends or a write fails |
| PromptDriver.AnswerPrompts | src/gpg_meister/services/gpg_service.py:623-674 | for every stream and every way of cutting it into chunks: the bytes written are the scripted answers up to the first unanswered prompt, which the outcome names; both descriptors are closed exactly once |
| UnlockSlots.TokenRoundTrip | src/gpg_meister/security/key_unlock.py:164-213 | a secret wrapped under a token's answer is unwrapped by that answer |
| UnlockSlots.PassphraseRoundTrip | src/gpg_meister/security/key_unlock.py:104-156 | a secret wrapped under a passphrase is unwrapped by it, with no import limits |
| UnlockStore.MetadataStore.AddUnlockSlot | src/gpg_meister/storage/metadata_store.py:237-259 | one row is added under a new id if the fingerprint is valid, the key has fewer than eight and the database agrees; else nothing changes |
| UnlockStore.MetadataStore.UnlockSlotsOf | src/gpg_meister/storage/metadata_store.py:261-279 | the parsable rows of the key, or the error for a malformed fingerprint |
| UnlockStore.SlotsBelowFacts | src/gpg_meister/storage/metadata_store.py:261-279 | exactly the key's parsable rows, in id order |
| UnlockStore.MetadataStore.DeleteUnlockSlot | src/gpg_meister/storage/metadata_store.py:289-291 | just that row goes |
| UnlockStore.MetadataStore.DeleteUnlockSlots | src/gpg_meister/storage/metadata_store.py:293-299 | just that key's rows go |
| KeyUnlock.RollbackRestores | src/gpg_meister/services/key_unlock_service.py:247-258 | deleting the inserted ids restores the table as it was |
| KeyUnlock.KeyUnlockService.Persist | src/gpg_meister/services/key_unlock_service.py:247-259 | all slots are stored iff there is room and no insert fails; otherwise the table is as before if the rollback deletes succeed, and never loses a row |
| KeyUnlock.BuiltSlotsOpen | src/gpg_meister/services/key_unlock_service.py:233-245 | each credential asked for opens its own slot to the new secret |
| KeyUnlock.KeyUnlockService.CreateKeyWithToken | src/gpg_meister/services/key_unlock_service.py:137-201 | exactly when it succeeds; then key and all slots are there and open; on failure before storing nothing changed, and on a failed storing the key is gone unless its deletion failed; keys created so far stay openable, and stored slots hold their keys' passphrases or give nothing else |
| KeyUnlock.KeyUnlockService.StoreNewKey | src/gpg_meister/services/key_unlock_service.py:173-201 | the key and its slots, or neither if rollback and key deletion succeed |
| KeyUnlock.KeyUnlockService.BindExistingKey | src/gpg_meister/services/key_unlock_service.py:203-272 | exactly when it succeeds; the slot then opens to the passphrase that opens the key; the keyring is never changed, and stored slots hold their keys' passphrases or give nothing else |
| KeyUnlock.KeyUnlockService.ForgetKey | src/gpg_meister/services/key_unlock_service.py:347-350 | just that key's rows go, and stored slots hold their keys' passphrases or give nothing else |
| KeyUnlock.RecoversIff | src/gpg_meister/services/key_unlock_service.py:298-320 | the loop returns a secret if and only if some attempt opens to it and all before it are skipped |
| KeyUnlock.ReturnsIff | src/gpg_meister/services/key_unlock_service.py:276-343 | for every slot table and mix of rows, both loops: a secret is returned if and only if it is what the first row that is not skipped opens to |
| KeyUnlock.SucceedsIff | src/gpg_meister/services/key_unlock_service.py:276-343 | both loops succeed if and only if some row opens and no row with a lower id meets a fatal error |
| KeyUnlock.OtherRows | src/gpg_meister/services/key_unlock_service.py:276-343 | deleting, adding or altering any rows but the one that opens leaves what is recovered, unless a row that now comes before it is not skipped |
| KeyUnlock.DeletingRows | src/gpg_meister/services/key_unlock_service.py:276-343 | deleting any rows but the one that opens changes nothing |
| KeyUnlock.AddingRows | src/gpg_meister/services/key_unlock_service.py:276-343 | rows added later never change what an earlier row gave |
| KeyUnlock.KeyUnlockService.UnlockGivesThePassphrase | src/gpg_meister/services/key_unlock_service.py:276-343 | in every table that enrolments and deletions lead to, whatever is recovered for a key, by any token or passphrase, is the passphrase that opens it |
| KeyUnlock.KeyUnlockService.EnrolledTokenUnlocks | src/gpg_meister/services/key_unlock_service.py:137-320 | in every such table, the token a slot was built for recovers the key's passphrase unless a row before it meets a fatal error |
| KeyUnlock.KeyUnlockService.AskInTurn | src/gpg_meister/services/key_unlock_service.py:298-320 | the loop; the token is asked for rows in id order, and at most the last answer is a fatal one |
| KeyUnlock.KeyUnlockService.UnlockWithToken | src/gpg_meister/services/key_unlock_service.py:276-320 | the call's result in terms of the rows, and that it is the key's passphrase |
| KeyUnlock.KeyUnlockService.TryInTurn | src/gpg_meister/services/key_unlock_service.py:331-341 | the passphrase loop computes its result |
| KeyUnlock.KeyUnlockService.UnlockWithPassphrase | src/gpg_meister/services/key_unlock_service.py:322-343 | the call's result in terms of the rows, and that it is the key's passphrase |
| FolderTree.Pack | src/gpg_meister/services/folder_service.py:131-151 | the member list of the tree; the count is the number of file members |
| FolderTree.Archive.Add | src/gpg_meister/services/folder_service.py:139-150 | the recursive add with the filter appends an entry's members and keeps the count right |
| FolderTree.ArchiveRoot | src/gpg_meister/services/folder_service.py:193-210 | accepts exactly the archives whose members all lie safely below one folder whose own entry comes first, with the code's error otherwise |
| FolderUnpack.Disk.UnpackMember | src/gpg_meister/services/folder_service.py:174-186 | one member, with any system call failing: all writes lie below staging/root and nothing existing is altered |
| FolderUnpack.Disk.UnpackMembers | src/gpg_meister/services/folder_service.py:174-186 | the same for the whole loop, for every crafted member list |
| FolderUnpack.UnpackedUnder | src/gpg_meister/services/folder_service.py:172-186 | what is unpacked does not depend on where the staging directory is or what is beside it |
| FolderUnpack.FolderArrives | src/gpg_meister/services/folder_service.py:187-189 | after rename and clean-up the destination holds what it did and the folder |
| FolderUnpack.Extract | src/gpg_meister/services/folder_service.py:163-190 | for every member list and every pattern of failing system calls, the destination outside staging is unchanged or gains exactly the folder; without faults it succeeds exactly for an acceptable archive, fresh name and consistent members |
| FolderRoundTrip.FlatIsTree | src/gpg_meister/services/folder_service.py:131-136 | the path map of a tree holds its files and directories and nothing else |
| FolderRoundTrip.PackUnpack | src/gpg_meister/services/folder_service.py:131-210 | for every tree: the packed archive is accepted if and only if no packed name has a backslash, and its content is the tree minus links and special files |
| FolderRoundTrip.PackThenExtract | src/gpg_meister/services/folder_service.py:45-116 | a folder packed and, without faults, extracted: exactly when it is refused; otherwise the destination gains every file and directory with its data, and nothing else |
| BlockGraph.ChainHasDmCrypt | src/gpg_meister/startup/environment_check.py:298-325 | the recursive search with the shared set: a find is real, and a miss leaves everything it visited explored; it terminates on cycles |
| BlockGraph.ClosedSetReachesNone | src/gpg_meister/startup/environment_check.py:298-325 | a visited set closed under slave links without a dm-crypt device hides none |
| BlockGraph.IsDmCryptDevice | src/gpg_meister/startup/environment_check.py:285-295 | on every finite graph, cyclic or not: true if and only if a CRYPT- device is reachable through readable devices |
| Toml.TwoPasses | src/gpg_meister/services/config_service.py:33-46 | escaping in two passes is escaping each character once |
| Toml.QuotedInjective | src/gpg_meister/services/config_service.py:41-47 | different strings are printed differently, for all strings |
| Toml.ReadFormat | src/gpg_meister/services/config_service.py:36-48 | a printed value reads back as itself, unless it is a string with U+007F |
| Toml.DumpsWhen | src/gpg_meister/services/config_service.py:36-68 | printing fails exactly on a value of another type or a table inside a table |
| Toml.DumpToml | src/gpg_meister/services/config_service.py:51-68 | the two loops print scalars first, tables after, as the specification does |
| Toml.PlanMeans | src/gpg_meister/services/config_service.py:51-68 | read line by line, the printed lines define the record: no scalar falls under a table header |
| Toml.DumpParse | src/gpg_meister/services/config_service.py:51-68 | for every bare-keyed record: parsing the dump gives the record back if no string has U+007F, and fails otherwise |

## Left out

- Liveness of the lock: the re-open branches do not look at the deadline, so an acquire is given a finite list of turns and may end still trying.
- flock errors other than "would block", and the Windows lock.
- Writing unchained audit logs (the verifier is modelled on any file), `emit_best_effort`, payload checks, and write faults that leave bytes behind in the writer's buffer.
- AuditLogs.AuditLog.ScanTailState: a last line that is not valid UTF-8 makes `json.loads` raise UnicodeDecodeError, which `_seq_after` does not catch, so `emit` raises; the model takes such a line as one without a number. A record longer than the scanned chunk can leave such a line when the cut falls inside a character.
- AuditRuns.RunKeepsChain: takes each emit as one step; `AuditInterleaving` splits it and proves from the lock protocol when that is right. Like the results there it assumes that every record fits in the 64 KiB chunk; `AuditTail.TailScanExact` says exactly what happens otherwise.
- AuditRuns.VerdictOfRun: assumes a record number of at most 190 digits, so that the tip line fits the 256 bytes that are read.
- Real Argon2, AEAD ciphers, SHA-256, OpenPGP, JSON, msgpack and base64; random values are inputs.
- VaultService: reading and writing vault files, checksums on disk, locks and audit events around `create` and `_open`; importing the opened keys into GnuPG, including armor that carries a second key.
- FromHex is defined on hexadecimal digits only; the code's callers pass validated fingerprints.
- GnuPG's subprocess handling, timeouts, and how card errors are worded; `card_operation_failed` and `card_operation_succeeded` are single passes over records.
- How UTF-8 is decoded with replacement: `PromptDriver.AnswerPrompts` holds for any decoding.
- The FIDO protocol behind the token's replies; labels, resident and user-verification flags of a credential; KDF failures other than wrong parameters.
- KeyUnlock.KeyUnlockService.CreateKeyWithToken: key generation and key deletion are atomic, and a generated key has a fingerprint that no key had before.
- KeyUnlock.KeyUnlockService.UnlockGivesThePassphrase: a passphrase changed in GnuPG outside the application is not an operation of the model. Rows sealed before such a change go on giving the passphrase they were sealed with, as `RowGivesItsSecret` and `ReturnsIff` say of any table. Nor is importing a key again whose old rows survived its deletion.
- A gpg-agent that signs from its cache without looking at the passphrase offered.
- The tar byte format, file modes and times, and names that are not text: an archive is its member list. A second name of a hard-linked file is dropped when packing, as the filter does.
- Other programs changing the destination while a folder is unpacked.
- Python's limits on recursion depth and on the digits of an integer.
- TOML outside the printed subset (dates, floats, arrays, quoted or dotted keys, multi-line strings), and keys that are not bare.
- The user interface, translations, packaging, memory locking, file permissions and symlink refusal.
