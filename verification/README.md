# Fylix, verified

Fylix moves a file through a resumable upload, a queue, an encrypting worker, object storage and
a decrypting download, while senders, administrators, an expiry sweep, a quarantine poll and a
master-key rotation change the same rows. This project models those pieces in Dafny and proves
what holds across them. `dafny verify dfyconfig.toml` checks everything.

| file | what it models |
|---|---|
| `Bytes.dfy`, `Streams.dfy`, `Ordering.dfy`, `Model.dfy` | byte strings, file-like objects, ordered selection, the rows and stores the components share |
| `Storage.dfy` | object keys, prefix deletion, the file-like reader over a chunk iterator |
| `StreamCipher.dfy` | streaming AES-GCM: encryptor, the two decryptors, the held-back 16 bytes |
| `KeyWrap.dfy`, `Envelope.dfy` | AES Key Wrap (sections 2.2.1 to 2.2.3 of RFC 3394) and the file-key envelope with its fallback key |
| `Rotation.dfy` | the rewrap loop: paging, chunks, crash and rerun, interleaving with commits and shreds |
| `Totp.dfy` | TOTP secrets at rest: padding, legacy migration, rotation, what login sees |
| `Tus.dfy`, `TusProtocol.dfy` | HEAD and PATCH of the tus 1.0.0 core protocol, the client loop, and who queues the job |
| `EncryptJob.dfy`, `WorkerProtocol.dfy` | one run of the encrypt worker; many runs with a timed lock, at the grain of await points |
| `Lifecycle.dfy`, `Handlers.dfy` | the transfer row under every actor that changes it |
| `Download.dfy` | the download handler |
| `Record.dfy`, `History.dfy`, `ServiceState.dfy`, `Service.dfy` | the whole service under any run of all of the above: what the record of requests and answers says about rows and bytes, the invariant of all stores, and the theorems from PATCH bodies to downloaded bytes |
| `Sessions.dfy`, `RateLimit.dfy`, `Middleware.dfy`, `Lockout.dfy` | the timed stores, and the middleware that limits requests by cached settings |
| `Paging.dfy`, `AdminGuard.dfy` | keyset paging of the transfer list, and the last-active-administrator guard |

Library code enters as parameters, so every theorem holds for all of them: a keystream, a tag
function with 16-byte tags and a digest (`StreamCipher.Suite`); a keyed permutation of 16-byte
blocks (`KeyWrap.Cipher`), over which key wrap is defined and its laws are proved; printing and
parsing of timestamps and ids (`Paging.Text`). Random bytes, clock readings, failures of outside
operations and the object store's slicing of an object are parameters too.

## Findings

Where the code does not do what its documentation, or the obvious reading, says, the model follows
the code, and a lemma states exactly when the expected property holds.

- A PATCH that overruns the declared length is cut to size and refused with 413. If that completes
  the transfer, no job is queued (`TusProtocol.OverlongLastPieceIsNotQueued`,
  `TusProtocol.CompletingAppendChecksIffItFits`).
- A run of the worker has outcomes beside ready and infected. If setting the lock raises, or a row
  cannot be read, everything is left as it was, the staging files included, though the lock may have
  been set. A cancellation of the commit, which the recovery handler does not catch, or a database
  failure during recovery, leaves the row `uploading` with its staging files shredded. Each outcome has
  its exact condition in `EncryptJob.ProcessEncryptJob`.
- Staging files are overwritten before they are unlinked. If unlinking fails on a transfer still
  `uploading`, the next job finds files of the right size and encrypts the noise: the transfer
  becomes ready exactly when every file survived (`EncryptJob.RetryAfterCancellation`).
- A shred that raises, or a failing commit, abandons an expiry sweep: its rows stay ready with their
  keys, some of them without their objects (`Lifecycle.RunCleanupOnce`).
- A delete removes the objects first and commits afterwards. If the commit fails, a ready transfer
  stays ready, and of its files exactly those whose objects the store refused to delete can
  still be downloaded; the others answer with an error (`Handlers.DeleteHandler`,
  `ServiceState.FailedDeleteKeepsInv`, `Service.AnyRunThenDownload`).
- The worker writes its final status without looking again. A delete, revoke, poll or sweep is final
  exactly when no run is between its status check and its commit; otherwise the commit puts the
  transfer back in service, key and all (`WorkerProtocol.DepartureIsFinalIffNobodyEncrypting`,
  `WorkerProtocol.DeleteInsideTheWindowIsUndone`). A free lock in Redis is a sufficient sign
  (`WorkerProtocol.DeleteUnderFreeLockIsFinal`). The life-cycle theorems take the interval as one step.
- At-most-once processing is proved for runs that end within the lock's 600 seconds. While a run is
  encrypting an uploading transfer, a second completion is possible at once exactly when that run's
  lock has lapsed (`WorkerProtocol.SecondCompletionIffLapsed`), and a run of 600 seconds gets there
  (`WorkerProtocol.OutlivingTheLockCompletesTwice`).
- A delete, revoke or poll of an uploading transfer leaves its plaintext in the staging directory: the
  worker then skips the row and the sweep looks at ready rows only. Past `uploading`, a transfer without
  a worker's verdict in the audit log has all that was staged, and one with a verdict exactly the
  files its last shred could not unlink (`Service.AnyRunLeavesPlaintext`).
- The expiry sweep looks at ready rows only: a revoked transfer keeps its wrapped key past its expiry
  date until somebody deletes it (`Lifecycle.SweepShredsAllButRevoked`,
  `Lifecycle.RevokedKeySurvivesSweeps`).
- The key-rotation runbook restarts the API before the worker, which goes on wrapping under the old key
  until then; the rewrap endpoint does not look. A rewrap that ends too early leaves a transfer
  completed afterwards under the old key, whose download works until the old key is removed and not
  after (`Service.LostToAnEarlyRewrap`). Removing the old key is safe exactly when the worker has the
  new one and every stored key opens without the old one (`ServiceState.CloseIffSafe`), which a rewrap
  begun after the worker's restart brings about (`ServiceState.FinishedIsSafe`).
- A fixed window of limit L >= 1 lets through 2 L - 1 requests, not L, within one window length, and
  that is the exact worst case for every L and every window of at least two clock units (of one unit:
  L; `RateLimit.RateBound`, `RateLimit.RateBoundIsTight`).
- Redis reports a remaining time rounded to the nearest second, so Retry-After can end up to half a
  second before its window or after it; a client told to come back too early is denied again
  (`RateLimit.WaitEndsNearTheWindow`, `RateLimit.RetryAfter`).
- The session module's header says `touch` does not refresh the index key; the code does, and the
  index theorem depends on it. Comments in the login handler and the migration script call a wrapped
  TOTP secret 40 bytes long; the code's length is 48.

## Model

| member | source | states |
|---|---|---|
| Storage.IteratorIO.ReadInto | backend/app/services/storage.py:118-127 | fills a prefix of the buffer with the next bytes of the chunks' concatenation, leaves the rest of the buffer alone, and delivers zero bytes only into an empty buffer or at true exhaustion |
| Storage.IteratorIO.Read | backend/app/services/storage.py:108-127 | a raw read of n bytes takes at most n off the front of what is left, and is empty only for n = 0 or at the end |
| Storage.Drain | backend/app/services/storage.py:108-127 | for any chunking, empty chunks included, and any positive read sizes, reading until the first empty read yields exactly the concatenation |
| Storage.KeyBelongsTo | backend/app/services/storage.py:45-47 | an object name lies under a transfer's prefix if and only if it is that transfer's |
| Storage.ObjectKeyInjective | backend/app/services/storage.py:45-47 | object names determine transfer and file |
| Storage.DeleteTransferIsExact | backend/app/services/storage.py:97-105 | deleting a transfer removes exactly its own objects, less those the store refuses to delete |
| StreamCipher.FeedIsSplit | backend/app/crypto/stream.py:100-118 | after any sequence of reads totalling m bytes the first max(0, m - 16) have gone to the cipher in order and the last min(m, 16) are held |
| StreamCipher.SealEncrypts | backend/app/crypto/stream.py:41-78 | the sealing is 16 bytes longer than the plaintext; each byte is the plaintext's exclusive-ored with the keystream byte at its position; the last 16 are the tag of those before |
| StreamCipher.ReleasedBytes | backend/app/crypto/stream.py:100-118 | decryption exclusive-ors all but the last 16 bytes with the keystream |
| StreamCipher.VerdictMeaning | backend/app/crypto/stream.py:115-125 | too short below 16 bytes; otherwise accepted exactly if the last 16 bytes are the tag of the rest |
| StreamCipher.OpenSeal | backend/app/crypto/stream.py:41-125 | decryption of an encryption releases the plaintext and verifies; the ciphertext is 16 bytes longer |
| StreamCipher.AcceptedIffSealed | backend/app/crypto/stream.py:115-125 | content verifies if and only if it is the encryption of the bytes it releases; it is too short exactly below 16 bytes |
| StreamCipher.EncryptStream | backend/app/crypto/stream.py:41-78 | for every chunk size and all short reads, writes the plaintext exclusive-ored byte by byte with the keystream, then the tag of that, and returns the digest of the ciphertext without the tag; bad key or iv lengths raise before anything is read |
| StreamCipher.Absorb | backend/app/crypto/stream.py:107-113 | one turn of the decryption loop advances the window by one chunk and emits the plaintext of what left it |
| StreamCipher.DecryptStream | backend/app/crypto/stream.py:81-125 | outcome, error kind and bytes written are functions of the content alone, not of chunk size or short reads |
| StreamCipher.DecryptStreamIter | backend/app/crypto/stream.py:128-167 | the generator yields the same bytes and ends the same way from any slicing of the content, and never yields an empty chunk |
| StreamCipher.RoundTrip | backend/app/crypto/stream.py:41-167 | encrypting with one chunk size and decrypting with others, by either decryptor and from any slicing, returns the plaintext |
| KeyWrap.UnwrapWrap | backend/app/crypto/envelope.py:23-30 | unwrapping a wrapping returns the data (section 2.2.2 of RFC 3394 inverts section 2.2.1) |
| KeyWrap.WrapUnwrap | backend/app/crypto/envelope.py:55-56 | a blob that unwraps is the wrapping of what it unwraps to, so wrapping is deterministic and injective both ways |
| KeyWrap.WrapMatchesShiftForm | backend/app/crypto/envelope.py:23-30 | the indexed form used here computes the same registers as the shift-register form of section 2.2.1 |
| KeyWrap.BigEndianValue | backend/app/crypto/envelope.py:23-30 | step numbers are encoded most significant byte first |
| KeyWrap.WrapByTheBook | backend/app/crypto/envelope.py:23-30 | the index-based loop of section 2.2.1 of RFC 3394, written out with the initial value of section 2.2.3.1 and six passes, computes the wrapping |
| Envelope.UnwrapKeyMeaning | backend/app/crypto/envelope.py:33-66 | unwrapping yields a key if and only if the blob is the current master key's wrapping of it or, with no wrapping under the current key, the previous master key's |
| Envelope.Refusals | backend/app/crypto/envelope.py:18-54 | length errors occur exactly for keys not of 32 and wrapped keys not of 40 bytes |
| Envelope.FallbackRecovers | backend/app/crypto/envelope.py:33-66 | a key wrapped before a rotation is recovered if and only if the new master key does not open the blob to another key |
| Envelope.RewrapKeepsFileKey | backend/app/routers/admin.py:1505-1506 | rewrapping keeps the file key, ends the need for the previous master key, and is idempotent byte for byte |
| Envelope.RewrapIsIdentityOnCurrent | backend/app/routers/admin.py:1454-1458 | rewrapping a blob already under the current key returns the identical bytes |
| Envelope.OldBlobWithoutFallback | backend/app/crypto/envelope.py:55-58 | with no previous key configured, a blob made under it opens if and only if it is a wrapping under the current key too |
| Ordering.Sorted | backend/app/routers/admin.py:1490-1500 | ORDER BY under any strict total order: every element once, in order |
| Rotation.PageCovers | backend/app/routers/admin.py:1490-1500 | a page of the keyset query is in id order, past the cursor, and skips no keyed row up to its last one |
| Rotation.RewrapPage | backend/scripts/rotate_master_key.py:68-76 | one chunk rewraps exactly its rows, or fails on a row neither key opens |
| Rotation.RotateTransfers | backend/scripts/rotate_master_key.py:49-79 | for any chunk size, stopped at any chunk boundary or at a bad row: rows are visited in strictly increasing id order, none skipped or repeated, and the table is the old one with exactly the visited rows migrated; a finished run has visited all keyed rows; the loop terminates |
| Rotation.RotateUntilFinished | backend/scripts/rotate_master_key.py:49-79 | however many runs of the loop crashed or failed before, and wherever, the run that finishes leaves the table of one uninterrupted run, with every key opening under the new master key alone |
| Rotation.CrashAndRerun | backend/scripts/rotate_master_key.py:49-79 | migrating any parts of the table first changes nothing about the result of migrating all of it, and migrating again changes no byte; RotateUntilFinished carries this to runs of the loop |
| Rotation.ChunkKeepsMeaning | backend/app/routers/admin.py:1489-1509 | one online chunk keeps every key opening to its file key and moves its rows under the current key alone |
| Rotation.ChunkSucceeds | backend/app/routers/admin.py:1501-1509 | while every key opens, no chunk is ever abandoned |
| Rotation.ChunkOnRow | backend/app/routers/admin.py:1490-1509 | a chunk rewraps a keyed row or leaves it alone, rewraps it if the cursor moves past it, and ends the loop only when the cursor is past it |
| Rotation.RotationPreservesMeaning | backend/app/routers/admin.py:1486-1509 | over every interleaving of chunks of any size, restarts, encrypt commits and shreds, every stored key opens to the file key it was made from; once a loop has ended, all open under the current master key alone |
| Rotation.NullStaysNull | backend/app/routers/admin.py:1490-1509 | no rewrap and no shred brings a NULL key back; only an encrypt commit sets one |
| Rotation.WindowOpens | backend/app/crypto/envelope.py:41-45 | the invariant holds when the rotation window opens if and only if no old blob opens under the new key to another key |
| Totp.UnpadPad | backend/app/services/auth.py:145-150 | the zero-padded block starts with the length of its secret and gives the secret back |
| Totp.PadInjective | backend/app/services/auth.py:145-150 | different secrets have different blocks |
| Totp.WrapSecretOpens | backend/app/services/auth.py:135-188 | a wrapped secret is 48 bytes long and unwraps to itself under its master key, whatever previous key is configured |
| Totp.OpenedBlockLength | backend/app/services/auth.py:173-184 | a 48-byte blob that opens holds a 40-byte block, so the assertion in the code cannot fail |
| Totp.MigrateKeepsLogin | backend/scripts/wrap_totp_secrets.py:35-44 | migrating a row keeps the secret login recovers; it raises exactly on a legacy secret over 39 bytes that is not 48 bytes long |
| Totp.MigrateWraps | backend/scripts/wrap_totp_secrets.py:35-44 | a migrated legacy secret is a 48-byte blob that the current master key alone opens to its block; anything else is left as it was |
| Totp.RewrapKeepsLogin | backend/app/routers/admin.py:1516-1524 | rotating a row keeps the secret login recovers; it raises exactly when login could not recover one |
| Totp.MaintenanceIdempotent | backend/scripts/wrap_totp_secrets.py:1-7 | repeating either operation changes no byte |
| Totp.RewrapFreesPreviousKey | backend/scripts/rotate_master_key.py:95-97 | a rotated secret is recovered without the previous master key |
| Totp.RotatedTableFreesPreviousKey | backend/scripts/rotate_master_key.py:82-100 | after a rotation that ran through, login recovers every secret without the previous master key, also after any further runs |
| Totp.RunMaintenance | backend/scripts/wrap_totp_secrets.py:33-45 | a migration or rotation run maintains every row or, exactly when some row raises, commits nothing; after a migration every present secret is a wrapped one that opens to it; the number returned is that of the rows concerned |
| Totp.RunAll | backend/scripts/wrap_totp_secrets.py:33-45 | any sequence of runs on the table, aborted ones included, leaves every administrator the secret login recovered before |
| Totp.LoginSecretInvariant | backend/app/routers/admin.py:191-203 | over any sequence of migration and rotation runs of the whole table, runs aborted by any row included, the secret login recovers for each administrator never changes |
| Totp.RotationWindowSecret | backend/app/services/auth.py:153-188 | a secret wrapped under the previous key is recovered if and only if the current key does not open its blob to another block |
| Tus.UploadOnlyAppends | backend/app/tus/handler.py:60-100 | over any run of PATCH requests the staged file is the concatenation in order of the kept parts and never exceeds its declared size |
| Tus.UploadMonotone | backend/app/tus/handler.py:60-100 | later requests only extend the staged file |
| Tus.AppendStream | backend/app/tus/handler.py:139-163 | writes min(body, remaining room + 64 KiB) bytes of the body, in order, creating the file if need be |
| Tus.AppendBody | backend/app/tus/handler.py:73-87 | after append and truncation the file holds the part that fits; the returned offset exceeds the size exactly when the body does not fit |
| Tus.AllFilesComplete | backend/app/tus/handler.py:121-136 | true if and only if every file has its declared size, a missing file counting as size zero |
| Tus.HandlePatch | backend/app/tus/handler.py:60-100 | 404 exactly for an unknown transfer or file, 409 exactly for a closed transfer or wrong offset, both changing nothing; 413 exactly when the body does not fit; otherwise accepted with the new offset; a job is queued exactly when an accepted request leaves every file complete |
| Tus.HandleHead | backend/app/tus/handler.py:45-58 | reports the staged size and the declared size, and completeness only for a positive size |
| Tus.UploadFile | backend/app/tus/handler.py:45-100 | a client repeating HEAD then PATCH with arbitrary non-empty pieces terminates with exactly its source staged, from any part staged before, and a job queued if that completed the transfer; nothing happens if all was staged |
| TusProtocol.LastCompleterEnqueues | backend/app/tus/handler.py:89-98 | in every interleaving, once the handler whose accepted append completed the transfer has finished, a job has been queued, by that handler unless a worker has already shredded the staging files |
| TusProtocol.PushFollowsCompletion | backend/app/tus/handler.py:95-98 | every push follows an instant of the run at which every file had its declared size |
| TusProtocol.CompletingAppendChecksIffItFits | backend/app/tus/handler.py:83-95 | an append that completes the transfer leads on to the completeness check if and only if its body fits |
| TusProtocol.OverlongLastPieceIsNotQueued | backend/app/tus/handler.py:83-87 | a one-byte file sent two bytes ends complete with nothing queued and no handler left to do it |
| EncryptJob.EncryptFile | backend/app/worker/tasks/encrypt.py:105-140 | succeeds exactly for a staged file of the declared size whose upload works; then the object is its encryption under the file key and the iv given, and the row has that iv and the digest of the ciphertext |
| EncryptJob.EncryptFiles | backend/app/worker/tasks/encrypt.py:101-140 | the loop succeeds exactly when every file does; then every object is stored and decryptable, each row has the iv drawn for its file, and its digest; other transfers' objects are never touched |
| EncryptJob.EncryptTransfer | backend/app/worker/tasks/encrypt.py:101-202 | ready, infected and stranded each if and only if their condition on files, commit, cancellation and recovery holds; staging shredded as far as files could be unlinked |
| EncryptJob.ProcessEncryptJob | backend/app/worker/tasks/encrypt.py:53-211 | wherever a failure or cancellation strikes, setting the lock included, exactly one outcome, each with its exact condition: skipped or ignored; aborted with nothing changed, staging included; ready with key set, all objects decryptable and one upload_complete row; infected with no object left that the store agreed to delete; stranded with the row still uploading; and whether the lock stays |
| EncryptJob.RetryAfterCancellation | backend/app/worker/tasks/encrypt.py:105-162 | after a run cancelled at its commit the next job completes if and only if every staging file survived the shredding, and then stores what the shredding left |
| WorkerProtocol.TimelyRunKeepsInv | backend/app/worker/tasks/encrypt.py:63-89 | at every instant at most one run is under way and its lock is the one in Redis; after a completion no run still trusts an earlier look at the status; a key is there only while the transfer is ready or revoked, and always while it is ready |
| WorkerProtocol.AtMostOneCompletion | backend/app/worker/tasks/encrypt.py:142-162 | for any number of duplicate jobs and any interleaving with crashes, deletes, revokes, polls and sweeps, at most one upload_complete and one committed key |
| WorkerProtocol.UploadingNeverReentered | backend/app/services/transfer.py:47 | no run brings a transfer back to uploading |
| WorkerProtocol.LapsedLockAdmitsASecondRun | backend/app/worker/tasks/encrypt.py:67-68 | from every state in which the lock has lapsed under an encrypting run, two more completions are possible |
| WorkerProtocol.SecondCompletionIffLapsed | backend/app/worker/tasks/encrypt.py:63-89 | while a run is encrypting an uploading transfer, a second completion is possible before time passes if and only if its lock has lapsed |
| WorkerProtocol.OutlivingTheLockCompletesTwice | backend/app/worker/tasks/encrypt.py:38-42 | such a state is reached by a run of 600 seconds |
| WorkerProtocol.DepartureIsFinalIffNobodyEncrypting | backend/app/worker/tasks/encrypt.py:81-192 | a deleted, revoked, infected or expired transfer stays out of service, without regaining a key, through every future run if and only if no run is between its status check and its commit; otherwise some run makes it ready with a key |
| WorkerProtocol.DeleteUnderFreeLockIsFinal | backend/app/worker/tasks/encrypt.py:67-89 | in a timely run, a delete while the lock is free is final whatever follows |
| WorkerProtocol.DeleteInsideTheWindowIsUndone | backend/app/worker/tasks/encrypt.py:81-162 | check, delete, commit ends ready with a key |
| WorkerProtocol.CrashedLockExpires | backend/app/worker/tasks/encrypt.py:67-74 | after a crash another worker gets in exactly when the lock's 600 seconds are over |
| Lifecycle.RunCleanupOnce | backend/app/worker/tasks/cleanup.py:18-70 | exactly the ready rows past their expiry date lose their key and become expired, dated now, with staging and deletable objects gone, and their number is returned; exactly when a shred raises or the commit fails, no row changes although some of those transfers are wiped |
| Lifecycle.CryptoShredInvariant | backend/app/worker/tasks/cleanup.py:49-51 | over every run: a key implies ready or revoked, ready implies a key, deleted_at is set exactly on expired and deleted rows |
| Lifecycle.StepGoesDown | backend/app/routers/public.py:749-784 | every status change lowers the rank; a deleted row is untouched; only an encrypt step on an uploading row sets a key |
| Lifecycle.AtMostThreeChanges | backend/app/models/transfer.py:23 | a row's status changes at most three times over any run, and the rank bounds what is left |
| Lifecycle.DeletedIsTerminal | backend/app/routers/admin.py:467-483 | a deleted row never changes in any field; uploading is never re-entered; a key once gone never returns |
| Lifecycle.SweepShredsAllButRevoked | backend/app/worker/tasks/cleanup.py:29-51 | after a sweep an expired row still has a key if and only if it was revoked with one |
| Lifecycle.RevokedKeySurvivesSweeps | backend/app/routers/admin.py:506-509 | a revoked transfer's key survives every run without a delete of that transfer |
| Handlers.CreateTransfer | backend/app/services/transfer.py:33-97 | the new row is uploading, created now and expiring when requested, with no key and one placeholder row per requested file, of its id and size, in order |
| Handlers.DeleteHandler | backend/app/routers/public.py:742-771 | 404, 204 or, exactly when a due commit fails, 500; the objects go as far as the store agrees in both cases, the row is shredded only on 204; a second delete touches nothing |
| Handlers.RevokeHandler | backend/app/routers/public.py:774-796 | 404 or 204; an uploading or ready transfer becomes revoked, dated now, and any other is left alone |
| Handlers.MissingFiles | backend/app/worker/tasks/defender_poll.py:65-76 | non-empty exactly when the staging directory exists and some file does not |
| Handlers.RunDefenderPollOnce | backend/app/worker/tasks/defender_poll.py:38-97 | exactly the uploads older than ten seconds with a staging directory and a file missing from it become infected, dated now |
| Download.DownloadFile | backend/app/routers/public.py:455-546 | not found unless ready, gone exactly from the expiry date on; a recoverable file arrives byte for byte, for every slicing by the store, with its length announced |
| Record.StagedIsPieces | backend/app/tus/handler.py:60-100 | the staged content is the concatenation of the pieces of PATCH bodies kept since the file was last wiped, as the answers tell, unless a shred of this transfer has since overwritten bytes of it without unlinking it |
| Record.KeptAt | backend/app/worker/tasks/encrypt.py:105-144 | the content a completed transfer keeps is what was staged at the moment of its completing job |
| History.FollowsRecord | backend/app/models/transfer.py:23 | status, expiry date and files of every row follow from the record of actions and answers, and nothing expires early |
| History.FindsRequested | backend/app/services/transfer.py:63-84 | the files of a transfer are those requested, with their declared sizes |
| ServiceState.PatchKeepsInv | backend/app/tus/handler.py:60-100 | the invariant of all stores is kept by any PATCH, refused or not |
| ServiceState.JobKeepsInv | backend/app/worker/tasks/encrypt.py:76-211 | by any job, whatever its outcome and under whichever master key the worker has |
| ServiceState.DeclineKeepsInv | backend/app/routers/public.py:742-796 | by deletes, revokes and polls: other transfers' objects stay |
| ServiceState.FailedDeleteKeepsInv | backend/app/routers/public.py:751-770 | by a delete that cannot commit: the rows stay, and the record says which files of which ready transfer have lost their objects |
| ServiceState.SweepKeepsInv | backend/app/worker/tasks/cleanup.py:43-70 | by sweeps, carried through or abandoned |
| ServiceState.ChunkKeepsInv | backend/app/routers/admin.py:1489-1509 | by every chunk of a rewrap: each key still opens to its file key, under the current master key alone once passed |
| ServiceState.KeysKeepInv | docs/KEY_ROTATION.md:55-134 | by installing a new master key, restarting the worker with it, and removing the old one when that is safe |
| ServiceState.CloseIffSafe | docs/KEY_ROTATION.md:116-134 | removing the previous master key keeps the invariant if and only if the worker has the current one and every stored key opens without the previous one |
| ServiceState.FinishedIsSafe | docs/KEY_ROTATION.md:89-134 | after a rewrap that began after the worker's restart and has ended, it is safe |
| ServiceState.ServedIsRecoverable | backend/app/routers/public.py:455-480 | the key of a ready, unexpired transfer opens; each of its files can be recovered as the bytes kept for it, or has lost its object to a delete that could not commit |
| ServiceState.PlaintextLeft | backend/app/worker/tasks/encrypt.py:81-89 | a transfer past uploading with the worker's verdict has staged bytes of a file if and only if its last shred could not unlink it; without a verdict it has all that was staged; ready and expired ones always have the verdict |
| Service.Service.Run | backend/app/worker/main.py:84-171 | the invariant holds after every sequence of actions by clients, senders, administrators, workers, timers and operators, with the failures listed in the actions |
| Service.Service.Serve | backend/app/routers/public.py:455-546 | going by the record alone: not found unless the transfer is ready and the file was requested, gone exactly from the expiry date given at creation, an error exactly on files lost to a delete that could not commit, and otherwise exactly the kept bytes |
| Service.AnyRunThenDownload | backend/app/routers/public.py:530-545 | from an empty service through any run, rotations included: whether a download succeeds, and with which bytes, is determined by the record; every requested file of every transfer that is ready and before its expiry date, unless lost to a delete that could not commit, arrives whole for every slicing: what was staged at the completing job, which is the pieces of its PATCH bodies in order unless an earlier shred of this transfer had overwritten bytes of the file without unlinking it |
| Service.CompleteThenServe | backend/app/worker/tasks/encrypt.py:53-202 | after any run, a transfer that by the record is uploading with every file staged in full is completed by one job in which nothing fails, and its files are then delivered |
| Service.AnyRunLeavesPlaintext | backend/app/routers/public.py:742-796 | after any run, exactly which plaintext is still staged for transfers past uploading |
| Service.LostToAnEarlyRewrap | docs/KEY_ROTATION.md:77-134 | a rewrap ends, the worker not yet restarted completes a transfer, its download works in the window, and fails to open the key once the old master key is removed, whenever the new one does not open the blob by accident |
| Sessions.IndexAgrees | backend/app/services/session.py:64-130 | over every run, each live session is in its admin's index, which expires no earlier than it |
| Sessions.DestroyAllForIsExact | backend/app/services/session.py:121-130 | removes exactly the admin's live sessions |
| Sessions.LogoutAllAfterAnyHistory | backend/app/services/session.py:121-130 | after any history from an empty store, revoking an admin leaves that admin no live session and the others theirs |
| Sessions.SlidingLifetime | backend/app/services/session.py:64-130 | over every run from an empty store: a token shows a session exactly while less than one lifetime has passed since its login or last request and no logout has followed, with its admin and both times |
| Sessions.ObservableEffects | backend/app/services/session.py:64-119 | a login adds exactly its session, a request refreshes only its own, a logout removes exactly its own |
| Sessions.SessionStore.CreateSession | backend/app/services/session.py:64-77 | afterwards exactly the new session has been added to what can be loaded |
| Sessions.SessionStore.GetSession | backend/app/services/session.py:79-88 | finds exactly the live sessions |
| Sessions.SessionStore.TouchSession | backend/app/services/session.py:90-106 | true exactly for a live session, whose last-active time alone changes in what can be loaded; the lifetime it gains is in Sessions.SlidingLifetime |
| Sessions.SessionStore.DestroySession | backend/app/services/session.py:108-119 | exactly that session can no longer be loaded |
| Sessions.SessionStore.DestroyAllSessions | backend/app/services/session.py:121-130 | while index and sessions agree, exactly the admin's sessions can no longer be loaded; returns the number listed |
| RateLimit.OneWindowBound | backend/app/services/rate_limit.py:13-24 | windows never overlap, and each allows at most the largest limit in force |
| RateLimit.RateBound | backend/app/services/rate_limit.py:13-24 | with limits varying over time, one window allows at most L and any half-open interval of one window length at most the worst case, 2 L - 1 |
| RateLimit.IntervalBound | backend/app/services/rate_limit.py:13-24 | for the interval only the limits in force during it matter |
| RateLimit.RateBoundIsTight | backend/app/services/rate_limit.py:13-24 | for every limit and window length some requests reach that worst case |
| RateLimit.RateLimiter.Consume | backend/app/services/rate_limit.py:13-46 | allowed exactly while the window's count, this request included, is within the limit; reports how many are left and the rounded time to the window's end |
| RateLimit.RemainingIsExact | backend/app/services/rate_limit.py:19-23 | of n more requests in the window under the same limit the last is allowed exactly if n is at most the reported remainder |
| RateLimit.WaitEndsNearTheWindow | backend/app/services/rate_limit.py:18-23 | the reported wait ends within half a second of the window, and not before it if and only if the remaining time was whole or rounded up |
| RateLimit.RetryAfter | backend/app/services/rate_limit.py:18-23 | a denied client coming back as told, whoever asked before the window ended, is allowed exactly when the limit is at least one if the wait reached the window's end, and exactly when the limit now exceeds the requests counted if it did not |
| Middleware.SettingsCache.GetIntCached | backend/app/middleware/rate_limit.py:67-75 | a fresh entry is used as it is, and otherwise the database's answer, which is then kept for one time to live; so the limit used was stored less than one time to live earlier or is that answer |
| Middleware.CheckPolicy | backend/app/middleware/rate_limit.py:112-124 | the request is let through if and only if every bucket would allow it on its own; buckets are consumed in order up to the first denial |
| Middleware.PolicyMeaning | backend/app/middleware/rate_limit.py:99-124 | forwarded exactly when all buckets allow; buckets up to the first denial are counted once, later ones and other keys not at all |
| Middleware.FirstDenial | backend/app/middleware/rate_limit.py:112-122 | the denial, with its Retry-After, is that of a bucket that does not allow the request |
| Middleware.AllowedPrefixMeaning | backend/app/middleware/rate_limit.py:112-124 | all buckets pass exactly when each would on its own |
| Middleware.CountersAgree | backend/app/middleware/rate_limit.py:99-124 | over every run from all clients, a client's hourly counter sees all its uploads and its daily counter only those the hourly one let through; an upload is forwarded exactly when both allow it |
| Middleware.UploadBound | backend/app/middleware/rate_limit.py:99-124 | over every run of uploads and downloads from all clients, a client gets at most the worst case of the hourly limits it met in any hour, and of the daily limits in any day, through |
| Middleware.DownloadCounterAgrees | backend/app/middleware/rate_limit.py:99-124 | a client's download counter sees all its downloads, and a download is forwarded exactly when it allows it |
| Middleware.DownloadBound | backend/app/middleware/rate_limit.py:99-124 | the same bound for downloads |
| Middleware.HandleAll | backend/app/middleware/rate_limit.py:67-124 | over any requests, each is judged by settings stored less than one cache time to live before its lookups or since, and forwarded exactly as the bounds count it |
| Middleware.SettingsBoundUploads | backend/app/middleware/rate_limit.py:67-124 | in any hour and any day a client gets at most the worst case of the largest value the setting had, from one cache time to live and one request's duration before the interval to its end, through |
| Middleware.SettingsBoundDownloads | backend/app/middleware/rate_limit.py:67-124 | the same for downloads |
| Lockout.Admin.Login | backend/app/routers/admin.py:174-212 | 200 exactly for an enabled, unlocked account with the right password, an enrolled and stored code secret, and the right code; a failure is counted exactly on an enabled, unlocked account with a wrong password, or a right one and a wrong code |
| Lockout.FailuresAreSpaced | backend/app/services/auth.py:102-114 | in any run from a clean record, wrong attempts that were looked at past the fifth are at least 15 minutes apart and the lock ends 15 minutes after the last |
| Lockout.LockoutBound | backend/app/routers/admin.py:174-212 | the n-th wrong attempt that was looked at comes at least n - 5 times 15 minutes after the fifth, so at most 5 + T / 15 min come by time T after it |
| Lockout.LockRefusesEverything | backend/app/routers/admin.py:177-178 | a locked account refuses every attempt until exactly one lockout after the last failure, and counts none |
| Paging.DecodeEncode | backend/app/routers/admin.py:81-90 | a cursor decodes to the row it was made from |
| Paging.DecodeExactly | backend/app/routers/admin.py:85-90 | a raw cursor decodes exactly if, split at its first separator, its parts parse |
| Paging.PageMeaning | backend/app/routers/admin.py:327-360 | newest first and larger id first among equals, past the cursor; the limit is brought between 1 and 200; a cursor is the printed time, the separator and the printed id |
| Paging.ListPage | backend/app/routers/admin.py:327-364 | a page is the first rows past the cursor in order, at most the clamped limit, with a next cursor exactly when more rows remain |
| Paging.WalkAllPages | backend/app/routers/admin.py:352-364 | following the cursors shows every row exactly once in strictly decreasing order in exactly the expected number of pages, despite equal timestamps and rows inserted ahead of the cursor meanwhile |
| Paging.PageCountIsCeiling | backend/app/routers/admin.py:359-364 | that number is the row count over the limit, rounded up, and at least one |
| AdminGuard.AdminTable.UpdateAdmin | backend/app/routers/admin.py:1206-1225 | 404 exactly for an unknown id; 409 exactly when the change would leave no active administrator; otherwise exactly the requested role and disabled flag are set, on that account alone |
| AdminGuard.AdminTable.DeleteAdmin | backend/app/routers/admin.py:1289-1310 | 404 exactly for an unknown id; 409 exactly when the deletion would leave no active administrator; otherwise exactly that account is gone |
| AdminGuard.GuardIsExact | backend/app/routers/admin.py:1210-1218 | a request is refused if and only if carrying it out would leave no active administrator |
| AdminGuard.EffectMeaning | backend/app/routers/admin.py:1114-1225 | active means enabled and of role admin; each request changes its own account only, as asked |
| AdminGuard.AlwaysOneActive | backend/app/routers/admin.py:1114-1115 | every run keeps at least one active administrator, and no harmless request is refused |

## Left out

Assumptions about grain and time, which the code does not enforce:

- The life-cycle and service theorems take the worker's interval from status check to commit, each
  rewrap chunk, each poll and each sweep as one step against delete and revoke.
- No PATCH lands while a worker run is reading the staging files. API and worker are separate processes,
  and an overlong PATCH appends up to 64 KiB before it cuts back, which such a read could see.
- A worker run does not outlive the lock (`WorkerProtocol.TimelyRun`).
- A commit that raises has not taken effect, and a cancelled one neither; an upload to the store that
  raises has stored nothing. A failing commit of a revoke, poll, creation or rewrap chunk changes
  nothing, and is no action of a run.
- No two logins draw the same session token (`Sessions.FreshTokens`).
- Wrapped keys of the run do not open to different file keys under two of its master keys
  (`ServiceState.Separate`); the exact condition for one blob is in `Envelope.FallbackRecovers`.
- The operator opens no second rotation window, and removes the previous key only when that is safe
  (`ServiceState.SafeToClose`).
- Each session and counter operation is one step; a destroy between the read and the write of a touch
  is not modelled. Session tokens do not collide with a token still mentioned in the store.
- Requests to the rate-limited paths are handled one after the other (`Middleware.Sequential`).
- Two administrator requests do not interleave between the count and the commit.

Not modelled:

- Internals of AES, GHASH, SHA-256, Argon2 and TOTP codes, which are library code.
- MinIO, SMTP, Telegram, captcha, GeoIP and HTTP transport; emails and alerts; audit rows other than
  upload_complete and upload_failed.
- UTF-8 decoding errors of a TOTP secret, which is taken as bytes.
- Negative chunk sizes for the streams, which mean read-everything in Python; all callers use 64 KiB.
- The ZIP download, which streams each file as `Download.DownloadFile` does.
- Audit and admin-action paging, whose cursors do not have the completeness property.
- The filters of the transfer list, beyond the set of matching rows; deletion of rows while paging.
- Telegram token wrapping, which repeats the TOTP layout and is not covered by rotation.
- Frontends, migrations, logging, metrics, analytics, blocklists and configuration, which hold no
  state the properties above depend on.
