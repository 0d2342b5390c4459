# Verified model of PQ-KMS

A Dafny model of the parts of PQ-KMS whose promises hold over all inputs or over all runs,
with proofs of those promises.

| file | what it covers |
|---|---|
| `bytes.dfy`, `structs.dfy`, `strings.dfy`, `wrappers.dfy` | bytes with exclusive or, big-endian fields, splitting and joining, optional values |
| `gf256.dfy`, `gftables.dfy`, `polynomials.dfy`, `shamir.dfy` | GF(2^8), its table arithmetic, polynomials over it, secret sharing |
| `audit.dfy`, `audit_append.dfy`, `audit_files.dfy` | the hash-chained log, appending to it from many replicas, backup and file cross-checks |
| `aead.dfy`, `custody.dfy` | sealing, the Root KEK and the audit signing key over any number of replicas |
| `keydb.dfy`, `repository.dfy`, `keystore.dfy` | the key tables, the repository's transactions, the key store's calls |
| `keyruns.dfy`, `cluster.dfy`, `lifecycle.dfy` | interleaved key operations, the whole fleet, sequences of lifecycle calls |
| `undisturbed.dfy`, `gates.dfy` | what the steps of the run model do alone, and what refuses a key that is not enabled |
| `kem.dfy`, `datakeys.dfy` | the hybrid KEM and the data keys wrapped with it |
| `base64.dfy`, `sessions.dfy` | base64 and the signed session cookies |
| `tokens.dfy`, `callers.dfy`, `authz.dfy` | bearer tokens and principals, who a request comes from, grants and their enforcement |

**Concurrency.** A method that runs in several transactions is a state machine whose steps are
those transactions; the run theorems quantify over every sequence of steps of every replica.
UNIQUE and foreign-key violations undo a transaction. The classes (`AuditTable`, `Repository`,
`KeyStore`, `TokenAuth`, `GrantStore`, `Authorizer`) have the fields that the code updates and
are proved against functions on those fields; the run theorems are about the same functions.

**Cryptography.** AES-GCM, X25519, ML-KEM, HKDF, the custodians, signatures, SHA-384, HMAC and
JSON are parameters, with the law each is used for as a hypothesis: decryption inverts
encryption under the same key, nonce and associated data, and accepts nothing else;
Diffie-Hellman commutes; decapsulation inverts encapsulation; a signature verifies, and in the
tamper theorem no other does; loading inverts dumping. Where a lemma needs the absence of hash collisions, it asks for it only of the inputs that the chains
or tokens at hand have hashed, since no digest of fixed length is free of collisions.
JSON is asked to give back the documents at hand, not all there are. The `LawfulExists` lemmas
show that the laws can be met: those of the fleet together, of the KEM, and of the session
library for any list of documents.
Random values, identifiers and times are parameters; identifiers and token secrets never repeat.

**Integers.** Suite, version and length fields have the widths of their `struct` formats;
usage counts fit the 64-bit column because of the hard limit. Times are in microseconds.

**Where code and documentation disagree.** The wire format in the docstring of
`pqkms/app/crypto/kem.py` (lines 13 and 14) has neither the salt nor the length in front of
the post-quantum part. The comment at line 451 of `pqkms/app/api/routes.py` says that grants
never dangle, but deleting a principal leaves its grants (`Authz.DanglingRun`). The
error marked unreachable at line 290 of `pqkms/app/storage/repository.py` is raised when the retry budget
is zero (`AuditAppend.AuditTable.AppendAudit`). The model follows the code.

## Model

| member | source | states |
|---|---|---|
| GfTables.BuildTables | pqkms/app/custody/shamir.py:25-35 | the two table loops: exponential entries are the powers of 3, the second half repeats the first with period 255, and the logarithm of each of the 255 powers is its exponent |
| GfTables.TablesAreInverse | pqkms/app/custody/shamir.py:25-35 | on the 255 non-zero bytes the tables undo each other, both ways |
| GfTables.GfMul | pqkms/app/custody/shamir.py:38-41 | table multiplication is carry-less multiplication modulo 0x11B (section 4.2 of FIPS 197) |
| GfTables.GfDiv | pqkms/app/custody/shamir.py:44-49 | division raises exactly on a zero divisor and otherwise gives the quotient in the field |
| GfTables.TableLaws | pqkms/app/custody/shamir.py:38-41 | table multiplication commutes, associates, distributes over exclusive or and has unit 1 |
| GfTables.DivisionInverts | pqkms/app/custody/shamir.py:38-49 | dividing undoes multiplying and multiplying undoes dividing, for every non-zero divisor |
| Gf256.PowDistinct | pqkms/app/custody/shamir.py:27-33 | the 255 values the loop register takes are pairwise different, so no logarithm is overwritten |
| Gf256.MulNonZero | pqkms/app/custody/shamir.py:38-41 | the field has no zero divisors |
| Shamir.EvalPoly | pqkms/app/custody/shamir.py:52-57 | the backward loop evaluates the polynomial at x |
| Shamir.SplitSecret | pqkms/app/custody/shamir.py:60-72 | refuses bad thresholds and an empty secret, in that order; otherwise share i is the coordinate i followed by the value there of every byte's polynomial |
| Shamir.InterpolationWeight | pqkms/app/custody/shamir.py:90-97 | the inner loop yields the Lagrange weight at 0, and with distinct coordinates its division is never by zero |
| Shamir.CombineShares | pqkms/app/custody/shamir.py:75-99 | refuses, in that order, fewer than two shares, an empty one, a repeated coordinate and different lengths, and no other list; else the interpolated byte at every position |
| Shamir.CombineCorrect | pqkms/app/custody/shamir.py:75-99 | for any at least two shares with distinct coordinates, combining them returns the constant terms of any polynomials of low enough degree through them |
| Shamir.AnyKSharesReconstruct | pqkms/app/custody/shamir.py:60-99 | any k or more different shares of a split secret, in any order and with any random coefficients, combine to exactly the secret |
| Shamir.EveryByteIsConsistent | pqkms/app/custody/shamir.py:6-7 | any k-1 bytes at distinct non-zero coordinates are explained, for every candidate secret byte, by exactly one tail of coefficients |
| Shamir.FewerSharesRevealNothing | pqkms/app/custody/shamir.py:6-7 | for every other secret of the same length exactly one choice of all coefficients produces the same k-1 shares |
| Polynomials.TooManyRoots | pqkms/app/custody/shamir.py:75-99 | a polynomial with at least as many distinct roots as coefficients has only zero coefficients |
| Polynomials.LagrangeCorrect | pqkms/app/custody/shamir.py:85-99 | interpolation through enough distinct points gives the value of the polynomial behind them at every x |
| Polynomials.InterpolationExists | pqkms/app/custody/shamir.py:6-7 | through any points with distinct coordinates there is exactly one polynomial with as many coefficients |
| AuditChain.VerifyChain | pqkms/app/storage/audit.py:71-84 | on an arbitrary list of rows: accepts iff every row links, rehashes and verifies, in particular only if every signature verifies on its digest; else names the sequence number of the first row that does not |
| AuditChain.UnsignedRowIsRejected | pqkms/app/storage/audit.py:80-82 | a row whose digest the key holder did not sign is rejected, at itself if the rows before it are in order |
| AuditChain.AcceptedIsPrefix | pqkms/app/storage/audit.py:71-84 | what verifies under a key that signed the digests of one log and no others is a beginning of that log: no row rewritten, added, or left out in the middle |
| AuditChain.FirstBadBreaks | pqkms/app/storage/audit.py:71-84 | at most one row is the first bad one, and with it no longer list is a chain |
| AuditChain.ChainPrefix | pqkms/app/storage/audit.py:71-84 | every prefix of a valid chain is a valid chain: the verifier alone cannot see a truncated tail |
| AuditChain.HeadDetermines | pqkms/app/storage/audit.py:47-51 | two linked chains with equal heads and equal length carry the same payloads link by link; the length need not be compared if no digest starts with 32 zero bytes |
| AuditChain.HeadsDiffer | pqkms/app/storage/audit.py:47-51 | without collisions, and if no digest starts with 32 zero bytes, a chain never comes back to an earlier head |
| AuditChain.ZeroPrefixRevisits | pqkms/app/storage/audit.py:73-83 | the second condition is needed: a chain without collisions that does come back to a head, by a digest that starts with 32 zero bytes |
| AuditChain.PayloadPinsTexts | pqkms/app/storage/audit.py:48 | the payload pins the five texts of an entry against every other entry iff none of the five contains a bar |
| AuditChain.BarsAreAmbiguous | pqkms/app/storage/audit.py:44-48 | the entry that creating a key named "a|b" writes shares its payload with one that differs in all five texts |
| AuditChain.MoveBoundary | pqkms/app/storage/audit.py:48 | for every entry with a bar in any text, another with the same payload and other texts |
| AuditAppend.InsertExtendsHead | pqkms/app/storage/repository.py:271-286 | in every reachable state of any number of appenders, an insert that commits names the current head, however stale its read was |
| AuditAppend.RejectionMeansProgress | pqkms/app/storage/repository.py:285-289 | without collisions, and if no digest starts with 32 zero bytes, a rejected insert means that a row was committed after the head was read |
| AuditAppend.StepKeepsInv | pqkms/app/storage/repository.py:261-290 | each read, insert and rejection by any appender keeps one ordered, signed chain and only ever extends it |
| AuditAppend.EveryRunIsOneChain | pqkms/app/storage/migrations/versions/0001_baseline.py:72-73 | from the empty log, every interleaving leaves one verifying chain in which no predecessor repeats |
| AuditAppend.ExhaustionMeansProgress | pqkms/app/storage/repository.py:271-290 | under the same two conditions a call that used up its retries saw at least that many foreign rows committed while it ran |
| AuditAppend.QuietAppendCommits | pqkms/app/storage/repository.py:271-286 | under the same two conditions a call that nobody interferes with commits at its first attempt |
| AuditAppend.AuditTable.InsertRow | pqkms/app/storage/repository.py:279-286 | one INSERT under the UNIQUE index: all or nothing, with the sequence number that is consumed either way |
| AuditAppend.AuditTable.Attempt | pqkms/app/storage/repository.py:272-286 | one attempt with foreign appends in the middle: a commit puts the row on the head before it, a refusal means the log grew |
| AuditAppend.AuditTable.AppendAudit | pqkms/app/storage/repository.py:261-290 | the retry loop against arbitrary interference: the chain stays valid and success appends the entry last; under the same two conditions exhaustion means that the log grew by max_retries rows and that every attempt was interfered with |
| AuditFiles.VerifyBackup | pqkms/app/cli/backup.py:126-141 | exit code 0 iff the chain verifies and both count and head equal the manifest's |
| AuditFiles.BackupDetectsEdits | pqkms/app/cli/backup.py:51-55 | a snapshot that matches a log's manifest carries the same payloads link by link |
| AuditFiles.ManifestPinsEvents | pqkms/app/cli/backup.py:51-55 | every accepted snapshot agrees with the log in every text of every row iff no text in the log contains a bar |
| AuditFiles.FreshBackupVerifies | pqkms/app/cli/backup.py:58-93 | snapshot and later manifest agree exactly when nothing was appended in between |
| AuditFiles.VerifyFileChain | pqkms/app/cli/audit.py:41-60 | the file loop: intact iff every record names the digest before it and carries its own; the head text, or the first line that breaks the chain or does not decode |
| AuditFiles.IntactMeans | pqkms/app/cli/audit.py:45-60 | the running hash and head after any lines are those of the last record, exactly if every record follows the one before it |
| AuditFiles.FileCrossCheck | pqkms/app/cli/audit.py:82-95 | a file whose head equals the database's carries the same payloads link by link, if no digest starts with 32 zero bytes |
| AuditFiles.DatabasePinsFile | pqkms/app/cli/audit.py:82-95 | every accepted file agrees with the database in every text of every row iff no text in the database contains a bar |
| AuditFiles.MirrorOfAnyRunPasses | pqkms/app/storage/audit.py:60-69 | the complete mirror in commit order of any interleaving passes the file check |
| Custody.ParsePack | pqkms/app/storage/audit.py:98-111 | the stored signing key parses back to the same private key, public key and suite |
| Custody.PackLayout | pqkms/app/storage/audit.py:98-111 | the stored bytes: two of suite, four of length, most significant first, then both keys |
| Custody.Parses | pqkms/app/storage/audit.py:100-104 | a row parses iff it has its header and names a known suite |
| Custody.StepKeepsInv | pqkms/app/storage/keystore.py:111-171 | every transaction of every replica keeps the stored envelope, the stored signing key and all held keys in agreement |
| Custody.OneRootKek | pqkms/app/storage/keystore.py:111-171 | after any interleaving of initialize, unlock, re-seal and restart, on fresh or legacy databases, unlocked replicas hold one Root KEK, the selected envelope seals it, and loaded audit signing keys are equal |
| Custody.RestartUnlocks | pqkms/app/storage/keystore.py:126-157 | a restarted replica with the credential of the selected envelope gets the same Root KEK |
| Custody.FirstBoot | pqkms/app/storage/keystore.py:111-122 | an undisturbed first boot leaves the replica unlocked with its new key and the envelope stored |
| Custody.LostBoot | pqkms/app/storage/keystore.py:121-124 | the loser of a race adopts the key that landed |
| Custody.HeldKeysStay | pqkms/app/storage/keystore.py:126-131 | a refused credential leaves the key that was held |
| Custody.ResealedUnlocks | pqkms/app/storage/keystore.py:159-171 | after a re-seal the new credential gets a restarted replica the same key |
| Custody.SigningKeyLoads | pqkms/app/storage/audit.py:106-118 | an unlocked replica gets the stored audit signing key, or publishes its own if there is none |
| KeyStores.KeyStore.LoadEnvelope | pqkms/app/storage/keystore.py:133-157 | the custody row, else an envelope made of the legacy rows for a passphrase backend, else nothing |
| KeyStores.KeyStore.Unlock | pqkms/app/storage/keystore.py:126-131 | succeeds iff the credential can load and unseal an envelope, and then holds what it unseals; every refusal leaves the held key as it was |
| KeyStores.KeyStore.Initialize | pqkms/app/storage/keystore.py:111-124 | first boot with or without a rival: the first envelope stays, the winner holds its own key, the loser the key that landed, and fails iff its credential does not unseal that |
| KeyStores.KeyStore.RewrapRootKek | pqkms/app/storage/keystore.py:159-171 | afterwards the selected envelope unseals, under the new credential, to the key that was held; no other row changes |
| Repositories.Repository.PutMeta | pqkms/app/storage/repository.py:67-78 | insert; a present key is an error, or the answer false with if_absent, and nothing changes |
| Repositories.Repository.SetMeta | pqkms/app/storage/repository.py:80-86 | the row has the new value whether or not it existed |
| Repositories.Repository.CreateKeyWithVersion | pqkms/app/storage/repository.py:96-99 | both rows are inserted or, on any constraint violation, neither |
| Repositories.Repository.Rotate | pqkms/app/storage/repository.py:159-169 | retire, insert, move the pointer: all three or, on a UNIQUE or foreign-key violation, none |
| Repositories.Repository.Destroy | pqkms/app/storage/repository.py:145-157 | the key goes with all its version rows; false and no change if it does not exist |
| Repositories.Repository.BumpUsage | pqkms/app/storage/repository.py:235-249 | one row gains one use and the new count is returned, or nothing happens if it is missing or at the limit |
| Repositories.Repository.SetState | pqkms/app/storage/repository.py:101-108 | only the state and deletion time of the one key change |
| Repositories.Repository.ListRotationCandidates | pqkms/app/storage/repository.py:118-135 | exactly the enabled keys that have a rotation policy and a current version row, each once |
| KeyDb.RotateConsistent | pqkms/app/storage/repository.py:159-169 | rotating from the current version finds the next number free and keeps the version rows exact |
| KeyDb.RotateFromRead | pqkms/app/storage/repository.py:159-169 | a rotation from a version that once was current commits iff that version still is |
| KeyDb.DestroyConsistent | pqkms/app/storage/schema.py:108 | no version row outlives its key |
| KeyDb.NextVersionFree | pqkms/app/storage/schema.py:118 | the successor of the current version number is never taken |
| KeyDb.PolicyChange | pqkms/app/storage/repository.py:110-116 | a policy change touches one field of one row |
| KeyStores.KeyStore.CreateKey | pqkms/app/storage/keystore.py:192-235 | a new key with version 1, whose stored secret unwraps to the generated one; an unlocked store always creates a key with a free id and name |
| KeyStores.KeyStore.Rotate | pqkms/app/storage/keystore.py:422-443 | the tables become their rotation with the new secret wrapped for its version, or stay; an unlocked store always rotates an existing key when nobody interferes |
| KeyStores.KeyStore.RotationDue | pqkms/app/storage/keystore.py:365-378 | exactly the keys whose period has elapsed since their current version was created, each once |
| KeyStores.DueFrom | pqkms/app/storage/keystore.py:365-378 | an enabled key with a period is due exactly once its days of 24 hours are over |
| KeyStores.NeverDue | pqkms/app/storage/repository.py:128-134 | a key that is disabled, pending, or without a period is never due |
| KeyStores.KeyStore.RotateDue | pqkms/app/storage/keystore.py:380-387 | every due key moves on by exactly one version, holding its own new material; no other key, no key that is not enabled and no old secret changes |
| KeyStores.RotatedIsNotDue | pqkms/app/storage/keystore.py:365-387 | right after the sweep a key with a period of at least a day is not due |
| KeyRuns.StepKeepsInv | pqkms/app/storage/keystore.py:422-483 | every transaction of every worker keeps version rows exact, slots counted and unique, and issued ciphertexts readable; keys never come back and stored secrets never change |
| KeyRuns.LosingRotateChangesNothing | pqkms/app/storage/keystore.py:422-443 | a rotation that was overtaken, or whose key is gone, leaves all tables as they are |
| Cluster.VersionsStayExact | pqkms/app/storage/schema.py:108-118 | for any fleet and any interleaving: the rows of a key are exactly versions 1 to current, and exactly the current one is active |
| Cluster.TablesAreInitial | pqkms/app/storage/schema.py:78-118 | the runs may start from any tables with exact version rows and counters within the limit, on a fresh or a legacy database |
| KeyStores.KeyStore.Reserve | pqkms/app/policy.py:41-64 | a missing version and a spent budget are told apart and change nothing; otherwise one slot is spent and a warning is due iff the count is the soft limit |
| KeyRuns.NonceBudget | pqkms/app/policy.py:41-64 | ciphertexts under a version <= reserved slots = its usage count <= hard limit; at most one warning, given iff the soft limit was reached |
| Cluster.BudgetIsKept | pqkms/app/policy.py:10-20 | the budget holds in every run of any fleet |
| Cluster.DefaultBudget | pqkms/app/policy.py:28-29 | with the default limits at most 2^32 ciphertexts under a version, and a counter within 64 bits |
| KeyStores.KeyStore.Encrypt | pqkms/app/storage/keystore.py:456-473 | succeeds only for an enabled AEAD key with budget left on an unlocked store, refuses in order and then changes nothing, else spends exactly one slot; the result decrypts to the plaintext in the resulting state |
| KeyStores.KeyStore.Decrypt | pqkms/app/storage/keystore.py:475-483 | the stepwise decryption gives the plaintext or the first error, and nothing for a key that is not enabled |
| Gates.UnusableRefuses | pqkms/app/storage/keystore.py:276-285 | for a key that is missing or not enabled, or a locked store, encryption, decryption, wrapping and unwrapping are all refused |
| Gates.DisabledKeyRefuses | pqkms/app/storage/keystore.py:287-311 | after a key was disabled or scheduled for deletion, in every continuation that does not enable it, all four are refused |
| Cluster.QuietKeyStaysQuiet | pqkms/app/storage/keystore.py:456-473 | once a key is disabled, pending or gone and the encryptions under it are through, no interleaving of any fleet spends a slot of it or hands out a ciphertext until it is enabled |
| Undisturbed.DecryptedWasSealed | pqkms/app/storage/keystore.py:475-483 | no text decrypts but one whose sealed part was made from that plaintext, under the secret of the version it names and with the same associated data |
| Undisturbed.EncryptsAlone | pqkms/app/storage/keystore.py:456-473 | in the run model an encryption alone hands out one ciphertext under the current suite and secret, and spends one slot |
| Undisturbed.RotatesAlone | pqkms/app/storage/keystore.py:422-443 | a rotation alone makes the new secret the current version |
| Undisturbed.CreatesAlone | pqkms/app/storage/keystore.py:192-235 | a creation alone stores version 1 with the secret, enabled |
| Undisturbed.LockedDoesNothing | pqkms/app/storage/keystore.py:176-188 | on a locked replica nothing is created or rotated, and no secret loaded |
| Undisturbed.FleetBoots | pqkms/app/storage/keystore.py:111-122 | a replica that boots alone on an empty database is unlocked for its workers |
| Undisturbed.FleetEncrypts | pqkms/app/storage/keystore.py:456-473 | and a worker on it that encrypts alone hands out a ciphertext |
| Undisturbed.CiphertextBytes | pqkms/app/storage/keystore.py:466-472 | the bytes of a ciphertext: suite, version, most significant first, sealed part |
| KeyRuns.CiphertextRoundTrip | pqkms/app/storage/keystore.py:466-480 | parsing a ciphertext text recovers the version and the sealed part for every suite and version |
| KeyRuns.IssuedDecrypts | pqkms/app/storage/keystore.py:475-483 | every ciphertext handed out decrypts under its associated data in every later state in which its key exists and is enabled |
| Cluster.CiphertextsStayDecryptable | pqkms/app/storage/keystore.py:456-483 | and does so on every unlocked replica, across rotations, lifecycle changes, re-sealing of the Root KEK and restarts |
| Aead.OpenSeal | pqkms/app/crypto/aead.py:19-34 | what is sealed under a 32-byte key opens under the same key and associated data |
| Aead.OpensExactlySealed | pqkms/app/crypto/aead.py:19-34 | exactly what was sealed under the key with the associated data opens, whatever comes in |
| KeyStores.KeyStore.DisableKey | pqkms/app/storage/keystore.py:287-291 | the call has the effect of the lifecycle specification, or refuses without effect |
| KeyStores.KeyStore.EnableKey | pqkms/app/storage/keystore.py:293-301 | likewise; a pending key is refused |
| KeyStores.KeyStore.ScheduleDeletion | pqkms/app/storage/keystore.py:303-311 | likewise; a negative window is refused |
| KeyStores.KeyStore.CancelDeletion | pqkms/app/storage/keystore.py:313-322 | likewise; only a pending key can be cancelled |
| KeyStores.KeyStore.DestroyKey | pqkms/app/storage/keystore.py:324-336 | likewise; without force only a pending key whose time has come |
| Lifecycle.RunKeeps | pqkms/app/storage/keystore.py:287-336 | after any sequence of calls a deletion time is set iff the key is pending deletion, and the version rows are exact |
| Lifecycle.StateCalls | pqkms/app/storage/keystore.py:287-322 | when disabling, enabling, scheduling and cancelling succeed, and that each leaves its state and time on that one key and nothing else |
| Lifecycle.VersionCalls | pqkms/app/storage/keystore.py:192-235 | when creation and rotation succeed, and the rows they leave |
| Lifecycle.StaysUnusable | pqkms/app/storage/keystore.py:287-322 | after disabling or scheduling, without enabling, a key is gone or not enabled |
| Lifecycle.PendingIsLeftDisabled | pqkms/app/storage/keystore.py:293-322 | no single call takes a key from pending to enabled |
| Lifecycle.EnabledOnlyAfterDisabled | pqkms/app/storage/keystore.py:293-322 | between a pending and a later enabled state of a key it was disabled |
| Lifecycle.PendingWasScheduled | pqkms/app/storage/keystore.py:303-311 | a pending key was scheduled by an earlier call and nothing changed its state or time since |
| Lifecycle.DestructionWaitsForWindow | pqkms/app/storage/keystore.py:324-336 | an unforced destruction at T succeeds only if the last state change was a scheduling at t with t + window <= T |
| Lifecycle.DestructionRemovesKey | pqkms/app/storage/repository.py:145-157 | a destruction that is due or forced removes the key and all its versions and nothing else |
| Lifecycle.StaleGate | pqkms/app/storage/keystore.py:293-336 | acting on a gate read before the tables moved on equals a call made now exactly when the gate would still pass, or acting changes nothing |
| Lifecycle.StaleEnableRevives | pqkms/app/storage/keystore.py:293-301 | consistent tables on which an interleaved enabling takes a key from pending to enabled at once |
| Kem.ParseBuiltHead | pqkms/app/crypto/kem.py:141-182 | parsing recovers suite, salt and sender's key of every built blob, whatever follows |
| Kem.ParseBuiltPqPart | pqkms/app/crypto/kem.py:155-202 | parsing recovers the post-quantum ciphertext behind any front part |
| Kem.ParsedIsRebuilt | pqkms/app/crypto/kem.py:172-182 | a blob whose fields have their announced lengths begins with what the builder makes of them |
| Kem.Layout | pqkms/app/crypto/kem.py:135-161 | the bytes of both blobs, lengths most significant first |
| Kem.AcceptedBlob | pqkms/app/crypto/kem.py:171-202 | a blob is accepted only with a known suite, a complete salt, a 32-byte sender key and, unless classical, the library and a post-quantum length |
| Kem.MissingLibrary | pqkms/app/crypto/kem.py:188-198 | without the library exactly the blobs that are not classical turn into that error |
| Kem.HybridBindsBoth | pqkms/app/crypto/kem.py:144-153 | another encapsulation with the same secret is hybrid too and has the same classical secret, post-quantum secret and salt |
| Kem.Decapsulate | pqkms/app/crypto/kem.py:165-212 | the cursor-driven receiver computes the secret or the first error, in the order of the code |
| Kem.RoundTrip | pqkms/app/crypto/kem.py:71-212 | for all eight histories of the library's presence the receiver gets the sender's secret, except for a hybrid blob without the library, which is reported |
| DataKeys.OpensWhatWasWrapped | pqkms/app/storage/keystore.py:509-532 | a wrapped data key opens with the private key of the generated pair, through base64, KEM and AEAD |
| DataKeys.WrappedParts | pqkms/app/storage/keystore.py:515-523 | the stored parts decode to the blob and to the data key sealed under the shared secret, with the associated data of the code |
| DataKeys.DefaultVersion | pqkms/app/storage/keystore.py:529 | no version and version 0 both mean the current one |
| DataKeys.WrappedKeyOutlivesRotations | pqkms/app/storage/keystore.py:525-532 | in every run of the fleet, a data key wrapped for a version that the run created with a generated pair unwraps after whatever follows: when the version is passed, and without it while that version is current |
| Base64.DecodeEncode | pqkms/app/api/sessions.py:29-35 | the lenient decoder inverts the encoder for both alphabets (sections 4 and 5 of RFC 4648) and all byte strings |
| Base64.B64uRoundTrip | pqkms/app/api/sessions.py:29-35 | the stripped padding is re-derived from the length alone, and the text contains no dot |
| Base64.B64uText | pqkms/app/api/sessions.py:29-30 | cookie text consists of letters, digits, hyphen and underscore, and has no padding |
| Base64.Vectors | pqkms/app/api/sessions.py:29-35 | test vectors of section 10 of RFC 4648, and both extra symbols of each alphabet |
| Base64.SkipsForeign | pqkms/app/api/sessions.py:33-35 | the decoder skips characters outside its alphabet wherever they stand |
| Strings.SplitFront | pqkms/app/api/sessions.py:61 | the first separator is where a front part without it ends |
| Sessions.UnsignSigned | pqkms/app/api/sessions.py:55-68 | a signed value yields its payload under every secret with the same signature on it, and nothing under any other |
| Sessions.UnsignMeans | pqkms/app/api/sessions.py:59-68 | of all values exactly those that carry a payload and its signature yield it |
| Sessions.VerifiedIsSigned | pqkms/app/api/sessions.py:80-95 | a value verifies to a session iff it carries the signature of a payload that grants that session at that time |
| Sessions.VerifiedTxIsSigned | pqkms/app/api/sessions.py:103-115 | likewise for login data |
| Sessions.VerifyIssued | pqkms/app/api/sessions.py:70-95 | an issued session verifies to its principal, scopes and subject exactly while now < issue time + ttl |
| Sessions.VerifySignedTx | pqkms/app/api/sessions.py:98-115 | login transaction data comes back for exactly ten minutes |
| Sessions.TxIsNoSession | pqkms/app/api/auth.py:196-204 | though signed with the same secret, transaction data without a principal never yields a session |
| Callers.DeletedComesByCookieOnly | pqkms/app/api/auth.py:187-205 | after the deletion of a principal a request still resolves to it iff it carries a verifying cookie that names it and no bearer text |
| Callers.IssuedCookieLasts | pqkms/app/api/auth.py:194-204 | whatever the directory says, an issued cookie names its principal until its lifetime is over |
| Callers.BearerDecides | pqkms/app/api/auth.py:191-193 | a bearer text is all that counts if there is one, and a usable token gets its principal through |
| Tokens.TokenAuth.NewPrincipal | pqkms/app/api/auth.py:74-85 | the type is checked first; a new principal is enabled |
| Tokens.TokenAuth.NewToken | pqkms/app/api/auth.py:101-141 | mints iff the scopes are known, the lifetime positive, the named principal exists or a new one can be made, and the id is free; then a row with the hash of the full text |
| Tokens.TokenAuth.Delete | pqkms/app/storage/repository.py:416-431 | the principal goes and its tokens are revoked, together |
| Tokens.TokenAuth.Authenticate | pqkms/app/api/auth.py:149-178 | the loop over the narrowed candidates: the first row with the hash decides |
| Tokens.LikeItsPrefix | pqkms/app/storage/repository.py:356-376 | LIKE with the prefix pattern matches every id with that prefix, with or without an escape character and letter folding |
| Tokens.FormattedPrefix | pqkms/app/api/auth.py:123-163 | the prefix that the lookup cuts out of a minted token is the first eight characters of its id |
| Tokens.LookupIsFullScan | pqkms/app/api/auth.py:149-178 | on every input text the narrowed lookup answers as a scan of all active tokens by hash |
| Tokens.RunKeepsInv | pqkms/app/storage/repository.py:335-431 | after any sequence of calls every token that is not revoked has an existing principal, and ids and texts are unique |
| Tokens.AuthenticatedIsUsable | pqkms/app/api/auth.py:149-178 | whoever authenticates presented the text of an unrevoked, unexpired token, and is its existing, enabled principal with its scopes |
| Tokens.UsableAuthenticates | pqkms/app/api/auth.py:149-178 | and every such text does authenticate |
| Tokens.MintedTokenAuthenticates | pqkms/app/api/auth.py:101-178 | from its minting on, whatever follows, a token authenticates exactly until its lifetime ends, it is revoked, or its principal is removed or disabled, and then as that principal with the scopes asked for |
| Tokens.JudgeMeans | pqkms/app/api/auth.py:168-172 | a matching row is turned down exactly if it has expired or its principal is there and disabled |
| Tokens.StaleMint | pqkms/app/api/auth.py:118-140 | a row inserted after an earlier check of its principal keeps what runs keep iff the principal still exists |
| Tokens.DeletedStaysOut | pqkms/app/storage/repository.py:416-431 | after its deletion a principal is authenticated by no bearer text, in any continuation of the run |
| Tokens.MintedScopes | pqkms/app/api/auth.py:127-176 | scopes survive storage as text, except that the empty set comes back as the one empty scope |
| Authz.Authorizer.CollectOps | pqkms/app/api/authz.py:89-97 | the loop that builds the dictionary of a principal's operations |
| Authz.AllowedMeans | pqkms/app/api/authz.py:99-119 | allowed iff administrator, legacy mode, or a grant for the operation exists on the key or on its namespace |
| Authz.NamespaceRightReachesKeys | pqkms/app/api/authz.py:121-127 | a right in a namespace comes from a grant on it and extends to every key in it |
| Authz.NamespaceAllowedMeans | pqkms/app/api/authz.py:121-127 | allowed iff administrator, legacy mode, or a grant for the operation on the namespace |
| Authz.Authorizer.AuthorizeKeyOp | pqkms/app/api/authz.py:109-119 | the code's check agrees with that specification |
| Authz.Authorizer.AuthorizeNamespaceOp | pqkms/app/api/authz.py:121-127 | likewise for an operation in a namespace |
| Authz.Authorizer.FilterVisibleKeys | pqkms/app/api/authz.py:129-138 | keeps exactly the positions, in order, whose key the single check would allow reading, in both modes |
| Authz.StoredOps | pqkms/app/api/routes.py:447-464 | the operations stored as text come back as the same set |
| Authz.GrantStore.Upsert | pqkms/app/storage/repository.py:471-491 | one existing grant is replaced in place or one row inserted, with the id that now counts |
| Authz.UpsertMeans | pqkms/app/storage/repository.py:471-491 | afterwards the target has exactly the new operations and no other target changed |
| Authz.GrantStore.Destroy | pqkms/app/storage/repository.py:145-157 | the key and its grants go together |
| Authz.RunKeepsInv | pqkms/app/api/routes.py:441-464 | after any sequence of grant and key operations: one grant per principal and resource, none on a key that does not exist, only known operations |
| Authz.RequestMeans | pqkms/app/api/routes.py:441-464 | when a request for a grant succeeds, and that it leaves its principal exactly those operations on the resource |
| Authz.DanglingMeansRemoved | pqkms/app/api/routes.py:451-453 | every dangling grant was left behind by a removal of its principal |
| Authz.WhatMakesGrantsDangle | pqkms/app/storage/repository.py:416-431 | of all events exactly the removal of a principal that holds a grant makes grants dangle |
| Authz.CarefulRunsDangleNever | pqkms/app/api/routes.py:451-453 | in runs that remove no principal while it holds a grant, none dangles |
| Authz.DanglingRun | pqkms/app/storage/repository.py:416-431 | a run from the empty tables, of a namespace, a principal, a grant and a removal, that ends with a dangling grant |
| Authz.StaleGrant | pqkms/app/api/routes.py:451-464 | a grant stored after an earlier check keeps what runs keep iff its key is still there, and dangles iff its principal is not |
| Authz.ReachableAllowedMeans | pqkms/app/api/authz.py:99-119 | in every reachable state nobody but an administrator may use a missing key in strict mode, and an existing one only by an existing grant |

## Left out

- AES-GCM, X25519, ML-KEM, HKDF, Argon2, SHA-384, HMAC, JSON, the signers and the custodians: parameters with the laws named above; their internals are not modelled.
- HTTP routes, request validation, rate limits, OIDC, metrics and the user interface: no property that spans calls; the guard in front of the grant upsert is modelled.
- AWS, GCP, PKCS#11 and the Shamir custodian's envelope: one abstract custodian that unseals what it sealed and refuses other backends.
- File order under concurrent writers and swallowed sink failures: a row is emitted after its commit and outside the transaction, so the file theorems are about complete mirrors in commit order.
- PostgreSQL advisory locks and SQLite's write lock: the model allows every interleaving that the constraints allow, and consumes a sequence number for a refused insert.
- AuditChain.HeadsDiffer: assumes that no digest starts with 32 zero bytes; ZeroPrefixRevisits shows that it must.
- AuditAppend.RejectionMeansProgress: the same assumption, for the same reason.
- AuditAppend.ExhaustionMeansProgress: the same assumption, for the same reason.
- AuditAppend.QuietAppendCommits: the same assumption, for the same reason.
- AuditFiles.FileCrossCheck: assumes that no digest starts with 32 zero bytes, because the file check compares heads and not counts.
- Lifecycle.DestructionWaitsForWindow: about calls that run one after the other, because gate and action are separate transactions; StaleGate gives the exact condition under interleaving.
- Tokens.RunKeepsInv: about calls that run one after the other; minting checks the principal and inserts the token in separate transactions, for which StaleMint gives the exact condition.
- Authz.RunKeepsInv: about calls that run one after the other; the route checks principal and resource before the upsert's transaction, for which StaleGrant gives the exact condition.
- KeyStores.KeyStore.Initialize: the interference of other replicas is one rival envelope; all interleavings are covered by Custody.OneRootKek.
- Repositories.Repository.Destroy: the grants deleted in the same transaction are in another model of the same tables, Authz.GrantStore.Destroy.
- KeyStores.KeyStore.RotateDue: all new versions of a sweep carry one time, and nobody interferes; interleaved rotations are covered by KeyRuns.
- DataKeys.WrappedKeyOutlivesRotations: says nothing about unwrapping with another version's key, about which the KEM's law is silent.
- Columns that no rule reads (descriptions, origins, creation times of keys and grants, public material, token names): not in the tables of the model.
- Tokens.LookupIsFullScan: the database returns candidates in the order of the table; matching rows are unique, so the order does not matter to who is found.
- Key listing, pagination, import of keys and the signing operations: they add only easy members.
- Parsing of operation lists (trimming, comma-separated form) and the UTF-8 encoding of texts: operations arrive as a set, audit fields as bytes.
- Overflow of dates and non-numeric times: times are unbounded integers.
- `pqkms/app/cli/init.py`: not modelled; its line 60 unpacks two of the three values that minting returns.
