# Galata Vault: a verified model

Galata Vault keeps end-to-end encrypted secrets and configs in *vaults*. A server stores ciphertext rows,
hash-chained audit rows and tokens in SQLite and writes a journal ahead of the commits that must survive
a restored backup. Clients sign versioned writes, pin what they have seen, and an owner can re-root a
whole subtree of vaults onto fresh keys. This project models that logic in Dafny 4.11 and proves what it
is for. `dafny verify dfyconfig.toml` checks all of it.

The model follows the program's own structure:

- **The store** (`Types`, `Tables`, `Rotations`, `Database`, `SqliteStore`). `Database` says what each
  transaction does, as a function from the committed tables to the new ones: commit, commit only a refused
  audit row, or roll back. `SqliteStore.Store` is the class that does it: it works on a copy with the
  source's loops (`delete_versions`, `delete_tokens`, `replace_records`, `rotate`) and installs or discards
  it, and each method is proved to do exactly what `Database` says.
- **What each call does** (`Effects`, `ChildrenWrites`): field by field, in terms of the request alone, what
  every accepted call stores, removes, logs and leaves alone, and which answer every request gets.
- **What the store keeps** (`Invariant`, `Regularity`, `Quotas`, `Audit`, `CompareAndSwap`, `Contention`,
  `SingleUse`): over every
  run of calls, exact byte accounting, sound heads, gapless histories, unbroken audit chains, and a
  compare-and-swap on the exact head.
- **Crashes and backups** (`Recovery`, `Restoration`, `RegularHistories`): the journal record handed to the hook replays to the
  very state the commit gives; and after any history of calls, crashes and restores, replaying the journal
  onto any committed state of the current line brings back no deleted vault and no revoked token and undoes no rotation.
- **The client** (`Histories`, `Copying`, `Transfer`, `Pins`): the resumable copy run against the store's class itself, and
  descriptor pins against a server that may answer anything, or against the store.
- **Re-rooting** (`Subtree`, `Rekey`, `Owner`): the breadth-first walk, the step machine with a crash
  between any two requests or saves, and the owner's phases as loops that refine it.
- **Two codecs** (`Bundles`; `Base64`, `AgeHeader`, `Stream`, `Age`, `AgeChecks`): key bundles and age v1
  files, and exactly what decrypts.

Some properties do not hold of the code as one might state them. Each is shown at an input and given with
its exact condition:

- *A half-done abort followed by a resume keeps every environment.* An abort leaves the recorded step as it
  was until its last save. `Rekey.HalfAbortThenResumeLoses` shows the run: reach Migrated, stop, abort, stop
  after the first deletion, resume; the old vault is then deleted although the new one is gone.
  `Rekey.ResumeFromMigrated`: resuming from Migrated keeps every environment if and only if every new vault
  still exists. `Rekey.ObedienceIsHeed`: "once an abort has started, only abort again" is enough.
- *A resume that is not interrupted ends the rekey.* The copy can be refused by a quota, although the source
  never broke one: `Quotas.CopyMayBeRefused` shows a name deleted and another written in its place, which
  cannot both be copied while one name may be live. `Rekey.ResumeEndsExactly` gives the condition:
  before Migrated, that no entry still to copy is refused, and, from Created on, that no new vault is gone.
  `Transfer.CopyUntilDone` gives what a caller can check beforehand (`Transfer.Roomy`): no more names to copy
  than may be live, no value too long once sealed again, and bytes enough; a copy is then not refused.
- *Every refused write is audited.* A delete that fails leaves nothing exactly when the name was absent or
  deleted (`Audit.RefusedDelete`, at an input `Audit.UnauditedDelete`), a mint exactly when only its id is in
  the way (`Audit.RefusedMint`, `Audit.UnauditedMint`).
- *`bytes_used` stays within `max_vault_bytes`.* `Quotas.BytesMayExceed` shows a run that leaves the bound.
  A put never does; a delete and a rotation do exactly when `Quotas.DeleteExceedsExactly` and
  `Quotas.RotationExceedsExactly` say. What is invariant is the exact sum (`Recovery.EveryRunIsSound`).

Assumptions that statements carry, because the code does not enforce them: gapless bounded histories and
the live-name quota need fixed limits and rotations that rename whole names one-to-one
(`Regularity.Disciplined`); a copy needs readable records within the target's version limit
(`Copying.Copyable`); the old vaults of a rekey have different ids, as vaults of different keys do
(`Rekey.MoveOk`); the key exchange is any commutative one, so that `Age.DecryptUndoesEncrypt` has to set apart
a shared secret of zero, which `decrypt` refuses on account of hostile shares and which honest X25519 keys
never give; hashes of audit rows and values are symbolic terms, so equal hashes mean equal content; and that a
truncated or tampered age stream fails needs an AEAD under which none of the offered chunks is a forgery
(`Stream.Ideal`). `AgeChecks.AlteredHeader` speaks of a collision of the MAC, and not of an injective one: no
function to 32 bytes is.

## Model

| member | source | states |
|---|---|---|
| Restoration.RestoreAndReplay | crates/galata-vault/src/backend/sqlite.rs:1633-1702 | After any history of calls, crashes and restores, and for any committed state of the current line as backup (a restore abandons the states after the one restored): replaying the journal never fails and reaches the live counter; the vaults left are exactly the backup's that were not deleted since, at the live generation, descriptors and owner bundle; every token left is live, unchanged and at its vault's generation |
| Restoration.EveryHistoryIsSound | crates/galata-vault/src/backend/sqlite.rs:455-476 | Whatever is called, wherever it crashes and whatever is restored, every committed state replays step by step to a sound state and an earlier one's replay is a remnant of a later one's |
| Restoration.DoOk | crates/galata-vault/src/backend/journal.rs:3-18 | Every call, committed or crashed, leads to a sound world; for a call that journals, crashing after the journal write and replaying gives the same world as committing |
| Restoration.ReplayCarries | crates/galata-vault/src/backend/sqlite.rs:1633-1702 | If one state holds a remnant of another, it still does after the same record is replayed onto both |
| Restoration.ReplayAllKeepsVaults | crates/galata-vault/src/backend/sqlite.rs:1692-1694 | The vaults left by a replayed journal are exactly those not deleted by a record past the counter |
| Recovery.JournaledIsExact | crates/galata-vault/src/backend/sqlite.rs:455-476 | Every call journals nothing, or one record whose replay onto the state it started from gives the very state the commit gives |
| Recovery.RevocationIsExact | crates/galata-vault/src/backend/sqlite.rs:1059-1100 | The record a revocation journals lists, once each, exactly the tokens that are gone, which are the vault's among those asked for, and replays to the committed state |
| Recovery.RotationIsExact | crates/galata-vault/src/backend/sqlite.rs:1561-1583 | The lenient replay of a rotation's record leaves exactly what the strict path left, audit chain and counter included |
| Recovery.DeletionIsExact | crates/galata-vault/src/backend/sqlite.rs:1585-1599 | The record of a vault deletion replays to the committed state |
| Recovery.FailedHookChangesNothing | crates/galata-vault/src/backend/sqlite.rs:455-476 | A failed journal write leaves the database and the journal as they were |
| Recovery.ReplayIsIdempotent | crates/galata-vault/src/backend/sqlite.rs:1633-1645 | Replaying a record a second time answers `false` and changes nothing |
| Recovery.ReplayInv | crates/galata-vault/src/backend/sqlite.rs:1633-1702 | Replaying an admissible record succeeds, keeps the invariant and moves the counter to it |
| Recovery.EveryRunIsSound | crates/galata-vault/src/backend/sqlite.rs:199-215 | The invariant holds in every state reached by calls: exact `bytes_used`, each head the greatest retained version with a row and an agreeing tombstone flag, unbroken chains, a descriptor for every generation, every token at its vault's generation |
| Recovery.QuietStepsOnlyAdd | crates/galata-vault/src/backend/sqlite.rs:455-476 | A call that journals nothing removes no vault or token and changes no generation, descriptor, owner bundle or token row |
| Invariant.WriteInv | crates/galata-vault/src/backend/sqlite.rs:1289-1315 | What a write frees never exceeds `bytes_used`, so neither subtraction underflows or saturates, and storing it with exact accounting keeps the invariant |
| Quotas.PutStaysWithin | crates/galata-vault/src/backend/sqlite.rs:1289-1296 | An accepted put leaves the vault within its bytes |
| Quotas.DeleteExceedsExactly | crates/galata-vault/src/backend/sqlite.rs:1383-1406 | An accepted delete leaves the bound exactly when the tombstone's name takes more than pruning frees and than there was left |
| Quotas.RotationExceedsExactly | crates/galata-vault/src/backend/sqlite.rs:790-834 | An accepted rotation leaves the bound exactly when its batch is too big |
| Quotas.BytesMayExceed | crates/galata-vault/src/backend/sqlite.rs:1383-1406 | A run of accepted calls that leaves the bound |
| Quotas.FullIsRefused | crates/galata-vault/src/backend/sqlite.rs:1276-1288 | A name that is not there is refused while as many others are live as may be, and trying leaves it so |
| Quotas.CopyMayBeRefused | crates/galata-vault/src/vault.rs:1516-1558 | A source that kept every quota and the beginning of its copy, whose next entry is refused however often it is tried |
| Effects.PutStores | crates/galata-vault/src/backend/sqlite.rs:1297-1328 | An accepted put stores a row with the request's name and value ciphertext, generation, write time and signature, the caller as writer and the value's hash, under the signed version; the head is on it, only the name's oldest versions go, no other row, vault or token changes, and the log gains one Success row naming the caller, the action, the name, the version and the hash |
| Effects.DeleteStores | crates/galata-vault/src/backend/sqlite.rs:1387-1415 | The same for a tombstone |
| Effects.PutAnswers | crates/galata-vault/src/backend/sqlite.rs:1238-1296 | What every put answers: stale generation, value too long, wrong head, wrong version, a live name too many, too many bytes, in this order, or the next version |
| Effects.DeleteAnswers | crates/galata-vault/src/backend/sqlite.rs:1350-1382 | What every delete answers: nothing live, stale generation, wrong head, wrong version, or the next version |
| Effects.CreateStores | crates/galata-vault/src/backend/sqlite.rs:868-915 | A creation is refused exactly when the id is taken; an accepted one leaves a vault with each of the request's fields in its place, generation and revision 1, nothing stored, and one row in its log |
| Effects.TouchMoves | crates/galata-vault/src/backend/sqlite.rs:925-945 | Activity moves the last-seen time exactly when it is over a minute old, and nothing else |
| Effects.MintStores | crates/galata-vault/src/backend/sqlite.rs:1003-1042 | An accepted mint answers the row it stores: scope, both keys, expiry, bundle, generation and allow list as requested, created now, owned by the vault; no other token changes, the revision rises by one and the log gains the mint |
| Effects.MintAnswers | crates/galata-vault/src/backend/sqlite.rs:965-1042 | What every mint answers: stale generation, as many unexpired tokens as may be, the id taken, or the row |
| Effects.RevocationLeaves | crates/galata-vault/src/backend/sqlite.rs:1059-1100 | An accepted revocation answers the vault's tokens among those named, once each in the order first named; exactly they go, with a row each in the log, and the record journaled lists them |
| Effects.ReplayedRevocationLeaves | crates/galata-vault/src/backend/sqlite.rs:1644-1670 | Replayed onto any database that admits it, a revocation leaves the same of the vault it names, and nothing but the counter changes if none of its tokens is left |
| Effects.DeletionLeaves | crates/galata-vault/src/backend/sqlite.rs:1585-1599 | A deleted vault goes with its tokens and takes nothing else |
| Effects.NoteLeaves | crates/galata-vault/src/backend/sqlite.rs:1521-1533 | A note is one row in the log and nothing else |
| Effects.RotationLeaves | crates/galata-vault/src/backend/sqlite.rs:758-863 | An accepted rotation leaves the request's owner bundle and descriptor, rows that are the batch's entries field by field and no others, and a log of the rotation and then each revocation |
| Effects.ReplayLeaves | crates/galata-vault/src/backend/sqlite.rs:1671-1691 | A replayed one leaves the same of whatever vault it lands on, each token left with the bundle of its last entry |
| Effects.RotationAnswers | crates/galata-vault/src/backend/sqlite.rs:695-790 | What every rotation answers: a conflict unless generation and revision are those it was built from; incomplete unless each retained version is listed once with its write time and deletion, new names are apart, only the vault's tokens are revoked and each of the others is resealed once; otherwise the next generation |
| Effects.RefusedPutSays | crates/galata-vault/src/backend/sqlite.rs:1238-1288 | The row a refused put leaves names the caller, the action and the name, and nothing else changes |
| Effects.RefusedDeleteSays | crates/galata-vault/src/backend/sqlite.rs:1350-1382 | Likewise for a delete of a live name |
| Effects.RefusedMintSays | crates/galata-vault/src/backend/sqlite.rs:965-1000 | Likewise for a mint refused for its generation or the token limit |
| Effects.RefusedChildrenSays | crates/galata-vault/src/backend/sqlite.rs:1461-1498 | Likewise for a children write |
| ChildrenWrites.ChildrenStores | crates/galata-vault/src/backend/sqlite.rs:1448-1519 | A children write is accepted exactly when the stored version is the one named, the signed one is its successor and the size fits, each refusal by its own name; then the record is the one sent, with one Success row in the log, and nothing else changes |
| ChildrenWrites.RunChildren | crates/galata-vault/src/backend/sqlite.rs:1479-1504 | Over every run the stored version never falls: strictly higher if some call wrote the record, the very same record if none did |
| ChildrenWrites.WinsExactlyIfUntouched | crates/galata-vault/src/backend/sqlite.rs:1479-1504 | A children write sent after any run is accepted if and only if no call in between wrote the record and the size fits |
| ChildrenWrites.AtMostOneWins | crates/galata-vault/src/backend/sqlite.rs:1479-1504 | Of two writers from one version at most one wins, whatever runs in between |
| Invariant.PutRecordInv | crates/galata-vault/src/backend/sqlite.rs:1221-1330 | A put keeps the invariant, accepted or refused |
| Invariant.DeleteRecordInv | crates/galata-vault/src/backend/sqlite.rs:1332-1415 | A delete keeps the invariant, accepted or refused |
| Invariant.RotatedInv | crates/galata-vault/src/backend/sqlite.rs:758-863 | An applicable rotation, live or replayed, always succeeds once its batch is one-to-one and keeps the invariant |
| Invariant.StrictIsApplicable | crates/galata-vault/src/backend/sqlite.rs:758-863 | What the live checks accept, the lenient path can apply |
| Tables.PrunableIsOldest | crates/galata-vault/src/backend/sqlite.rs:480-499 | What is pruned is retained, older than everything kept, and leaves room for exactly one more version |
| Tables.WrittenBytes | crates/galata-vault/src/backend/sqlite.rs:1289-1315 | Writing one version and pruning others changes the sum of ciphertext lengths by exactly what is added less what is freed |
| Tables.WrittenOk | crates/galata-vault/src/backend/sqlite.rs:1259-1311 | Writing the next version and pruning keeps every head the greatest retained version of its name |
| Rotations.RotationIsOneToOne | crates/galata-vault/src/backend/sqlite.rs:695-753 | An accepted batch is a one-to-one map from every retained version onto the new rows, keeping version number, tombstone flag, write time and writer |
| Rotations.RebuiltOk | crates/galata-vault/src/backend/sqlite.rs:600-645 | The rebuilt tables have sound rows and heads and exactly the batch's bytes |
| Regularity.AcceptedRotation | crates/galata-vault/src/backend/sqlite.rs:772-863 | The generation rises by one, both record kinds move one-to-one, and the vault's tokens are exactly the old ones less the revoked, each at the new generation with the bundle the request has for it and otherwise as it was; other vaults' tokens are untouched |
| Regularity.ReplayedTokens | crates/galata-vault/src/backend/sqlite.rs:811-822 | Replayed, a rotation leaves each surviving listed token with the bundle of its last entry in the request |
| Regularity.HeadsCarryOver | crates/galata-vault/src/backend/sqlite.rs:600-645 | Under whole-name renaming every head carries over to its new name and as many names are live as before |
| Regularity.ReplayedRotationIsIndependent | crates/galata-vault/src/backend/sqlite.rs:790-798 | Replayed onto any two sound databases that admit it, a rotation leaves the vault it names alike in rows, heads, bytes and generation, but for who is recorded as writer |
| Regularity.ReplayedAsCommitted | crates/galata-vault/src/backend/sqlite.rs:758-863 | What replay leaves of a rotation the live path accepted, on any database that admits it, is what the commit left but for the writers |
| Regularity.EveryRunIsRegular | crates/galata-vault/src/backend/sqlite.rs:1259-1311 | In every run with fixed limits and whole-name renaming, each name's versions are a gapless interval of at most `max(1, max_versions)` with no two adjacent tombstones, and of each kind no more names are live than the quota allows |
| Regularity.WrittenRegular | crates/galata-vault/src/backend/sqlite.rs:1364-1401 | A write or a delete of a live name keeps a table regular |
| Regularity.RotatedRegular | crates/galata-vault/src/backend/sqlite.rs:600-645 | A whole-name rotation keeps a table regular |
| RegularHistories.EveryHistoryIsRegular | crates/galata-vault/src/backend/sqlite.rs:1633-1702 | The same in every history of calls, crashes and restores: every committed state, and what replaying the journal onto any of them gives, is as regular, the live-name quota included |
| RegularHistories.ReplayIsRegular | crates/galata-vault/src/backend/sqlite.rs:1633-1702 | Replaying a record keeps every table regular |
| RegularHistories.JournaledIsRegular | crates/galata-vault/src/backend/sqlite.rs:1561-1583 | A rotation accepted on a regular vault leaves a regular one wherever its record is replayed |
| Regularity.ReplayedRegular | crates/galata-vault/src/backend/sqlite.rs:600-645 | A batch that leaves one table regular leaves every table it is replayed onto regular |
| CompareAndSwap.PutComparesAndSwaps | crates/galata-vault/src/backend/sqlite.rs:1238-1275 | A put signed under a client's precondition succeeds only if the head and the generation are those it was computed from, and then gets exactly the signed version; if they are, only a quota refuses it (If-Match and If-None-Match, sections 13.1.1 and 13.1.2 of RFC 9110) |
| CompareAndSwap.DeleteComparesAndSwaps | crates/galata-vault/src/backend/sqlite.rs:1350-1382 | A delete succeeds if and only if the expected live head and generation are still there, and gets exactly the signed version |
| CompareAndSwap.LatestIsHead | crates/galata-vault/src/client/api.rs:65-90 | The last version a client lists is the head the store compares against, so the client's rule and the store's agree |
| CompareAndSwap.AtMostOneWins | crates/galata-vault/src/vault.rs:953-1037 | Of all writers starting from one head, of values and of tombstones, at most one wins, whatever runs in between |
| CompareAndSwap.SentComparesAndSwaps | crates/galata-vault/src/client/api.rs:65-90 | A put or a delete signed under a client's precondition succeeds only on the head and generation it was signed for; on them, only a quota refuses it, and that only a put |
| Contention.WinsExactlyIfUntouched | crates/galata-vault/src/vault.rs:953-1060 | A put or delete sent after any run fails if some call in between created, updated, deleted or revived the name or rotated the vault, and otherwise gets exactly the version it signed, unless a quota refuses the value |
| Contention.RunTouches | crates/galata-vault/src/backend/sqlite.rs:1221-1415 | Over any run a name is strictly further on if some call wrote it, and has the very same head and generation if none did |
| CompareAndSwap.RunOnward | crates/galata-vault/src/backend/sqlite.rs:1221-1415 | Over every run, generation and then version of a name never go back |
| Audit.ChainsOnlyExtend | crates/galata-vault/src/backend/sqlite.rs:407-443 | Over every run a chain stays numbered from 1 and hash-linked, and only gains rows at the end |
| Audit.DescriptorsStay | crates/galata-vault/src/backend/sqlite.rs:758-863 | Over every run no published descriptor changes |
| Audit.RefusedPut | crates/galata-vault/src/backend/sqlite.rs:1238-1288 | A put that fails on a known vault adds one Refused row and changes nothing else |
| Audit.RefusedDelete | crates/galata-vault/src/backend/sqlite.rs:1350-1382 | A delete that fails adds one Refused row if there was a live version to delete, and leaves nothing if the name was absent or deleted |
| Audit.UnauditedDelete | crates/galata-vault/src/backend/sqlite.rs:1364-1367 | On a new vault every delete is refused and none leaves a row |
| Audit.RefusedMint | crates/galata-vault/src/backend/sqlite.rs:965-1042 | A mint that fails adds one Refused row if its generation is stale or the vault has all the tokens it may, and leaves nothing if only its id is taken |
| Audit.UnauditedMint | crates/galata-vault/src/backend/sqlite.rs:965-1042 | A second mint of one id is refused and leaves no row |
| Audit.RefusedChildren | crates/galata-vault/src/backend/sqlite.rs:1448-1519 | The same for a children record |
| Audit.StorePage | crates/galata-vault/src/backend/sqlite.rs:1535-1559 | A page the store serves is the slice of the chain after the given number |
| Audit.AuditRows | crates/galata-vault/src/vault.rs:1312-1328 | Run against the store's own pages, while the chain may grow between them, the loop ends with exactly the rows after the start, in order; it stops early exactly at a row the client cannot read, and with `until` reads less than a page beyond it |
| Audit.RunsServe | crates/galata-vault/src/backend/sqlite.rs:1535-1559 | Whatever calls run between the requests, the store serves such a growing chain |
| SingleUse.SpentOnce | crates/galata-vault/src/backend/sqlite.rs:1601-1621 | An id spent with expiry `e` is refused at every later time up to and including `e`, whatever ran in between, purges included |
| SingleUse.RefusedUntilExpiry | crates/galata-vault/src/backend/sqlite.rs:1601-1621 | With nobody else spending it, it is refused exactly while the time has not passed `e` |
| SqliteStore.DeleteVersions | crates/galata-vault/src/backend/sqlite.rs:568-598 | The loop removes exactly the listed versions of the name and leaves every other row and all heads |
| SqliteStore.DeleteTokens | crates/galata-vault/src/backend/sqlite.rs:657-673 | The loop removes the vault's own listed tokens and answers which they were, in order, once each |
| SqliteStore.ReplaceRecords | crates/galata-vault/src/backend/sqlite.rs:600-645 | The loop rebuilds rows and heads from the batch and counts its bytes; it fails exactly when a new (name, version) repeats |
| SqliteStore.RotateTables | crates/galata-vault/src/backend/sqlite.rs:758-863 | The whole rotation on a copy of the tables is what the model says of it |
| SqliteStore.Store.CreateVault | crates/galata-vault/src/backend/sqlite.rs:868-915 | Does exactly what the model of the transaction says, and keeps the invariant |
| SqliteStore.Store.RegisterToken | crates/galata-vault/src/backend/sqlite.rs:965-1042 | Likewise |
| SqliteStore.Store.RevokeTokens | crates/galata-vault/src/backend/sqlite.rs:1059-1100 | Likewise, with the journal record handed to the hook |
| SqliteStore.Store.PutRecord | crates/galata-vault/src/backend/sqlite.rs:1221-1330 | Likewise: every check in the source's order, pruning, accounting, one audit row |
| SqliteStore.Store.DeleteRecord | crates/galata-vault/src/backend/sqlite.rs:1332-1415 | Likewise, with the saturating subtraction |
| SqliteStore.Store.PutChildren | crates/galata-vault/src/backend/sqlite.rs:1448-1519 | Likewise |
| SqliteStore.Store.ApplyRotation | crates/galata-vault/src/backend/sqlite.rs:1561-1583 | Likewise, with the journal record handed to the hook |
| SqliteStore.Store.DeleteVault | crates/galata-vault/src/backend/sqlite.rs:1585-1599 | Likewise; the vault's tokens go with it |
| SqliteStore.Store.Spend | crates/galata-vault/src/backend/sqlite.rs:1601-1621 | Likewise, purge first |
| SqliteStore.Store.Replay | crates/galata-vault/src/backend/sqlite.rs:1633-1702 | Does what the model says, and keeps the invariant for a record this database admits |
| SqliteStore.Store.ReplayJournal | crates/galata-vault/src/backend/sqlite.rs:1623-1702 | Replaying every record past the counter, in order, never fails and reaches the state the model's replay gives |
| Transfer.CopyFrom | crates/galata-vault/src/vault.rs:1516-1558 | Whatever interrupts it, the target shows exactly what so many steps of copying add (name by name in the listing's order, leading tombstones dropped, renumbered from 1, names, values, tombstone flags and write times kept), readable throughout; an interruption has used up its budget; only a quota refuses a write, and only if there was not room for everything; it ends exactly when everything is copied, and a further run writes nothing |
| Transfer.CopyUntilDone | crates/galata-vault/src/vault.rs:1508-1558 | Runs interrupted after any positive number of writes and repeated come to an end with everything copied, in exactly as many writes as entries were missing, unless a quota refuses the next one; with room for everything at the start none does |
| Transfer.RoomyIsRoom | crates/galata-vault/src/backend/sqlite.rs:1253-1300 | No more names to copy than may be live, no value too long once sealed again and bytes for all that is left: then every name's next entry fits |
| Transfer.FullySeen | crates/galata-vault/src/vault.rs:1532-1534 | Everything is copied exactly when every listed history shows whole |
| Transfer.CopiedRowForRow | crates/galata-vault/src/vault.rs:1508-1556 | A name is copied exactly when the target's versions, from 1 with no other, are row for row the source's retained ones from the first live one on: same opened name and value, write time and tombstone flag |
| Histories.MoreKeeps | crates/galata-vault/src/vault.rs:1516-1558 | Each step of copying leaves one entry fewer missing and beginnings of the histories; as many steps as are missing leave them whole |
| Histories.NoneMissing | crates/galata-vault/src/vault.rs:1532-1534 | Nothing is missing exactly when every history is there |
| Copying.FreshIsPartlyCopied | crates/galata-vault/src/vault.rs:1508-1514 | A fresh vault is where a copy can start |
| Copying.CopyName | crates/galata-vault/src/vault.rs:1521-1556 | One name gains exactly the copied versions and the vault exactly their bytes, touching no other name and not the source; with room for the name's rest it is not refused |
| Copying.CopyEntry | crates/galata-vault/src/vault.rs:1536-1554 | One entry is opened, sealed again under its name and sent; it is stored, or a quota refuses it and there was not room for the name |
| Copying.GatherSource | crates/galata-vault/src/vault.rs:1525-1531 | The gathered versions are the retained ones less leading tombstones |
| Copying.SourceIsWritable | crates/galata-vault/src/vault.rs:1509-1511 | In a regular table at most one leading tombstone is dropped, and what is left begins live, has no two adjacent deletions and fits the version limit |
| Copying.NextEntryIsTaken | crates/galata-vault/src/vault.rs:1532-1554 | The next entry, sent under the precondition the target's history gives, is stored as the next version exactly when it fits the three quotas, and otherwise a quota refuses it and the records stay |
| Copying.PutWithinQuotas | crates/galata-vault/src/backend/sqlite.rs:1253-1300 | A put on the head it expects succeeds if and only if its value is not too long, its name is live or another may be, and the vault has room |
| Copying.SendWrite | crates/galata-vault/src/vault.rs:953-1060 | A value is sent as a put and a tombstone as a delete of the live version |
| Pins.CheckDescriptorPin | crates/galata-vault/src/vault.rs:654-685 | Accepts if and only if the descriptor is the pinned one, or the served descriptors up to its generation lead from the pin to it by consecutive generations each carrying the previous hash; a refusal is a rollback, an unavailable list or a broken chain |
| Pins.AdmittedIsReached | crates/galata-vault/src/vault.rs:654-685 | Whatever is admitted is reached from the pin by such a chain and is not older |
| Pins.Handle.constructor | crates/galata-vault/src/vault.rs:364-384 | A new handle pins the descriptor it was opened with |
| Pins.Handle.Refresh | crates/galata-vault/src/vault.rs:722-755 | Adopts the shown descriptor if and only if the pin admits it; otherwise changes nothing |
| Pins.Handle.SetPins | crates/galata-vault/src/vault.rs:643-652 | Takes over the kept versions if and only if the kept descriptor, if any, leads to the one in hand; the descriptor pin stays |
| Pins.Handle.CheckVersion | crates/galata-vault/src/vault.rs:688-700 | Refuses exactly a version older than one seen, changing nothing, and remembers others, under that name and kind only |
| Pins.EveryRunIsReached | crates/galata-vault/src/vault.rs:639-755 | Against any server and over every run, the descriptor in hand is reached from the first by an unbroken chain; its generation never falls and never changes hash |
| Pins.ChainIsUnique | crates/galata-vault/src/vault.rs:654-685 | With no hash collisions there is one chain only between two pins |
| Pins.VersionsNeverFall | crates/galata-vault/src/vault.rs:687-700 | Seen record versions never fall while the caller's own pins are not put in their place |
| Pins.HonestIsAdmitted | crates/galata-vault/src/backend/sqlite.rs:947-963 | A handle pinned at any moment of a store's run accepts the descriptor shown later, even if the list is served later still, after more rotations |
| Subtree.Walk | crates/galata-vault/src/owner/rekey.rs:242-285 | The breadth-first walk lists the whole subtree, each node once with its vault, every node after its parent |
| Subtree.OldKeys | crates/galata-vault/src/owner/rekey.rs:369-434 | Each key found is the node's own and for the vault planned, none where an ancestor is gone; on the walk's plan it never fails |
| Subtree.SurvivorsHaveKeys | crates/galata-vault/src/owner/rekey.rs:500-511 | While the first `m` planned vaults survive, each of them has a key that can be opened again |
| Rekey.RekeySafety | crates/galata-vault/src/owner/rekey.rs:436-513 | Over every run with crashes, resumes and aborts that does not resume from Migrated after an abort began deleting: at every moment every environment is complete in its old or its new vault, an old vault goes only with Linked on record and every new vault complete, and the parent never points at an incomplete subtree |
| Rekey.EveryRunIsGood | crates/galata-vault/src/owner/rekey.rs:355-513 | The protocol's invariant holds after every such run |
| Rekey.DeletionNeedsLinked | crates/galata-vault/src/owner/rekey.rs:496-511 | A step that removes an old vault removes one, with Linked on record and every new vault complete |
| Rekey.ResumeFinishes | crates/galata-vault/src/owner/rekey.rs:436-513 | Where no copy still to make is refused and no new vault has been taken away, an uninterrupted resume ends the rekey from wherever the last run stopped: no old vault left, every new one complete, the parent relinked if its key is held |
| Rekey.ResumeEndsExactly | crates/galata-vault/src/owner/rekey.rs:470-495 | And otherwise it never ends: the condition is necessary too |
| Rekey.RefusedNeverEnds | crates/galata-vault/src/owner/rekey.rs:480-480 | A plan whose copy is refused: no resume ends it, an abort does |
| Rekey.RetiringFinishes | crates/galata-vault/src/owner/rekey.rs:500-511 | From any surviving prefix, retiring deletes every old vault and closes the plan |
| Rekey.ResumeFromMigrated | crates/galata-vault/src/owner/rekey.rs:496-511 | Resuming from Migrated keeps every environment if and only if every new vault still exists |
| Rekey.HalfAbortThenResumeLoses | crates/galata-vault/src/owner/rekey.rs:650-658 | A run in which half an abort, then a resume, loses an environment |
| Rekey.ObedienceIsHeed | crates/galata-vault/src/owner/rekey.rs:650-658 | Retrying only abort once one has started is enough for safety |
| Rekey.AbortCompletes | crates/galata-vault/src/owner/rekey.rs:616-669 | A completed abort deletes every new vault and forgets the plan; old vaults and the parent's record are as before |
| Rekey.AbortRetried | crates/galata-vault/src/owner/rekey.rs:616-669 | However often an abort is interrupted, one that completes ends in the same state |
| Rekey.AbortRefused | crates/galata-vault/src/owner/rekey.rs:629-649 | Refused exactly when Linked is on record or the held parent already seals the new key |
| Rekey.UnrecordedLink | crates/galata-vault/src/owner/rekey.rs:634-649 | After a crash between relinking and recording it, abort is refused and resume finishes |
| Rekey.ChildrenAreListed | crates/galata-vault/src/owner/rekey.rs:67-73 | The planned children of a node are exactly those its old children record lists |
| Rekey.TransferIsSteps | crates/galata-vault/src/owner/rekey.rs:470-493 | A run of the copy against the store that makes `n` writes is `n` copying steps of the rekey |
| Owners.Owner.constructor | crates/galata-vault/src/owner/rekey.rs:172-219 | Confirming the kit records the plan, with nothing changed on the server |
| Owners.Owner.CreateAll | crates/galata-vault/src/owner/rekey.rs:460-467 | The creation loop makes the machine's steps, for every point of interruption |
| Owners.Owner.MigrateNode | crates/galata-vault/src/owner/rekey.rs:470-493 | Likewise for one node's records and children record; it fails only if the node lacks its old key, its old vault or its new one, or an entry still to copy is refused |
| Owners.Owner.MigrateAll | crates/galata-vault/src/owner/rekey.rs:468-495 | Likewise for all nodes, from the keys opened again; it fails only if some node cannot be migrated for one of these reasons |
| Owners.Owner.LinkParent | crates/galata-vault/src/owner/rekey.rs:517-544 | Likewise for relinking the parent and recording it |
| Owners.Owner.RetireAll | crates/galata-vault/src/owner/rekey.rs:500-511 | Likewise for deleting the old vaults, last first; on the walk's plan it does not fail |
| Owners.Owner.RunRekey | crates/galata-vault/src/owner/rekey.rs:436-513 | For every point of interruption, what is left is what so many steps of the machine leave and every environment is whole; a run that finishes has moved everything; it fails only without a plan, or before Migrated where a copy will be refused or an abort has taken a new vault away, and a budget that reaches the end is enough |
| Owners.Owner.AbortRekey | crates/galata-vault/src/owner/rekey.rs:616-669 | Refused exactly when the parent points at the new key or Linked is on record; otherwise the state stays good, and a finished abort leaves the old subtree alone |
| Bundles.OpensExactly | crates/galata-vault/src/keys/bundle.rs:410-628 | A plaintext opens to a bundle under a binding if and only if it is that bundle's encoding under it, for all six kinds |
| Bundles.OpenUndoesEncode | crates/galata-vault/src/keys/bundle.rs:564-628 | Opening an encoded bundle under its binding returns it |
| Bundles.OpenedIsCanonical | crates/galata-vault/src/keys/bundle.rs:564-628 | An accepted plaintext re-encodes to the same bytes |
| Bundles.ChildOpensExactly | crates/galata-vault/src/keys/bundle.rs:642-669 | A plaintext opens as a child key under a parent if and only if it is that key's encoding under it |
| Bundles.NeverBoth | crates/galata-vault/src/keys/bundle.rs:564-669 | No plaintext is both a bundle and a child key |
| Bundles.OneBinding | crates/galata-vault/src/keys/bundle.rs:551-562 | A plaintext opens under one vault, token and generation at most |
| Bundles.MintedForOne | crates/galata-vault/src/keys/bundle.rs:201-233 | A bundle minted for a scope is accepted exactly by the vault, token, generation and scope it was minted for, and carries that scope's keys |
| Bundles.ScopeHolds | crates/galata-vault/src/keys/bundle.rs:201-233 | What a token opens out of the plaintext minted for its scope: the name key and exactly the scope's own of the vault key, the config key and the two writer keys |
| Bundles.WritePlaintext | crates/galata-vault/src/keys/bundle.rs:392-408 | The buffer filled piece by piece is the version, the kind, the binding and the keys in order |
| Bundles.Layout | crates/galata-vault/src/keys/bundle.rs:1-16 | Where every byte is: version 2, the kind's number, vault, token, the generation highest byte first, and each kind's keys in its order |
| Bundles.ChildLayout | crates/galata-vault/src/keys/bundle.rs:12-12 | The same for a child key, kind 7, with a token of zeros and generation 0 |
| Base64.DecodeUndoesEncode | scripts/vectors/gvvectors/age.py:53-65 | Decoding undoes encoding |
| Base64.SpelledEncode | scripts/vectors/gvvectors/age.py:64-65 | An encoding uses the alphabet only, spells its bytes, and has the unpadded length |
| Base64.EncodesBits | scripts/vectors/gvvectors/age.py:64-65 | Each group of three bytes and its four letters are the same 24 bits, zero where a short last group has none (section 4 of RFC 4648) |
| AgeHeader.ParseHeader | scripts/vectors/gvvectors/age.py:88-120 | The reader by position finds the stanzas, the MAC, what the MAC covers and where the payload starts, or fails |
| AgeHeader.ParseUndoesRender | scripts/vectors/gvvectors/age.py:88-120 | Every well-formed header parses to what it was written from, whatever payload follows |
| AgeHeader.ParsedIsCanonical | scripts/vectors/gvvectors/age.py:88-120 | A header that parses is written exactly so: no header has a second spelling |
| Stream.NoncesDiffer | scripts/vectors/gvvectors/age.py:167-168 | No two chunks share a nonce, nor does one's equal another's with the last mark changed |
| Stream.NonceIs | scripts/vectors/gvvectors/age.py:167-168 | A nonce is the counter in eleven bytes, highest first, then 1 for the last chunk and 0 for others |
| Stream.OpenUndoesSealed | scripts/vectors/gvvectors/age.py:171-212 | Opening undoes sealing for every length, empty and exact multiples of 64 KiB included (Payload section of the age v1 specification) |
| Stream.OpensOnlySealed | scripts/vectors/gvvectors/age.py:171-212 | Whatever stream is offered, if none of its chunks is forged: it opens whole exactly when it is the sealed one, and what is released before a failure is a beginning of the plaintext |
| Stream.OpenedIsSealed | scripts/vectors/gvvectors/age.py:171-212 | If the AEAD opens only what it seals, a stream that opens whole is the very stream its plaintext is sealed as, whoever made it |
| Stream.TruncationFails | scripts/vectors/gvvectors/age.py:171-212 | Every proper truncation of a stream fails and releases only a prefix, under an ideal AEAD |
| Stream.AssumptionsCanBeMet | scripts/vectors/gvvectors/age.py:171-212 | What the truncation statements ask of the AEAD can be had: a stand-in meets it for every plaintext and every cut |
| Stream.OpenStream | scripts/vectors/gvvectors/age.py:187-212 | The opening loop releases what the definition of opening says |
| Stream.SealStream | scripts/vectors/gvvectors/age.py:233-237 | The sealing loop numbers the chunks and marks the last |
| Age.DecryptUndoesEncrypt | scripts/vectors/gvvectors/age.py:147-237 | Decrypting an encrypted file gives the plaintext back if and only if the shared secret is not zero; otherwise a header failure |
| Age.TruncatedFileFails | scripts/vectors/gvvectors/age.py:147-212 | Every proper truncation of a file, header included, is refused and releases only a prefix of the plaintext |
| Age.PrefixReadsAlike | scripts/vectors/gvvectors/age.py:88-120 | A header once complete reads the same however much follows it |
| Age.Decrypt | scripts/vectors/gvvectors/age.py:147-164 | The stanza loop, MAC check and payload give the outcome the definitions say, errors classified as the source does |
| AgeChecks.DecryptsExactly | scripts/vectors/gvvectors/age.py:147-212 | A file decrypts to a plaintext if and only if it is a well-formed header whose stanzas give a file key, the MAC of that header under the key, a nonce, and the plaintext sealed under the key derived from both |
| AgeChecks.DecryptsTo | scripts/vectors/gvvectors/age.py:147-164 | What every well-formed file decrypts to: decided by its stanzas, then by its MAC, then by its payload |
| AgeChecks.MacIsChecked | scripts/vectors/gvvectors/age.py:159-160 | A file that decrypts carries the MAC of its whole header, dashes included, under the key its stanzas give |
| AgeChecks.ReplacedMac | scripts/vectors/gvvectors/age.py:159-160 | An encrypted file with another MAC in place of its own is an HMAC failure if and only if the MAC differs |
| AgeChecks.AlteredHeader | scripts/vectors/gvvectors/age.py:159-160 | Other stanzas that give the same file key are covered differently by the MAC, and fail unless the two collide |
| AgeChecks.UnwrapExactly | scripts/vectors/gvvectors/age.py:123-140 | A stanza with a canonical share and body of 32 bytes each opens, or is somebody else's, under the key derived from the shared secret; any other, or a zero secret, is a header failure |
| AgeChecks.FirstDecides | scripts/vectors/gvvectors/age.py:151-158 | The first X25519 stanza that is not somebody else's decides; if there is none, nothing matches |
| AgeChecks.DecryptsAmongMany | scripts/vectors/gvvectors/age.py:147-164 | A file for several recipients decrypts for each, whatever stanzas come after its own and whichever of others come before |
| Age.Encrypt | scripts/vectors/gvvectors/age.py:218-237 | The file is the rendered header, the nonce and the sealed payload |

## Left out

- SQLite itself, connections, WAL mode, schema checks and integer widths: tables are maps, and versions, sizes and times are unbounded integers.
- Cascades other than tokens: a vault's records, heads, audit rows, descriptors and children are fields of the vault's value, so that they go with it holds by construction.
- Read-only store calls other than the version listing, the audit page and the descriptor list: they would only add easy members.
- Cryptographic primitives and signature checks: keys, seals and the AEAD are parameters with their laws stated; audit and value hashes are injective terms; `verify_rows`, `verify_descriptor` and `open_record` are not part of this model.
- Server request handling, HTTP, errors as text, events, the CLI, key and state stores: a save is taken as atomic and durable.
- `finish_rekey`'s updates of the local tree, pins and held keys, and the deletion of the two stored rekey keys after the plan is closed: local bookkeeping.
- `update_children`'s five attempts on a conflict: with no other writer the first succeeds, and the rekey sees it as one write.
- Expiry and touched times on the client, `held_root_for` and `descendants`: easy filters; the rekey takes whether the parent's key is held as given.
- Interleavings of threads in one handle: each method is one step.
- Transfer.CopyFrom: the listing's order is any order, the source's sorted one among them, and a config's format is part of its value.
- Audit.AuditRows: the chain served is bounded, since against one that grows by a full page between requests for ever the source's loop does not end either.
- SqliteStore.Store.ReplayJournal: requires a journal whose records are admissible in turn, which every history has (`Restoration.EveryHistoryIsSound`).
- Owners.Owner.MigrateNode: copies one version per step from the node's known histories, and takes as given which steps the server refuses; that the copy against the store takes these steps is `Transfer.CopyFrom` and `Rekey.TransferIsSteps`, and which writes it refuses is `Copying.NextEntryIsTaken`.
- Rekey.RekeySafety: the old subtree has no other writer while the rekey runs, as the protocol assumes.
