/** The server's tables and every transaction over them.

A vault's rows in the tables keyed by its primary key are held in its `Vault` value; tokens are one
table, because a token id is unique across vaults. A transaction works on a copy: it commits, commits
only a refused audit row, or rolls back. */
module Database {
  import opened Types
  import opened Tables
  import opened Rotations

  datatype TokenRow = TokenRow(
    vaultPk: nat, authPub: Bytes, boxPub: Bytes, scope: Scope, createdAt: int, expiresAt: int,
    bundle: SignedBundle, generation: nat, allowList: Option<seq<NameHmac>>)

  datatype Vault = Vault(
    id: VaultId, ownerSignPub: Bytes, ownerBoxPub: Bytes, ownerBundle: SignedBundle,
    generation: nat, revision: nat, createdAt: int, lastActiveAt: int, bytesUsed: nat,
    auditSeq: nat, auditHead: Digest, descriptors: map<nat, SignedDescriptor>,
    secrets: Table, configs: Table, children: Option<ChildrenBlob>, audit: map<nat, AuditRow>)
  {
    function Records(kind: RecordKind): Table {
      match kind case Secret => secrets case Config => configs
    }

    function WithRecords(kind: RecordKind, t: Table): Vault {
      match kind case Secret => this.(secrets := t) case Config => this.(configs := t)
    }

    function HeadOf(kind: RecordKind, name: NameHmac): Option<Head> {
      var t := Records(kind);
      if name in t.heads then Some(t.heads[name]) else None
    }
  }

  datatype SpentKind = Challenge | Nonce
  datatype SpentKey = SpentKey(kind: SpentKind, id: Bytes)

  datatype Db = Db(
    vaults: map<nat, Vault>, tokens: map<TokenId, TokenRow>, spent: map<SpentKey, int>, lastApplied: nat)

  const EmptyDb := Db(map[], map[], map[], 0)

  /** What a transaction's body decided: the tables to commit and the answer to give. */
  datatype Done<+T> = Done(tx: Db, answer: Result<T, StoreError>)

  /** What a call left behind: the committed tables, the answer, and the journal record made durable. */
  datatype Outcome<+T> = Outcome(db: Db, answer: Result<T, StoreError>, journaled: seq<JournalRecord>)

  /** A body that fails rolls back; one that answers, even with a refusal, commits. */
  function Commit<T>(db: Db, body: Result<Done<T>, StoreError>): Outcome<T> {
    match body
    case Ok(done) => Outcome(done.tx, done.answer, [])
    case Err(e) => Outcome(db, Err(e), [])
  }

  function WithVault(db: Db, pk: nat, v: Vault): Db {
    db.(vaults := db.vaults[pk := v])
  }

  /** Loading a vault joins its current generation's descriptor; without one there is no row. */
  function LoadVault(db: Db, pk: nat): Result<Vault, StoreError> {
    if pk in db.vaults && db.vaults[pk].generation in db.vaults[pk].descriptors then Ok(db.vaults[pk])
    else Err(NotFound)
  }

  ghost predicate Named(db: Db, pk: nat, id: VaultId) {
    pk in db.vaults && db.vaults[pk].id == id
  }

  ghost function LoadById(db: Db, id: VaultId): Option<nat> {
    if exists pk :: Named(db, pk, id) && LoadVault(db, pk).Ok? then
      var pk :| Named(db, pk, id) && LoadVault(db, pk).Ok?;
      Some(pk)
    else None
  }

  // ------------------------------------------------------------ audit

  function Event(actor: Actor, action: AuditAction, name: Option<NameHmac>, subject: Option<TokenId>,
                 result: AuditResult): AuditEvent
  {
    AuditEvent(actor, action, name, subject, result, 0, None)
  }

  function WriteEvent(actor: Actor, action: AuditAction, name: Option<NameHmac>, version: nat,
                      ctHash: Option<Digest>): AuditEvent
  {
    AuditEvent(actor, action, name, None, Success, version, ctHash)
  }

  function NewRow(seqNo: nat, ts: int, prev: Digest, e: AuditEvent): AuditRow {
    AuditRow(seqNo, ts, prev, RowDigest(seqNo, ts, prev, e), e)
  }

  /** The chain one row longer, with the head on that row; a number already in use makes it fail. */
  function AppendAudit(v: Vault, e: AuditEvent, now: int): Result<Vault, StoreError> {
    var row := NewRow(v.auditSeq + 1, now, v.auditHead, e);
    if row.seqNo in v.audit then Err(Exists)
    else Ok(v.(audit := v.audit[row.seqNo := row], auditSeq := row.seqNo, auditHead := row.hash))
  }

  function AppendAll(v: Vault, events: seq<AuditEvent>, now: int): Result<Vault, StoreError> {
    if events == [] then Ok(v) else
      var v' :- AppendAll(v, events[..|events| - 1], now);
      AppendAudit(v', events[|events| - 1], now)
  }

  /** A refusal commits one refused audit row and nothing else. */
  function Refuse<T>(db: Db, pk: nat, v: Vault, e: AuditEvent, now: int, error: StoreError)
    : Result<Done<T>, StoreError>
  {
    var v' :- AppendAudit(v, e, now);
    Ok(Done(WithVault(db, pk, v'), Err(error)))
  }

  // ------------------------------------------------------------ vaults

  predicate IdTaken(db: Db, id: VaultId) {
    exists pk :: pk in db.vaults && db.vaults[pk].id == id
  }

  /** One more than the greatest row id in use, so a deleted vault's id can come back. */
  function NextPk(db: Db): nat {
    var pks := Ascending(db.vaults.Keys);
    if pks == [] then 1 else pks[|pks| - 1] + 1
  }

  function CreateVault(db: Db, v: NewVault, now: int): Outcome<nat> {
    Commit(db,
      if IdTaken(db, v.id) then Ok(Done(db, Err(Exists))) else
      var pk := NextPk(db);
      var empty := Vault(v.id, v.ownerSignPub, v.ownerBoxPub, v.ownerBundle, 1, 1, now, now, 0, 0, Genesis,
                         map[1 := v.descriptor], EmptyTable, EmptyTable, None, map[]);
      var row :- AppendAudit(
        empty, WriteEvent(Owner, VaultCreate, None, 0, Some(Sha256(v.descriptor.descriptor))), now);
      Ok(Done(WithVault(db, pk, row), Ok(pk))))
  }

  const TOUCH_GRANULARITY_SECS := 60

  /** Activity is recorded only when the last record is over a minute old. */
  function Touch(db: Db, pk: nat, now: int): Outcome<()> {
    Outcome(
      if pk in db.vaults && db.vaults[pk].lastActiveAt < now - TOUCH_GRANULARITY_SECS
      then WithVault(db, pk, db.vaults[pk].(lastActiveAt := now)) else db,
      Ok(()), [])
  }

  // ------------------------------------------------------------ tokens

  function ActiveTokens(db: Db, pk: nat, now: int): set<TokenId> {
    set t | t in db.tokens && db.tokens[t].vaultPk == pk && db.tokens[t].expiresAt > now
  }

  function RegisterToken(db: Db, pk: nat, t: NewToken, ctx: Ctx, limits: Limits): Outcome<TokenRow> {
    var refused := Event(ctx.actor, TokenMint, None, Some(t.id), Refused);
    Commit(db,
      var v :- LoadVault(db, pk);
      if t.generation != v.generation then Refuse(db, pk, v, refused, ctx.now, StaleGeneration)
      else if |ActiveTokens(db, pk, ctx.now)| >= limits.maxTokens then
        Refuse(db, pk, v, refused, ctx.now, QuotaExceeded(Tokens))
      else if t.id in db.tokens then Err(Exists)
      else
        var row := TokenRow(pk, t.authPub, t.boxPub, t.scope, ctx.now, t.expiresAt, t.bundle,
                            t.generation, t.allowList);
        var v' :- AppendAudit(v.(revision := v.revision + 1),
                              Event(ctx.actor, TokenMint, None, Some(t.id), Success), ctx.now);
        Ok(Done(WithVault(db, pk, v').(tokens := db.tokens[t.id := row]), Ok(row))))
  }

  /** The listed tokens the vault has, each once, in the order listed. */
  function Removed(tokens: map<TokenId, TokenRow>, pk: nat, ids: seq<TokenId>): (r: seq<TokenId>)
    ensures forall t :: t in r <==> t in ids && t in tokens && tokens[t].vaultPk == pk
  {
    if ids == [] then [] else
      var r, last := Removed(tokens, pk, ids[..|ids| - 1]), ids[|ids| - 1];
      assert forall t :: t in ids <==> t in ids[..|ids| - 1] || t == last;
      if last in tokens && tokens[last].vaultPk == pk && last !in r then r + [last] else r
  }

  function Without(tokens: map<TokenId, TokenRow>, gone: seq<TokenId>): map<TokenId, TokenRow> {
    map t | t in tokens && t !in gone :: tokens[t]
  }

  function RevokeEvents(removed: seq<TokenId>, actor: Actor, reported: bool): (es: seq<AuditEvent>)
    ensures |es| == |removed|
  {
    seq(|removed|, i requires 0 <= i < |removed| =>
      Event(actor, if reported then TokenReport else TokenRevoke, None, Some(removed[i]), Success))
  }

  /** Give out the next journal sequence, and commit only if the hook accepts the record. */
  function Journal<T>(db: Db, body: Result<Done<T>, StoreError>, op: JournalOp, now: int, hook: bool): Outcome<T> {
    match body
    case Err(e) => Outcome(db, Err(e), [])
    case Ok(done) =>
      var record := JournalRecord(done.tx.lastApplied + 1, now, op);
      if hook then Outcome(done.tx.(lastApplied := record.seqNo), done.answer, [record])
      else Outcome(db, Err(JournalFailed), [])
  }

  /** The tokens of a revocation go, the revision rises, and each is audited. */
  function Revoked(db: Db, pk: nat, v: Vault, removed: seq<TokenId>, actor: Actor, reported: bool, now: int)
    : (r: Result<Db, StoreError>)
    ensures r.Ok? ==> r.value.lastApplied == db.lastApplied && r.value.spent == db.spent
  {
    var v' :- AppendAll(v.(revision := v.revision + 1), RevokeEvents(removed, actor, reported), now);
    Ok(WithVault(db, pk, v').(tokens := Without(db.tokens, removed)))
  }

  function RevokeTokens(db: Db, pk: nat, ids: seq<TokenId>, reported: bool, ctx: Ctx, hook: bool)
    : Outcome<seq<TokenId>>
  {
    if LoadVault(db, pk).Err? then Outcome(db, Err(NotFound), []) else
    var v := LoadVault(db, pk).value;
    var removed := Removed(db.tokens, pk, ids);
    Journal(db,
      if removed == [] then Err(NotFound) else
      var tx :- Revoked(db, pk, v, removed, ctx.actor, reported, ctx.now);
      Ok(Done(tx, Ok(removed))),
      Revocation(v.id, removed, ctx.actor, reported), ctx.now, hook)
  }

  // ------------------------------------------------------------ records

  function PutAction(kind: RecordKind): AuditAction {
    match kind case Secret => SecretPut case Config => ConfigPut
  }

  function DeleteAction(kind: RecordKind): AuditAction {
    match kind case Secret => SecretDelete case Config => ConfigDelete
  }

  function SizeQuota(kind: RecordKind): Quota {
    match kind case Secret => ValueSize case Config => ConfigSize
  }

  function LiveQuota(kind: RecordKind): Quota {
    match kind case Secret => Names case Config => Configs
  }

  function LiveNames(t: Table): set<NameHmac> {
    set n | n in t.heads && !t.heads[n].tombstone
  }

  /** The version a put takes, or why the precondition fails. */
  function Assigned(pre: Precondition, head: Option<Head>): Result<nat, StoreError> {
    match (pre, head)
    case (IfNoneMatch, None) => Ok(1)
    case (IfNoneMatch, Some(h)) =>
      if h.tombstone then Ok(h.version + 1) else Err(PreconditionFailed(Some(h.version)))
    case (IfMatch(x), Some(h)) =>
      if !h.tombstone && x == h.version then Ok(h.version + 1) else Err(PreconditionFailed(Some(h.version)))
    case (IfMatch(_), None) => Err(PreconditionFailed(None))
  }

  function WrittenRow(w: RecordWrite, actor: Actor): VersionRow {
    VersionRow(w.nameCt, w.valueCt, ValueHash(w.valueCt), w.generation, w.writtenAt, actor, w.valueCt.None?, w.sig)
  }

  /** The bytes a write of `name` frees by pruning. */
  function FreedBy(t: Table, name: NameHmac, maxVersions: nat): nat {
    PrunableIsOldest(t, name, maxVersions);
    Freed(t, name, Prunable(t, name, maxVersions))
  }

  /** Insert the version, move the head, prune, and account. A row already there is a conflict. */
  function Stored(v: Vault, kind: RecordKind, name: NameHmac, version: nat, row: VersionRow,
                  maxVersions: nat, total: nat): Result<Vault, StoreError>
  {
    var t := v.Records(kind);
    if Key(name, version) in t.rows then Err(Exists)
    else Ok(v.WithRecords(kind, Written(t, name, version, row, Prunable(t, name, maxVersions)))
             .(bytesUsed := total, revision := v.revision + 1))
  }

  function PutRecord(db: Db, pk: nat, kind: RecordKind, name: NameHmac, pre: Precondition, w: RecordWrite,
                     ctx: Ctx, limits: Limits): Outcome<nat>
  {
    var refused := Event(ctx.actor, PutAction(kind), Some(name), None, Refused);
    if w.valueCt.None? then Outcome(db, Err(Malformed), []) else
    Commit(db,
      var v :- LoadVault(db, pk);
      var t := v.Records(kind);
      var head := v.HeadOf(kind, name);
      if w.generation != v.generation then Refuse(db, pk, v, refused, ctx.now, StaleGeneration)
      else if |w.valueCt.value| > limits.MaxValue(kind) then
        Refuse(db, pk, v, refused, ctx.now, QuotaExceeded(SizeQuota(kind)))
      else if Assigned(pre, head).Err? then
        Refuse(db, pk, v, refused, ctx.now, Assigned(pre, head).error)
      else
        var next := Assigned(pre, head).value;
        var spent := v.bytesUsed + RowBytes(WrittenRow(w, ctx.actor));
        var freed := FreedBy(t, name, limits.Versions(kind));
        if w.version != next then Refuse(db, pk, v, refused, ctx.now, VersionMismatch(w.version, next))
        else if (head.None? || head.value.tombstone) && |LiveNames(t)| >= limits.MaxLive(kind) then
          Refuse(db, pk, v, refused, ctx.now, QuotaExceeded(LiveQuota(kind)))
        else if spent < freed then Err(Underflow)
        else if spent - freed > limits.maxVaultBytes then
          Refuse(db, pk, v, refused, ctx.now, QuotaExceeded(VaultBytes))
        else
          var v' :- Stored(v, kind, name, next, WrittenRow(w, ctx.actor), limits.Versions(kind), spent - freed);
          var v'' :- AppendAudit(
            v', WriteEvent(ctx.actor, PutAction(kind), Some(name), next, Some(ValueHash(w.valueCt))), ctx.now);
          Ok(Done(WithVault(db, pk, v''), Ok(next))))
  }

  function DeleteRecord(db: Db, pk: nat, kind: RecordKind, name: NameHmac, ifMatch: nat, w: RecordWrite,
                        ctx: Ctx, limits: Limits): Outcome<nat>
  {
    var refused := Event(ctx.actor, DeleteAction(kind), Some(name), None, Refused);
    if w.valueCt.Some? then Outcome(db, Err(Malformed), []) else
    Commit(db,
      var v :- LoadVault(db, pk);
      var t := v.Records(kind);
      var head := v.HeadOf(kind, name);
      if head.None? || head.value.tombstone then Err(NotFound)
      else if w.generation != v.generation then Refuse(db, pk, v, refused, ctx.now, StaleGeneration)
      else if ifMatch != head.value.version then
        Refuse(db, pk, v, refused, ctx.now, PreconditionFailed(Some(head.value.version)))
      else
        var next: nat := head.value.version + 1;
        var spent := v.bytesUsed + |w.nameCt|;
        var freed := FreedBy(t, name, limits.Versions(kind));
        if w.version != next then Refuse(db, pk, v, refused, ctx.now, VersionMismatch(w.version, next))
        else
          var v' :- Stored(v, kind, name, next, WrittenRow(w, ctx.actor), limits.Versions(kind),
                           if spent < freed then 0 else spent - freed);
          var v'' :- AppendAudit(
            v', WriteEvent(ctx.actor, DeleteAction(kind), Some(name), next, None), ctx.now);
          Ok(Done(WithVault(db, pk, v''), Ok(next))))
  }

  // ------------------------------------------------------------ children

  function AssignedChildren(pre: Precondition, current: Option<nat>): Result<nat, StoreError> {
    match (pre, current)
    case (IfNoneMatch, None) => Ok(1)
    case (IfMatch(x), Some(v)) => if x == v then Ok(v + 1) else Err(PreconditionFailed(current))
    case _ => Err(PreconditionFailed(current))
  }

  function PutChildren(db: Db, pk: nat, pre: Precondition, blob: ChildrenBlob, ctx: Ctx, limits: Limits)
    : Outcome<nat>
  {
    var refused := Event(ctx.actor, ChildrenWrite, None, None, Refused);
    Commit(db,
      var v :- LoadVault(db, pk);
      var current := if v.children.Some? then Some(v.children.value.version) else None;
      if |blob.ct| > limits.maxConfigBytes then
        Refuse(db, pk, v, refused, ctx.now, QuotaExceeded(ValueSize))
      else if AssignedChildren(pre, current).Err? then
        Refuse(db, pk, v, refused, ctx.now, AssignedChildren(pre, current).error)
      else
        var next := AssignedChildren(pre, current).value;
        if blob.version != next then Refuse(db, pk, v, refused, ctx.now, VersionMismatch(blob.version, next))
        else
          var v' :- AppendAudit(v.(children := Some(blob)),
            WriteEvent(ctx.actor, ChildrenWrite, None, next, Some(Sha256(blob.ct))), ctx.now);
          Ok(Done(WithVault(db, pk, v'), Ok(next))))
  }

  /** Audit something that changes nothing else. */
  function Record(db: Db, pk: nat, e: AuditEvent, now: int): Outcome<()> {
    Commit(db,
      if pk !in db.vaults then Err(NotFound) else
      var v :- AppendAudit(db.vaults[pk], e, now);
      Ok(Done(WithVault(db, pk, v), Ok(()))))
  }

  // ------------------------------------------------------------ rotation

  /** Each listed token the vault still has gets its resealed bundle and the new generation. */
  function Resealed(tokens: map<TokenId, TokenRow>, pk: nat, generation: nat, list: seq<ResealedBundle>)
    : map<TokenId, TokenRow>
  {
    if list == [] then tokens else
      var before, last := Resealed(tokens, pk, generation, list[..|list| - 1]), list[|list| - 1];
      if last.tokenId in before && before[last.tokenId].vaultPk == pk then
        before[last.tokenId := before[last.tokenId].(bundle := last.bundle, generation := generation)]
      else before
  }

  function TokensOf(db: Db, pk: nat): set<TokenId> {
    set t | t in db.tokens && db.tokens[t].vaultPk == pk
  }

  function ResealedIds(list: seq<ResealedBundle>): set<TokenId> {
    set e | e in list :: e.tokenId
  }

  /** The live path's checks: an unchanged vault, a batch that covers it, revocations it knows, and one
  resealed bundle for each survivor. */
  predicate StrictlyAccepted(db: Db, pk: nat, v: Vault, r: RotationRequest) {
    && v.generation == r.fromGeneration && v.revision == r.fromRevision
    && Complete(r.secrets, v.secrets.rows)
    && Complete(r.configs, v.configs.rows)
    && (set t | t in r.revoke) <= TokensOf(db, pk)
    && |ResealedIds(r.tokens)| == |r.tokens|
    && ResealedIds(r.tokens) == TokensOf(db, pk) - (set t | t in r.revoke)
  }

  function RotatedVault(v: Vault, r: RotationRequest, actor: Actor): Vault {
    var g := r.fromGeneration + 1;
    v.(generation := g, ownerBundle := r.ownerBundle, revision := v.revision + 1,
       bytesUsed := BatchBytes(r.secrets) + BatchBytes(r.configs),
       secrets := Rebuilt(r.secrets, v.secrets.rows, actor, g),
       configs := Rebuilt(r.configs, v.configs.rows, actor, g),
       descriptors := if g in v.descriptors then v.descriptors else v.descriptors[g := r.descriptor])
  }

  function RotationEvents(r: RotationRequest, removed: seq<TokenId>, actor: Actor): seq<AuditEvent> {
    [WriteEvent(actor, VaultRotate, None, 0, Some(Sha256(r.descriptor.descriptor)))]
      + RevokeEvents(removed, actor, false)
  }

  /** What a rotation leaves once its checks are behind it, live or replayed. */
  function Rotated(db: Db, pk: nat, v: Vault, r: RotationRequest, ctx: Ctx): (tx: Result<Db, StoreError>)
    ensures tx.Ok? ==> tx.value.lastApplied == db.lastApplied && tx.value.spent == db.spent
  {
    if !Separated(r.secrets) || !Separated(r.configs) then Err(IncompleteRotation) else
    var removed := Removed(db.tokens, pk, r.revoke);
    var v' :- AppendAll(RotatedVault(v, r, ctx.actor), RotationEvents(r, removed, ctx.actor), ctx.now);
    Ok(WithVault(db, pk, v')
        .(tokens := Resealed(Without(db.tokens, removed), pk, r.fromGeneration + 1, r.tokens)))
  }

  function ApplyRotation(db: Db, pk: nat, r: RotationRequest, ctx: Ctx, hook: bool): Outcome<nat> {
    if LoadVault(db, pk).Err? then Outcome(db, Err(NotFound), []) else
    var v := LoadVault(db, pk).value;
    Journal(db,
      if v.generation != r.fromGeneration || v.revision != r.fromRevision then Err(Conflict)
      else if !StrictlyAccepted(db, pk, v, r) then Err(IncompleteRotation)
      else
        var tx :- Rotated(db, pk, v, r, ctx);
        Ok(Done(tx, Ok(r.fromGeneration + 1))),
      Rotation(v.id, ctx.actor, r), ctx.now, hook)
  }

  // ------------------------------------------------------------ deletion, single use, replay

  /** A vault's row goes, and with it everything that refers to it. */
  function WithoutVault(db: Db, pk: nat): (tx: Db)
    ensures tx.lastApplied == db.lastApplied && tx.spent == db.spent
  {
    db.(vaults := db.vaults - {pk},
        tokens := map t | t in db.tokens && db.tokens[t].vaultPk != pk :: db.tokens[t])
  }

  function DeleteVault(db: Db, pk: nat, now: int, hook: bool): Outcome<()> {
    if LoadVault(db, pk).Err? then Outcome(db, Err(NotFound), []) else
    Journal(db, Ok(Done(WithoutVault(db, pk), Ok(()))), Deletion(db.vaults[pk].id), now, hook)
  }

  /** Forget what has expired, then remember this id; one still remembered is refused. */
  function Spend(db: Db, key: SpentKey, expiresAt: int, now: int): Outcome<()> {
    var kept := map k | k in db.spent && db.spent[k] >= now :: db.spent[k];
    Commit(db,
      if key in kept then Ok(Done(db.(spent := kept), Err(Spent)))
      else Ok(Done(db.(spent := kept[key := expiresAt]), Ok(()))))
  }

  /** Re-apply one journal record to a restored database; the answer is whether it changed anything. */
  ghost function Replay(db: Db, record: JournalRecord): Outcome<bool> {
    if record.seqNo <= db.lastApplied then Outcome(db, Ok(false), []) else
    Commit(db,
      var done :- ReplayOp(db, record);
      Ok(Done(done.tx.(lastApplied := record.seqNo), done.answer)))
  }

  ghost function ReplayOp(db: Db, record: JournalRecord): Result<Done<bool>, StoreError> {
    match record.op
    case Revocation(id, ids, actor, reported) =>
      var found := LoadById(db, id);
      if found.None? then Ok(Done(db, Ok(false))) else
      var removed := Removed(db.tokens, found.value, ids);
      if removed == [] then Ok(Done(db, Ok(false))) else
      var tx :- Revoked(db, found.value, db.vaults[found.value], removed, actor, reported, record.ts);
      Ok(Done(tx, Ok(true)))
    case Rotation(id, actor, request) =>
      var found := LoadById(db, id);
      if found.None? || db.vaults[found.value].generation != request.fromGeneration then
        Ok(Done(db, Ok(false)))
      else
        var tx :- Rotated(db, found.value, db.vaults[found.value], request, Ctx(actor, record.ts));
        Ok(Done(tx, Ok(true)))
    case Deletion(id) =>
      if exists pk :: Named(db, pk, id) then
        var pk :| Named(db, pk, id);
        Ok(Done(WithoutVault(db, pk), Ok(true)))
      else Ok(Done(db, Ok(false)))
  }
}
