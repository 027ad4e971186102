/** What every transaction keeps: consistent heads, exact byte accounting, an unbroken audit chain, a
descriptor for every generation, and tokens that are all at their vault's generation. */
module Invariant {
  import opened Types
  import opened Tables
  import opened Rotations
  import opened Database

  /** Row `i` is numbered `i`, hashes its own content, and names the hash before it. */
  ghost predicate LinkOk(audit: map<nat, AuditRow>, i: nat)
    requires i in audit
  {
    && audit[i] == NewRow(i, audit[i].ts, audit[i].prev, audit[i].event)
    && (i == 1 ==> audit[i].prev == Genesis)
    && (i > 1 ==> i - 1 in audit && audit[i].prev == audit[i - 1].hash)
  }

  /** Numbered 1..n from Genesis, every link sound, and `head` the last row's hash. */
  ghost predicate Chain(audit: map<nat, AuditRow>, n: nat, head: Digest) {
    && (forall i :: i in audit <==> 1 <= i <= n)
    && (forall i {:trigger LinkOk(audit, i)} :: i in audit ==> LinkOk(audit, i))
    && head == (if n == 0 then Genesis else audit[n].hash)
  }

  ghost predicate ChainOk(v: Vault) {
    Chain(v.audit, v.auditSeq, v.auditHead)
  }

  ghost predicate RecordsOk(v: Vault) {
    && TableOk(v.secrets, v.generation)
    && TableOk(v.configs, v.generation)
    && v.bytesUsed == TotalBytes(v.secrets.rows) + TotalBytes(v.configs.rows)
  }

  ghost predicate DescriptorsOk(v: Vault) {
    1 <= v.generation && forall g :: g in v.descriptors <==> 1 <= g <= v.generation
  }

  ghost predicate VaultOk(v: Vault) {
    ChainOk(v) && RecordsOk(v) && DescriptorsOk(v)
  }

  ghost predicate IdsUnique(db: Db) {
    forall pk, qk :: pk in db.vaults && qk in db.vaults && db.vaults[pk].id == db.vaults[qk].id ==> pk == qk
  }

  ghost predicate TokenOk(db: Db, t: TokenId)
    requires t in db.tokens
  {
    var row := db.tokens[t];
    row.vaultPk in db.vaults && row.generation == db.vaults[row.vaultPk].generation
  }

  ghost predicate TokensOk(db: Db) {
    forall t :: t in db.tokens ==> TokenOk(db, t)
  }

  ghost predicate Inv(db: Db) {
    && (forall pk :: pk in db.vaults ==> VaultOk(db.vaults[pk]))
    && IdsUnique(db)
    && TokensOk(db)
  }

  // ------------------------------------------------------------ audit

  /** `v'` is `v` with a longer chain, and nothing else changed. */
  ghost predicate Extended(v: Vault, v': Vault) {
    && v' == v.(audit := v'.audit, auditSeq := v'.auditSeq, auditHead := v'.auditHead)
    && v.auditSeq <= v'.auditSeq
    && forall i :: i in v.audit ==> i in v'.audit && v'.audit[i] == v.audit[i]
  }

  lemma ChainAppended(audit: map<nat, AuditRow>, n: nat, head: Digest, ts: int, e: AuditEvent)
    requires Chain(audit, n, head)
    ensures n + 1 !in audit
    ensures var row := NewRow(n + 1, ts, head, e); Chain(audit[n + 1 := row], n + 1, row.hash)
  {
    var audit' := audit[n + 1 := NewRow(n + 1, ts, head, e)];
    forall i | i in audit'
      ensures LinkOk(audit', i)
    {
      if i != n + 1 {
        assert LinkOk(audit, i);
      }
    }
  }

  /** Appending to a sound chain never conflicts, keeps it sound and keeps every earlier row. */
  lemma AppendAuditOk(v: Vault, e: AuditEvent, now: int)
    requires ChainOk(v)
    ensures AppendAudit(v, e, now).Ok?
    ensures var v' := AppendAudit(v, e, now).value;
            && ChainOk(v') && Extended(v, v')
            && v'.auditSeq == v.auditSeq + 1
            && v'.auditSeq in v'.audit && v'.audit[v'.auditSeq].event == e
  {
    hide Chain;
    ChainAppended(v.audit, v.auditSeq, v.auditHead, now, e);
  }

  lemma {:induction false} AppendAllOk(v: Vault, events: seq<AuditEvent>, now: int)
    requires ChainOk(v)
    ensures AppendAll(v, events, now).Ok?
    ensures var v' := AppendAll(v, events, now).value;
            ChainOk(v') && Extended(v, v') && v'.auditSeq == v.auditSeq + |events|
    decreases |events|
  {
    hide Chain;
    if events != [] {
      var front := events[..|events| - 1];
      AppendAllOk(v, front, now);
      AppendAuditOk(AppendAll(v, front, now).value, events[|events| - 1], now);
    }
  }

  // ------------------------------------------------------------ one vault changed

  /** Replacing a vault by a sound one of the same id and generation keeps the invariant. */
  lemma WithVaultInv(db: Db, pk: nat, v: Vault)
    requires Inv(db) && pk in db.vaults
    requires VaultOk(v) && v.id == db.vaults[pk].id && v.generation == db.vaults[pk].generation
    ensures Inv(WithVault(db, pk, v))
  {
    hide VaultOk;
    var db' := WithVault(db, pk, v);
    forall t | t in db'.tokens
      ensures TokenOk(db', t)
    {
      assert TokenOk(db, t);
    }
  }

  lemma ExtendedOk(v: Vault, v': Vault)
    requires VaultOk(v) && Extended(v, v') && ChainOk(v')
    ensures VaultOk(v')
  {
  }

  lemma RefuseInv<T>(db: Db, pk: nat, e: AuditEvent, now: int, error: StoreError)
    requires Inv(db) && pk in db.vaults
    ensures var r: Result<Done<T>, StoreError> := Refuse(db, pk, db.vaults[pk], e, now, error);
            && r.Ok? && r.value.answer == Err(error)
            && Inv(r.value.tx)
  {
    hide Inv, VaultOk, AppendAudit;
    VaultIsOk(db, pk);
    AppendedInv(db, pk, db.vaults[pk], e, now);
  }

  /** Changing a vault soundly and then auditing the change keeps the invariant, and always succeeds. */
  lemma AppendedInv(db: Db, pk: nat, v: Vault, e: AuditEvent, now: int)
    requires Inv(db) && pk in db.vaults
    requires VaultOk(v) && v.id == db.vaults[pk].id && v.generation == db.vaults[pk].generation
    ensures AppendAudit(v, e, now).Ok?
    ensures Inv(WithVault(db, pk, AppendAudit(v, e, now).value))
    ensures var v' := AppendAudit(v, e, now).value; VaultOk(v') && Extended(v, v')
  {
    hide Inv, RecordsOk, DescriptorsOk;
    AppendAuditOk(v, e, now);
    ExtendedOk(v, AppendAudit(v, e, now).value);
    WithVaultInv(db, pk, AppendAudit(v, e, now).value);
  }

  lemma LoadVaultOk(db: Db, pk: nat)
    requires Inv(db)
    ensures LoadVault(db, pk) == if pk in db.vaults then Ok(db.vaults[pk]) else Err(NotFound)
  {
    hide ChainOk, RecordsOk;
    if pk in db.vaults {
      assert VaultOk(db.vaults[pk]);
    }
  }

  /** A vault's columns outside its chain and records can change freely. */
  lemma ColumnsOk(v: Vault, v': Vault)
    requires VaultOk(v)
    requires v'.audit == v.audit && v'.auditSeq == v.auditSeq && v'.auditHead == v.auditHead
    requires v'.generation == v.generation && v'.descriptors == v.descriptors
    requires v'.secrets == v.secrets && v'.configs == v.configs && v'.bytesUsed == v.bytesUsed
    ensures VaultOk(v')
  {
    hide TableOk, TotalBytes, Chain;
  }

  /** The journal counter and the spent ids are no part of the invariant. */
  lemma CounterInv(db: Db, spent: map<SpentKey, int>, n: nat)
    requires Inv(db)
    ensures Inv(db.(spent := spent, lastApplied := n))
  {
    hide VaultOk;
    var db' := db.(spent := spent, lastApplied := n);
    forall t | t in db'.tokens
      ensures TokenOk(db', t)
    {
      assert TokenOk(db, t);
    }
  }

  // ------------------------------------------------------------ vaults

  lemma NextPkIsFree(db: Db)
    ensures NextPk(db) !in db.vaults
  {
    var pks := Ascending(db.vaults.Keys);
    forall pk | pk in db.vaults
      ensures pk < NextPk(db)
    {
      assert pk in pks;
      var i :| 0 <= i < |pks| && pks[i] == pk;
    }
  }

  function NewlyMade(v: NewVault, now: int): Vault {
    Vault(v.id, v.ownerSignPub, v.ownerBoxPub, v.ownerBundle, 1, 1, now, now, 0, 0, Genesis,
          map[1 := v.descriptor], EmptyTable, EmptyTable, None, map[])
  }

  /** Adding a sound vault under an unused id and row id keeps the invariant. */
  lemma AddedVaultInv(db: Db, pk: nat, v: Vault)
    requires Inv(db) && pk !in db.vaults
    requires VaultOk(v) && !IdTaken(db, v.id)
    ensures Inv(WithVault(db, pk, v))
  {
    hide VaultOk;
    var db' := WithVault(db, pk, v);
    forall t | t in db'.tokens
      ensures TokenOk(db', t)
    {
      assert TokenOk(db, t);
    }
  }

  lemma CreateVaultInv(db: Db, v: NewVault, now: int)
    requires Inv(db)
    ensures Inv(CreateVault(db, v, now).db)
    ensures CreateVault(db, v, now).answer.Ok? <==> !IdTaken(db, v.id)
  {
    hide Inv, NextPk;
    if !IdTaken(db, v.id) {
      NextPkIsFree(db);
      var made := NewlyMade(v, now);
      var e := WriteEvent(Owner, VaultCreate, None, 0, Some(Sha256(v.descriptor.descriptor)));
      assert VaultOk(made);
      AppendAuditOk(made, e, now);
      ExtendedOk(made, AppendAudit(made, e, now).value);
      AddedVaultInv(db, NextPk(db), AppendAudit(made, e, now).value);
    }
  }

  // ------------------------------------------------------------ tokens

  lemma RegisteredInv(db: Db, t: TokenId, row: TokenRow)
    requires Inv(db) && t !in db.tokens
    requires row.vaultPk in db.vaults && row.generation == db.vaults[row.vaultPk].generation
    ensures Inv(db.(tokens := db.tokens[t := row]))
  {
    hide VaultOk;
    var db' := db.(tokens := db.tokens[t := row]);
    forall u | u in db'.tokens
      ensures TokenOk(db', u)
    {
      assert u == t || TokenOk(db, u);
    }
  }

  lemma RegisterTokenInv(db: Db, pk: nat, t: NewToken, ctx: Ctx, limits: Limits)
    requires Inv(db)
    ensures Inv(RegisterToken(db, pk, t, ctx, limits).db)
  {
    hide Inv, VaultOk, ActiveTokens, AppendAudit;
    LoadVaultOk(db, pk);
    if pk in db.vaults {
      assert VaultOk(db.vaults[pk]) by { VaultIsOk(db, pk); }
      var v := db.vaults[pk];
      var refused := Event(ctx.actor, TokenMint, None, Some(t.id), Refused);
      RefuseInv<TokenRow>(db, pk, refused, ctx.now, StaleGeneration);
      RefuseInv<TokenRow>(db, pk, refused, ctx.now, QuotaExceeded(Tokens));
      var v1, e := v.(revision := v.revision + 1), Event(ctx.actor, TokenMint, None, Some(t.id), Success);
      ColumnsOk(v, v1);
      AppendedInv(db, pk, v1, e, ctx.now);
      if t.generation == v.generation && t.id !in db.tokens {
        var row := TokenRow(pk, t.authPub, t.boxPub, t.scope, ctx.now, t.expiresAt, t.bundle,
                            t.generation, t.allowList);
        RegisteredInv(WithVault(db, pk, AppendAudit(v1, e, ctx.now).value), t.id, row);
      }
    }
  }

  lemma VaultIsOk(db: Db, pk: nat)
    requires Inv(db) && pk in db.vaults
    ensures VaultOk(db.vaults[pk])
  {
  }

  lemma WithoutInv(db: Db, gone: seq<TokenId>)
    requires Inv(db)
    ensures Inv(db.(tokens := Without(db.tokens, gone)))
  {
    hide VaultOk;
    var db' := db.(tokens := Without(db.tokens, gone));
    forall t | t in db'.tokens
      ensures TokenOk(db', t)
    {
      assert TokenOk(db, t);
    }
  }

  /** A revocation, live or replayed, always goes through and keeps the invariant. */
  lemma RevokedInv(db: Db, pk: nat, removed: seq<TokenId>, actor: Actor, reported: bool, now: int)
    requires Inv(db) && pk in db.vaults
    ensures Revoked(db, pk, db.vaults[pk], removed, actor, reported, now).Ok?
    ensures Inv(Revoked(db, pk, db.vaults[pk], removed, actor, reported, now).value)
  {
    hide Inv, VaultOk, AppendAll;
    VaultIsOk(db, pk);
    var v := db.vaults[pk];
    var v1, es := v.(revision := v.revision + 1), RevokeEvents(removed, actor, reported);
    ColumnsOk(v, v1);
    AllAppendedOk(v1, es, now);
    var v' := AppendAll(v1, es, now).value;
    WithVaultInv(db, pk, v');
    WithoutInv(WithVault(db, pk, v'), removed);
  }

  lemma AllAppendedOk(v: Vault, events: seq<AuditEvent>, now: int)
    requires VaultOk(v)
    ensures AppendAll(v, events, now).Ok?
    ensures var v' := AppendAll(v, events, now).value; VaultOk(v') && Extended(v, v')
  {
    hide Chain, RecordsOk, DescriptorsOk, AppendAll;
    AppendAllOk(v, events, now);
    ExtendedOk(v, AppendAll(v, events, now).value);
  }

  lemma RevokeTokensInv(db: Db, pk: nat, ids: seq<TokenId>, reported: bool, ctx: Ctx, hook: bool)
    requires Inv(db)
    ensures Inv(RevokeTokens(db, pk, ids, reported, ctx, hook).db)
  {
    hide Inv, Revoked, Removed;
    LoadVaultOk(db, pk);
    if pk in db.vaults {
      var removed := Removed(db.tokens, pk, ids);
      RevokedInv(db, pk, removed, ctx.actor, reported, ctx.now);
      var tx := Revoked(db, pk, db.vaults[pk], removed, ctx.actor, reported, ctx.now).value;
      CounterInv(tx, tx.spent, tx.lastApplied + 1);
    }
  }

  // ------------------------------------------------------------ records

  lemma StoredOk(v: Vault, kind: RecordKind, name: NameHmac, row: VersionRow, maxVersions: nat)
    requires VaultOk(v)
    requires var next := NextVersion(v.Records(kind), name); RowOk(Key(name, next), row, v.generation)
    ensures var t := v.Records(kind);
            var freed := FreedBy(t, name, maxVersions);
            var total := v.bytesUsed + RowBytes(row) - freed;
            && freed <= v.bytesUsed
            && Stored(v, kind, name, NextVersion(t, name), row, maxVersions, total).Ok?
            && var v' := Stored(v, kind, name, NextVersion(t, name), row, maxVersions, total).value;
               VaultOk(v') && v'.id == v.id && v'.generation == v.generation
  {
    hide Chain, RowsOk, HeadsOk, TotalBytes, Prunable, Written, RowOk;
    var t := v.Records(kind);
    var pruned := Prunable(t, name, maxVersions);
    PrunableIsOldest(t, name, maxVersions);
    NextVersionIsFree(t, v.generation, name);
    WrittenOk(t, v.generation, name, row, pruned);
    WrittenBytes(t, name, NextVersion(t, name), row, pruned);
  }

  /** An assigned version is the one after the name's head. */
  lemma AssignedIsNext(pre: Precondition, v: Vault, kind: RecordKind, name: NameHmac)
    ensures match Assigned(pre, v.HeadOf(kind, name))
            case Ok(next) => next == NextVersion(v.Records(kind), name)
            case Err(e) => e.PreconditionFailed?
  {
  }

  lemma PutRecordInv(db: Db, pk: nat, kind: RecordKind, name: NameHmac, pre: Precondition, w: RecordWrite,
                     ctx: Ctx, limits: Limits)
    requires Inv(db)
    ensures Inv(PutRecord(db, pk, kind, name, pre, w, ctx, limits).db)
    ensures PutRecord(db, pk, kind, name, pre, w, ctx, limits).answer !in {Err(Underflow), Err(Exists)}
  {
    hide Inv, VaultOk, AppendAudit, FreedBy, Stored, LiveNames, Assigned, NextVersion, Vault.HeadOf, Vault.Records;
    LoadVaultOk(db, pk);
    if pk in db.vaults && w.valueCt.Some? {
      var v := db.vaults[pk];
      VaultIsOk(db, pk);
      forall error: StoreError {
        RefuseInv<nat>(db, pk, Event(ctx.actor, PutAction(kind), Some(name), None, Refused), ctx.now, error);
      }
      AssignedIsNext(pre, v, kind, name);
      if w.generation == v.generation {
        WriteInv(db, pk, kind, name, w, ctx, limits);
      }
    }
  }

  /** Storing a written version at the next number, with exact accounting, and auditing it. */
  lemma WriteInv(db: Db, pk: nat, kind: RecordKind, name: NameHmac, w: RecordWrite, ctx: Ctx, limits: Limits)
    requires Inv(db) && pk in db.vaults && w.generation == db.vaults[pk].generation
    ensures var v := db.vaults[pk];
            var t := v.Records(kind);
            var row := WrittenRow(w, ctx.actor);
            var freed := FreedBy(t, name, limits.Versions(kind));
            && freed <= v.bytesUsed
            && var stored := Stored(v, kind, name, NextVersion(t, name), row, limits.Versions(kind),
                                    v.bytesUsed + RowBytes(row) - freed);
               && stored.Ok?
               && (forall e :: var appended := AppendAudit(stored.value, e, ctx.now);
                     appended.Ok? && Inv(WithVault(db, pk, appended.value)))
  {
    hide Inv, VaultOk, AppendAudit, FreedBy, Stored, Vault.Records;
    var v := db.vaults[pk];
    var row := WrittenRow(w, ctx.actor);
    VaultIsOk(db, pk);
    StoredOk(v, kind, name, row, limits.Versions(kind));
    var t := v.Records(kind);
    var stored := Stored(v, kind, name, NextVersion(t, name), row, limits.Versions(kind),
                         v.bytesUsed + RowBytes(row) - FreedBy(t, name, limits.Versions(kind))).value;
    forall e
      ensures AppendAudit(stored, e, ctx.now).Ok? && Inv(WithVault(db, pk, AppendAudit(stored, e, ctx.now).value))
    {
      AppendedInv(db, pk, stored, e, ctx.now);
    }
  }

  /** The saturating subtraction of a delete never saturates. */
  lemma DeleteRecordInv(db: Db, pk: nat, kind: RecordKind, name: NameHmac, ifMatch: nat, w: RecordWrite,
                        ctx: Ctx, limits: Limits)
    requires Inv(db)
    ensures Inv(DeleteRecord(db, pk, kind, name, ifMatch, w, ctx, limits).db)
    ensures pk in db.vaults ==>
              FreedBy(db.vaults[pk].Records(kind), name, limits.Versions(kind)) <= db.vaults[pk].bytesUsed
    ensures DeleteRecord(db, pk, kind, name, ifMatch, w, ctx, limits).answer != Err(Exists)
  {
    hide Inv, VaultOk, AppendAudit, FreedBy, Stored, Vault.Records;
    LoadVaultOk(db, pk);
    if pk in db.vaults {
      forall error: StoreError {
        RefuseInv<nat>(db, pk, Event(ctx.actor, DeleteAction(kind), Some(name), None, Refused), ctx.now, error);
      }
      WriteInv(db, pk, kind, name, w.(generation := db.vaults[pk].generation), ctx, limits);
    }
  }

  lemma PutChildrenInv(db: Db, pk: nat, pre: Precondition, blob: ChildrenBlob, ctx: Ctx, limits: Limits)
    requires Inv(db)
    ensures Inv(PutChildren(db, pk, pre, blob, ctx, limits).db)
  {
    hide Inv, VaultOk, AppendAudit, AssignedChildren;
    LoadVaultOk(db, pk);
    if pk in db.vaults {
      forall error: StoreError {
        RefuseInv<nat>(db, pk, Event(ctx.actor, ChildrenWrite, None, None, Refused), ctx.now, error);
      }
      VaultIsOk(db, pk);
      var v := db.vaults[pk].(children := Some(blob));
      ColumnsOk(db.vaults[pk], v);
      AppendedInv(db, pk, v,
        WriteEvent(ctx.actor, ChildrenWrite, None, blob.version, Some(Sha256(blob.ct))), ctx.now);
    }
  }

  lemma RecordInv(db: Db, pk: nat, e: AuditEvent, now: int)
    requires Inv(db)
    ensures Inv(Record(db, pk, e, now).db)
  {
    hide Inv, VaultOk, AppendAudit;
    if pk in db.vaults {
      VaultIsOk(db, pk);
      AppendedInv(db, pk, db.vaults[pk], e, now);
    }
  }

  lemma TouchInv(db: Db, pk: nat, now: int)
    requires Inv(db)
    ensures Inv(Touch(db, pk, now).db)
  {
    hide Inv, VaultOk;
    if pk in db.vaults {
      VaultIsOk(db, pk);
      var v := db.vaults[pk].(lastActiveAt := now);
      ColumnsOk(db.vaults[pk], v);
      WithVaultInv(db, pk, v);
    }
  }

  // ------------------------------------------------------------ rotation and deletion

  /** Exactly the listed tokens of the vault are resealed; every other row is untouched. */
  lemma {:induction false} ResealedAt(
    tokens: map<TokenId, TokenRow>, pk: nat, generation: nat, list: seq<ResealedBundle>, t: TokenId)
    ensures t in Resealed(tokens, pk, generation, list) <==> t in tokens
    ensures t in tokens ==>
              var row := Resealed(tokens, pk, generation, list)[t];
              if tokens[t].vaultPk == pk && t in ResealedIds(list)
              then row == tokens[t].(bundle := row.bundle, generation := generation)
              else row == tokens[t]
    decreases |list|
  {
    if list != [] {
      var front, last := list[..|list| - 1], list[|list| - 1];
      ResealedAt(tokens, pk, generation, front, t);
      assert list == front + [last];
      assert t in ResealedIds(list) <==> t in ResealedIds(front) || t == last.tokenId;
    }
  }

  /** What makes a rotation safe to apply to a vault, live or replayed: it is the next generation's, no
  two entries collide, and every token left is resealed. */
  ghost predicate Applicable(db: Db, pk: nat, r: RotationRequest) {
    && pk in db.vaults && db.vaults[pk].generation == r.fromGeneration
    && Separated(r.secrets) && Separated(r.configs)
    && Positive(r.secrets) && Positive(r.configs)
    && forall t :: t in db.tokens && db.tokens[t].vaultPk == pk && t !in r.revoke ==> t in ResealedIds(r.tokens)
  }

  lemma RotatedVaultOk(v: Vault, r: RotationRequest, actor: Actor)
    requires VaultOk(v) && v.generation == r.fromGeneration
    requires Separated(r.secrets) && Separated(r.configs) && Positive(r.secrets) && Positive(r.configs)
    ensures VaultOk(RotatedVault(v, r, actor))
  {
    hide Chain, TableOk, TotalBytes, BatchBytes, Rebuilt, Separated, Positive;
    SeparatedMeansApart(r.secrets);
    SeparatedMeansApart(r.configs);
    RebuiltOk(r.secrets, v.secrets.rows, actor, v.generation + 1);
    RebuiltOk(r.configs, v.configs.rows, actor, v.generation + 1);
  }

  /** Replacing a vault by its rotated self and resealing its tokens keeps the invariant. */
  lemma RotatedTokensInv(db: Db, pk: nat, r: RotationRequest, v: Vault, removed: seq<TokenId>)
    requires Inv(db) && Applicable(db, pk, r)
    requires VaultOk(v) && v.id == db.vaults[pk].id && v.generation == r.fromGeneration + 1
    requires removed == Removed(db.tokens, pk, r.revoke)
    ensures Inv(WithVault(db, pk, v)
                 .(tokens := Resealed(Without(db.tokens, removed), pk, r.fromGeneration + 1, r.tokens)))
  {
    hide VaultOk, Resealed, ResealedIds, Removed, Separated, Positive;
    var left := Without(db.tokens, removed);
    var db' := WithVault(db, pk, v).(tokens := Resealed(left, pk, r.fromGeneration + 1, r.tokens));
    forall t | t in db'.tokens
      ensures TokenOk(db', t)
    {
      ResealedAt(left, pk, r.fromGeneration + 1, r.tokens, t);
      assert TokenOk(db, t);
    }
  }

  /** A rotation that is applicable always goes through and keeps the invariant. */
  lemma RotatedInv(db: Db, pk: nat, r: RotationRequest, ctx: Ctx)
    requires Inv(db) && Applicable(db, pk, r)
    ensures Rotated(db, pk, db.vaults[pk], r, ctx).Ok?
    ensures Inv(Rotated(db, pk, db.vaults[pk], r, ctx).value)
  {
    hide Inv, VaultOk, AppendAll, Resealed, Removed, Separated, Positive, BatchBytes, Rebuilt;
    var v := db.vaults[pk];
    var removed := Removed(db.tokens, pk, r.revoke);
    VaultIsOk(db, pk);
    RotatedVaultOk(v, r, ctx.actor);
    var v1, es := RotatedVault(v, r, ctx.actor), RotationEvents(r, removed, ctx.actor);
    AllAppendedOk(v1, es, ctx.now);
    RotatedTokensInv(db, pk, r, AppendAll(v1, es, ctx.now).value, removed);
  }

  /** The live checks make a rotation applicable. */
  lemma StrictIsApplicable(db: Db, pk: nat, r: RotationRequest)
    requires Inv(db) && pk in db.vaults
    requires StrictlyAccepted(db, pk, db.vaults[pk], r)
    requires Separated(r.secrets) && Separated(r.configs)
    ensures Applicable(db, pk, r)
  {
    hide Chain, Complete, Separated, Positive, ResealedIds, HeadsOk;
    var v := db.vaults[pk];
    assert VaultOk(v);
    CompleteMeans(r.secrets, v.secrets, v.generation);
    CompleteMeans(r.configs, v.configs, v.generation);
    forall t | t in db.tokens && db.tokens[t].vaultPk == pk && t !in r.revoke
      ensures t in ResealedIds(r.tokens)
    {
      assert t in TokensOf(db, pk);
    }
  }

  lemma ApplyRotationInv(db: Db, pk: nat, r: RotationRequest, ctx: Ctx, hook: bool)
    requires Inv(db)
    ensures Inv(ApplyRotation(db, pk, r, ctx, hook).db)
  {
    hide Inv, Rotated, StrictlyAccepted, Applicable;
    LoadVaultOk(db, pk);
    if pk in db.vaults && StrictlyAccepted(db, pk, db.vaults[pk], r)
       && Rotated(db, pk, db.vaults[pk], r, ctx).Ok? {
      RotatedMeansSeparated(db, pk, r, ctx);
      StrictIsApplicable(db, pk, r);
      RotatedInv(db, pk, r, ctx);
      var tx := Rotated(db, pk, db.vaults[pk], r, ctx).value;
      CounterInv(tx, tx.spent, tx.lastApplied + 1);
    }
  }

  lemma RotatedMeansSeparated(db: Db, pk: nat, r: RotationRequest, ctx: Ctx)
    requires pk in db.vaults && Rotated(db, pk, db.vaults[pk], r, ctx).Ok?
    ensures Separated(r.secrets) && Separated(r.configs)
  {
  }

  lemma WithoutVaultInv(db: Db, pk: nat)
    requires Inv(db)
    ensures Inv(WithoutVault(db, pk))
  {
    hide VaultOk;
    var db' := WithoutVault(db, pk);
    forall t | t in db'.tokens
      ensures TokenOk(db', t)
    {
      assert TokenOk(db, t);
    }
  }

  lemma DeleteVaultInv(db: Db, pk: nat, now: int, hook: bool)
    requires Inv(db)
    ensures Inv(DeleteVault(db, pk, now, hook).db)
  {
    hide Inv;
    WithoutVaultInv(db, pk);
    var tx := WithoutVault(db, pk);
    CounterInv(tx, tx.spent, tx.lastApplied + 1);
  }

  lemma SpendInv(db: Db, key: SpentKey, expiresAt: int, now: int)
    requires Inv(db)
    ensures Inv(Spend(db, key, expiresAt, now).db)
  {
    hide Inv;
    CounterInv(db, Spend(db, key, expiresAt, now).db.spent, db.lastApplied);
  }
}
