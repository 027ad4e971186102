/** The write-ahead journal: replaying a record is what committing it would have done, and replaying the
journal onto any earlier state brings back no deleted vault and no revoked token. */
module Recovery {
  import opened Types
  import opened Tables
  import opened Database
  import opened Invariant

  /** Every call that can change the database. `hook` is whether the journal write lands. */
  datatype Op =
    | Create(vault: NewVault, now: int)
    | KeepAlive(pk: nat, now: int)
    | Mint(pk: nat, token: NewToken, ctx: Ctx, limits: Limits)
    | Revoke(pk: nat, ids: seq<TokenId>, reported: bool, ctx: Ctx, hook: bool)
    | Put(pk: nat, kind: RecordKind, name: NameHmac, pre: Precondition, write: RecordWrite, ctx: Ctx, limits: Limits)
    | Delete(pk: nat, kind: RecordKind, name: NameHmac, ifMatch: nat, write: RecordWrite, ctx: Ctx, limits: Limits)
    | WriteChildren(pk: nat, pre: Precondition, blob: ChildrenBlob, ctx: Ctx, limits: Limits)
    | Note(pk: nat, event: AuditEvent, now: int)
    | Rotate(pk: nat, request: RotationRequest, ctx: Ctx, hook: bool)
    | Drop(pk: nat, now: int, hook: bool)
    | UseOnce(key: SpentKey, expiresAt: int, now: int)

  datatype Effect = Effect(db: Db, journaled: seq<JournalRecord>)

  function EffectOf<T>(o: Outcome<T>): Effect {
    Effect(o.db, o.journaled)
  }

  function Step(db: Db, op: Op): Effect {
    match op
    case Create(v, now) => EffectOf(CreateVault(db, v, now))
    case KeepAlive(pk, now) => EffectOf(Touch(db, pk, now))
    case Mint(pk, t, ctx, limits) => EffectOf(RegisterToken(db, pk, t, ctx, limits))
    case Revoke(pk, ids, reported, ctx, hook) => EffectOf(RevokeTokens(db, pk, ids, reported, ctx, hook))
    case Put(pk, kind, name, pre, w, ctx, limits) => EffectOf(PutRecord(db, pk, kind, name, pre, w, ctx, limits))
    case Delete(pk, kind, name, x, w, ctx, limits) => EffectOf(DeleteRecord(db, pk, kind, name, x, w, ctx, limits))
    case WriteChildren(pk, pre, blob, ctx, limits) => EffectOf(PutChildren(db, pk, pre, blob, ctx, limits))
    case Note(pk, e, now) => EffectOf(Record(db, pk, e, now))
    case Rotate(pk, r, ctx, hook) => EffectOf(ApplyRotation(db, pk, r, ctx, hook))
    case Drop(pk, now, hook) => EffectOf(DeleteVault(db, pk, now, hook))
    case UseOnce(key, e, now) => EffectOf(Spend(db, key, e, now))
  }

  lemma StepInv(db: Db, op: Op)
    requires Inv(db)
    ensures Inv(Step(db, op).db)
  {
    hide Inv, CreateVault, Touch, RegisterToken, RevokeTokens, PutRecord, DeleteRecord, PutChildren, Record,
         ApplyRotation, DeleteVault, Spend;
    match op
    case Create(v, now) => CreateVaultInv(db, v, now);
    case KeepAlive(pk, now) => TouchInv(db, pk, now);
    case Mint(pk, t, ctx, limits) => RegisterTokenInv(db, pk, t, ctx, limits);
    case Revoke(pk, ids, reported, ctx, hook) => RevokeTokensInv(db, pk, ids, reported, ctx, hook);
    case Put(pk, kind, name, pre, w, ctx, limits) => PutRecordInv(db, pk, kind, name, pre, w, ctx, limits);
    case Delete(pk, kind, name, x, w, ctx, limits) => DeleteRecordInv(db, pk, kind, name, x, w, ctx, limits);
    case WriteChildren(pk, pre, blob, ctx, limits) => PutChildrenInv(db, pk, pre, blob, ctx, limits);
    case Note(pk, e, now) => RecordInv(db, pk, e, now);
    case Rotate(pk, r, ctx, hook) => ApplyRotationInv(db, pk, r, ctx, hook);
    case Drop(pk, now, hook) => DeleteVaultInv(db, pk, now, hook);
    case UseOnce(key, e, now) => SpendInv(db, key, e, now);
  }

  function Run(db: Db, ops: seq<Op>): Db {
    if ops == [] then db else Step(Run(db, ops[..|ops| - 1]), ops[|ops| - 1]).db
  }

  /** No call of the run deletes the vault. */
  ghost predicate Spares(ops: seq<Op>, pk: nat) {
    forall i :: 0 <= i < |ops| ==> !(ops[i].Drop? && ops[i].pk == pk)
  }

  /** Whatever is called, in whatever order, the invariant holds. */
  lemma {:induction false} EveryRunIsSound(ops: seq<Op>)
    ensures Inv(Run(EmptyDb, ops))
  {
    if ops == [] {
    } else {
      EveryRunIsSound(ops[..|ops| - 1]);
      StepInv(Run(EmptyDb, ops[..|ops| - 1]), ops[|ops| - 1]);
    }
  }

  // ------------------------------------------------------------ write-ahead exactness

  lemma LoadByIdOk(db: Db, pk: nat, id: VaultId)
    requires Inv(db)
    ensures Named(db, pk, id) ==> LoadById(db, id) == Some(pk)
    ensures LoadById(db, id).Some? ==>
              Named(db, LoadById(db, id).value, id) && LoadVault(db, LoadById(db, id).value).Ok?
  {
    hide VaultOk;
    LoadVaultOk(db, pk);
  }

  /** A record that continues the journal, and whose rotation, if it is one and its vault is here, can
  be applied. */
  ghost predicate Admissible(db: Db, record: JournalRecord) {
    && record.seqNo == db.lastApplied + 1
    && (record.op.Rotation? ==>
          forall pk :: Named(db, pk, record.op.vaultId) ==> Applicable(db, pk, record.op.request))
  }

  /** `listed` holds, once each, exactly the tokens that are gone: those of the vault's that were asked for. */
  ghost predicate ListsRemoved(tokens: map<TokenId, TokenRow>, tokens': map<TokenId, TokenRow>, pk: nat,
                        asked: seq<TokenId>,
                               listed: seq<TokenId>)
  {
    && NoRepeats(listed)
    && (forall t :: t in listed <==> t in tokens && t !in tokens')
    && (forall t :: t in listed <==> t in asked && t in tokens && tokens[t].vaultPk == pk)
  }

  lemma RemovedAreListed(db: Db, pk: nat, ids: seq<TokenId>, reported: bool, ctx: Ctx)
    requires pk in db.vaults
    ensures var removed := Removed(db.tokens, pk, ids);
            var o := Revoked(db, pk, db.vaults[pk], removed, ctx.actor, reported, ctx.now);
            o.Ok? ==> ListsRemoved(db.tokens, o.value.tokens, pk, ids, removed)
  {
    hide AppendAll, RevokeEvents;
    RemovedIsDistinct(db.tokens, pk, ids);
  }

  /** Replaying the record a revocation journaled, onto the state it started from, is the revocation. */
  lemma RevocationIsExact(db: Db, pk: nat, ids: seq<TokenId>, reported: bool, ctx: Ctx, hook: bool)
    requires Inv(db)
    ensures var o := RevokeTokens(db, pk, ids, reported, ctx, hook);
            if o.journaled == [] then o.db == db
            else
              && |o.journaled| == 1 && Replay(db, o.journaled[0]).db == o.db && Admissible(db, o.journaled[0])
              && o.journaled[0].op.Revocation?
                  && ListsRemoved(db.tokens, o.db.tokens, pk, ids, o.journaled[0].op.tokenIds)
  {
    hide Inv, Revoked, LoadById, Removed, ListsRemoved;
    LoadVaultOk(db, pk);
    if pk in db.vaults {
      RemovedAreListed(db, pk, ids, reported, ctx);
      LoadByIdOk(db, pk, db.vaults[pk].id);
      RemovedTwice(db.tokens, pk, ids);
    }
  }

  /** Removing what was removed finds the same tokens, in the same order. */
  lemma {:induction false} RemovedTwice(tokens: map<TokenId, TokenRow>, pk: nat, ids: seq<TokenId>)
    ensures Removed(tokens, pk, Removed(tokens, pk, ids)) == Removed(tokens, pk, ids)
  {
    RemovedIsDistinct(tokens, pk, ids);
    DistinctIsKept(tokens, pk, Removed(tokens, pk, ids));
  }

  ghost predicate NoRepeats(ids: seq<TokenId>) {
    forall i, j :: 0 <= i < j < |ids| ==> ids[i] != ids[j]
  }

  lemma {:induction false} RemovedIsDistinct(tokens: map<TokenId, TokenRow>, pk: nat, ids: seq<TokenId>)
    ensures NoRepeats(Removed(tokens, pk, ids))
  {
    if ids != [] {
      RemovedIsDistinct(tokens, pk, ids[..|ids| - 1]);
    }
  }

  lemma {:induction false} DistinctIsKept(tokens: map<TokenId, TokenRow>, pk: nat, ids: seq<TokenId>)
    requires NoRepeats(ids)
    requires forall t :: t in ids ==> t in tokens && tokens[t].vaultPk == pk
    ensures Removed(tokens, pk, ids) == ids
  {
    if ids != [] {
      var front, last := ids[..|ids| - 1], ids[|ids| - 1];
      assert last !in front;
      assert ids == front + [last];
      DistinctIsKept(tokens, pk, front);
    }
  }

  /** The same for a rotation: the lenient replay leaves exactly what the strict path left. */
  lemma RotationIsExact(db: Db, pk: nat, r: RotationRequest, ctx: Ctx, hook: bool)
    requires Inv(db)
    ensures var o := ApplyRotation(db, pk, r, ctx, hook);
            if o.journaled == [] then o.db == db
            else |o.journaled| == 1 && Replay(db, o.journaled[0]).db == o.db && Admissible(db, o.journaled[0])
  {
    hide Inv, Rotated, LoadById, StrictlyAccepted, Applicable;
    LoadVaultOk(db, pk);
    if pk in db.vaults {
      LoadByIdOk(db, pk, db.vaults[pk].id);
      if ApplyRotation(db, pk, r, ctx, hook).journaled != [] {
        RotatedMeansSeparated(db, pk, r, ctx);
        StrictIsApplicable(db, pk, r);
        assert Ctx(ctx.actor, ctx.now) == ctx;
        assert r.fromGeneration == db.vaults[pk].generation;
        forall qk | Named(db, qk, db.vaults[pk].id)
          ensures Applicable(db, qk, r)
        {
          LoadByIdOk(db, qk, db.vaults[pk].id);
        }
      }
    }
  }

  lemma DeletionIsExact(db: Db, pk: nat, now: int, hook: bool)
    requires Inv(db)
    ensures var o := DeleteVault(db, pk, now, hook);
            if o.journaled == [] then o.db == db
            else |o.journaled| == 1 && Replay(db, o.journaled[0]).db == o.db && Admissible(db, o.journaled[0])
  {
    hide VaultOk, WithoutVault, TokensOk;
    LoadVaultOk(db, pk);
    if pk in db.vaults {
      assert Named(db, pk, db.vaults[pk].id);
    }
  }

  /** Write-ahead exactness, for every call: it journals nothing, or it journals one record whose replay
  onto the state it started from gives the very state the commit gives. */
  lemma JournaledIsExact(db: Db, op: Op)
    requires Inv(db)
    ensures var e := Step(db, op);
            e.journaled != [] ==>
              |e.journaled| == 1 && Admissible(db, e.journaled[0]) && Replay(db, e.journaled[0]).db == e.db
  {
    hide Inv, Replay, Admissible, RevokeTokens, ApplyRotation, DeleteVault;
    match op
    case Revoke(pk, ids, reported, ctx, hook) => RevocationIsExact(db, pk, ids, reported, ctx, hook);
    case Rotate(pk, r, ctx, hook) => RotationIsExact(db, pk, r, ctx, hook);
    case Drop(pk, now, hook) => DeletionIsExact(db, pk, now, hook);
    case _ =>
  }

  /** A failed journal write changes nothing. */
  lemma FailedHookChangesNothing(db: Db, op: Op)
    requires Inv(db)
    requires (op.Revoke? && !op.hook) || (op.Rotate? && !op.hook) || (op.Drop? && !op.hook)
    ensures Step(db, op) == Effect(db, [])
  {
    hide Inv, Revoked, Rotated, StrictlyAccepted, WithoutVault, Removed;
  }

  /** Replaying a record a second time changes nothing. */
  lemma ReplayIsIdempotent(db: Db, record: JournalRecord)
    requires Replay(db, record).answer.Ok?
    ensures Replay(Replay(db, record).db, record) == Outcome(Replay(db, record).db, Ok(false), [])
  {
    hide ReplayOp;
    if record.seqNo > db.lastApplied {
      ReplayOpAnswers(db, record);
    }
  }

  lemma ReplayOpAnswers(db: Db, record: JournalRecord)
    ensures ReplayOp(db, record).Ok? ==> ReplayOp(db, record).value.answer.Ok?
  {
    hide Revoked, Rotated, LoadById, WithoutVault, Removed;
  }

  /** Replaying an admissible record always succeeds, keeps the invariant and moves the counter to it. */
  lemma ReplayInv(db: Db, record: JournalRecord)
    requires Inv(db) && Admissible(db, record)
    ensures Replay(db, record).answer.Ok? && Inv(Replay(db, record).db)
    ensures Replay(db, record).db.lastApplied == record.seqNo
  {
    hide Inv, Revoked, Rotated, LoadById, WithoutVault, Removed, Applicable;
    match record.op {
      case Revocation(id, ids, actor, reported) =>
        LoadByIdOk(db, 0, id);
        if LoadById(db, id).Some? {
          var pk := LoadById(db, id).value;
          RevokedInv(db, pk, Removed(db.tokens, pk, ids), actor, reported, record.ts);
        }
      case Rotation(id, actor, request) =>
        LoadByIdOk(db, 0, id);
        if LoadById(db, id).Some? {
          RotatedInv(db, LoadById(db, id).value, request, Ctx(actor, record.ts));
        }
      case Deletion(id) =>
        forall pk {
          WithoutVaultInv(db, pk);
        }
    }
    var done := ReplayOp(db, record);
    assert done.Ok? && Inv(done.value.tx);
    CounterInv(done.value.tx, done.value.tx.spent, record.seqNo);
  }

  // ------------------------------------------------------------ what a restored state shares with the live one

  /** Two states of one vault that agree on everything a journal record carries. */
  ghost predicate SameKeys(v: Vault, u: Vault) {
    && v.id == u.id && v.ownerSignPub == u.ownerSignPub && v.ownerBoxPub == u.ownerBoxPub
    && v.createdAt == u.createdAt
    && v.generation == u.generation
    && v.descriptors == u.descriptors
    && v.ownerBundle == u.ownerBundle
  }

  /** `past` holds only vaults `live` has, at the live generation and keys, and only tokens `live` has,
  with the very rows it has for them. */
  ghost predicate Remnant(live: Db, past: Db) {
    && live.lastApplied == past.lastApplied
    && (forall pk :: pk in past.vaults ==> pk in live.vaults && SameKeys(live.vaults[pk], past.vaults[pk]))
    && (forall t :: t in past.tokens ==> t in live.tokens && live.tokens[t] == past.tokens[t])
  }

  lemma RemnantTransitive(a: Db, b: Db, c: Db)
    requires Remnant(a, b) && Remnant(b, c)
    ensures Remnant(a, c)
  {
  }

  /** Replacing one vault by one with the same keys leaves the old state a remnant. */
  lemma WithVaultRemnant(db: Db, pk: nat, v: Vault)
    requires pk in db.vaults && SameKeys(v, db.vaults[pk])
    ensures Remnant(WithVault(db, pk, v), db)
  {
  }

  lemma {:induction false} AppendAllSameKeys(v: Vault, events: seq<AuditEvent>, now: int)
    ensures AppendAll(v, events, now).Ok? ==> SameKeys(AppendAll(v, events, now).value, v)
  {
    if events != [] {
      AppendAllSameKeys(v, events[..|events| - 1], now);
    }
  }

  /** Auditing a change that keeps the keys leaves the state before it a remnant. */
  lemma AppendedRemnant(db: Db, pk: nat, v: Vault, e: AuditEvent, now: int)
    requires pk in db.vaults && SameKeys(v, db.vaults[pk])
    ensures AppendAudit(v, e, now).Ok? ==> Remnant(WithVault(db, pk, AppendAudit(v, e, now).value), db)
  {
  }

  lemma RefuseRemnant<T>(db: Db, pk: nat, e: AuditEvent, now: int, error: StoreError)
    requires pk in db.vaults
    ensures var r: Result<Done<T>, StoreError> := Refuse(db, pk, db.vaults[pk], e, now, error);
            r.Ok? ==> Remnant(r.value.tx, db)
  {
    AppendedRemnant(db, pk, db.vaults[pk], e, now);
  }

  lemma StoredRemnant(db: Db, pk: nat, kind: RecordKind, name: NameHmac, version: nat, row: VersionRow, max: nat,
                      total: nat, e: AuditEvent, now: int)
    requires pk in db.vaults
    ensures var s := Stored(db.vaults[pk], kind, name, version, row, max, total);
            s.Ok? && AppendAudit(s.value, e, now).Ok? ==>
              Remnant(WithVault(db, pk, AppendAudit(s.value, e, now).value), db)
  {
    hide Remnant, AppendAudit, Written, Prunable;
    var s := Stored(db.vaults[pk], kind, name, version, row, max, total);
    if s.Ok? {
      AppendedRemnant(db, pk, s.value, e, now);
    }
  }

  lemma PutRemnant(db: Db, pk: nat, kind: RecordKind, name: NameHmac, pre: Precondition, w: RecordWrite,
                   ctx: Ctx, limits: Limits)
    ensures Remnant(PutRecord(db, pk, kind, name, pre, w, ctx, limits).db, db)
  {
    hide Remnant, AppendAudit, Stored, Assigned, LiveNames, FreedBy, Vault.Records, Vault.HeadOf, Refuse, WithVault;
    assert Remnant(db, db) by { RemnantReflexive(db); }
    if pk in db.vaults && w.valueCt.Some? {
      var v := db.vaults[pk];
      forall error: StoreError {
        RefuseRemnant<nat>(db, pk, Event(ctx.actor, PutAction(kind), Some(name), None, Refused), ctx.now, error);
      }
      var slot := Assigned(pre, v.HeadOf(kind, name));
      var row := WrittenRow(w, ctx.actor);
      var total := v.bytesUsed + RowBytes(row) - FreedBy(v.Records(kind), name, limits.Versions(kind));
      if slot.Ok? && total >= 0 {
        StoredRemnant(db, pk, kind, name, slot.value, row, limits.Versions(kind), total,
          WriteEvent(ctx.actor, PutAction(kind), Some(name), slot.value, Some(ValueHash(w.valueCt))), ctx.now);
      }
    }
  }

  lemma DeleteRemnant(db: Db, pk: nat, kind: RecordKind, name: NameHmac, ifMatch: nat, w: RecordWrite,
                      ctx: Ctx, limits: Limits)
    ensures Remnant(DeleteRecord(db, pk, kind, name, ifMatch, w, ctx, limits).db, db)
  {
    hide Remnant, AppendAudit, Stored, FreedBy, Vault.Records, Vault.HeadOf, Refuse, WithVault;
    assert Remnant(db, db) by { RemnantReflexive(db); }
    if pk in db.vaults {
      var v := db.vaults[pk];
      forall error: StoreError {
        RefuseRemnant<nat>(db, pk, Event(ctx.actor, DeleteAction(kind), Some(name), None, Refused), ctx.now, error);
      }
      if v.HeadOf(kind, name).Some? {
        var next := v.HeadOf(kind, name).value.version + 1;
        var spent, freed := v.bytesUsed + |w.nameCt|, FreedBy(v.Records(kind), name, limits.Versions(kind));
        var e := WriteEvent(ctx.actor, DeleteAction(kind), Some(name), next, None);
        var row, max := WrittenRow(w, ctx.actor), limits.Versions(kind);
        if spent < freed {
          StoredRemnant(db, pk, kind, name, next, row, max, 0, e, ctx.now);
        } else {
          StoredRemnant(db, pk, kind, name, next, row, max, spent - freed, e, ctx.now);
        }
      }
    }
  }

  lemma RemnantReflexive(db: Db)
    ensures Remnant(db, db)
  {
  }

  lemma ChildrenRemnant(db: Db, pk: nat, pre: Precondition, blob: ChildrenBlob, ctx: Ctx, limits: Limits)
    ensures Remnant(PutChildren(db, pk, pre, blob, ctx, limits).db, db)
  {
    hide Remnant, AppendAudit, AssignedChildren, Refuse, WithVault;
    assert Remnant(db, db) by { RemnantReflexive(db); }
    if pk in db.vaults {
      forall error: StoreError {
        RefuseRemnant<nat>(db, pk, Event(ctx.actor, ChildrenWrite, None, None, Refused), ctx.now, error);
      }
      AppendedRemnant(db, pk, db.vaults[pk].(children := Some(blob)),
        WriteEvent(ctx.actor, ChildrenWrite, None, blob.version, Some(Sha256(blob.ct))), ctx.now);
    }
  }

  lemma MintRemnant(db: Db, pk: nat, t: NewToken, ctx: Ctx, limits: Limits)
    ensures Remnant(RegisterToken(db, pk, t, ctx, limits).db, db)
  {
    hide AppendAudit, ActiveTokens, SameKeys, Refuse;
    assert forall v: Vault :: SameKeys(v, v) by { SameKeysReflexive(); }
    if pk in db.vaults {
      forall error: StoreError {
        RefuseRemnant<TokenRow>(db, pk, Event(ctx.actor, TokenMint, None, Some(t.id), Refused), ctx.now, error);
      }
      var v := db.vaults[pk];
      var v1 := v.(revision := v.revision + 1);
      assert SameKeys(v1, v) by { RevisionIsNoKey(v); }
      AppendedRemnant(db, pk, v1, Event(ctx.actor, TokenMint, None, Some(t.id), Success), ctx.now);
    }
  }

  lemma SameKeysReflexive()
    ensures forall v: Vault :: SameKeys(v, v)
  {
  }

  lemma RevisionIsNoKey(v: Vault)
    ensures SameKeys(v.(revision := v.revision + 1), v)
  {
  }

  /** A call that journals nothing only ever adds: every vault keeps its keys and every token its row. */
  lemma QuietStepsOnlyAdd(db: Db, op: Op)
    requires Inv(db) && Step(db, op).journaled == []
    ensures Remnant(Step(db, op).db, db)
  {
    hide Inv, Remnant, RevokeTokens, PutRecord, DeleteRecord, PutChildren, ApplyRotation, DeleteVault, RegisterToken,
         AppendAudit, NextPk;
    assert Remnant(db, db) by { RemnantReflexive(db); }
    match op
    case Create(v, now) =>
      NextPkIsFree(db);
      assert Remnant(CreateVault(db, v, now).db, db) by { CreateRemnant(db, v, now); }
    case KeepAlive(pk, now) =>
      if pk in db.vaults {
        WithVaultRemnant(db, pk, db.vaults[pk].(lastActiveAt := now));
      }
    case Mint(pk, t, ctx, limits) => MintRemnant(db, pk, t, ctx, limits);
    case Revoke(pk, ids, reported, ctx, hook) => RevocationIsExact(db, pk, ids, reported, ctx, hook);
    case Put(pk, kind, name, pre, w, ctx, limits) => PutRemnant(db, pk, kind, name, pre, w, ctx, limits);
    case Delete(pk, kind, name, x, w, ctx, limits) => DeleteRemnant(db, pk, kind, name, x, w, ctx, limits);
    case WriteChildren(pk, pre, blob, ctx, limits) => ChildrenRemnant(db, pk, pre, blob, ctx, limits);
    case Note(pk, e, now) =>
      if pk in db.vaults {
        AppendedRemnant(db, pk, db.vaults[pk], e, now);
      }
    case Rotate(pk, r, ctx, hook) => RotationIsExact(db, pk, r, ctx, hook);
    case Drop(pk, now, hook) => DeletionIsExact(db, pk, now, hook);
    case UseOnce(key, e, now) => SpendRemnant(db, key, e, now);
  }

  lemma SpendRemnant(db: Db, key: SpentKey, expiresAt: int, now: int)
    ensures Remnant(Spend(db, key, expiresAt, now).db, db)
  {
  }

  lemma CreateRemnant(db: Db, v: NewVault, now: int)
    ensures Remnant(CreateVault(db, v, now).db, db)
  {
    hide NextPk, AppendAudit;
    NextPkIsFree(db);
  }
}
