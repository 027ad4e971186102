/** A vault's children record: what a write of it leaves, and that it is a compare-and-swap on the stored
version. */
module ChildrenWrites {
  import opened Types
  import opened Database
  import opened Invariant
  import opened Effects
  import Audit
  import Recovery
  import Rotations
  import Tables

  /** The version stored, if there is a record. */
  function StoredVersion(v: Vault): Option<nat> {
    match v.children case None => None case Some(blob) => Some(blob.version)
  }

  /** What a precondition says is stored. */
  function Named(pre: Precondition): Option<nat> {
    match pre case IfNoneMatch => None case IfMatch(x) => Some(x)
  }

  function Successor(stored: Option<nat>): nat {
    match stored case None => 1 case Some(n) => n + 1
  }

  ghost predicate Acceptable(v: Vault, pre: Precondition, blob: ChildrenBlob, limits: Limits) {
    && StoredVersion(v) == Named(pre) && blob.version == Successor(StoredVersion(v))
    && |blob.ct| <= limits.maxConfigBytes
  }

  /** Each cause of refusal by its own name, and before those after it. */
  function Answer(stored: Option<nat>, pre: Precondition, blob: ChildrenBlob, limits: Limits)
    : Result<nat, StoreError>
  {
    if |blob.ct| > limits.maxConfigBytes then Err(QuotaExceeded(ValueSize))
    else if stored != Named(pre) then Err(PreconditionFailed(stored))
    else if blob.version != Successor(stored) then Err(VersionMismatch(blob.version, Successor(stored)))
    else Ok(blob.version)
  }

  /** A children write is accepted exactly when what is stored is what it names, it signs the version after
  that, and it is small enough; the record is then the one sent, and nothing else has changed. */
  lemma ChildrenStores(db: Db, pk: nat, pre: Precondition, blob: ChildrenBlob, ctx: Ctx, limits: Limits)
    requires Inv(db) && pk in db.vaults
    ensures var o := PutChildren(db, pk, pre, blob, ctx, limits);
            && (o.answer.Ok? <==> Acceptable(db.vaults[pk], pre, blob, limits))
            && o.answer == Answer(StoredVersion(db.vaults[pk]), pre, blob, limits)
            && OnlyVault(db, o.db, pk) && o.db.tokens == db.tokens && o.db.lastApplied == db.lastApplied
            && o.journaled == []
            && var v, v' := db.vaults[pk], o.db.vaults[pk];
               && SameIdentity(v, v') && SameKeys(v, v') && SameRecords(v, v') && v'.revision == v.revision
               && v'.children == (if o.answer.Ok? then Some(blob) else v.children)
               && (o.answer.Ok? ==>
                     && o.answer.value == blob.version
                     && Logged(v, v', ctx.now,
                               AuditEvent(ctx.actor, ChildrenWrite, None, None, Success, blob.version,
                                          Some(Sha256(blob.ct)))))
  {
    hide Inv, Chain, RecordsOk, AppendAudit, Logged, Refuse, OnlyRefused, WithVault;
    LoadVaultOk(db, pk);
    VaultIsOk(db, pk);
    var v := db.vaults[pk];
    RefuseSays<nat>(db, pk, Event(ctx.actor, ChildrenWrite, None, None, Refused), ctx.now);
    var e := WriteEvent(ctx.actor, ChildrenWrite, None, blob.version, Some(Sha256(blob.ct)));
    AppendLogs(v.(children := Some(blob)), e, ctx.now);
    WrittenAlone(db, pk, blob, e, ctx.now);
    var o := PutChildren(db, pk, pre, blob, ctx, limits);
    if o.answer.Err? {
      RefusedChildrenSays(db, pk, pre, blob, ctx, limits);
      RefusedAlone(db, o.db, pk, ctx.now, AuditEvent(ctx.actor, ChildrenWrite, None, None, Refused, 0, None));
    }
  }

  lemma WrittenAlone(db: Db, pk: nat, blob: ChildrenBlob, e: AuditEvent, now: int)
    requires pk in db.vaults && ChainOk(db.vaults[pk])
    ensures var u := AppendAudit(db.vaults[pk].(children := Some(blob)), e, now);
            && u.Ok?
            && var db' := WithVault(db, pk, u.value);
               && OnlyVault(db, db', pk) && db'.tokens == db.tokens && db'.lastApplied == db.lastApplied
               && var v, v' := db.vaults[pk], db'.vaults[pk];
                  && SameIdentity(v, v') && SameKeys(v, v') && SameRecords(v, v') && v'.revision == v.revision
                  && v'.children == Some(blob) && Logged(v, v', now, e)
  {
    hide LinkOk;
    AppendLogs(db.vaults[pk].(children := Some(blob)), e, now);
  }

  lemma RefusedAlone(db: Db, db': Db, pk: nat, ts: int, e: AuditEvent)
    requires OnlyRefused(db, db', pk, ts, e)
    ensures OnlyVault(db, db', pk) && db'.tokens == db.tokens && db'.lastApplied == db.lastApplied
    ensures var v, v' := db.vaults[pk], db'.vaults[pk];
            && SameIdentity(v, v') && SameKeys(v, v') && SameRecords(v, v') && v'.revision == v.revision
            && v'.children == v.children
  {
    hide Logged;
  }

  // ------------------------------------------------------------ over runs

  /** The call wrote the vault's children record. */
  ghost predicate Wrote(db: Db, op: Recovery.Op, pk: nat) {
    op.WriteChildren? && op.pk == pk && PutChildren(db, op.pk, op.pre, op.blob, op.ctx, op.limits).answer.Ok?
  }

  ghost predicate Touched(db: Db, ops: seq<Recovery.Op>, pk: nat) {
    exists i :: 0 <= i < |ops| && Wrote(Recovery.Run(db, ops[..i]), ops[i], pk)
  }

  /** No vault that stays has another children record. */
  ghost predicate Same(db: Db, db': Db) {
    forall pk :: pk in db.vaults && pk in db'.vaults ==> db'.vaults[pk].children == db.vaults[pk].children
  }

  lemma {:induction false} AppendAllSame(v: Vault, es: seq<AuditEvent>, now: int)
    ensures AppendAll(v, es, now).Ok? ==> AppendAll(v, es, now).value.children == v.children
  {
    if es != [] {
      AppendAllSame(v, es[..|es| - 1], now);
    }
  }

  lemma AppendSame(db: Db, pk: nat, v: Vault, e: AuditEvent, now: int)
    requires pk in db.vaults && v.children == db.vaults[pk].children
    ensures AppendAudit(v, e, now).Ok? ==> Same(db, WithVault(db, pk, AppendAudit(v, e, now).value))
  {
  }

  lemma RefuseSame<T>(db: Db, pk: nat, e: AuditEvent, now: int)
    requires pk in db.vaults
    ensures forall error :: (var r: Result<Done<T>, StoreError> := Refuse(db, pk, db.vaults[pk], e, now, error);
              r.Ok? ==> Same(db, r.value.tx))
  {
    hide Same, AppendAudit, WithVault;
    AppendSame(db, pk, db.vaults[pk], e, now);
  }

  lemma StoredSame(db: Db, pk: nat, kind: RecordKind, name: NameHmac, version: nat, row: Tables.VersionRow, max: nat,
                   total: nat, e: AuditEvent, now: int)
    requires pk in db.vaults
    ensures var s := Stored(db.vaults[pk], kind, name, version, row, max, total);
            s.Ok? && AppendAudit(s.value, e, now).Ok? ==>
              Same(db, WithVault(db, pk, AppendAudit(s.value, e, now).value))
  {
    hide Same, AppendAudit, Tables.Written, Tables.Prunable, WithVault;
    var s := Stored(db.vaults[pk], kind, name, version, row, max, total);
    if s.Ok? {
      AppendSame(db, pk, s.value, e, now);
    }
  }

  lemma PutSame(db: Db, pk: nat, kind: RecordKind, name: NameHmac, pre: Precondition, w: RecordWrite, ctx: Ctx,
                limits: Limits)
    ensures Same(db, PutRecord(db, pk, kind, name, pre, w, ctx, limits).db)
  {
    hide AppendAudit, Stored, LiveNames, FreedBy, Vault.Records, Vault.HeadOf, Refuse, WithVault, Assigned;
    if pk in db.vaults && w.valueCt.Some? {
      var v := db.vaults[pk];
      RefuseSame<nat>(db, pk, Event(ctx.actor, PutAction(kind), Some(name), None, Refused), ctx.now);
      var slot, row := Assigned(pre, v.HeadOf(kind, name)), WrittenRow(w, ctx.actor);
      var total := v.bytesUsed + Tables.RowBytes(row) - FreedBy(v.Records(kind), name, limits.Versions(kind));
      if slot.Ok? && total >= 0 {
        StoredSame(db, pk, kind, name, slot.value, row, limits.Versions(kind), total,
          WriteEvent(ctx.actor, PutAction(kind), Some(name), slot.value, Some(ValueHash(w.valueCt))), ctx.now);
      }
    }
  }

  lemma DeleteSame(db: Db, pk: nat, kind: RecordKind, name: NameHmac, x: nat, w: RecordWrite, ctx: Ctx, limits: Limits)
    ensures Same(db, DeleteRecord(db, pk, kind, name, x, w, ctx, limits).db)
  {
    hide AppendAudit, Stored, FreedBy, Vault.Records, Vault.HeadOf, Refuse, WithVault;
    if pk in db.vaults {
      var v := db.vaults[pk];
      RefuseSame<nat>(db, pk, Event(ctx.actor, DeleteAction(kind), Some(name), None, Refused), ctx.now);
      if v.HeadOf(kind, name).Some? {
        var next: nat := v.HeadOf(kind, name).value.version + 1;
        var spent, freed := v.bytesUsed + |w.nameCt|, FreedBy(v.Records(kind), name, limits.Versions(kind));
        StoredSame(db, pk, kind, name, next, WrittenRow(w, ctx.actor), limits.Versions(kind),
          if spent < freed then 0 else spent - freed,
          WriteEvent(ctx.actor, DeleteAction(kind), Some(name), next, None), ctx.now);
      }
    }
  }

  lemma RotateSame(db: Db, pk: nat, r: RotationRequest, ctx: Ctx, hook: bool)
    ensures Same(db, ApplyRotation(db, pk, r, ctx, hook).db)
  {
    hide AppendAll, Rotations.Rebuilt, Rotations.BatchBytes, Removed, Resealed, RotationEvents, Without,
         StrictlyAccepted, Rotations.Separated;
    if pk in db.vaults {
      AppendAllSame(RotatedVault(db.vaults[pk], r, ctx.actor),
                    RotationEvents(r, Removed(db.tokens, pk, r.revoke), ctx.actor), ctx.now);
    }
  }

  lemma RevokeSame(db: Db, pk: nat, ids: seq<TokenId>, reported: bool, ctx: Ctx, hook: bool)
    ensures Same(db, RevokeTokens(db, pk, ids, reported, ctx, hook).db)
  {
    hide AppendAll, Removed, RevokeEvents, Without;
    if pk in db.vaults {
      AppendAllSame(db.vaults[pk].(revision := db.vaults[pk].revision + 1),
                    RevokeEvents(Removed(db.tokens, pk, ids), ctx.actor, reported), ctx.now);
    }
  }

  lemma MintSame(db: Db, pk: nat, t: NewToken, ctx: Ctx, limits: Limits)
    ensures Same(db, RegisterToken(db, pk, t, ctx, limits).db)
  {
    hide ActiveTokens;
  }

  lemma OthersSame(db: Db, op: Recovery.Op)
    requires Inv(db) && !op.WriteChildren?
    ensures Same(db, Recovery.Step(db, op).db)
  {
    hide Inv, PutRecord, DeleteRecord, ApplyRotation, RevokeTokens, RegisterToken, NextPk;
    match op
    case Create(_, _) => NextPkIsFree(db);
    case Put(pk, k, n, pre, w, ctx, limits) => PutSame(db, pk, k, n, pre, w, ctx, limits);
    case Delete(pk, k, n, x, w, ctx, limits) => DeleteSame(db, pk, k, n, x, w, ctx, limits);
    case Rotate(pk, r, ctx, hook) => RotateSame(db, pk, r, ctx, hook);
    case Revoke(pk, ids, reported, ctx, hook) => RevokeSame(db, pk, ids, reported, ctx, hook);
    case Mint(pk, t, ctx, limits) => MintSame(db, pk, t, ctx, limits);
    case _ =>
  }

  /** One call: the children record is as it was, or the call wrote it and the version is the next. */
  lemma StepChildren(db: Db, op: Recovery.Op, pk: nat)
    requires Inv(db) && pk in db.vaults && !(op.Drop? && op.pk == pk)
    ensures var db' := Recovery.Step(db, op).db;
            && pk in db'.vaults
            && (if Wrote(db, op, pk)
                then StoredVersion(db'.vaults[pk]) == Some(Successor(StoredVersion(db.vaults[pk])))
                else db'.vaults[pk].children == db.vaults[pk].children)
  {
    hide Inv, PutChildren, Acceptable, SameIdentity, SameKeys, SameRecords, Logged;
    if op.WriteChildren? {
      WriteSteps(db, op, pk);
    } else {
      Audit.StepGrew(db, op, pk);
      OthersSame(db, op);
    }
  }

  lemma WriteSteps(db: Db, op: Recovery.Op, pk: nat)
    requires Inv(db) && pk in db.vaults && op.WriteChildren?
    ensures var db' := Recovery.Step(db, op).db;
            && pk in db'.vaults
            && (if Wrote(db, op, pk)
                then StoredVersion(db'.vaults[pk]) == Some(Successor(StoredVersion(db.vaults[pk])))
                else db'.vaults[pk].children == db.vaults[pk].children)
  {
    hide Inv, PutChildren, SameIdentity, SameKeys, SameRecords, Logged;
    if op.pk in db.vaults {
      ChildrenStores(db, op.pk, op.pre, op.blob, op.ctx, op.limits);
    } else {
      NoVault(db, op);
    }
  }

  lemma NoVault(db: Db, op: Recovery.Op)
    requires op.WriteChildren? && op.pk !in db.vaults
    ensures Recovery.Step(db, op).db == db
  {
  }

  lemma TouchedSplit(db: Db, ops: seq<Recovery.Op>, pk: nat)
    requires ops != []
    ensures var front, last := ops[..|ops| - 1], ops[|ops| - 1];
            Touched(db, ops, pk) <==> Touched(db, front, pk) || Wrote(Recovery.Run(db, front), last, pk)
  {
    hide Wrote, Recovery.Run;
    var front, last := ops[..|ops| - 1], ops[|ops| - 1];
    assert forall i :: 0 <= i < |front| ==> front[..i] == ops[..i] && front[i] == ops[i];
    if Wrote(Recovery.Run(db, front), last, pk) {
      assert ops[..|ops| - 1] == front;
    }
  }

  /** Over every run that leaves the vault in place, the stored version never falls: it is strictly higher if
  some call wrote the record, and the record is the very same if none did. */
  lemma {:induction false} RunChildren(db: Db, ops: seq<Recovery.Op>, pk: nat)
    requires Inv(db) && pk in db.vaults && Recovery.Spares(ops, pk)
    ensures var db' := Recovery.Run(db, ops);
            && Inv(db') && pk in db'.vaults
            && (if Touched(db, ops, pk)
                then Higher(StoredVersion(db.vaults[pk]), StoredVersion(db'.vaults[pk]))
                else db'.vaults[pk].children == db.vaults[pk].children)
    decreases |ops|
  {
    hide Inv, Recovery.Step, Wrote;
    if ops != [] {
      var front, last := ops[..|ops| - 1], ops[|ops| - 1];
      RunChildren(db, front, pk);
      TouchedSplit(db, ops, pk);
      var mid := Recovery.Run(db, front);
      Recovery.StepInv(mid, last);
      StepChildren(mid, last, pk);
    }
  }

  ghost predicate Higher(a: Option<nat>, b: Option<nat>) {
    b.Some? && (a.None? || a.value < b.value)
  }

  /** A write computed from what was stored at some moment and sent after any run of other calls that leaves
  the vault in place: it fails if some call in between wrote the record, and is accepted, if it is small
  enough, when none did. */
  lemma WinsExactlyIfUntouched(db: Db, pk: nat, ops: seq<Recovery.Op>, pre: Precondition, blob: ChildrenBlob, ctx: Ctx,
                               limits: Limits)
    requires Inv(db) && pk in db.vaults && Recovery.Spares(ops, pk)
    requires StoredVersion(db.vaults[pk]) == Named(pre) && blob.version == Successor(Named(pre))
    ensures PutChildren(Recovery.Run(db, ops), pk, pre, blob, ctx, limits).answer.Ok? <==>
              !Touched(db, ops, pk) && |blob.ct| <= limits.maxConfigBytes
  {
    hide Inv, Recovery.Run, Touched, PutChildren, SameIdentity, SameKeys, SameRecords, Logged;
    RunChildren(db, ops, pk);
    ChildrenStores(Recovery.Run(db, ops), pk, pre, blob, ctx, limits);
  }

  /** So of two writers that start from one version at most one wins. */
  lemma AtMostOneWins(db: Db, pk: nat, pre: Precondition, first: ChildrenBlob, ctx: Ctx, limits: Limits,
                      between: seq<Recovery.Op>, second: ChildrenBlob, ctx': Ctx, limits': Limits)
    requires Inv(db) && pk in db.vaults && Recovery.Spares(between, pk)
    requires PutChildren(db, pk, pre, first, ctx, limits).answer.Ok?
    ensures var db' := Recovery.Run(PutChildren(db, pk, pre, first, ctx, limits).db, between);
            PutChildren(db', pk, pre, second, ctx', limits').answer.Err?
  {
    hide Inv, Recovery.Run, Touched, PutChildren, SameIdentity, SameKeys, SameRecords, Logged;
    ChildrenStores(db, pk, pre, first, ctx, limits);
    PutChildrenInv(db, pk, pre, first, ctx, limits);
    var db1 := PutChildren(db, pk, pre, first, ctx, limits).db;
    RunChildren(db1, between, pk);
    ChildrenStores(Recovery.Run(db1, between), pk, pre, second, ctx', limits');
  }
}
