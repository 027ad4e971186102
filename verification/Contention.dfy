/** When exactly a write loses: every call there is, weighed by whether it wrote the name in between. */
module Contention {
  import opened Types
  import opened Tables
  import opened Database
  import opened Invariant
  import opened CompareAndSwap
  import Audit
  import Copying
  import Recovery
  import Regularity

  /** The call succeeded in writing the name: a create, an update, a delete or a revival, or a rotation,
  which writes every name of the vault again under new keys. */
  ghost predicate Wrote(db: Db, op: Recovery.Op, pk: nat, kind: RecordKind, name: NameHmac) {
    match op
    case Put(qk, k, n, pre, w, ctx, limits) =>
      qk == pk && k == kind && n == name && PutRecord(db, qk, k, n, pre, w, ctx, limits).answer.Ok?
    case Delete(qk, k, n, x, w, ctx, limits) =>
      qk == pk && k == kind && n == name && DeleteRecord(db, qk, k, n, x, w, ctx, limits).answer.Ok?
    case Rotate(qk, r, ctx, hook) => qk == pk && ApplyRotation(db, qk, r, ctx, hook).answer.Ok?
    case _ => false
  }

  /** Some call of the run wrote the name. */
  ghost predicate Touched(db: Db, ops: seq<Recovery.Op>, pk: nat, kind: RecordKind, name: NameHmac) {
    exists i :: 0 <= i < |ops| && Wrote(Recovery.Run(db, ops[..i]), ops[i], pk, kind, name)
  }

  /** The vault is there, at the same generation and with the same head of the name. */
  ghost predicate SameHead(db: Db, db': Db, pk: nat, kind: RecordKind, name: NameHmac) {
    && pk in db.vaults && pk in db'.vaults
    && db'.vaults[pk].generation == db.vaults[pk].generation
    && db'.vaults[pk].HeadOf(kind, name) == db.vaults[pk].HeadOf(kind, name)
  }

  // ------------------------------------------------------------ calls that write elsewhere or nothing

  ghost predicate Kept(v: Vault, v': Vault) {
    v'.secrets == v.secrets && v'.configs == v.configs && v'.generation == v.generation
  }

  /** No vault goes, and none's records or generation change. */
  ghost predicate AllKept(db: Db, db': Db) {
    forall pk :: pk in db.vaults ==> pk in db'.vaults && Kept(db.vaults[pk], db'.vaults[pk])
  }

  lemma KeptIsSameHead(db: Db, db': Db, pk: nat, kind: RecordKind, name: NameHmac)
    requires AllKept(db, db') && pk in db.vaults
    ensures SameHead(db, db', pk, kind, name)
  {
  }

  lemma AppendedIsKept(db: Db, pk: nat, v: Vault, e: AuditEvent, now: int)
    requires pk in db.vaults && Kept(db.vaults[pk], v)
    ensures AppendAudit(v, e, now).Ok? ==> AllKept(db, WithVault(db, pk, AppendAudit(v, e, now).value))
  {
  }

  lemma RefuseIsKept<T>(db: Db, pk: nat, e: AuditEvent, now: int, error: StoreError)
    requires pk in db.vaults
    ensures var r: Result<Done<T>, StoreError> := Refuse(db, pk, db.vaults[pk], e, now, error);
            r.Ok? ==> AllKept(db, r.value.tx)
  {
    hide AllKept, AppendAudit, WithVault;
    AppendedIsKept(db, pk, db.vaults[pk], e, now);
  }

  lemma MintIsKept(db: Db, pk: nat, t: NewToken, ctx: Ctx, limits: Limits)
    ensures AllKept(db, RegisterToken(db, pk, t, ctx, limits).db)
  {
    hide AppendAudit, ActiveTokens, Refuse;
    if pk in db.vaults {
      forall error: StoreError {
        RefuseIsKept<TokenRow>(db, pk, Event(ctx.actor, TokenMint, None, Some(t.id), Refused), ctx.now, error);
      }
      AppendedIsKept(db, pk, db.vaults[pk].(revision := db.vaults[pk].revision + 1),
        Event(ctx.actor, TokenMint, None, Some(t.id), Success), ctx.now);
    }
  }

  lemma ChildrenAreKept(db: Db, pk: nat, pre: Precondition, blob: ChildrenBlob, ctx: Ctx, limits: Limits)
    ensures AllKept(db, PutChildren(db, pk, pre, blob, ctx, limits).db)
  {
    hide AppendAudit, AssignedChildren, Refuse, WithVault;
    if pk in db.vaults {
      forall error: StoreError {
        RefuseIsKept<nat>(db, pk, Event(ctx.actor, ChildrenWrite, None, None, Refused), ctx.now, error);
      }
      AppendedIsKept(db, pk, db.vaults[pk].(children := Some(blob)),
        WriteEvent(ctx.actor, ChildrenWrite, None, blob.version, Some(Sha256(blob.ct))), ctx.now);
    }
  }

  lemma RevokeIsKept(db: Db, pk: nat, ids: seq<TokenId>, reported: bool, ctx: Ctx, hook: bool)
    ensures AllKept(db, RevokeTokens(db, pk, ids, reported, ctx, hook).db)
  {
    hide AppendAll, Removed, RevokeEvents, Without;
    if pk in db.vaults {
      var v1 := db.vaults[pk].(revision := db.vaults[pk].revision + 1);
      var es := RevokeEvents(Removed(db.tokens, pk, ids), ctx.actor, reported);
      Regularity.AppendAllTables(v1, es, ctx.now);
      Recovery.AppendAllSameKeys(v1, es, ctx.now);
    }
  }

  /** A refused row changes no head. */
  lemma RefusedRowIsKept(db: Db, db': Db, pk: nat)
    requires Audit.OnlyARefusedRow(db, db', pk)
    ensures AllKept(db, db')
  {
  }

  lemma WriteElsewhere(db: Db, db': Db, qk: nat, k: RecordKind, n: NameHmac, version: nat, row: VersionRow,
                       pruned: seq<nat>,
                       pk: nat, kind: RecordKind, name: NameHmac)
    requires pk in db.vaults && qk in db.vaults && !(qk == pk && k == kind && n == name)
    requires Copying.OnlyRecords(db, db', qk, k, Written(db.vaults[qk].Records(k), n, version, row, pruned))
    ensures SameHead(db, db', pk, kind, name)
  {
    hide KeysOf;
    assert db'.vaults[qk].Records(kind) ==
           if kind == k then Written(db.vaults[qk].Records(k), n, version, row,
               pruned) else db.vaults[qk].Records(kind);
  }

  lemma PutElsewhere(db: Db, op: Recovery.Op, pk: nat, kind: RecordKind, name: NameHmac)
    requires Inv(db) && pk in db.vaults && op.Put? && !Wrote(db, op, pk, kind, name)
    ensures SameHead(db, Recovery.Step(db, op).db, pk, kind, name)
  {
    hide Inv, PutRecord, Copying.OnlyRecords, Written, Prunable, Vault.HeadOf, AllKept, Audit.OnlyARefusedRow;
    var o := PutRecord(db, op.pk, op.kind, op.name, op.pre, op.write, op.ctx, op.limits);
    if o.answer.Ok? {
      Copying.PutWrites(db, op.pk, op.kind, op.name, op.pre, op.write, op.ctx, op.limits);
      var t := db.vaults[op.pk].Records(op.kind);
      WriteElsewhere(db, o.db, op.pk, op.kind, op.name, NextVersion(t, op.name), WrittenRow(op.write, op.ctx.actor),
                     Prunable(t, op.name, op.limits.Versions(op.kind)), pk, kind, name);
    } else {
      PutFails(db, op);
      KeptIsSameHead(db, o.db, pk, kind, name);
    }
  }

  lemma PutFails(db: Db, op: Recovery.Op)
    requires Inv(db) && op.Put?
    requires PutRecord(db, op.pk, op.kind, op.name, op.pre, op.write, op.ctx, op.limits).answer.Err?
    ensures AllKept(db, PutRecord(db, op.pk, op.kind, op.name, op.pre, op.write, op.ctx, op.limits).db)
  {
    hide Inv, Stored, AppendAudit, Refuse, FreedBy, LiveNames, Audit.OnlyARefusedRow;
    if op.pk in db.vaults && op.write.valueCt.Some? {
      hide PutRecord;
      Audit.RefusedPut(db, op.pk, op.kind, op.name, op.pre, op.write, op.ctx, op.limits);
      RefusedRowIsKept(db, PutRecord(db, op.pk, op.kind, op.name, op.pre, op.write, op.ctx, op.limits).db, op.pk);
    }
  }

  lemma DeleteElsewhere(db: Db, op: Recovery.Op, pk: nat, kind: RecordKind, name: NameHmac)
    requires Inv(db) && pk in db.vaults && op.Delete? && !Wrote(db, op, pk, kind, name)
    ensures SameHead(db, Recovery.Step(db, op).db, pk, kind, name)
  {
    hide Inv, DeleteRecord, Copying.OnlyRecords, Written, Prunable, Vault.HeadOf, AllKept, Audit.OnlyARefusedRow;
    var o := DeleteRecord(db, op.pk, op.kind, op.name, op.ifMatch, op.write, op.ctx, op.limits);
    if o.answer.Ok? {
      Copying.DeleteWrites(db, op.pk, op.kind, op.name, op.ifMatch, op.write, op.ctx, op.limits);
      var t := db.vaults[op.pk].Records(op.kind);
      WriteElsewhere(db, o.db, op.pk, op.kind, op.name, NextVersion(t, op.name), WrittenRow(op.write, op.ctx.actor),
                     Prunable(t, op.name, op.limits.Versions(op.kind)), pk, kind, name);
    } else {
      DeleteFails(db, op);
      KeptIsSameHead(db, o.db, pk, kind, name);
    }
  }

  lemma DeleteFails(db: Db, op: Recovery.Op)
    requires Inv(db) && op.Delete?
    requires DeleteRecord(db, op.pk, op.kind, op.name, op.ifMatch, op.write, op.ctx, op.limits).answer.Err?
    ensures AllKept(db, DeleteRecord(db, op.pk, op.kind, op.name, op.ifMatch, op.write, op.ctx, op.limits).db)
  {
    hide Inv, Stored, AppendAudit, Refuse, FreedBy, Audit.OnlyARefusedRow;
    if op.pk in db.vaults && op.write.valueCt.None? {
      hide DeleteRecord;
      Audit.RefusedDelete(db, op.pk, op.kind, op.name, op.ifMatch, op.write, op.ctx, op.limits);
      var o := DeleteRecord(db, op.pk, op.kind, op.name, op.ifMatch, op.write, op.ctx, op.limits);
      var head := db.vaults[op.pk].HeadOf(op.kind, op.name);
      if head.Some? && !head.value.tombstone {
        RefusedRowIsKept(db, o.db, op.pk);
      }
    }
  }

  lemma RotateElsewhere(db: Db, op: Recovery.Op, pk: nat, kind: RecordKind, name: NameHmac)
    requires Inv(db) && pk in db.vaults && op.Rotate? && !Wrote(db, op, pk, kind, name)
    ensures SameHead(db, Recovery.Step(db, op).db, pk, kind, name)
  {
    hide Inv, Rotated, StrictlyAccepted, Vault.HeadOf;
    LoadVaultOk(db, op.pk);
    if op.pk in db.vaults {
      RotatedElsewhereSame(db, op.pk, op.request, op.ctx);
    }
  }

  /** A call that does not write the name, and does not delete the vault, leaves the head where it is. */
  lemma StepKeepsHead(db: Db, op: Recovery.Op, pk: nat, kind: RecordKind, name: NameHmac)
    requires Inv(db) && pk in db.vaults && !(op.Drop? && op.pk == pk) && !Wrote(db, op, pk, kind, name)
    ensures SameHead(db, Recovery.Step(db, op).db, pk, kind, name)
  {
    hide Inv, Wrote, PutRecord, DeleteRecord, RevokeTokens, ApplyRotation, RegisterToken, PutChildren, AppendAudit,
         NextPk, Vault.HeadOf;
    match op {
      case Put(_, _, _, _, _, _, _) => PutElsewhere(db, op, pk, kind, name);
      case Delete(_, _, _, _, _, _, _) => DeleteElsewhere(db, op, pk, kind, name);
      case Rotate(_, _, _, _) => RotateElsewhere(db, op, pk, kind, name);
      case _ =>
        QuietIsKept(db, op, pk);
        TableIsSameHead(db, Recovery.Step(db, op).db, pk, kind, name);
    }
  }

  lemma TableIsSameHead(db: Db, db': Db, pk: nat, kind: RecordKind, name: NameHmac)
    requires pk in db.vaults && pk in db'.vaults && Kept(db.vaults[pk], db'.vaults[pk])
    ensures SameHead(db, db', pk, kind, name)
  {
  }

  lemma QuietIsKept(db: Db, op: Recovery.Op, pk: nat)
    requires Inv(db) && pk in db.vaults && !(op.Drop? && op.pk == pk)
    requires !op.Put? && !op.Delete? && !op.Rotate?
    ensures var db' := Recovery.Step(db, op).db; pk in db'.vaults && Kept(db.vaults[pk], db'.vaults[pk])
  {
    hide Inv, RevokeTokens, RegisterToken, PutChildren, AppendAudit, NextPk;
    match op {
      case Create(_, _) => NextPkIsFree(db);
      case Mint(qk, t, ctx, limits) => MintIsKept(db, qk, t, ctx, limits);
      case Revoke(qk, ids, reported, ctx, hook) => RevokeIsKept(db, qk, ids, reported, ctx, hook);
      case WriteChildren(qk, pre, blob, ctx, limits) => ChildrenAreKept(db, qk, pre, blob, ctx, limits);
      case Note(qk, e, now) =>
        if qk in db.vaults {
          AppendedIsKept(db, qk, db.vaults[qk], e, now);
        }
      case _ =>
    }
  }

  // ------------------------------------------------------------ whole runs

  /** A call that writes the name leaves it further on. */
  lemma WroteMovesOn(db: Db, op: Recovery.Op, pk: nat, kind: RecordKind, name: NameHmac)
    requires Inv(db) && Wrote(db, op, pk, kind, name)
    ensures var db' := Recovery.Step(db, op).db;
            pk in db.vaults && pk in db'.vaults && Past(db.vaults[pk], db'.vaults[pk], kind, name)
  {
    hide Inv, PutRecord, DeleteRecord, Vault.HeadOf, Rotated, StrictlyAccepted;
    match op {
      case Put(_, _, _, pre, w, ctx, limits) => PutMovesOn(db, pk, kind, name, pre, w, ctx, limits);
      case Delete(_, _, _, x, w, ctx, limits) => DeleteMovesOn(db, pk, kind, name, x, w, ctx, limits);
      case Rotate(_, r, ctx, hook) =>
        LoadVaultOk(db, pk);
        Regularity.RotatedContents(db, pk, r, ctx);
      case _ =>
    }
  }

  /** Over a run that leaves the vault in place, the name is further on if some call wrote it, and has the
  very same head and generation if none did. */
  lemma {:induction false} RunTouches(db: Db, ops: seq<Recovery.Op>, pk: nat, kind: RecordKind, name: NameHmac)
    requires Inv(db) && pk in db.vaults && Recovery.Spares(ops, pk)
    ensures var db' := Recovery.Run(db, ops);
            && Inv(db') && pk in db'.vaults
            && (if Touched(db, ops, pk, kind, name) then Past(db.vaults[pk], db'.vaults[pk], kind, name)
                else SameHead(db, db', pk, kind, name))
    decreases |ops|
  {
    hide Inv, Past, NotBefore, Recovery.Step, Wrote, Vault.HeadOf;
    RunOnward(db, ops, pk, kind, name);
    if ops != [] {
      var front, last := ops[..|ops| - 1], ops[|ops| - 1];
      var mid := Recovery.Run(db, front);
      RunTouches(db, front, pk, kind, name);
      TouchedSplit(db, ops, pk, kind, name);
      if Wrote(mid, last, pk, kind, name) {
        WroteMovesOn(mid, last, pk, kind, name);
        RunOnward(db, front, pk, kind, name);
        PastAfter(db.vaults[pk], mid.vaults[pk], Recovery.Step(mid, last).db.vaults[pk], kind, name);
      } else {
        StepKeepsHead(mid, last, pk, kind, name);
        PastStays(db.vaults[pk], mid.vaults[pk], Recovery.Step(mid, last).db.vaults[pk], kind, name);
      }
    }
  }

  lemma PastAfter(u: Vault, v: Vault, w: Vault, kind: RecordKind, name: NameHmac)
    requires NotBefore(u, v, kind, name) && Past(v, w, kind, name)
    ensures Past(u, w, kind, name)
  {
  }

  lemma PastStays(u: Vault, v: Vault, w: Vault, kind: RecordKind, name: NameHmac)
    requires w.generation == v.generation && w.HeadOf(kind, name) == v.HeadOf(kind, name)
    ensures Past(u, v, kind, name) ==> Past(u, w, kind, name)
  {
  }

  lemma TouchedSplit(db: Db, ops: seq<Recovery.Op>, pk: nat, kind: RecordKind, name: NameHmac)
    requires ops != []
    ensures var front, last := ops[..|ops| - 1], ops[|ops| - 1];
            Touched(db, ops, pk, kind, name) <==>
              Touched(db, front, pk, kind, name) || Wrote(Recovery.Run(db, front), last, pk, kind, name)
  {
    hide Wrote, Recovery.Run;
    var front, last := ops[..|ops| - 1], ops[|ops| - 1];
    assert forall i :: 0 <= i < |front| ==> front[..i] == ops[..i] && front[i] == ops[i];
    if Wrote(Recovery.Run(db, front), last, pk, kind, name) {
      assert ops[..|ops| - 1] == front;
    }
  }

  /** A write, of a value or of a tombstone, signed for the head and the generation of some moment and sent
  after any run of other calls that leaves the vault in place. If some call in between wrote the name, be
  it a create, an update, a delete, a revival or a rotation, it fails. If none did, it succeeds with the
  version it signed, unless a quota refuses the value. */
  lemma WinsExactlyIfUntouched(db: Db, pk: nat, kind: RecordKind, name: NameHmac, ops: seq<Recovery.Op>,
                               w: RecordWrite, pre: Pre, ctx: Ctx, limits: Limits)
    requires Inv(db) && pk in db.vaults && Recovery.Spares(ops, pk) && SignedUnder(w, pre)
    requires db.vaults[pk].HeadOf(kind, name) == pre.Expects() && db.vaults[pk].generation == w.generation
    ensures var answer := Sent(Recovery.Run(db, ops), pk, kind, name, w, pre, ctx, limits).answer;
            if Touched(db, ops, pk, kind, name) then answer.Err?
            else answer == Ok(w.version) || (w.valueCt.Some? && answer.Err? && answer.error.QuotaExceeded?)
  {
    hide Inv, Past, Recovery.Run, Touched, Vault.HeadOf, Sent, SignedUnder;
    RunTouches(db, ops, pk, kind, name);
    var db' := Recovery.Run(db, ops);
    if Touched(db, ops, pk, kind, name) {
      MovedOnLoses(db, db', pk, kind, name, w, pre, ctx, limits);
    } else {
      SentComparesAndSwaps(db', pk, kind, name, w, pre, ctx, limits);
    }
  }
}
