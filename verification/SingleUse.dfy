/** Single-use ids: once spent, refused until they expire, whatever else happens meanwhile. */
module SingleUse {
  import opened Types
  import opened Database
  import Recovery

  /** Nothing but spending touches the spent ids. */
  lemma OthersKeepSpent(db: Db, op: Recovery.Op)
    requires !op.UseOnce?
    ensures Recovery.Step(db, op).db.spent == db.spent
  {
    hide PutRecord, DeleteRecord, ApplyRotation, RevokeTokens, AppendAudit, RegisterToken, PutChildren;
    match op
    case Put(pk, k, n, pre, w, ctx, limits) => PutKeepsSpent(db, pk, k, n, pre, w, ctx, limits);
    case Delete(pk, k, n, x, w, ctx, limits) => DeleteKeepsSpent(db, pk, k, n, x, w, ctx, limits);
    case Rotate(pk, r, ctx, hook) => RotateKeepsSpent(db, pk, r, ctx, hook);
    case Revoke(pk, ids, reported, ctx, hook) => RevokeKeepsSpent(db, pk, ids, reported, ctx, hook);
    case Mint(pk, t, ctx, limits) => MintKeepsSpent(db, pk, t, ctx, limits);
    case WriteChildren(pk, pre, blob, ctx, limits) => ChildrenKeepsSpent(db, pk, pre, blob, ctx, limits);
    case _ =>
  }

  lemma PutKeepsSpent(db: Db, pk: nat, kind: RecordKind, name: NameHmac, pre: Precondition, w: RecordWrite, ctx: Ctx,
                      limits: Limits)
    ensures PutRecord(db, pk, kind, name, pre, w, ctx, limits).db.spent == db.spent
  {
    hide AppendAudit, Stored, LiveNames, FreedBy, Assigned;
  }

  lemma DeleteKeepsSpent(db: Db, pk: nat, kind: RecordKind, name: NameHmac, x: nat, w: RecordWrite, ctx: Ctx,
                        limits: Limits)
    ensures DeleteRecord(db, pk, kind, name, x, w, ctx, limits).db.spent == db.spent
  {
    hide AppendAudit, Stored, FreedBy;
  }

  lemma RotateKeepsSpent(db: Db, pk: nat, r: RotationRequest, ctx: Ctx, hook: bool)
    ensures ApplyRotation(db, pk, r, ctx, hook).db.spent == db.spent
  {
    hide Rotated, StrictlyAccepted;
  }

  lemma RevokeKeepsSpent(db: Db, pk: nat, ids: seq<TokenId>, reported: bool, ctx: Ctx, hook: bool)
    ensures RevokeTokens(db, pk, ids, reported, ctx, hook).db.spent == db.spent
  {
    hide Revoked, Removed;
  }

  lemma MintKeepsSpent(db: Db, pk: nat, t: NewToken, ctx: Ctx, limits: Limits)
    ensures RegisterToken(db, pk, t, ctx, limits).db.spent == db.spent
  {
    hide AppendAudit, ActiveTokens;
  }

  lemma ChildrenKeepsSpent(db: Db, pk: nat, pre: Precondition, blob: ChildrenBlob, ctx: Ctx, limits: Limits)
    ensures PutChildren(db, pk, pre, blob, ctx, limits).db.spent == db.spent
  {
    hide AppendAudit, AssignedChildren;
  }

  /** `key` is spent until `e`, as the store has it. */
  ghost predicate SpentUntil(db: Db, key: SpentKey, e: int) {
    key in db.spent && db.spent[key] == e
  }

  lemma StepKeepsSpent(db: Db, op: Recovery.Op, key: SpentKey, e: int)
    requires SpentUntil(db, key, e) && (op.UseOnce? ==> op.now <= e)
    ensures SpentUntil(Recovery.Step(db, op).db, key, e)
  {
    hide PutRecord, DeleteRecord, ApplyRotation, RevokeTokens, RegisterToken, PutChildren, Record, Touch, CreateVault,
         DeleteVault;
    if !op.UseOnce? {
      OthersKeepSpent(db, op);
    }
  }

  /** The clock shows at most `t` at every spending in the run. */
  ghost predicate UpTo(ops: seq<Recovery.Op>, t: int) {
    forall i :: 0 <= i < |ops| && ops[i].UseOnce? ==> ops[i].now <= t
  }

  lemma {:induction false} RunKeepsSpent(db: Db, ops: seq<Recovery.Op>, key: SpentKey, e: int)
    requires SpentUntil(db, key, e) && UpTo(ops, e)
    ensures SpentUntil(Recovery.Run(db, ops), key, e)
    decreases |ops|
  {
    hide Recovery.Step, SpentUntil;
    if ops != [] {
      RunKeepsSpent(db, ops[..|ops| - 1], key, e);
      StepKeepsSpent(Recovery.Run(db, ops[..|ops| - 1]), ops[|ops| - 1], key, e);
    }
  }

  /** An id spent with expiry `e` is refused at every later time up to and including `e`, whatever ran in
  between, purges included, as long as the clock did not run past that time and back. */
  lemma SpentOnce(db: Db, key: SpentKey, e: int, now: int, ops: seq<Recovery.Op>, t: int, e': int)
    requires Spend(db, key, e, now).answer.Ok? && UpTo(ops, t) && t <= e
    ensures Spend(Recovery.Run(Spend(db, key, e, now).db, ops), key, e', t).answer == Err(Spent)
  {
    hide Recovery.Run;
    var first := Spend(db, key, e, now).db;
    RunKeepsSpent(first, ops, key, e);
  }

  /** It is not spent, or spent until `e`. */
  ghost predicate AtMost(db: Db, key: SpentKey, e: int) {
    key in db.spent ==> db.spent[key] == e
  }

  lemma {:induction false} RunAtMost(db: Db, ops: seq<Recovery.Op>, key: SpentKey, e: int)
    requires AtMost(db, key, e) && forall i :: 0 <= i < |ops| && ops[i].UseOnce? ==> ops[i].key != key
    ensures AtMost(Recovery.Run(db, ops), key, e)
    decreases |ops|
  {
    hide Recovery.Step;
    if ops != [] {
      var mid, last := Recovery.Run(db, ops[..|ops| - 1]), ops[|ops| - 1];
      RunAtMost(db, ops[..|ops| - 1], key, e);
      StepAtMost(mid, last, key, e);
    }
  }

  lemma StepAtMost(db: Db, op: Recovery.Op, key: SpentKey, e: int)
    requires AtMost(db, key, e) && (op.UseOnce? ==> op.key != key)
    ensures AtMost(Recovery.Step(db, op).db, key, e)
  {
    hide PutRecord, DeleteRecord, ApplyRotation, RevokeTokens, RegisterToken, PutChildren, Record, Touch, CreateVault,
         DeleteVault;
    if !op.UseOnce? {
      OthersKeepSpent(db, op);
    }
  }

  /** With nobody else spending it meanwhile, it is refused at `t` exactly while `t` has not passed `e`. */
  lemma RefusedUntilExpiry(db: Db, key: SpentKey, e: int, now: int, ops: seq<Recovery.Op>, t: int, e': int)
    requires Spend(db, key, e, now).answer.Ok? && UpTo(ops, t)
    requires forall i :: 0 <= i < |ops| && ops[i].UseOnce? ==> ops[i].key != key
    ensures Spend(Recovery.Run(Spend(db, key, e, now).db, ops), key, e', t).answer ==
            if t <= e then Err(Spent) else Ok(())
  {
    hide Recovery.Run;
    var first := Spend(db, key, e, now).db;
    if t <= e {
      SpentOnce(db, key, e, now, ops, t, e');
    } else {
      RunAtMost(first, ops, key, e);
    }
  }
}
