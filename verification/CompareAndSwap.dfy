/** The client's write preconditions against the store: a compare-and-swap on a name's exact head. */
module CompareAndSwap {
  import opened Types
  import opened Tables
  import opened Rotations
  import opened Database
  import opened Invariant
  import Recovery
  import Regularity

  /** Where a writer believes a name's history ends. */
  datatype Pre = Create | Revive(tombstone: nat) | Update(live: nat) {

    function Signs(): nat {
      match this case Create => 1 case Revive(v) => v + 1 case Update(v) => v + 1
    }

    /** The header it sends: `If-None-Match: *`, or `If-Match: v`. */
    function Header(): Precondition {
      match this case Create => IfNoneMatch case Revive(_) => IfNoneMatch case Update(v) => IfMatch(v)
    }

    /** The head this precondition stands for. */
    function Expects(): Option<Head> {
      match this case Create => None case Revive(v) => Some(Head(v, true)) case Update(v) => Some(Head(v, false))
    }

    /** The precondition for writing after the latest version, if there is one. */
    static function After(latest: Option<Head>): Pre {
      match latest
      case None => Create
      case Some(h) => if h.tombstone then Revive(h.version) else Update(h.version)
    }
  }

  /** A name's history as the version listing gives it, oldest first. */
  function Metas(t: Table, name: NameHmac): (ms: seq<Head>)
    ensures |ms| == |VersionsOf(t, name)|
  {
    var vs := Ascending(VersionsOf(t, name));
    seq(|vs|, i requires 0 <= i < |vs| => assert vs[i] in vs; Head(vs[i], t.rows[Key(name, vs[i])].tombstone))
  }

  function Latest(t: Table, name: NameHmac): Option<Head> {
    var ms := Metas(t, name);
    if ms == [] then None else Some(ms[|ms| - 1])
  }

  /** The last version a client lists is the head the store compares against. */
  lemma LatestIsHead(t: Table, generation: nat, name: NameHmac)
    requires TableOk(t, generation)
    ensures Latest(t, name) == if name in t.heads then Some(t.heads[name]) else None
  {
    hide RowOk, Ascending, StrictlyAscending;
    var vs := Ascending(VersionsOf(t, name));
    if name in t.heads {
      LastIsGreatest(VersionsOf(t, name), t.heads[name].version);
    } else {
      assert forall v: nat :: v !in VersionsOf(t, name);
      assert VersionsOf(t, name) == {};
    }
  }

  lemma LastIsGreatest(s: set<nat>, h: nat)
    requires h in s && forall x :: x in s ==> x <= h
    ensures var r := Ascending(s); r != [] && r[|r| - 1] == h
  {
    hide Ascending;
    var r := Ascending(s);
    assert h in r;
    var i :| 0 <= i < |r| && r[i] == h;
    assert r[|r| - 1] in r;
  }

  /** The errors that mean the record or the vault is not as the writer expected. */
  predicate Stale(answer: Result<nat, StoreError>) {
    answer.Err? && (answer.error.PreconditionFailed? || answer.error.VersionMismatch? || answer.error.StaleGeneration?)
  }

  /** A put signed under a precondition finds the vault changed exactly when the head or the generation is
  no longer the one it was computed from; otherwise only a quota can refuse it, and it gets the version
  it signed. */
  lemma PutComparesAndSwaps(db: Db, pk: nat, kind: RecordKind, name: NameHmac, pre: Pre, w: RecordWrite,
                            ctx: Ctx, limits: Limits)
    requires Inv(db) && pk in db.vaults
    requires w.valueCt.Some? && w.version == pre.Signs()
    requires pre.Revive? ==> 1 <= pre.tombstone
    ensures var answer := PutRecord(db, pk, kind, name, pre.Header(), w, ctx, limits).answer;
            var asExpected := db.vaults[pk].HeadOf(kind, name) == pre.Expects()
                              && db.vaults[pk].generation == w.generation;
            && (answer.Ok? ==> asExpected && answer.value == w.version)
            && (asExpected ==> answer.Ok? || answer.error.QuotaExceeded?)
            && (Stale(answer) ==> !asExpected)
  {
    hide Inv, AppendAudit, Stored, FreedBy, LiveNames, RowsOk, HeadsOk, Chain, Refuse;
    LoadVaultOk(db, pk);
    AssignedIsNext(pre.Header(), db.vaults[pk], kind, name);
    if w.generation == db.vaults[pk].generation {
      WriteInv(db, pk, kind, name, w, ctx, limits);
    }
    forall error: StoreError {
      RefuseInv<nat>(db, pk, Event(ctx.actor, PutAction(kind), Some(name), None, Refused), ctx.now, error);
    }
    HeadIsPositive(db, pk, kind, name);
  }

  lemma HeadIsPositive(db: Db, pk: nat, kind: RecordKind, name: NameHmac)
    requires Inv(db) && pk in db.vaults
    ensures var h := db.vaults[pk].HeadOf(kind, name); h.Some? ==> 1 <= h.value.version
  {
    hide Chain, TotalBytes;
    VaultIsOk(db, pk);
    var t := db.vaults[pk].Records(kind);
    if name in t.heads {
      assert RowOk(Key(name, t.heads[name].version), t.rows[Key(name, t.heads[name].version)],
          db.vaults[pk].generation);
    }
  }

  /** A delete under `If-Match` likewise: it succeeds exactly when the head is that live version, at that
  generation. */
  lemma DeleteComparesAndSwaps(db: Db, pk: nat, kind: RecordKind, name: NameHmac, live: nat, w: RecordWrite,
                               ctx: Ctx, limits: Limits)
    requires Inv(db) && pk in db.vaults
    requires w.valueCt.None? && w.version == live + 1
    ensures var answer := DeleteRecord(db, pk, kind, name, live, w, ctx, limits).answer;
            var asExpected := db.vaults[pk].HeadOf(kind, name) == Some(Head(live, false))
                              && db.vaults[pk].generation == w.generation;
            && (answer.Ok? <==> asExpected)
            && (answer.Ok? ==> answer.value == w.version)
  {
    hide Inv, AppendAudit, Stored, FreedBy, Refuse, Vault.Records;
    LoadVaultOk(db, pk);
    forall error: StoreError {
      RefuseInv<nat>(db, pk, Event(ctx.actor, DeleteAction(kind), Some(name), None, Refused), ctx.now, error);
    }
    if w.generation == db.vaults[pk].generation {
      WriteInv(db, pk, kind, name, w, ctx, limits);
    }
  }

  // ------------------------------------------------------------ heads never go back

  /** Generation first, then version: how far a name has come. */
  ghost predicate NotBefore(v: Vault, v': Vault, kind: RecordKind, name: NameHmac) {
    || v.generation < v'.generation
    || (v.generation == v'.generation
        && (v'.HeadOf(kind, name) == v.HeadOf(kind, name) || Past(v, v', kind, name)))
  }

  /** The name has moved on: a later generation, or a higher version. */
  ghost predicate Past(v: Vault, v': Vault, kind: RecordKind, name: NameHmac) {
    || v.generation < v'.generation
    || (v.generation == v'.generation && v'.HeadOf(kind, name).Some?
        && (v.HeadOf(kind, name).None? || v.HeadOf(kind, name).value.version < v'.HeadOf(kind, name).value.version))
  }

  /** No vault appears or goes, and in none does a name fall back. */
  ghost predicate Onward(db: Db, db': Db, kind: RecordKind, name: NameHmac) {
    && db'.vaults.Keys == db.vaults.Keys
    && forall pk :: pk in db.vaults ==> NotBefore(db.vaults[pk], db'.vaults[pk], kind, name)
  }

  lemma OnwardReflexive(db: Db, kind: RecordKind, name: NameHmac)
    ensures Onward(db, db, kind, name)
  {
  }

  lemma WithVaultOnward(db: Db, pk: nat, v: Vault, kind: RecordKind, name: NameHmac)
    requires pk in db.vaults && NotBefore(db.vaults[pk], v, kind, name)
    ensures Onward(db, WithVault(db, pk, v), kind, name)
  {
    hide Vault.HeadOf, Past;
  }

  /** Auditing a vault that is no further back leaves it no further back. */
  lemma AppendedOnward(db: Db, pk: nat, v: Vault, e: AuditEvent, now: int, kind: RecordKind, name: NameHmac)
    requires pk in db.vaults && NotBefore(db.vaults[pk], v, kind, name)
    ensures AppendAudit(v, e, now).Ok? ==> Onward(db, WithVault(db, pk, AppendAudit(v, e, now).value), kind, name)
  {
    hide Onward, WithVault;
    if AppendAudit(v, e, now).Ok? {
      assert NotBefore(db.vaults[pk], AppendAudit(v, e, now).value, kind, name);
      WithVaultOnward(db, pk, AppendAudit(v, e, now).value, kind, name);
    }
  }

  lemma RefuseOnward<T>(db: Db, pk: nat, e: AuditEvent, now: int, error: StoreError, kind: RecordKind, name: NameHmac)
    requires pk in db.vaults
    ensures var r: Result<Done<T>, StoreError> := Refuse(db, pk, db.vaults[pk], e, now, error);
            r.Ok? ==> Onward(db, r.value.tx, kind, name)
  {
    hide Onward, WithVault, AppendAudit, Vault.HeadOf;
    AppendedOnward(db, pk, db.vaults[pk], e, now, kind, name);
  }

  lemma StoredMovesOn(v: Vault, kind: RecordKind, name: NameHmac, row: VersionRow, max: nat, total: nat,
                      kind': RecordKind, name': NameHmac)
    ensures var s := Stored(v, kind, name, NextVersion(v.Records(kind), name), row, max, total);
            s.Ok? ==> NotBefore(v, s.value, kind', name') && Past(v, s.value, kind, name)
  {
  }

  lemma PutOnward(db: Db, pk: nat, kind: RecordKind, name: NameHmac, pre: Precondition, w: RecordWrite,
                  ctx: Ctx, limits: Limits, kind': RecordKind, name': NameHmac)
    ensures Onward(db, PutRecord(db, pk, kind, name, pre, w, ctx, limits).db, kind', name')
  {
    hide Onward, NotBefore, AppendAudit, Stored, FreedBy, LiveNames, Vault.HeadOf, Vault.Records, NextVersion,
         Assigned, Refuse, WithVault;
    OnwardReflexive(db, kind', name');
    if pk in db.vaults && w.valueCt.Some? {
      var v := db.vaults[pk];
      AssignedIsNext(pre, v, kind, name);
      forall error: StoreError {
        RefuseOnward<nat>(db, pk, Event(ctx.actor, PutAction(kind), Some(name), None, Refused), ctx.now, error, kind',
            name');
      }
      var row, max, next := WrittenRow(w, ctx.actor), limits.Versions(kind), NextVersion(v.Records(kind), name);
      var total := v.bytesUsed + RowBytes(row) - FreedBy(v.Records(kind), name, max);
      if total >= 0 && Stored(v, kind, name, next, row, max, total).Ok? {
        StoredMovesOn(v, kind, name, row, max, total, kind', name');
        AppendedOnward(db, pk, Stored(v, kind, name, next, row, max, total).value,
          WriteEvent(ctx.actor, PutAction(kind), Some(name), next, Some(ValueHash(w.valueCt))), ctx.now, kind', name');
      }
    }
  }

  lemma DeleteOnward(db: Db, pk: nat, kind: RecordKind, name: NameHmac, ifMatch: nat, w: RecordWrite,
                     ctx: Ctx, limits: Limits, kind': RecordKind, name': NameHmac)
    ensures Onward(db, DeleteRecord(db, pk, kind, name, ifMatch, w, ctx, limits).db, kind', name')
  {
    hide Onward, NotBefore, AppendAudit, Stored, FreedBy, Vault.Records, Refuse, WithVault;
    OnwardReflexive(db, kind', name');
    if pk in db.vaults {
      var v := db.vaults[pk];
      forall error: StoreError {
        RefuseOnward<nat>(db, pk, Event(ctx.actor, DeleteAction(kind), Some(name), None, Refused), ctx.now, error,
            kind', name');
      }
      var row, max, next := WrittenRow(w, ctx.actor), limits.Versions(kind), NextVersion(v.Records(kind), name);
      var spent, freed := v.bytesUsed + |w.nameCt|, FreedBy(v.Records(kind), name, max);
      var total := if spent < freed then 0 else spent - freed;
      if Stored(v, kind, name, next, row, max, total).Ok? {
        StoredMovesOn(v, kind, name, row, max, total, kind', name');
        AppendedOnward(db, pk, Stored(v, kind, name, next, row, max, total).value,
          WriteEvent(ctx.actor, DeleteAction(kind), Some(name), next, None), ctx.now, kind', name');
      }
    }
  }

  /** A successful put leaves its own name strictly further on. */
  lemma PutMovesOn(db: Db, pk: nat, kind: RecordKind, name: NameHmac, pre: Precondition, w: RecordWrite,
                   ctx: Ctx, limits: Limits)
    requires PutRecord(db, pk, kind, name, pre, w, ctx, limits).answer.Ok?
    ensures var o := PutRecord(db, pk, kind, name, pre, w, ctx, limits);
            pk in db.vaults && pk in o.db.vaults && Past(db.vaults[pk], o.db.vaults[pk], kind, name)
  {
    hide AppendAudit, Stored, FreedBy, LiveNames, Vault.Records, Vault.HeadOf, NextVersion, Assigned, Past;
    var v := db.vaults[pk];
    AssignedIsNext(pre, v, kind, name);
    var row, max, next := WrittenRow(w, ctx.actor), limits.Versions(kind), NextVersion(v.Records(kind), name);
    var total := v.bytesUsed + RowBytes(row) - FreedBy(v.Records(kind), name, max);
    StoredMovesOn(v, kind, name, row, max, total, kind, name);
    AppendedPast(v, Stored(v, kind, name, next, row, max, total).value,
      WriteEvent(ctx.actor, PutAction(kind), Some(name), next, Some(ValueHash(w.valueCt))), ctx.now, kind, name);
  }

  lemma AppendedPast(u: Vault, v: Vault, e: AuditEvent, now: int, kind: RecordKind, name: NameHmac)
    requires Past(u, v, kind, name)
    ensures AppendAudit(v, e, now).Ok? ==> Past(u, AppendAudit(v, e, now).value, kind, name)
  {
  }

  lemma NotBeforeReflexive(v: Vault, kind: RecordKind, name: NameHmac)
    ensures NotBefore(v, v, kind, name)
  {
  }

  lemma PastThenOnward(u: Vault, v: Vault, w: Vault, kind: RecordKind, name: NameHmac)
    requires NotBefore(v, w, kind, name)
    ensures Past(u, v, kind, name) ==> Past(u, w, kind, name)
    ensures NotBefore(u, v, kind, name) ==> NotBefore(u, w, kind, name)
  {
  }

  lemma RotateOnward(db: Db, pk: nat, r: RotationRequest, ctx: Ctx, hook: bool, kind: RecordKind, name: NameHmac)
    requires Inv(db)
    ensures Onward(db, ApplyRotation(db, pk, r, ctx, hook).db, kind, name)
  {
    hide Inv, Rotated, StrictlyAccepted, Vault.HeadOf;
    OnwardReflexive(db, kind, name);
    LoadVaultOk(db, pk);
    if pk in db.vaults && ApplyRotation(db, pk, r, ctx, hook).answer.Ok? {
      Regularity.RotatedContents(db, pk, r, ctx);
      assert r.fromGeneration == db.vaults[pk].generation;
      RotatedElsewhereSame(db, pk, r, ctx);
    }
  }

  lemma RotatedElsewhereSame(db: Db, pk: nat, r: RotationRequest, ctx: Ctx)
    requires pk in db.vaults
    ensures var o := Rotated(db, pk, db.vaults[pk], r, ctx);
            o.Ok? ==>
              && o.value.vaults.Keys == db.vaults.Keys
              && forall qk :: qk in db.vaults && qk != pk ==> o.value.vaults[qk] == db.vaults[qk]
  {
    hide AppendAll, Resealed, RotatedVault, RotationEvents, Separated, Removed, Without;
  }

  lemma RevokeOnward(db: Db, pk: nat, ids: seq<TokenId>, reported: bool, ctx: Ctx, hook: bool, kind: RecordKind,
                     name: NameHmac)
    ensures Onward(db, RevokeTokens(db, pk, ids, reported, ctx, hook).db, kind, name)
  {
    hide AppendAll, Removed, RevokeEvents, Without;
    if pk in db.vaults {
      var v := db.vaults[pk];
      var v1, es := v.(revision := v.revision + 1), RevokeEvents(Removed(db.tokens, pk, ids), ctx.actor, reported);
      Regularity.AppendAllTables(v1, es, ctx.now);
      Recovery.AppendAllSameKeys(v1, es, ctx.now);
    }
  }

  lemma MintOnward(db: Db, pk: nat, t: NewToken, ctx: Ctx, limits: Limits, kind: RecordKind, name: NameHmac)
    ensures Onward(db, RegisterToken(db, pk, t, ctx, limits).db, kind, name)
  {
    hide AppendAudit, ActiveTokens, Refuse, Vault.HeadOf;
    if pk in db.vaults {
      forall error: StoreError {
        RefuseOnward<TokenRow>(db, pk, Event(ctx.actor, TokenMint, None, Some(t.id), Refused), ctx.now, error, kind,
            name);
      }
      var v := db.vaults[pk];
      var v1 := v.(revision := v.revision + 1);
      assert NotBefore(v, v1, kind, name) by { RevisionKeepsHeads(v, kind, name); }
      AppendedOnward(db, pk, v1, Event(ctx.actor, TokenMint, None, Some(t.id), Success), ctx.now, kind, name);
    }
  }

  lemma RevisionKeepsHeads(v: Vault, kind: RecordKind, name: NameHmac)
    ensures NotBefore(v, v.(revision := v.revision + 1), kind, name)
  {
  }

  lemma ChildrenOnward(db: Db, pk: nat, pre: Precondition, blob: ChildrenBlob, ctx: Ctx, limits: Limits,
                       kind: RecordKind, name: NameHmac)
    ensures Onward(db, PutChildren(db, pk, pre, blob, ctx, limits).db, kind, name)
  {
    hide Onward, AppendAudit, AssignedChildren, Refuse, WithVault;
    OnwardReflexive(db, kind, name);
    if pk in db.vaults {
      forall error: StoreError {
        RefuseOnward<nat>(db, pk, Event(ctx.actor, ChildrenWrite, None, None, Refused), ctx.now, error, kind, name);
      }
      AppendedOnward(db, pk, db.vaults[pk].(children := Some(blob)),
        WriteEvent(ctx.actor, ChildrenWrite, None, blob.version, Some(Sha256(blob.ct))), ctx.now, kind, name);
    }
  }

  /** Unless the vault is deleted, no call brings a name back to an earlier generation or version. */
  lemma StepOnward(db: Db, op: Recovery.Op, pk: nat, kind: RecordKind, name: NameHmac)
    requires Inv(db) && pk in db.vaults && !(op.Drop? && op.pk == pk)
    ensures var db' := Recovery.Step(db, op).db;
            pk in db'.vaults && NotBefore(db.vaults[pk], db'.vaults[pk], kind, name)
  {
    hide Inv, NotBefore, PutRecord, DeleteRecord, RevokeTokens, ApplyRotation, RegisterToken, PutChildren,
         AppendAudit, NextPk;
    assert NotBefore(db.vaults[pk], db.vaults[pk], kind, name) by { NotBeforeReflexive(db.vaults[pk], kind, name); }
    match op
    case Create(v, now) => NextPkIsFree(db);
    case KeepAlive(qk, now) =>
      assert NotBefore(db.vaults[pk], db.vaults[pk].(lastActiveAt := now), kind,
          name) by { TouchKeepsHeads(db.vaults[pk], now, kind, name); }
    case Mint(qk, t, ctx, limits) => MintOnward(db, qk, t, ctx, limits, kind, name);
    case Revoke(qk, ids, reported, ctx, hook) => RevokeOnward(db, qk, ids, reported, ctx, hook, kind, name);
    case Put(qk, k, n, pre, w, ctx, limits) => PutOnward(db, qk, k, n, pre, w, ctx, limits, kind, name);
    case Delete(qk, k, n, x, w, ctx, limits) => DeleteOnward(db, qk, k, n, x, w, ctx, limits, kind, name);
    case WriteChildren(qk, pre, blob, ctx, limits) => ChildrenOnward(db, qk, pre, blob, ctx, limits, kind, name);
    case Note(qk, e, now) =>
      if qk in db.vaults {
        NotBeforeReflexive(db.vaults[qk], kind, name);
        AppendedOnward(db, qk, db.vaults[qk], e, now, kind, name);
      }
    case Rotate(qk, r, ctx, hook) => RotateOnward(db, qk, r, ctx, hook, kind, name);
    case Drop(qk, now, hook) =>
    case UseOnce(key, e, now) =>
  }

  lemma TouchKeepsHeads(v: Vault, now: int, kind: RecordKind, name: NameHmac)
    ensures NotBefore(v, v.(lastActiveAt := now), kind, name)
  {
  }

  lemma {:induction false} RunOnward(db: Db, ops: seq<Recovery.Op>, pk: nat, kind: RecordKind, name: NameHmac)
    requires Inv(db) && pk in db.vaults && Recovery.Spares(ops, pk)
    ensures var db' := Recovery.Run(db, ops);
            Inv(db') && pk in db'.vaults && NotBefore(db.vaults[pk], db'.vaults[pk], kind, name)
    decreases |ops|
  {
    hide Inv, NotBefore, Recovery.Step;
    if ops == [] {
      NotBeforeReflexive(db.vaults[pk], kind, name);
    } else {
      var front, last := ops[..|ops| - 1], ops[|ops| - 1];
      RunOnward(db, front, pk, kind, name);
      var mid := Recovery.Run(db, front);
      Recovery.StepInv(mid, last);
      StepOnward(mid, last, pk, kind, name);
      PastThenOnward(db.vaults[pk], mid.vaults[pk], Recovery.Step(mid, last).db.vaults[pk], kind, name);
    }
  }

  /** What the server does with a signed write: a value is a put; a tombstone is a delete, which takes
  `If-Match` only. */
  ghost function Sent(db: Db, pk: nat, kind: RecordKind, name: NameHmac, w: RecordWrite, pre: Pre, ctx: Ctx,
                      limits: Limits)
    : Outcome<nat>
  {
    if w.valueCt.Some? then PutRecord(db, pk, kind, name, pre.Header(), w, ctx, limits)
    else if pre.Update? then DeleteRecord(db, pk, kind, name, pre.live, w, ctx, limits)
    else Outcome(db, Err(Malformed), [])
  }

  /** A successful delete leaves its own name strictly further on. */
  lemma DeleteMovesOn(db: Db, pk: nat, kind: RecordKind, name: NameHmac, ifMatch: nat, w: RecordWrite, ctx: Ctx,
                      limits: Limits)
    requires DeleteRecord(db, pk, kind, name, ifMatch, w, ctx, limits).answer.Ok?
    ensures var o := DeleteRecord(db, pk, kind, name, ifMatch, w, ctx, limits);
            pk in db.vaults && pk in o.db.vaults && Past(db.vaults[pk], o.db.vaults[pk], kind, name)
  {
    hide AppendAudit, Stored, FreedBy, Vault.Records, Past;
    var v := db.vaults[pk];
    var row, max, next := WrittenRow(w, ctx.actor), limits.Versions(kind), NextVersion(v.Records(kind), name);
    var spent, freed := v.bytesUsed + |w.nameCt|, FreedBy(v.Records(kind), name, max);
    var total := if spent < freed then 0 else spent - freed;
    StoredMovesOn(v, kind, name, row, max, total, kind, name);
    AppendedPast(v, Stored(v, kind, name, next, row, max, total).value,
      WriteEvent(ctx.actor, DeleteAction(kind), Some(name), next, None), ctx.now, kind, name);
  }

  /** So does any write that is sent and succeeds. */
  lemma SentMovesOn(db: Db, pk: nat, kind: RecordKind, name: NameHmac, w: RecordWrite, pre: Pre, ctx: Ctx,
                    limits: Limits)
    requires Inv(db) && Sent(db, pk, kind, name, w, pre, ctx, limits).answer.Ok?
    ensures var o := Sent(db, pk, kind, name, w, pre, ctx, limits);
            Inv(o.db) && pk in db.vaults && pk in o.db.vaults && Past(db.vaults[pk], o.db.vaults[pk], kind, name)
  {
    hide Inv, PutRecord, DeleteRecord, Past;
    if w.valueCt.Some? {
      PutMovesOn(db, pk, kind, name, pre.Header(), w, ctx, limits);
      PutRecordInv(db, pk, kind, name, pre.Header(), w, ctx, limits);
    } else {
      DeleteMovesOn(db, pk, kind, name, pre.live, w, ctx, limits);
      DeleteRecordInv(db, pk, kind, name, pre.live, w, ctx, limits);
    }
  }

  /** What a write was signed for: the version after the head its precondition stands for. A tombstone
  is only signed over a live version, and a tombstone revived has a number. */
  ghost predicate SignedUnder(w: RecordWrite, pre: Pre) {
    && w.version == pre.Signs()
    && (pre.Revive? ==> 1 <= pre.tombstone)
    && (w.valueCt.None? ==> pre.Update?)
  }

  /** Put or delete: it succeeds only on the head and the generation it was signed for, and gets the
  version it signed; on them, only a quota can refuse it, and that only a put. */
  lemma SentComparesAndSwaps(db: Db, pk: nat, kind: RecordKind, name: NameHmac, w: RecordWrite, pre: Pre, ctx: Ctx,
                        limits: Limits)
    requires Inv(db) && pk in db.vaults && SignedUnder(w, pre)
    ensures var answer := Sent(db, pk, kind, name, w, pre, ctx, limits).answer;
            var asExpected := db.vaults[pk].HeadOf(kind, name) == pre.Expects()
                && db.vaults[pk].generation == w.generation;
            && (answer.Ok? ==> asExpected && answer.value == w.version)
            && (asExpected ==> answer.Ok? || (w.valueCt.Some? && answer.error.QuotaExceeded?))
  {
    hide Inv, PutRecord, DeleteRecord, Vault.HeadOf;
    if w.valueCt.Some? {
      PutComparesAndSwaps(db, pk, kind, name, pre, w, ctx, limits);
    } else {
      DeleteComparesAndSwaps(db, pk, kind, name, pre.live, w, ctx, limits);
    }
  }

  /** Once its name has moved on, a write signed for where it was fails. */
  lemma MovedOnLoses(db: Db, db': Db, pk: nat, kind: RecordKind, name: NameHmac, w: RecordWrite, pre: Pre, ctx: Ctx,
                     limits: Limits)
    requires Inv(db') && pk in db.vaults && pk in db'.vaults && Past(db.vaults[pk], db'.vaults[pk], kind, name)
    requires SignedUnder(w, pre)
    requires db.vaults[pk].HeadOf(kind, name) == pre.Expects() && db.vaults[pk].generation == w.generation
    ensures Sent(db', pk, kind, name, w, pre, ctx, limits).answer.Err?
  {
    hide Inv, Sent, Vault.HeadOf;
    SentComparesAndSwaps(db', pk, kind, name, w, pre, ctx, limits);
  }

  /** Of all writers, of values and of tombstones, that computed their precondition from one head at one
  generation, at most one wins: once one has, no run of other calls that leaves the vault in place lets
  another succeed. */
  lemma AtMostOneWins(db: Db, pk: nat, kind: RecordKind, name: NameHmac, pre: Pre,
                      first: RecordWrite, ctx: Ctx, limits: Limits, between: seq<Recovery.Op>,
                      second: RecordWrite, ctx': Ctx, limits': Limits)
    requires Inv(db) && pk in db.vaults && Recovery.Spares(between, pk)
    requires SignedUnder(first, pre) && SignedUnder(second, pre) && first.generation == second.generation
    requires Sent(db, pk, kind, name, first, pre, ctx, limits).answer.Ok?
    ensures var db' := Recovery.Run(Sent(db, pk, kind, name, first, pre, ctx, limits).db, between);
            Sent(db', pk, kind, name, second, pre, ctx', limits').answer.Err?
  {
    hide Inv, Sent, Recovery.Run, NotBefore, Past, Vault.HeadOf;
    var db1 := Sent(db, pk, kind, name, first, pre, ctx, limits).db;
    SentComparesAndSwaps(db, pk, kind, name, first, pre, ctx, limits);
    SentMovesOn(db, pk, kind, name, first, pre, ctx, limits);
    RunOnward(db1, between, pk, kind, name);
    var db' := Recovery.Run(db1, between);
    PastThenOnward(db.vaults[pk], db1.vaults[pk], db'.vaults[pk], kind, name);
    MovedOnLoses(db, db', pk, kind, name, second, pre, ctx', limits');
  }
}
