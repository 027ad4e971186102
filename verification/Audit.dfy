/** The audit log: what a refused write leaves, how chains grow, and how a client pages through one. */
module Audit {
  import opened Types
  import opened Tables
  import opened Rotations
  import opened Database
  import opened Invariant
  import Recovery

  // ------------------------------------------------------------ refusals

  /** The only change is one more row in one vault's chain, and it says `Refused`. */
  ghost predicate OnlyARefusedRow(db: Db, db': Db, pk: nat) {
    && pk in db.vaults && pk in db'.vaults
    && var v, v' := db.vaults[pk], db'.vaults[pk];
       && db' == WithVault(db, pk, v')
       && Extended(v, v') && v'.auditSeq == v.auditSeq + 1
       && v'.auditSeq in v'.audit && v'.audit[v'.auditSeq].event.result == Refused
  }

  lemma RefuseAddsOneRow<T>(db: Db, pk: nat, e: AuditEvent, now: int, error: StoreError)
    requires Inv(db) && pk in db.vaults && e.result == Refused
    ensures var r: Result<Done<T>, StoreError> := Refuse(db, pk, db.vaults[pk], e, now, error);
            r.Ok? && r.value.answer == Err(error) && OnlyARefusedRow(db, r.value.tx, pk)
  {
    hide Inv, Chain, RecordsOk, DescriptorsOk;
    VaultIsOk(db, pk);
    AppendAuditOk(db.vaults[pk], e, now);
  }

  /** A put that fails on a known vault leaves one refused row and changes nothing else. */
  lemma RefusedPut(db: Db, pk: nat, kind: RecordKind, name: NameHmac, pre: Precondition, w: RecordWrite,
                   ctx: Ctx, limits: Limits)
    requires Inv(db) && pk in db.vaults && w.valueCt.Some?
    requires PutRecord(db, pk, kind, name, pre, w, ctx, limits).answer.Err?
    ensures OnlyARefusedRow(db, PutRecord(db, pk, kind, name, pre, w, ctx, limits).db, pk)
  {
    hide Inv, OnlyARefusedRow, AppendAudit, Stored, FreedBy, LiveNames, Assigned, Vault.HeadOf, Vault.Records,
         NextVersion, Refuse, WithVault;
    LoadVaultOk(db, pk);
    AssignedIsNext(pre, db.vaults[pk], kind, name);
    forall error: StoreError {
      RefuseAddsOneRow<nat>(db, pk, Event(ctx.actor, PutAction(kind), Some(name), None, Refused), ctx.now, error);
    }
    if w.generation == db.vaults[pk].generation {
      WriteInv(db, pk, kind, name, w, ctx, limits);
    }
  }

  /** A delete that fails leaves one refused row exactly when there was a live version to delete; where the
  name was absent or deleted already it leaves nothing. */
  lemma RefusedDelete(db: Db, pk: nat, kind: RecordKind, name: NameHmac, ifMatch: nat, w: RecordWrite,
                      ctx: Ctx, limits: Limits)
    requires Inv(db) && pk in db.vaults && w.valueCt.None?
    requires DeleteRecord(db, pk, kind, name, ifMatch, w, ctx, limits).answer.Err?
    ensures var o := DeleteRecord(db, pk, kind, name, ifMatch, w, ctx, limits);
            var head := db.vaults[pk].HeadOf(kind, name);
            if head.None? || head.value.tombstone then o.answer == Err(NotFound) && o.db == db
            else OnlyARefusedRow(db, o.db, pk)
  {
    hide Inv, OnlyARefusedRow, AppendAudit, Stored, FreedBy, Vault.Records, Refuse, WithVault;
    LoadVaultOk(db, pk);
    forall error: StoreError {
      RefuseAddsOneRow<nat>(db, pk, Event(ctx.actor, DeleteAction(kind), Some(name), None, Refused), ctx.now, error);
    }
    if w.generation == db.vaults[pk].generation {
      WriteInv(db, pk, kind, name, w, ctx, limits);
    }
  }

  /** A mint that fails leaves one refused row exactly when its generation is stale or the vault has all the
  tokens it may; where it is only its id that is taken it leaves nothing. */
  lemma RefusedMint(db: Db, pk: nat, t: NewToken, ctx: Ctx, limits: Limits)
    requires Inv(db) && pk in db.vaults && RegisterToken(db, pk, t, ctx, limits).answer.Err?
    ensures var o := RegisterToken(db, pk, t, ctx, limits);
            if t.generation == db.vaults[pk].generation && |ActiveTokens(db, pk, ctx.now)| < limits.maxTokens
            then o.answer == Err(Exists) && o.db == db && t.id in db.tokens
            else OnlyARefusedRow(db, o.db, pk)
  {
    hide Inv, VaultOk, OnlyARefusedRow, AppendAudit, ActiveTokens, Refuse, WithVault;
    LoadVaultOk(db, pk);
    VaultIsOk(db, pk);
    forall error: StoreError {
      RefuseAddsOneRow<TokenRow>(db, pk, Event(ctx.actor, TokenMint, None, Some(t.id), Refused), ctx.now, error);
    }
    var v1 := db.vaults[pk].(revision := db.vaults[pk].revision + 1);
    ColumnsOk(db.vaults[pk], v1);
    AppendedInv(db, pk, v1, Event(ctx.actor, TokenMint, None, Some(t.id), Success), ctx.now);
  }

  /** A database with one new vault in it. */
  function OneVault(v: NewVault, now: int): Db {
    CreateVault(EmptyDb, v, now).db
  }

  lemma OneVaultIs(v: NewVault, now: int)
    ensures var db := OneVault(v, now);
            && Inv(db) && db.vaults.Keys == {1} && db.tokens == map[] && db.vaults[1].id == v.id
            && db.vaults[1].secrets == EmptyTable && db.vaults[1].configs == EmptyTable
            && db.vaults[1].generation == 1 && db.vaults[1].bytesUsed == 0
    ensures CreateVault(EmptyDb, v, now).answer == Ok(1)
  {
    assert Inv(EmptyDb);
    CreateVaultInv(EmptyDb, v, now);
    assert Ascending(EmptyDb.vaults.Keys) == [];
  }

  /** On a new vault, every delete is refused and none is audited. */
  lemma UnauditedDelete(v: NewVault, now: int, kind: RecordKind, name: NameHmac, x: nat, w: RecordWrite, ctx: Ctx,
                        limits: Limits)
    requires w.valueCt.None?
    ensures DeleteRecord(OneVault(v, now), 1, kind, name, x, w, ctx, limits)
        == Outcome(OneVault(v, now), Err(NotFound), [])
  {
    hide Inv, CreateVault, Stored, AppendAudit, FreedBy;
    OneVaultIs(v, now);
    LoadVaultOk(OneVault(v, now), 1);
  }

  /** Minting a token's id a second time is refused and not audited. */
  lemma UnauditedMint(v: NewVault, now: int, t: NewToken, ctx: Ctx, ctx': Ctx, limits: Limits)
    requires t.generation == 1 && limits.maxTokens >= 2
    ensures var first := RegisterToken(OneVault(v, now), 1, t, ctx, limits);
            && first.answer.Ok?
            && RegisterToken(first.db, 1, t, ctx', limits) == Outcome(first.db, Err(Exists), [])
  {
    hide Inv, CreateVault, OneVault, Chain;
    var db := OneVault(v, now);
    OneVaultIs(v, now);
    LoadVaultOk(db, 1);
    RegisterTokenInv(db, 1, t, ctx, limits);
    VaultIsOk(db, 1);
    assert ActiveTokens(db, 1, ctx.now) == {};
    AppendAuditOk(db.vaults[1].(revision := db.vaults[1].revision + 1),
                  Event(ctx.actor, TokenMint, None, Some(t.id), Success), ctx.now);
    var first := RegisterToken(db, 1, t, ctx, limits);
    LoadVaultOk(first.db, 1);
    assert first.db.tokens.Keys == {t.id};
    OneActive(first.db, 1, ctx'.now, t.id);
  }

  lemma OneActive(db: Db, pk: nat, now: int, t: TokenId)
    requires db.tokens.Keys == {t}
    ensures |ActiveTokens(db, pk, now)| <= 1
  {
    if ActiveTokens(db, pk, now) != {} {
      assert ActiveTokens(db, pk, now) == {t};
    }
  }

  lemma RefusedChildren(db: Db, pk: nat, pre: Precondition, blob: ChildrenBlob, ctx: Ctx, limits: Limits)
    requires Inv(db) && pk in db.vaults && PutChildren(db, pk, pre, blob, ctx, limits).answer.Err?
    ensures OnlyARefusedRow(db, PutChildren(db, pk, pre, blob, ctx, limits).db, pk)
  {
    hide Inv, VaultOk, OnlyARefusedRow, AppendAudit, AssignedChildren, Refuse, WithVault;
    LoadVaultOk(db, pk);
    VaultIsOk(db, pk);
    forall error: StoreError {
      RefuseAddsOneRow<nat>(db, pk, Event(ctx.actor, ChildrenWrite, None, None, Refused), ctx.now, error);
    }
    var v1 := db.vaults[pk].(children := Some(blob));
    ColumnsOk(db.vaults[pk], v1);
    AppendedInv(db, pk, v1, WriteEvent(ctx.actor, ChildrenWrite, None, blob.version, Some(Sha256(blob.ct))), ctx.now);
  }

  // ------------------------------------------------------------ chains only grow

  /** Every descriptor ever published stays as it was. */
  ghost predicate Published(v: Vault, v': Vault) {
    forall g :: g in v.descriptors ==> g in v'.descriptors && v'.descriptors[g] == v.descriptors[g]
  }

  /** Every row of the earlier chain is in the later one, where it was, and so is every descriptor. */
  ghost predicate Grew(v: Vault, v': Vault) {
    && v.auditSeq <= v'.auditSeq && (forall i :: i in v.audit ==> i in v'.audit && v'.audit[i] == v.audit[i])
    && Published(v, v')
  }

  ghost predicate SameChain(v: Vault, v': Vault) {
    v'.audit == v.audit && v'.auditSeq == v.auditSeq && v'.auditHead == v.auditHead && v'.descriptors == v.descriptors
  }

  /** No vault appears or goes, and every chain grew. */
  ghost predicate AllGrew(db: Db, db': Db) {
    && db'.vaults.Keys == db.vaults.Keys
    && forall pk :: pk in db.vaults ==> Grew(db.vaults[pk], db'.vaults[pk])
  }

  lemma AllGrewReflexive(db: Db)
    ensures AllGrew(db, db)
  {
  }

  lemma AppendedGrew(db: Db, pk: nat, v: Vault, e: AuditEvent, now: int)
    requires pk in db.vaults && SameChain(db.vaults[pk], v)
    ensures AppendAudit(v, e, now).Ok? ==> AllGrew(db, WithVault(db, pk, AppendAudit(v, e, now).value))
  {
  }

  lemma {:induction false} AllAppendedGrew(v: Vault, events: seq<AuditEvent>, now: int)
    ensures AppendAll(v, events, now).Ok? ==> Grew(v, AppendAll(v, events, now).value)
  {
    if events != [] {
      AllAppendedGrew(v, events[..|events| - 1], now);
    }
  }

  lemma RefuseGrew<T>(db: Db, pk: nat, e: AuditEvent, now: int, error: StoreError)
    requires pk in db.vaults
    ensures var r: Result<Done<T>, StoreError> := Refuse(db, pk, db.vaults[pk], e, now, error);
            r.Ok? ==> AllGrew(db, r.value.tx)
  {
    hide AllGrew, AppendAudit, WithVault;
    AppendedGrew(db, pk, db.vaults[pk], e, now);
  }

  lemma StoredGrew(db: Db, pk: nat, kind: RecordKind, name: NameHmac, version: nat, row: VersionRow, max: nat,
                   total: nat,
                   e: AuditEvent, now: int)
    requires pk in db.vaults
    ensures var s := Stored(db.vaults[pk], kind, name, version, row, max, total);
            s.Ok? && AppendAudit(s.value, e, now).Ok? ==>
              AllGrew(db, WithVault(db, pk, AppendAudit(s.value, e, now).value))
  {
    hide AllGrew, AppendAudit, Written, Prunable, WithVault;
    var s := Stored(db.vaults[pk], kind, name, version, row, max, total);
    if s.Ok? {
      AppendedGrew(db, pk, s.value, e, now);
    }
  }

  lemma PutGrew(db: Db, pk: nat, kind: RecordKind, name: NameHmac, pre: Precondition, w: RecordWrite,
                ctx: Ctx, limits: Limits)
    ensures AllGrew(db, PutRecord(db, pk, kind, name, pre, w, ctx, limits).db)
  {
    hide AllGrew, AppendAudit, Stored, Assigned, LiveNames, FreedBy, Vault.Records, Vault.HeadOf, Refuse, WithVault;
    AllGrewReflexive(db);
    if pk in db.vaults && w.valueCt.Some? {
      var v := db.vaults[pk];
      forall error: StoreError {
        RefuseGrew<nat>(db, pk, Event(ctx.actor, PutAction(kind), Some(name), None, Refused), ctx.now, error);
      }
      var slot := Assigned(pre, v.HeadOf(kind, name));
      var row := WrittenRow(w, ctx.actor);
      var total := v.bytesUsed + RowBytes(row) - FreedBy(v.Records(kind), name, limits.Versions(kind));
      if slot.Ok? && total >= 0 {
        StoredGrew(db, pk, kind, name, slot.value, row, limits.Versions(kind), total,
          WriteEvent(ctx.actor, PutAction(kind), Some(name), slot.value, Some(ValueHash(w.valueCt))), ctx.now);
      }
    }
  }

  lemma DeleteGrew(db: Db, pk: nat, kind: RecordKind, name: NameHmac, ifMatch: nat, w: RecordWrite,
                   ctx: Ctx, limits: Limits)
    ensures AllGrew(db, DeleteRecord(db, pk, kind, name, ifMatch, w, ctx, limits).db)
  {
    hide AllGrew, AppendAudit, Stored, FreedBy, Vault.Records, Vault.HeadOf, Refuse, WithVault;
    AllGrewReflexive(db);
    if pk in db.vaults {
      var v := db.vaults[pk];
      forall error: StoreError {
        RefuseGrew<nat>(db, pk, Event(ctx.actor, DeleteAction(kind), Some(name), None, Refused), ctx.now, error);
      }
      if v.HeadOf(kind, name).Some? {
        var next: nat := v.HeadOf(kind, name).value.version + 1;
        var spent, freed := v.bytesUsed + |w.nameCt|, FreedBy(v.Records(kind), name, limits.Versions(kind));
        var total := if spent < freed then 0 else spent - freed;
        StoredGrew(db, pk, kind, name, next, WrittenRow(w, ctx.actor), limits.Versions(kind), total,
          WriteEvent(ctx.actor, DeleteAction(kind), Some(name), next, None), ctx.now);
      }
    }
  }

  lemma MintGrew(db: Db, pk: nat, t: NewToken, ctx: Ctx, limits: Limits)
    ensures AllGrew(db, RegisterToken(db, pk, t, ctx, limits).db)
  {
    hide AppendAudit, ActiveTokens, Refuse, Grew;
    if pk in db.vaults {
      forall error: StoreError {
        RefuseGrew<TokenRow>(db, pk, Event(ctx.actor, TokenMint, None, Some(t.id), Refused), ctx.now, error);
      }
      var v := db.vaults[pk];
      AppendedGrew(db, pk, v.(revision := v.revision + 1), Event(ctx.actor, TokenMint, None, Some(t.id), Success),
          ctx.now);
    }
    AllGrewReflexive(db);
  }

  lemma ChildrenGrew(db: Db, pk: nat, pre: Precondition, blob: ChildrenBlob, ctx: Ctx, limits: Limits)
    ensures AllGrew(db, PutChildren(db, pk, pre, blob, ctx, limits).db)
  {
    hide AllGrew, AppendAudit, AssignedChildren, Refuse, WithVault;
    AllGrewReflexive(db);
    if pk in db.vaults {
      forall error: StoreError {
        RefuseGrew<nat>(db, pk, Event(ctx.actor, ChildrenWrite, None, None, Refused), ctx.now, error);
      }
      AppendedGrew(db, pk, db.vaults[pk].(children := Some(blob)),
        WriteEvent(ctx.actor, ChildrenWrite, None, blob.version, Some(Sha256(blob.ct))), ctx.now);
    }
  }

  lemma RevokeGrew(db: Db, pk: nat, ids: seq<TokenId>, reported: bool, ctx: Ctx, hook: bool)
    ensures AllGrew(db, RevokeTokens(db, pk, ids, reported, ctx, hook).db)
  {
    hide AppendAll, Removed, RevokeEvents, Without;
    if pk in db.vaults {
      var v := db.vaults[pk];
      AllAppendedGrew(v.(revision := v.revision + 1), RevokeEvents(Removed(db.tokens, pk, ids), ctx.actor, reported),
          ctx.now);
    }
  }

  lemma RotateGrew(db: Db, pk: nat, r: RotationRequest, ctx: Ctx, hook: bool)
    ensures AllGrew(db, ApplyRotation(db, pk, r, ctx, hook).db)
  {
    hide AppendAll, Removed, RotationEvents, Without, Resealed, Rebuilt, BatchBytes, StrictlyAccepted, Separated;
    if pk in db.vaults {
      AllAppendedGrew(RotatedVault(db.vaults[pk], r, ctx.actor),
        RotationEvents(r, Removed(db.tokens, pk, r.revoke), ctx.actor), ctx.now);
    }
  }

  lemma GrewTouched(v: Vault, now: int)
    ensures Grew(v, v.(lastActiveAt := now))
  {
  }

  /** Unless its vault is deleted, a chain only ever extends. */
  lemma StepGrew(db: Db, op: Recovery.Op, pk: nat)
    requires pk in db.vaults && !(op.Drop? && op.pk == pk)
    ensures var db' := Recovery.Step(db, op).db; pk in db'.vaults && Grew(db.vaults[pk], db'.vaults[pk])
  {
    hide PutRecord, DeleteRecord, RevokeTokens, ApplyRotation, RegisterToken, PutChildren, NextPk, AppendAudit, Grew;
    AllGrewReflexive(db);
    match op
    case Create(v, now) => NextPkIsFree(db);
    case KeepAlive(qk, now) => GrewTouched(db.vaults[pk], now);
    case Mint(qk, t, ctx, limits) => MintGrew(db, qk, t, ctx, limits);
    case Revoke(qk, ids, reported, ctx, hook) => RevokeGrew(db, qk, ids, reported, ctx, hook);
    case Put(qk, k, n, pre, w, ctx, limits) => PutGrew(db, qk, k, n, pre, w, ctx, limits);
    case Delete(qk, k, n, x, w, ctx, limits) => DeleteGrew(db, qk, k, n, x, w, ctx, limits);
    case WriteChildren(qk, pre, blob, ctx, limits) => ChildrenGrew(db, qk, pre, blob, ctx, limits);
    case Note(qk, e, now) =>
      if qk in db.vaults {
        AppendedGrew(db, qk, db.vaults[qk], e, now);
      }
    case Rotate(qk, r, ctx, hook) => RotateGrew(db, qk, r, ctx, hook);
    case _ =>
  }

  // ------------------------------------------------------------ reading a chain

  /** A sound chain as the list it is. */
  ghost function Rows(v: Vault): (rows: seq<AuditRow>)
    requires ChainOk(v)
    ensures |rows| == v.auditSeq && forall i :: 0 <= i < |rows| ==> rows[i] == v.audit[i + 1]
  {
    seq(v.auditSeq, i requires 0 <= i < v.auditSeq => v.audit[i + 1])
  }

  /** A chain that grew is the earlier list with more rows after it. */
  lemma GrewIsPrefix(v: Vault, v': Vault)
    requires ChainOk(v) && ChainOk(v') && Grew(v, v')
    ensures Rows(v) <= Rows(v')
  {
  }

  /** Over every run that leaves the vault in place, its chain stays sound and only gains rows at the end. */
  lemma {:induction false} ChainsOnlyExtend(db: Db, ops: seq<Recovery.Op>, pk: nat)
    requires Inv(db) && pk in db.vaults && Recovery.Spares(ops, pk)
    ensures var db' := Recovery.Run(db, ops);
            && Inv(db') && pk in db'.vaults
            && ChainOk(db.vaults[pk]) && ChainOk(db'.vaults[pk])
            && Rows(db.vaults[pk]) <= Rows(db'.vaults[pk])
    decreases |ops|
  {
    hide Inv, Recovery.Step, Chain, RecordsOk, DescriptorsOk, Grew;
    VaultIsOk(db, pk);
    if ops != [] {
      var front, last := ops[..|ops| - 1], ops[|ops| - 1];
      ChainsOnlyExtend(db, front, pk);
      var mid := Recovery.Run(db, front);
      var end := Recovery.Step(mid, last).db;
      Recovery.StepInv(mid, last);
      StepGrew(mid, last, pk);
      VaultIsOk(end, pk);
      GrewIsPrefix(mid.vaults[pk], end.vaults[pk]);
    }
  }

  lemma PublishedThrough(v: Vault, v': Vault, v'': Vault)
    requires Published(v, v') && Grew(v', v'')
    ensures Published(v, v'')
  {
  }

  /** Over every such run, no published descriptor changes. */
  lemma {:induction false} DescriptorsStay(db: Db, ops: seq<Recovery.Op>, pk: nat)
    requires pk in db.vaults && Recovery.Spares(ops, pk)
    ensures var db' := Recovery.Run(db, ops); pk in db'.vaults && Published(db.vaults[pk], db'.vaults[pk])
    decreases |ops|
  {
    hide Recovery.Step, Grew;
    if ops != [] {
      var front, last := ops[..|ops| - 1], ops[|ops| - 1];
      DescriptorsStay(db, front, pk);
      var mid := Recovery.Run(db, front);
      StepGrew(mid, last, pk);
      PublishedThrough(db.vaults[pk], mid.vaults[pk], Recovery.Step(mid, last).db.vaults[pk]);
    }
  }

  /** The rows after `after`, in order, at most `limit` of them: what the store answers. */
  function AuditAfter(v: Vault, after: nat, limit: nat): seq<AuditRow> {
    var seqs := Ascending(set i | i in v.audit && i > after);
    var n := if |seqs| < limit then |seqs| else limit;
    seq(n, i requires 0 <= i < n => assert seqs[i] in seqs; v.audit[seqs[i]])
  }

  function Least(a: nat, b: nat): nat {
    if a < b then a else b
  }

  function PageOf(rows: seq<AuditRow>, after: nat, limit: nat): seq<AuditRow> {
    if after >= |rows| then [] else rows[after..Least(after + limit, |rows|)]
  }

  /** `n` consecutive numbers in ascending order are what they must be. */
  lemma AscendingStep(s: set<nat>, lo: nat)
    requires lo in s && forall x :: x in s ==> lo <= x
    ensures Ascending(s) == [lo] + Ascending(s - {lo})
  {
    assert MinOf(s) == lo;
  }

  lemma {:induction false} AscendingRun(s: set<nat>, lo: nat, n: nat)
    requires forall x :: x in s <==> lo <= x < lo + n
    ensures |Ascending(s)| == n && forall i :: 0 <= i < n ==> Ascending(s)[i] == lo + i
    decreases n
  {
    hide Ascending, StrictlyAscending;
    if n == 0 {
      assert s == {};
    } else {
      AscendingStep(s, lo);
      AscendingRun(s - {lo}, lo + 1, n - 1);
    }
  }

  /** The store's page is a slice of the chain. */
  lemma StorePage(v: Vault, after: nat, limit: nat)
    requires ChainOk(v)
    ensures AuditAfter(v, after, limit) == PageOf(Rows(v), after, limit)
  {
    hide Ascending, LinkOk, StrictlyAscending;
    var s := set i | i in v.audit && i > after;
    var n := if after >= v.auditSeq then 0 else v.auditSeq - after;
    AscendingRun(s, after + 1, n);
    var page, slice := AuditAfter(v, after, limit), PageOf(Rows(v), after, limit);
    assert |page| == |slice| == Least(n, limit);
    forall i | 0 <= i < |page|
      ensures page[i] == slice[i]
    {
      assert Ascending(s)[i] == after + 1 + i;
      assert slice[i] == Rows(v)[after + i];
    }
  }

  const AUDIT_PAGE := 1000

  /** The rows of a page up to the first one this client cannot read. */
  function Known(page: seq<AuditRow>, known: AuditRow -> bool): (r: seq<AuditRow>)
    ensures r <= page && (forall i :: 0 <= i < |r| ==> known(r[i]))
    ensures |r| < |page| ==> !known(page[|r|])
  {
    if page == [] || !known(page[0]) then [] else [page[0]] + Known(page[1..], known)
  }

  /** A page, as far as it can be read, goes on where the rows before it ended. */
  lemma PageFollows(rows: seq<AuditRow>, start: nat, after: nat, known: AuditRow -> bool)
    requires start <= after <= |rows|
    ensures var sent := PageOf(rows, after, AUDIT_PAGE);
            var page := Known(sent, known);
            && |page| <= |sent| == Least(AUDIT_PAGE, |rows| - after)
            && rows[start..after] + page == rows[start..after + |page|]
            && (forall i :: 0 <= i < |page| ==> page[i] == rows[after + i])
            && (|page| < |sent| ==> !known(rows[after + |page|]))
  {
    hide Known;
  }

  /** The vault as the server has it at each request: its chain sound, and only ever longer. */
  ghost predicate Serves(at: nat -> Vault) {
    && (forall k: nat :: ChainOk(at(k)))
    && (forall k: nat :: Grew(at(k), at(k + 1)))
  }

  lemma ServedGrows(at: nat -> Vault, k: nat)
    requires Serves(at)
    ensures ChainOk(at(k)) && ChainOk(at(k + 1)) && Rows(at(k)) <= Rows(at(k + 1))
  {
    hide Chain, Grew;
    GrewIsPrefix(at(k), at(k + 1));
  }

  /** The client's paging loop. Request `k` is answered by the store as it is by then, `at(k)`, whose chain
  may have grown since request `k - 1`. The loop ends, with rows that follow `start` in order and can all
  be read. It stops early exactly at a row that cannot be; otherwise, without `until` the rows are all those
  after `start` of the chain last served, and with it they go up to at least `until` or to the end, and less
  than a page beyond. */
  method AuditRows(at: nat -> Vault, known: AuditRow -> bool, ghost bound: nat, start: nat, until: Option<nat>)
    returns (rows: seq<AuditRow>, served: nat, stopped: bool)
    requires Serves(at) && forall k: nat :: at(k).auditSeq <= bound
    requires start <= at(0).auditSeq
    ensures ChainOk(at(served)) && start + |rows| <= at(served).auditSeq
    ensures rows == Rows(at(served))[start..start + |rows|]
    ensures forall i :: 0 <= i < |rows| ==> known(rows[i])
    ensures stopped ==> start + |rows| < at(served).auditSeq && !known(Rows(at(served))[start + |rows|])
    ensures !stopped && until.None? ==> rows == Rows(at(served))[start..]
    ensures !stopped && until.Some? ==> start + |rows| == at(served).auditSeq || until.value <= start + |rows|
    ensures until.Some? ==> start + |rows| < (if start < until.value then until.value else start + 1) + AUDIT_PAGE
  {
    hide Known, Chain, AuditAfter, Rows, Serves, HasRead;
    var after := start;
    rows, served, stopped := [], 0, false;
    ReadsNothing(at, start, known);
    while true
      invariant HasRead(at(served), rows, start, after, known)
      invariant until.Some? ==> after == start || after < until.value
      decreases bound - after
    {
      ReadMeans(at(served), rows, start, after, known);
      var sent := AuditAfter(at(served), after, AUDIT_PAGE);
      var page := Known(sent, known);
      ReadsOn(at(served), rows, start, after, known);
      var n := |page|;
      if n > 0 {
        after := page[n - 1].seqNo;
      }
      rows := rows + page;
      ReadMeans(at(served), rows, start, after, known);
      if n < |sent| {
        stopped := true;
        return;
      }
      if n < AUDIT_PAGE || (until.Some? && after >= until.value) {
        return;
      }
      StillRead(at, served, rows, start, after, known);
      served := served + 1;
    }
  }

  /** `rows` are the chain's from `start` to `after`, and can be read. */
  ghost predicate HasRead(v: Vault, rows: seq<AuditRow>, start: nat, after: nat, known: AuditRow -> bool) {
    && ChainOk(v) && start <= after <= v.auditSeq && rows == Rows(v)[start..after]
    && forall i :: 0 <= i < |rows| ==> known(rows[i])
  }

  lemma ReadMeans(v: Vault, rows: seq<AuditRow>, start: nat, after: nat, known: AuditRow -> bool)
    requires HasRead(v, rows, start, after, known)
    ensures ChainOk(v) && start <= after <= v.auditSeq && |rows| == after - start && rows == Rows(v)[start..after]
    ensures forall i :: 0 <= i < |rows| ==> known(rows[i])
  {
    hide Chain;
  }

  lemma ReadsNothing(at: nat -> Vault, start: nat, known: AuditRow -> bool)
    requires Serves(at) && start <= at(0).auditSeq
    ensures HasRead(at(0), [], start, start, known)
  {
    hide Chain, Grew;
  }

  /** A further page, as far as it can be read, goes on from there. */
  lemma ReadsOn(v: Vault, rows: seq<AuditRow>, start: nat, after: nat, known: AuditRow -> bool)
    requires HasRead(v, rows, start, after, known)
    ensures var sent := AuditAfter(v, after, AUDIT_PAGE);
            var page := Known(sent, known);
            && |page| <= |sent| == Least(AUDIT_PAGE, v.auditSeq - after)
            && HasRead(v, rows + page, start, after + |page|, known)
            && (page != [] ==> page[|page| - 1].seqNo == after + |page|)
            && (|page| < |sent| ==> after + |page| < v.auditSeq && !known(Rows(v)[after + |page|]))
  {
    hide Known, PageOf, Chain, AuditAfter;
    StorePage(v, after, AUDIT_PAGE);
    PageFollows(Rows(v), start, after, known);
    var page := Known(AuditAfter(v, after, AUDIT_PAGE), known);
    if page != [] {
      RowNumber(v, after + |page| - 1);
    }
  }

  lemma StillRead(at: nat -> Vault, k: nat, rows: seq<AuditRow>, start: nat, after: nat, known: AuditRow -> bool)
    requires Serves(at) && HasRead(at(k), rows, start, after, known)
    ensures HasRead(at(k + 1), rows, start, after, known)
  {
    hide Chain, Serves;
    ServedGrows(at, k);
  }

  lemma RowNumber(v: Vault, i: nat)
    requires ChainOk(v) && i < v.auditSeq
    ensures Rows(v)[i].seqNo == i + 1
  {
    assert LinkOk(v.audit, i + 1);
  }

  /** The database after the first `k` of some runs of calls. */
  function StateAt(db: Db, runs: nat -> seq<Recovery.Op>, k: nat): Db {
    if k == 0 then db else Recovery.Run(StateAt(db, runs, k - 1), runs(k - 1))
  }

  function VaultAt(db: Db, runs: nat -> seq<Recovery.Op>, pk: nat, k: nat): Vault
    requires pk in db.vaults
  {
    var s := StateAt(db, runs, k);
    if pk in s.vaults then s.vaults[pk] else db.vaults[pk]
  }

  lemma {:induction false} StateAtIsSound(db: Db, runs: nat -> seq<Recovery.Op>, pk: nat, k: nat)
    requires Inv(db) && pk in db.vaults && forall k: nat :: Recovery.Spares(runs(k), pk)
    ensures Inv(StateAt(db, runs, k)) && pk in StateAt(db, runs, k).vaults
    decreases k
  {
    hide Inv, Recovery.Run, Recovery.Spares, Chain;
    if k > 0 {
      StateAtIsSound(db, runs, pk, k - 1);
      ChainsOnlyExtend(StateAt(db, runs, k - 1), runs(k - 1), pk);
    }
  }

  lemma {:induction false} RunGrows(db: Db, ops: seq<Recovery.Op>, pk: nat)
    requires pk in db.vaults && Recovery.Spares(ops, pk)
    ensures pk in Recovery.Run(db, ops).vaults && Grew(db.vaults[pk], Recovery.Run(db, ops).vaults[pk])
    decreases |ops|
  {
    hide Recovery.Step;
    if ops != [] {
      hide Grew;
      var front, last := ops[..|ops| - 1], ops[|ops| - 1];
      RunGrows(db, front, pk);
      var mid := Recovery.Run(db, front);
      StepGrew(mid, last, pk);
      GrewTransitive(db.vaults[pk], mid.vaults[pk], Recovery.Step(mid, last).db.vaults[pk]);
    }
  }

  lemma GrewTransitive(u: Vault, v: Vault, w: Vault)
    requires Grew(u, v) && Grew(v, w)
    ensures Grew(u, w)
  {
  }

  /** Whatever calls run between the requests, as long as the vault stays, the store serves such a chain;
  and once no more come, it is bounded. So the loop applies to the store itself. */
  lemma RunsServe(db: Db, runs: nat -> seq<Recovery.Op>, pk: nat, settled: nat)
    requires Inv(db) && pk in db.vaults && forall k: nat :: Recovery.Spares(runs(k), pk)
    requires forall k: nat :: k >= settled ==> runs(k) == []
    ensures Serves((k: nat) => VaultAt(db, runs, pk, k))
    ensures forall k: nat :: VaultAt(db, runs, pk, k).auditSeq <= VaultAt(db, runs, pk, settled).auditSeq
  {
    hide Inv, Recovery.Run, Recovery.Spares, Chain, StateAt;
    forall k: nat
      ensures ChainOk(VaultAt(db, runs, pk, k)) && Grew(VaultAt(db, runs, pk, k), VaultAt(db, runs, pk, k + 1))
    {
      NextState(db, runs, pk, k);
    }
    forall k: nat
      ensures VaultAt(db, runs, pk, k).auditSeq <= VaultAt(db, runs, pk, settled).auditSeq
    {
      Settles(db, runs, pk, k, settled);
    }
  }

  lemma NextState(db: Db, runs: nat -> seq<Recovery.Op>, pk: nat, k: nat)
    requires Inv(db) && pk in db.vaults && forall k: nat :: Recovery.Spares(runs(k), pk)
    ensures ChainOk(VaultAt(db, runs, pk, k)) && Grew(VaultAt(db, runs, pk, k), VaultAt(db, runs, pk, k + 1))
    ensures runs(k) == [] ==> VaultAt(db, runs, pk, k + 1) == VaultAt(db, runs, pk, k)
  {
    hide Inv, Recovery.Spares, Chain, Grew, Recovery.Step;
    StateAtIsSound(db, runs, pk, k);
    StateAtIsSound(db, runs, pk, k + 1);
    assert StateAt(db, runs, k + 1) == Recovery.Run(StateAt(db, runs, k), runs(k));
    VaultIsOk(StateAt(db, runs, k), pk);
    RunGrows(StateAt(db, runs, k), runs(k), pk);
  }

  lemma {:induction false} Settles(db: Db, runs: nat -> seq<Recovery.Op>, pk: nat, k: nat, settled: nat)
    requires Inv(db) && pk in db.vaults && forall k: nat :: Recovery.Spares(runs(k), pk)
    requires forall k: nat :: k >= settled ==> runs(k) == []
    ensures VaultAt(db, runs, pk, k).auditSeq <= VaultAt(db, runs, pk, settled).auditSeq
    decreases if k < settled then settled - k else k - settled
  {
    hide Inv, Recovery.Spares, Chain, VaultAt;
    if k < settled {
      NextState(db, runs, pk, k);
      Settles(db, runs, pk, k + 1, settled);
    } else if k > settled {
      NextState(db, runs, pk, k - 1);
      Settles(db, runs, pk, k - 1, settled);
    }
  }
}
