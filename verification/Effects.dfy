/** What each accepted call leaves, column by column: every field the caller sent is where it belongs, the
audit log says what was done, and nothing else has changed. */
module Effects {
  import opened Types
  import opened Tables
  import opened Rotations
  import opened Database
  import opened Invariant
  import Recovery
  import Regularity
  import Restoration

  // ------------------------------------------------------------ what is said of every call

  /** One row more, at the end of the chain. */
  ghost predicate Logged(v: Vault, v': Vault, ts: int, e: AuditEvent) {
    && v'.auditSeq == v.auditSeq + 1 && v'.audit.Keys == v.audit.Keys + {v'.auditSeq}
    && (forall i :: i in v.audit && i != v'.auditSeq ==> v'.audit[i] == v.audit[i])
    && var row := v'.audit[v'.auditSeq];
       && row.seqNo == v'.auditSeq && row.ts == ts && row.prev == v.auditHead && row.event == e
       && row.hash == RowDigest(v'.auditSeq, ts, v.auditHead, e) && v'.auditHead == row.hash
  }

  /** The rows of `es`, in order, at the end of the chain. */
  ghost predicate LoggedAll(v: Vault, v': Vault, ts: int, es: seq<AuditEvent>) {
    && v'.auditSeq == v.auditSeq + |es|
    && (forall i :: i in v.audit && i <= v.auditSeq ==> i in v'.audit && v'.audit[i] == v.audit[i])
    && (forall i :: 0 <= i < |es| ==> Says(v', v.auditSeq + 1 + i, ts, es[i]))
  }

  ghost predicate Says(v: Vault, n: nat, ts: int, e: AuditEvent) {
    n in v.audit && v.audit[n].event == e && v.audit[n].ts == ts
  }

  /** Of all vaults only this one changed, and no spent id. */
  ghost predicate OnlyVault(db: Db, db': Db, pk: nat) {
    && pk in db.vaults && db'.vaults.Keys == db.vaults.Keys && db'.spent == db.spent
    && forall qk :: qk in db.vaults && qk != pk ==> db'.vaults[qk] == db.vaults[qk]
  }

  /** What no call on an existing vault changes. */
  ghost predicate SameIdentity(v: Vault, v': Vault) {
    && v'.id == v.id && v'.ownerSignPub == v.ownerSignPub && v'.ownerBoxPub == v.ownerBoxPub
    && v'.createdAt == v.createdAt && v'.lastActiveAt == v.lastActiveAt
  }

  ghost predicate SameKeys(v: Vault, v': Vault) {
    v'.generation == v.generation && v'.ownerBundle == v.ownerBundle && v'.descriptors == v.descriptors
  }

  ghost predicate SameRecords(v: Vault, v': Vault) {
    v'.secrets == v.secrets && v'.configs == v.configs && v'.bytesUsed == v.bytesUsed
  }

  lemma AppendLogs(v: Vault, e: AuditEvent, now: int)
    requires ChainOk(v)
    ensures AppendAudit(v, e, now).Ok?
    ensures var v' := AppendAudit(v, e, now).value;
            Logged(v, v', now, e) && v' == v.(audit := v'.audit, auditSeq := v'.auditSeq, auditHead := v'.auditHead)
  {
    assert v.auditSeq + 1 !in v.audit;
  }

  lemma LoggedOneMore(v: Vault, mid: Vault, v': Vault, ts: int, front: seq<AuditEvent>, last: AuditEvent)
    requires LoggedAll(v, mid, ts, front) && Logged(mid, v', ts, last) && ChainOk(v) && ChainOk(mid)
    ensures LoggedAll(v, v', ts, front + [last])
  {
    hide LinkOk;
  }

  lemma {:induction false} AppendAllLogs(v: Vault, es: seq<AuditEvent>, now: int)
    requires ChainOk(v)
    ensures AppendAll(v, es, now).Ok?
    ensures var v' := AppendAll(v, es, now).value;
            && ChainOk(v') && LoggedAll(v, v', now, es)
            && v' == v.(audit := v'.audit, auditSeq := v'.auditSeq, auditHead := v'.auditHead)
    decreases |es|
  {
    hide Chain, AppendAudit, Logged, LoggedAll;
    if es == [] {
      assert LoggedAll(v, v, now, []) by { NothingLogged(v, now); }
    } else {
      var front, last := es[..|es| - 1], es[|es| - 1];
      AppendAllLogs(v, front, now);
      var mid := AppendAll(v, front, now).value;
      AppendAuditOk(mid, last, now);
      AppendLogs(mid, last, now);
      LoggedOneMore(v, mid, AppendAudit(mid, last, now).value, now, front, last);
      assert front + [last] == es;
    }
  }

  lemma NothingLogged(v: Vault, ts: int)
    ensures LoggedAll(v, v, ts, [])
  {
  }

  // ------------------------------------------------------------ records

  /** The row is the write's, field by field. */
  ghost predicate Holds(row: VersionRow, w: RecordWrite, actor: Actor) {
    && row.nameCt == w.nameCt && row.valueCt == w.valueCt && row.generation == w.generation
    && row.writtenAt == w.writtenAt && row.sig == w.sig && row.writtenBy == actor
    && row.tombstone == w.valueCt.None?
    && row.ctHash == Sha256(match w.valueCt case Some(value) => value case None => [])
  }

  /** One version of one name was written: its row holds the write, its head is on it, no other row changed,
  and only the name's oldest versions went. */
  ghost predicate Stores(t: Table, t': Table, name: NameHmac, version: nat, w: RecordWrite, actor: Actor) {
    var k := Key(name, version);
    && k !in t.rows && k in t'.rows && Holds(t'.rows[k], w, actor)
    && t'.heads == t.heads[name := Head(version, w.valueCt.None?)]
    && (forall j :: j in t'.rows && j != k ==> j in t.rows && t'.rows[j] == t.rows[j])
    && (forall j :: j in t.rows && j !in t'.rows ==>
          j.name == name && forall i: nat :: Key(name, i) in t'.rows ==> j.version < i)
  }

  ghost predicate StoresIn(v: Vault, v': Vault, kind: RecordKind, name: NameHmac, version: nat, w: RecordWrite,
                           actor: Actor)
  {
    && SameIdentity(v, v') && SameKeys(v, v') && v'.children == v.children && v'.revision == v.revision + 1
    && match kind
       case Secret => Stores(v.secrets, v'.secrets, name, version, w, actor) && v'.configs == v.configs
       case Config => Stores(v.configs, v'.configs, name, version, w, actor) && v'.secrets == v.secrets
  }

  lemma WrittenStores(t: Table, generation: nat, name: NameHmac, w: RecordWrite, actor: Actor, max: nat)
    requires TableOk(t, generation)
    ensures var n := NextVersion(t, name);
            Stores(t, Written(t, name, n, WrittenRow(w, actor), Prunable(t, name, max)), name, n, w, actor)
  {
    hide Prunable, RowsOk, HeadsOk;
    PrunableIsOldest(t, name, max);
    NextIsFree(t, generation, name);
    var n, pruned := NextVersion(t, name), Prunable(t, name, max);
    var t' := Written(t, name, n, WrittenRow(w, actor), pruned);
    assert Holds(WrittenRow(w, actor), w, actor);
    hide Holds, WrittenRow, StrictlyAscending;
    forall j | j in t.rows && j !in t'.rows
      ensures j.name == name && forall i: nat :: Key(name, i) in t'.rows ==> j.version < i
    {
      assert j in KeysOf(name, pruned);
      assert j.version in pruned;
      BeforeNext(t, generation, name, j.version);
    }
  }

  lemma BeforeNext(t: Table, generation: nat, name: NameHmac, version: nat)
    requires TableOk(t, generation) && Key(name, version) in t.rows
    ensures version < NextVersion(t, name)
  {
    hide RowOk;
  }

  lemma StoredStores(v: Vault, kind: RecordKind, name: NameHmac, w: RecordWrite, actor: Actor, max: nat, total: nat,
                     e: AuditEvent, now: int)
    requires VaultOk(v)
    ensures var s := Stored(v, kind, name, NextVersion(v.Records(kind), name), WrittenRow(w, actor), max, total);
            && s.Ok? && AppendAudit(s.value, e, now).Ok?
            && var v' := AppendAudit(s.value, e, now).value;
               StoresIn(v, v', kind, name, NextVersion(v.Records(kind), name), w, actor) && Logged(v, v', now, e)
  {
    hide Stores, Written, Prunable, RowsOk, HeadsOk, WrittenRow, NextVersion, LinkOk, TotalBytes;
    var t := v.Records(kind);
    WrittenStores(t, v.generation, name, w, actor, max);
    NextIsFree(t, v.generation, name);
    var s := Stored(v, kind, name, NextVersion(t, name), WrittenRow(w, actor), max, total).value;
    AppendLogs(s, e, now);
  }

  lemma NextIsFree(t: Table, generation: nat, name: NameHmac)
    requires TableOk(t, generation)
    ensures Key(name, NextVersion(t, name)) !in t.rows
  {
    NextVersionIsFree(t, generation, name);
  }

  /** An accepted put. */
  lemma PutStores(db: Db, pk: nat, kind: RecordKind, name: NameHmac, pre: Precondition, w: RecordWrite, ctx: Ctx,
                  limits: Limits)
    requires Inv(db) && PutRecord(db, pk, kind, name, pre, w, ctx, limits).answer.Ok?
    ensures var o := PutRecord(db, pk, kind, name, pre, w, ctx, limits);
            && OnlyVault(db, o.db, pk) && o.db.tokens == db.tokens && o.db.lastApplied == db.lastApplied
            && o.journaled == [] && w.valueCt.Some? && o.answer.value == w.version
            && StoresIn(db.vaults[pk], o.db.vaults[pk], kind, name, o.answer.value, w, ctx.actor)
            && Logged(db.vaults[pk], o.db.vaults[pk], ctx.now,
                      AuditEvent(ctx.actor, if kind == Secret then SecretPut else ConfigPut, Some(name), None, Success,
                                 o.answer.value, Some(Sha256(w.valueCt.value))))
  {
    hide Inv, VaultOk, Stored, AppendAudit, FreedBy, LiveNames, Assigned, Vault.Records, Vault.HeadOf, NextVersion,
         StoresIn, Logged, WrittenRow;
    LoadVaultOk(db, pk);
    var v := db.vaults[pk];
    VaultIsOk(db, pk);
    AssignedIsNext(pre, v, kind, name);
    var next, freed := NextVersion(v.Records(kind), name), FreedBy(v.Records(kind), name, limits.Versions(kind));
    var total := v.bytesUsed + RowBytes(WrittenRow(w, ctx.actor)) - freed;
    RefuseErrs<nat>(db, pk, Event(ctx.actor, PutAction(kind), Some(name), None, Refused), ctx.now);
    StoredStores(v, kind, name, w, ctx.actor, limits.Versions(kind), total,
      WriteEvent(ctx.actor, PutAction(kind), Some(name), next, Some(ValueHash(w.valueCt))), ctx.now);
  }

  lemma RefuseErrs<T>(db: Db, pk: nat, e: AuditEvent, now: int)
    requires Inv(db) && pk in db.vaults
    ensures forall error :: (var r: Result<Done<T>, StoreError> := Refuse(db, pk, db.vaults[pk], e, now, error);
              r.Ok? && r.value.answer == Err(error))
  {
    hide Inv, AppendAudit;
    forall error
      ensures (var r: Result<Done<T>, StoreError> := Refuse(db, pk, db.vaults[pk], e, now, error);
               r.Ok? && r.value.answer == Err(error))
    {
      RefuseInv<T>(db, pk, e, now, error);
    }
  }

  /** An accepted delete. */
  lemma DeleteStores(db: Db, pk: nat, kind: RecordKind, name: NameHmac, x: nat, w: RecordWrite, ctx: Ctx,
                     limits: Limits)
    requires Inv(db) && DeleteRecord(db, pk, kind, name, x, w, ctx, limits).answer.Ok?
    ensures var o := DeleteRecord(db, pk, kind, name, x, w, ctx, limits);
            && OnlyVault(db, o.db, pk) && o.db.tokens == db.tokens && o.db.lastApplied == db.lastApplied
            && o.journaled == [] && w.valueCt.None? && o.answer.value == w.version
            && StoresIn(db.vaults[pk], o.db.vaults[pk], kind, name, o.answer.value, w, ctx.actor)
            && Logged(db.vaults[pk], o.db.vaults[pk], ctx.now,
                      AuditEvent(ctx.actor, if kind == Secret then SecretDelete else ConfigDelete, Some(name), None,
                                 Success, o.answer.value, None))
  {
    hide Inv, VaultOk, Stored, AppendAudit, FreedBy, StoresIn, Logged, WrittenRow;
    LoadVaultOk(db, pk);
    var v := db.vaults[pk];
    VaultIsOk(db, pk);
    var next := NextVersion(v.Records(kind), name);
    var spent, freed := v.bytesUsed + |w.nameCt|, FreedBy(v.Records(kind), name, limits.Versions(kind));
    RefuseErrs<nat>(db, pk, Event(ctx.actor, DeleteAction(kind), Some(name), None, Refused), ctx.now);
    StoredStores(v, kind, name, w, ctx.actor, limits.Versions(kind), if spent < freed then 0 else spent - freed,
      WriteEvent(ctx.actor, DeleteAction(kind), Some(name), next, None), ctx.now);
  }

  // ------------------------------------------------------------ vaults and tokens

  /** An accepted creation: the vault under an unused row id, holding what was asked for and nothing else. */
  lemma CreateStores(db: Db, v: NewVault, now: int)
    requires Inv(db)
    ensures var o := CreateVault(db, v, now);
            && o.journaled == [] && o.db.tokens == db.tokens && o.db.spent == db.spent
            && o.db.lastApplied == db.lastApplied
            && (o.answer.Err? <==> exists pk :: pk in db.vaults && db.vaults[pk].id == v.id)
            && (o.answer.Err? ==> o.answer == Err(Exists) && o.db == db)
            && (o.answer.Ok? ==>
                 && var pk := o.answer.value;
                 && pk !in db.vaults && o.db.vaults.Keys == db.vaults.Keys + {pk}
                 && (forall qk :: qk in db.vaults ==> o.db.vaults[qk] == db.vaults[qk])
                 && MadeFrom(o.db.vaults[pk], v, now))
  {
    hide Inv, NextPk;
    CreateVaultInv(db, v, now);
    NextPkIsFree(db);
  }

  ghost predicate MadeFrom(u: Vault, v: NewVault, now: int) {
    && u.id == v.id && u.ownerSignPub == v.ownerSignPub && u.ownerBoxPub == v.ownerBoxPub
    && u.ownerBundle == v.ownerBundle && u.generation == 1 && u.descriptors == map[1 := v.descriptor]
    && u.revision == 1 && u.createdAt == now && u.lastActiveAt == now && u.bytesUsed == 0
    && u.secrets == EmptyTable && u.configs == EmptyTable && u.children == None
    && u.auditSeq == 1 && u.audit.Keys == {1} && u.auditHead == u.audit[1].hash
    && u.audit[1].seqNo == 1 && u.audit[1].ts == now && u.audit[1].prev == Genesis
    && u.audit[1].event == AuditEvent(Owner, VaultCreate, None, None, Success, 0, Some(Sha256(v.descriptor.descriptor)))
  }

  /** Activity moves the time it was last seen, when that is over a minute ago, and nothing else. */
  lemma TouchMoves(db: Db, pk: nat, now: int)
    ensures var o := Touch(db, pk, now);
            if pk in db.vaults && now - db.vaults[pk].lastActiveAt > 60
            then o.db == db.(vaults := db.vaults[pk := db.vaults[pk].(lastActiveAt := now)])
            else o.db == db
  {
  }

  /** An accepted mint: the token's row is the request's, field by field, and no other token changes. */
  lemma MintStores(db: Db, pk: nat, t: NewToken, ctx: Ctx, limits: Limits)
    requires Inv(db) && RegisterToken(db, pk, t, ctx, limits).answer.Ok?
    ensures var o := RegisterToken(db, pk, t, ctx, limits);
            && OnlyVault(db, o.db, pk) && o.db.lastApplied == db.lastApplied && o.journaled == []
            && t.id !in db.tokens && o.db.tokens.Keys == db.tokens.Keys + {t.id}
            && (forall s :: s in db.tokens ==> o.db.tokens[s] == db.tokens[s])
            && o.db.tokens[t.id] == o.answer.value && MintedFrom(o.answer.value, pk, t, ctx.now)
            && var v, v' := db.vaults[pk], o.db.vaults[pk];
               && SameIdentity(v, v') && SameKeys(v, v') && SameRecords(v, v') && v'.children == v.children
               && v'.revision == v.revision + 1
               && Logged(v, v', ctx.now, AuditEvent(ctx.actor, TokenMint, None, Some(t.id), Success, 0, None))
  {
    hide Inv, ActiveTokens, LinkOk, RecordsOk;
    LoadVaultOk(db, pk);
    VaultIsOk(db, pk);
    RefuseErrs<TokenRow>(db, pk, Event(ctx.actor, TokenMint, None, Some(t.id), Refused), ctx.now);
    AppendLogs(db.vaults[pk].(revision := db.vaults[pk].revision + 1),
      Event(ctx.actor, TokenMint, None, Some(t.id), Success), ctx.now);
  }

  ghost predicate MintedFrom(row: TokenRow, pk: nat, t: NewToken, now: int) {
    && row.vaultPk == pk && row.authPub == t.authPub && row.boxPub == t.boxPub && row.scope == t.scope
    && row.createdAt == now && row.expiresAt == t.expiresAt && row.bundle == t.bundle
    && row.generation == t.generation && row.allowList == t.allowList
  }

  /** The tokens that `ids` names and the vault has, once each, in the order named. */
  ghost predicate Lists(tokens: map<TokenId, TokenRow>, pk: nat, ids: seq<TokenId>, listed: seq<TokenId>) {
    && Recovery.NoRepeats(listed) && InOrder(ids, listed)
    && forall t :: t in listed <==> t in ids && t in tokens && tokens[t].vaultPk == pk
  }

  /** `t` is first named at `a`. */
  ghost predicate FirstAt(ids: seq<TokenId>, t: TokenId, a: nat) {
    a < |ids| && ids[a] == t && t !in ids[..a]
  }

  ghost predicate InOrder(ids: seq<TokenId>, listed: seq<TokenId>) {
    forall i, j, a: nat, b: nat ::
      0 <= i < j < |listed| && FirstAt(ids, listed[i], a) && FirstAt(ids, listed[j], b) ==> a < b
  }

  lemma FirstInFront(ids: seq<TokenId>, t: TokenId, a: nat)
    requires ids != [] && FirstAt(ids, t, a) && t in ids[..|ids| - 1]
    ensures FirstAt(ids[..|ids| - 1], t, a)
  {
    var front, before := ids[..|ids| - 1], ids[..a];
    var k :| 0 <= k < |front| && front[k] == t;
    assert ids[k] == t;
    assert forall i :: 0 <= i < |before| ==> before[i] == ids[i];
    assert a <= k;
    assert front[..a] == before;
  }

  lemma {:induction false} RemovedInOrder(tokens: map<TokenId, TokenRow>, pk: nat, ids: seq<TokenId>)
    ensures InOrder(ids, Removed(tokens, pk, ids))
    decreases |ids|
  {
    if ids != [] {
      var front, last := ids[..|ids| - 1], ids[|ids| - 1];
      RemovedInOrder(tokens, pk, front);
      var before, removed := Removed(tokens, pk, front), Removed(tokens, pk, ids);
      forall i, j, a: nat, b: nat
        | 0 <= i < j < |removed| && FirstAt(ids, removed[i], a) && FirstAt(ids, removed[j], b)
        ensures a < b
      {
        assert removed[i] == before[i] && before[i] in before;
        FirstInFront(ids, removed[i], a);
        if j < |before| {
          assert before[j] in before;
          FirstInFront(ids, removed[j], b);
        } else {
          LastIsFirstHere(ids, last, b);
        }
      }
    }
  }

  lemma LastIsFirstHere(ids: seq<TokenId>, t: TokenId, b: nat)
    requires ids != [] && t == ids[|ids| - 1] && FirstAt(ids, t, b) && t !in ids[..|ids| - 1]
    ensures b == |ids| - 1
  {
    var front := ids[..|ids| - 1];
    assert forall i :: 0 <= i < |front| ==> front[i] == ids[i];
  }

  /** What a revocation of these tokens says, a row each. */
  function RevocationLog(actor: Actor, reported: bool, removed: seq<TokenId>): (es: seq<AuditEvent>)
    ensures |es| == |removed|
  {
    seq(|removed|, i requires 0 <= i < |removed| =>
      AuditEvent(actor, if reported then TokenReport else TokenRevoke, None, Some(removed[i]), Success, 0, None))
  }

  lemma RevocationLogIs(actor: Actor, reported: bool, removed: seq<TokenId>)
    ensures RevokeEvents(removed, actor, reported) == RevocationLog(actor, reported, removed)
  {
  }

  /** An accepted revocation: the vault's listed tokens go, each with its own row in the log. */
  lemma RevocationLeaves(db: Db, pk: nat, ids: seq<TokenId>, reported: bool, ctx: Ctx, hook: bool)
    requires Inv(db) && RevokeTokens(db, pk, ids, reported, ctx, hook).answer.Ok?
    ensures var o := RevokeTokens(db, pk, ids, reported, ctx, hook);
            var removed := o.answer.value;
            && OnlyVault(db, o.db, pk) && removed != [] && Lists(db.tokens, pk, ids, removed)
            && o.db.tokens == (map t | t in db.tokens && t !in removed :: db.tokens[t])
            && o.db.lastApplied == db.lastApplied + 1
            && o.journaled == [JournalRecord(o.db.lastApplied, ctx.now,
                                             Revocation(db.vaults[pk].id, removed, ctx.actor, reported))]
            && RevokedIn(db.vaults[pk], o.db.vaults[pk], ctx.now, RevocationLog(ctx.actor, reported, removed))
  {
    hide Inv, Removed, InOrder, Revoked, RevokedIn, RevocationLog;
    LoadVaultOk(db, pk);
    Recovery.RemovedIsDistinct(db.tokens, pk, ids);
    RemovedInOrder(db.tokens, pk, ids);
    RevokedLeaves(db, pk, Removed(db.tokens, pk, ids), ctx.actor, reported, ctx.now);
  }

  /** What a revocation leaves of its vault. */
  ghost predicate RevokedIn(v: Vault, v': Vault, ts: int, es: seq<AuditEvent>) {
    && SameIdentity(v, v') && SameKeys(v, v') && SameRecords(v, v') && v'.children == v.children
    && v'.revision == v.revision + 1 && LoggedAll(v, v', ts, es)
  }

  lemma RevokedLeaves(db: Db, pk: nat, removed: seq<TokenId>, actor: Actor, reported: bool, now: int)
    requires Inv(db) && pk in db.vaults
    ensures var r := Revoked(db, pk, db.vaults[pk], removed, actor, reported, now);
            && r.Ok? && OnlyVault(db, r.value, pk) && r.value.lastApplied == db.lastApplied
            && r.value.tokens == (map t | t in db.tokens && t !in removed :: db.tokens[t])
            && RevokedIn(db.vaults[pk], r.value.vaults[pk], now, RevocationLog(actor, reported, removed))
  {
    hide Inv, Chain, RecordsOk, AppendAll, LoggedAll, RevokeEvents, RevocationLog;
    VaultIsOk(db, pk);
    var v, es := db.vaults[pk], RevokeEvents(removed, actor, reported);
    var bumped := v.(revision := v.revision + 1);
    AppendAllLogs(bumped, es, now);
    RevocationLogIs(actor, reported, removed);
    LoggedFrom(bumped, v, AppendAll(bumped, es, now).value, now, es);
  }

  /** A replayed revocation leaves the same of whatever vault it lands on, and nothing where none of its
  tokens is left. */
  lemma ReplayedRevocationLeaves(db: Db, record: JournalRecord, pk: nat)
    requires Inv(db) && Recovery.Admissible(db, record) && record.op.Revocation? && Named(db, pk, record.op.vaultId)
    ensures var o, op := Replay(db, record), record.op;
            var removed := Removed(db.tokens, pk, op.tokenIds);
            && Lists(db.tokens, pk, op.tokenIds, removed) && o.answer == Ok(removed != [])
            && o.db.lastApplied == record.seqNo
            && if removed == [] then o.db == db.(lastApplied := record.seqNo)
               else
                 && OnlyVault(db, o.db, pk)
                 && o.db.tokens == (map t | t in db.tokens && t !in removed :: db.tokens[t])
                 && RevokedIn(db.vaults[pk], o.db.vaults[pk], record.ts, RevocationLog(op.actor, op.reported, removed))
  {
    hide Inv, Removed, InOrder, Revoked, RevokedIn, RevocationLog, LoadById;
    var op := record.op;
    Recovery.LoadByIdOk(db, pk, op.vaultId);
    Recovery.RemovedIsDistinct(db.tokens, pk, op.tokenIds);
    RemovedInOrder(db.tokens, pk, op.tokenIds);
    RevokedLeaves(db, pk, Removed(db.tokens, pk, op.tokenIds), op.actor, op.reported, record.ts);
  }

  lemma LoggedFrom(u: Vault, v: Vault, v': Vault, ts: int, es: seq<AuditEvent>)
    requires LoggedAll(u, v', ts, es) && u.audit == v.audit && u.auditSeq == v.auditSeq
    ensures LoggedAll(v, v', ts, es)
  {
  }

  /** A vault that is deleted goes with its tokens, and takes nothing else. */
  lemma DeletionLeaves(db: Db, pk: nat, now: int, hook: bool)
    requires Inv(db) && DeleteVault(db, pk, now, hook).answer.Ok?
    ensures var o := DeleteVault(db, pk, now, hook);
            && pk in db.vaults && o.db.vaults == db.vaults - {pk} && o.db.spent == db.spent
            && (forall t :: t in o.db.tokens <==> t in db.tokens && db.tokens[t].vaultPk != pk)
            && (forall t :: t in o.db.tokens ==> o.db.tokens[t] == db.tokens[t])
            && o.db.lastApplied == db.lastApplied + 1
            && o.journaled == [JournalRecord(o.db.lastApplied, now, Deletion(db.vaults[pk].id))]
  {
    hide Inv;
    LoadVaultOk(db, pk);
  }

  /** A note is a row in the log and nothing else. */
  lemma NoteLeaves(db: Db, pk: nat, e: AuditEvent, now: int)
    requires Inv(db)
    ensures var o := Record(db, pk, e, now);
            if pk !in db.vaults then o == Outcome(db, Err(NotFound), [])
            else
              && o.answer.Ok? && o.journaled == [] && OnlyVault(db, o.db, pk) && o.db.tokens == db.tokens
              && o.db.lastApplied == db.lastApplied && OnlyLogged(db.vaults[pk], o.db.vaults[pk], now, e)
  {
    hide Inv, Chain, RecordsOk, AppendAudit, Logged;
    if pk in db.vaults {
      VaultIsOk(db, pk);
      AppendLogs(db.vaults[pk], e, now);
    }
  }

  /** Nothing changed but for one row in the log. */
  ghost predicate OnlyLogged(v: Vault, v': Vault, ts: int, e: AuditEvent) {
    && SameIdentity(v, v') && SameKeys(v, v') && SameRecords(v, v') && v'.children == v.children
    && v'.revision == v.revision && Logged(v, v', ts, e)
  }

  // ------------------------------------------------------------ refusals

  /** What a refused call leaves: one row that says who tried what. */
  ghost predicate OnlyRefused(db: Db, db': Db, pk: nat, ts: int, e: AuditEvent) {
    && OnlyVault(db, db', pk) && db'.tokens == db.tokens && db'.lastApplied == db.lastApplied
    && OnlyLogged(db.vaults[pk], db'.vaults[pk], ts, e)
  }

  lemma RefuseSays<T>(db: Db, pk: nat, e: AuditEvent, now: int)
    requires Inv(db) && pk in db.vaults
    ensures forall error :: (var r: Result<Done<T>, StoreError> := Refuse(db, pk, db.vaults[pk], e, now, error);
              r.Ok? && r.value.answer == Err(error) && OnlyRefused(db, r.value.tx, pk, now, e))
  {
    hide Inv, Chain, RecordsOk, AppendAudit, Logged;
    VaultIsOk(db, pk);
    AppendLogs(db.vaults[pk], e, now);
  }

  lemma RefusedPutSays(db: Db, pk: nat, kind: RecordKind, name: NameHmac, pre: Precondition, w: RecordWrite, ctx: Ctx,
                       limits: Limits)
    requires Inv(db) && pk in db.vaults && w.valueCt.Some?
    requires PutRecord(db, pk, kind, name, pre, w, ctx, limits).answer.Err?
    ensures OnlyRefused(db, PutRecord(db, pk, kind, name, pre, w, ctx, limits).db, pk, ctx.now,
                        AuditEvent(ctx.actor, if kind == Secret then SecretPut else ConfigPut, Some(name), None,
                                   Refused, 0, None))
  {
    hide Inv, OnlyRefused, AppendAudit, Stored, FreedBy, LiveNames, Assigned, Vault.HeadOf, Vault.Records, NextVersion,
         Refuse, WithVault;
    LoadVaultOk(db, pk);
    AssignedIsNext(pre, db.vaults[pk], kind, name);
    RefuseSays<nat>(db, pk, Event(ctx.actor, PutAction(kind), Some(name), None, Refused), ctx.now);
    if w.generation == db.vaults[pk].generation {
      WriteInv(db, pk, kind, name, w, ctx, limits);
    }
  }

  lemma RefusedDeleteSays(db: Db, pk: nat, kind: RecordKind, name: NameHmac, x: nat, w: RecordWrite, ctx: Ctx,
                          limits: Limits)
    requires Inv(db) && pk in db.vaults && w.valueCt.None? && name in LiveNames(db.vaults[pk].Records(kind))
    requires DeleteRecord(db, pk, kind, name, x, w, ctx, limits).answer.Err?
    ensures OnlyRefused(db, DeleteRecord(db, pk, kind, name, x, w, ctx, limits).db, pk, ctx.now,
                        AuditEvent(ctx.actor, if kind == Secret then SecretDelete else ConfigDelete, Some(name), None,
                                   Refused, 0, None))
  {
    hide Inv, OnlyRefused, AppendAudit, Stored, FreedBy, Refuse, WithVault;
    LoadVaultOk(db, pk);
    RefuseSays<nat>(db, pk, Event(ctx.actor, DeleteAction(kind), Some(name), None, Refused), ctx.now);
    if w.generation == db.vaults[pk].generation {
      WriteInv(db, pk, kind, name, w, ctx, limits);
    }
  }

  lemma RefusedMintSays(db: Db, pk: nat, t: NewToken, ctx: Ctx, limits: Limits)
    requires Inv(db) && pk in db.vaults && RegisterToken(db, pk, t, ctx, limits).answer.Err?
    requires t.generation != db.vaults[pk].generation || |ActiveTokens(db, pk, ctx.now)| >= limits.maxTokens
    ensures OnlyRefused(db, RegisterToken(db, pk, t, ctx, limits).db, pk, ctx.now,
                        AuditEvent(ctx.actor, TokenMint, None, Some(t.id), Refused, 0, None))
  {
    hide Inv, OnlyRefused, AppendAudit, ActiveTokens, Refuse;
    LoadVaultOk(db, pk);
    RefuseSays<TokenRow>(db, pk, Event(ctx.actor, TokenMint, None, Some(t.id), Refused), ctx.now);
  }

  lemma RefusedChildrenSays(db: Db, pk: nat, pre: Precondition, blob: ChildrenBlob, ctx: Ctx, limits: Limits)
    requires Inv(db) && pk in db.vaults && PutChildren(db, pk, pre, blob, ctx, limits).answer.Err?
    ensures OnlyRefused(db, PutChildren(db, pk, pre, blob, ctx, limits).db, pk, ctx.now,
                        AuditEvent(ctx.actor, ChildrenWrite, None, None, Refused, 0, None))
  {
    hide Inv, OnlyRefused, AppendAudit, AssignedChildren, Refuse, Chain;
    LoadVaultOk(db, pk);
    VaultIsOk(db, pk);
    RefuseSays<nat>(db, pk, Event(ctx.actor, ChildrenWrite, None, None, Refused), ctx.now);
    AppendLogs(db.vaults[pk].(children := Some(blob)),
      WriteEvent(ctx.actor, ChildrenWrite, None, blob.version, Some(Sha256(blob.ct))), ctx.now);
  }

  // ------------------------------------------------------------ rotation

  /** The row is the entry's, field by field, at the new generation. */
  ghost predicate HoldsEntry(row: VersionRow, s: RotatedVersion, generation: nat) {
    && row.nameCt == s.nameCt && row.valueCt == s.valueCt && row.writtenAt == s.writtenAt && row.sig == s.sig
    && row.generation == generation && row.tombstone == s.valueCt.None?
    && row.ctHash == Sha256(match s.valueCt case Some(value) => value case None => [])
  }

  /** The table is the batch: an entry for each row, and a row for each entry. */
  ghost predicate HoldsBatch(t: Table, batch: seq<RotatedVersion>, generation: nat) {
    && (forall i :: 0 <= i < |batch| ==>
          Key(batch[i].name, batch[i].version) in t.rows
          && HoldsEntry(t.rows[Key(batch[i].name, batch[i].version)], batch[i], generation))
    && (forall k :: k in t.rows ==> Sent(batch, k))
  }

  ghost predicate Sent(batch: seq<RotatedVersion>, k: Key) {
    exists i :: 0 <= i < |batch| && batch[i].name == k.name && batch[i].version == k.version
  }

  lemma RebuiltHolds(batch: seq<RotatedVersion>, rows: map<Key, VersionRow>, actor: Actor, generation: nat)
    requires Separated(batch)
    ensures HoldsBatch(Rebuilt(batch, rows, actor, generation), batch, generation)
  {
    hide Rebuilt, Separated;
    SeparatedMeansApart(batch);
    var t := Rebuilt(batch, rows, actor, generation);
    forall i: nat | i < |batch|
      ensures Key(batch[i].name, batch[i].version) in t.rows
      ensures HoldsEntry(t.rows[Key(batch[i].name, batch[i].version)], batch[i], generation)
    {
      RebuiltAt(batch, rows, actor, generation, i);
    }
    forall k | k in t.rows
      ensures Sent(batch, k)
    {
      RebuiltKeys(batch, rows, actor, generation, k);
      var i :| 0 <= i < |batch| && NewKey(batch[i]) == k;
    }
  }

  /** What a rotation leaves of its vault, live or replayed. */
  ghost predicate RotatedTo(v: Vault, v': Vault, r: RotationRequest) {
    && SameIdentity(v, v') && v'.children == v.children && v'.revision == v.revision + 1
    && v'.generation == r.fromGeneration + 1 && v'.ownerBundle == r.ownerBundle
    && v'.descriptors == v.descriptors[r.fromGeneration + 1 := r.descriptor]
    && HoldsBatch(v'.secrets, r.secrets, r.fromGeneration + 1)
    && HoldsBatch(v'.configs, r.configs, r.fromGeneration + 1)
  }

  /** What it says: the rotation, with the hash of the new descriptor, then each revocation. */
  function RotationLog(actor: Actor, r: RotationRequest, removed: seq<TokenId>): seq<AuditEvent> {
    [AuditEvent(actor, VaultRotate, None, None, Success, 0, Some(Sha256(r.descriptor.descriptor)))]
      + RevocationLog(actor, false, removed)
  }

  lemma RotatedLeaves(db: Db, pk: nat, r: RotationRequest, ctx: Ctx)
    requires Inv(db) && Applicable(db, pk, r) && Rotated(db, pk, db.vaults[pk], r, ctx).Ok?
    ensures var db' := Rotated(db, pk, db.vaults[pk], r, ctx).value;
            var removed := Removed(db.tokens, pk, r.revoke);
            && OnlyVault(db, db', pk) && RotatedTo(db.vaults[pk], db'.vaults[pk], r)
            && Lists(db.tokens, pk, r.revoke, removed)
            && LoggedAll(db.vaults[pk], db'.vaults[pk], ctx.now, RotationLog(ctx.actor, r, removed))
  {
    hide Inv, Chain, RecordsOk, AppendAll, Removed, LoggedAll, RevokeEvents, RevocationLog, Rebuilt, BatchBytes,
         Resealed, Without, HoldsBatch, Separated, Positive, ResealedIds, InOrder;
    VaultIsOk(db, pk);
    Recovery.RemovedIsDistinct(db.tokens, pk, r.revoke);
    RemovedInOrder(db.tokens, pk, r.revoke);
    var v, removed := db.vaults[pk], Removed(db.tokens, pk, r.revoke);
    var v1, es := RotatedVault(v, r, ctx.actor), RotationEvents(r, removed, ctx.actor);
    RevocationLogIs(ctx.actor, false, removed);
    assert es == RotationLog(ctx.actor, r, removed);
    RebuiltHolds(r.secrets, v.secrets.rows, ctx.actor, r.fromGeneration + 1);
    RebuiltHolds(r.configs, v.configs.rows, ctx.actor, r.fromGeneration + 1);
    AppendAllLogs(v1, es, ctx.now);
    LoggedFrom(v1, v, AppendAll(v1, es, ctx.now).value, ctx.now, es);
  }

  /** An accepted rotation. */
  lemma RotationLeaves(db: Db, pk: nat, r: RotationRequest, ctx: Ctx, hook: bool)
    requires Inv(db) && ApplyRotation(db, pk, r, ctx, hook).answer.Ok?
    ensures var o := ApplyRotation(db, pk, r, ctx, hook);
            var removed := Removed(db.tokens, pk, r.revoke);
            && OnlyVault(db, o.db, pk) && RotatedTo(db.vaults[pk], o.db.vaults[pk], r)
            && r.fromGeneration == db.vaults[pk].generation && o.answer == Ok(r.fromGeneration + 1)
            && Lists(db.tokens, pk, r.revoke, removed)
            && LoggedAll(db.vaults[pk], o.db.vaults[pk], ctx.now, RotationLog(ctx.actor, r, removed))
            && o.db.lastApplied == db.lastApplied + 1
            && o.journaled == [JournalRecord(o.db.lastApplied, ctx.now, Rotation(db.vaults[pk].id, ctx.actor, r))]
  {
    hide Inv, Rotated, Applicable, RotatedTo, LoggedAll, RotationLog, Lists, Removed, Complete;
    LoadVaultOk(db, pk);
    Invariant.RotatedMeansSeparated(db, pk, r, ctx);
    StrictIsApplicable(db, pk, r);
    RotatedLeaves(db, pk, r, ctx);
  }

  /** A replayed one leaves the same of whatever vault it lands on. */
  lemma ReplayLeaves(db: Db, record: JournalRecord, pk: nat)
    requires Inv(db) && Recovery.Admissible(db, record) && record.op.Rotation? && Named(db, pk, record.op.vaultId)
    ensures var db', r := Replay(db, record).db, record.op.request;
            && OnlyVault(db, db', pk) && RotatedTo(db.vaults[pk], db'.vaults[pk], r)
            && LoggedAll(db.vaults[pk], db'.vaults[pk], record.ts,
                         RotationLog(record.op.actor, r, Removed(db.tokens, pk, r.revoke)))
            && Regularity.TokensRotated(db.tokens, db'.tokens, pk, r)
  {
    hide Inv, Replay, Recovery.Admissible, Applicable, Rotated, RotatedTo, LoggedAll, RotationLog, Removed;
    Restoration.ReplayedRotation(db, record, pk);
    RotatedLeaves(db, pk, record.op.request, Ctx(record.op.actor, record.ts));
    Regularity.ReplayedTokens(db, record, pk);
  }

  // ------------------------------------------------------------ answers

  /** The head a precondition asks for: none or a deleted one, or a live one of that version. */
  ghost predicate Asks(pre: Precondition, head: Option<Head>) {
    match pre
    case IfNoneMatch => head.None? || head.value.tombstone
    case IfMatch(x) => head == Some(Head(x, false))
  }

  function VersionOf(head: Option<Head>): Option<nat> {
    match head case None => None case Some(h) => Some(h.version)
  }

  /** What a put answers, each cause of refusal by its own name and before those after it: an old
  generation, a value too long, another head than asked for, another version than the next, one live name
  too many, too many bytes. */
  lemma PutAnswers(db: Db, pk: nat, kind: RecordKind, name: NameHmac, pre: Precondition, w: RecordWrite, ctx: Ctx,
                   limits: Limits)
    requires Inv(db) && pk in db.vaults && w.valueCt.Some?
    ensures var v, answer := db.vaults[pk], PutRecord(db, pk, kind, name, pre, w, ctx, limits).answer;
            var head := v.HeadOf(kind, name);
            var next := if head.None? then 1 else head.value.version + 1;
            var heads := v.Records(kind).heads;
            var live := set n | n in heads && !heads[n].tombstone;
            var size := |w.nameCt| + |w.valueCt.value| - FreedBy(v.Records(kind), name, limits.Versions(kind));
            answer ==
            if w.generation != v.generation then Err(StaleGeneration)
            else if kind == Secret && |w.valueCt.value| > limits.maxValueBytes then Err(QuotaExceeded(ValueSize))
            else if kind == Config && |w.valueCt.value| > limits.maxConfigBytes then Err(QuotaExceeded(ConfigSize))
            else if !Asks(pre, head) then Err(PreconditionFailed(VersionOf(head)))
            else if w.version != next then Err(VersionMismatch(w.version, next))
            else if kind == Secret && name !in live && |live| >= limits.maxNames
            then Err(QuotaExceeded(Names))
            else if kind == Config && name !in live && |live| >= limits.maxConfigs
            then Err(QuotaExceeded(Configs))
            else if v.bytesUsed + size > limits.maxVaultBytes then Err(QuotaExceeded(VaultBytes))
            else Ok(next)
  {
    hide Inv, AppendAudit, Stored, FreedBy, Refuse, RowsOk, HeadsOk, Chain;
    LoadVaultOk(db, pk);
    AssignedIsNext(pre, db.vaults[pk], kind, name);
    RefuseErrs<nat>(db, pk, Event(ctx.actor, PutAction(kind), Some(name), None, Refused), ctx.now);
    if w.generation == db.vaults[pk].generation {
      WriteInv(db, pk, kind, name, w, ctx, limits);
    }
  }

  /** What a delete answers. */
  lemma DeleteAnswers(db: Db, pk: nat, kind: RecordKind, name: NameHmac, x: nat, w: RecordWrite, ctx: Ctx,
                      limits: Limits)
    requires Inv(db) && pk in db.vaults && w.valueCt.None?
    ensures var v, answer := db.vaults[pk], DeleteRecord(db, pk, kind, name, x, w, ctx, limits).answer;
            var head := v.HeadOf(kind, name);
            answer ==
            if head.None? || head.value.tombstone then Err(NotFound)
            else if w.generation != v.generation then Err(StaleGeneration)
            else if x != head.value.version then Err(PreconditionFailed(Some(head.value.version)))
            else if w.version != x + 1 then Err(VersionMismatch(w.version, x + 1))
            else Ok(x + 1)
  {
    hide Inv, AppendAudit, Stored, FreedBy, Refuse;
    LoadVaultOk(db, pk);
    RefuseErrs<nat>(db, pk, Event(ctx.actor, DeleteAction(kind), Some(name), None, Refused), ctx.now);
    if w.generation == db.vaults[pk].generation {
      WriteInv(db, pk, kind, name, w, ctx, limits);
    }
  }

  /** What a mint answers: the tokens that count against the limit are the vault's that have not expired. */
  lemma MintAnswers(db: Db, pk: nat, t: NewToken, ctx: Ctx, limits: Limits)
    requires Inv(db) && pk in db.vaults
    ensures var answer := RegisterToken(db, pk, t, ctx, limits).answer;
            var active := set s | s in db.tokens && db.tokens[s].vaultPk == pk && db.tokens[s].expiresAt > ctx.now;
            if t.generation != db.vaults[pk].generation then answer == Err(StaleGeneration)
            else if |active| >= limits.maxTokens then answer == Err(QuotaExceeded(Tokens))
            else if t.id in db.tokens then answer == Err(Exists)
            else answer.Ok?
  {
    hide Inv, Chain, RecordsOk, AppendAudit, Refuse;
    LoadVaultOk(db, pk);
    VaultIsOk(db, pk);
    RefuseErrs<TokenRow>(db, pk, Event(ctx.actor, TokenMint, None, Some(t.id), Refused), ctx.now);
    AppendLogs(db.vaults[pk].(revision := db.vaults[pk].revision + 1),
      Event(ctx.actor, TokenMint, None, Some(t.id), Success), ctx.now);
  }

  /** What a rotation answers, with a hook that accepts: a conflict unless the vault is as the batch was
  built from; incomplete unless the batch covers it exactly, with no two new names alike, revokes only its
  tokens, and reseals each of the others once. */
  lemma RotationAnswers(db: Db, pk: nat, r: RotationRequest, ctx: Ctx)
    requires Inv(db) && pk in db.vaults
    ensures var v, answer := db.vaults[pk], ApplyRotation(db, pk, r, ctx, true).answer;
            if v.generation != r.fromGeneration || v.revision != r.fromRevision then answer == Err(Conflict)
            else if !Covers(r.secrets, v.secrets) || !Covers(r.configs, v.configs) || !TokensCovered(db, pk, r)
            then answer == Err(IncompleteRotation)
            else answer == Ok(v.generation + 1)
  {
    hide Inv, Rotated, Covers, Complete, Separated, Applicable, Chain, TableOk, TokensCovered;
    LoadVaultOk(db, pk);
    VaultIsOk(db, pk);
    CoversIs(r.secrets, db.vaults[pk].secrets);
    CoversIs(r.configs, db.vaults[pk].configs);
    TokensCoveredIs(db, pk, r);
    RotatedIfSeparated(db, pk, r, ctx);
  }

  /** An entry for every retained version, once, with its write time and deletion; and new names apart. */
  ghost predicate Covers(batch: seq<RotatedVersion>, t: Table) {
    && (forall k :: k in t.rows ==> exists i :: 0 <= i < |batch| && OldKey(batch[i]) == k)
    && (forall i :: 0 <= i < |batch| ==>
          var k := Key(batch[i].oldName, batch[i].version);
          && k in t.rows && t.rows[k].tombstone == batch[i].valueCt.None? && t.rows[k].writtenAt == batch[i].writtenAt)
    && (forall i, j :: 0 <= i < j < |batch| ==> OldKey(batch[i]) != OldKey(batch[j]))
    && (forall i, j :: 0 <= i < j < |batch| ==> NewKey(batch[i]) != NewKey(batch[j]))
  }

  lemma CoversIs(batch: seq<RotatedVersion>, t: Table)
    ensures Covers(batch, t) <==> Complete(batch, t.rows) && Separated(batch)
  {
    hide Covers, Complete, Separated;
    if Covers(batch, t) {
      CoveredIsComplete(batch, t);
    }
    if Complete(batch, t.rows) && Separated(batch) {
      CompleteIsCovered(batch, t);
    }
  }

  lemma CoveredIsComplete(batch: seq<RotatedVersion>, t: Table)
    requires Covers(batch, t)
    ensures Complete(batch, t.rows) && Separated(batch)
  {
    FullSizeMeansDistinct(OldKeys(batch));
    FullSizeMeansDistinct(NewKeys(batch));
    NamesAll(batch, t);
  }

  lemma NamesAll(batch: seq<RotatedVersion>, t: Table)
    requires Covers(batch, t)
    ensures Elements(OldKeys(batch)) == t.rows.Keys
  {
    var olds := OldKeys(batch);
    forall k
      ensures k in Elements(olds) <==> k in t.rows
    {
      if k in t.rows {
        var i :| 0 <= i < |batch| && OldKey(batch[i]) == k;
        assert olds[i] == k;
      }
      if k in olds {
        var i :| 0 <= i < |olds| && olds[i] == k;
      }
    }
  }

  lemma CompleteIsCovered(batch: seq<RotatedVersion>, t: Table)
    requires Complete(batch, t.rows) && Separated(batch)
    ensures Covers(batch, t)
  {
    var olds := OldKeys(batch);
    FullSizeMeansDistinct(olds);
    SeparatedMeansApart(batch);
    forall k | k in t.rows
      ensures exists i :: 0 <= i < |batch| && OldKey(batch[i]) == k
    {
      assert k in Elements(olds);
      var i :| 0 <= i < |olds| && olds[i] == k;
    }
    forall i, j | 0 <= i < j < |batch|
      ensures OldKey(batch[i]) != OldKey(batch[j])
    {
      assert olds[i] != olds[j];
    }
  }

  /** Only tokens of the vault are revoked, and each of the others is resealed, once. */
  ghost predicate TokensCovered(db: Db, pk: nat, r: RotationRequest) {
    && (forall t :: t in r.revoke ==> t in db.tokens && db.tokens[t].vaultPk == pk)
    && (forall i :: 0 <= i < |r.tokens| ==>
          var t := r.tokens[i].tokenId; t in db.tokens && db.tokens[t].vaultPk == pk && t !in r.revoke)
    && (forall t :: t in db.tokens && db.tokens[t].vaultPk == pk && t !in r.revoke ==> Regularity.HasEntry(r.tokens, t))
    && (forall i, j :: 0 <= i < j < |r.tokens| ==> r.tokens[i].tokenId != r.tokens[j].tokenId)
  }

  lemma TokensCoveredIs(db: Db, pk: nat, r: RotationRequest)
    ensures TokensCovered(db, pk, r) <==>
              && (set t | t in r.revoke) <= TokensOf(db, pk) && |ResealedIds(r.tokens)| == |r.tokens|
              && ResealedIds(r.tokens) == TokensOf(db, pk) - (set t | t in r.revoke)
  {
    hide ResealedIds, Regularity.HasEntry;
    var own, revoked := TokensOf(db, pk), set t | t in r.revoke;
    HasEntryIs(r.tokens);
    EntriesHave(r.tokens);
    Regularity.AllAreLast(r.tokens);
    DistinctIsFull(r.tokens);
    if TokensCovered(db, pk, r) {
      assert forall t :: t in ResealedIds(r.tokens) <==> t in own - revoked by { EntryAt(r.tokens); }
      assert ResealedIds(r.tokens) == own - revoked;
    }
    if ResealedIds(r.tokens) == own - revoked && revoked <= own {
      assert forall t :: t in r.revoke ==> t in revoked;
      assert forall i :: 0 <= i < |r.tokens| ==> r.tokens[i].tokenId in own - revoked;
      assert forall t :: t in own && t !in revoked ==> t in ResealedIds(r.tokens);
    }
  }

  lemma EntriesHave(list: seq<ResealedBundle>)
    ensures forall i :: 0 <= i < |list| ==> list[i].tokenId in ResealedIds(list)
  {
  }

  lemma EntryAt(list: seq<ResealedBundle>)
    ensures forall t :: Regularity.HasEntry(list, t) ==> exists i :: 0 <= i < |list| && list[i].tokenId == t
  {
  }

  lemma HasEntryIs(list: seq<ResealedBundle>)
    ensures forall t :: t in ResealedIds(list) <==> Regularity.HasEntry(list, t)
  {
    forall t
      ensures t in ResealedIds(list) <==> Regularity.HasEntry(list, t)
    {
      if t in ResealedIds(list) {
        var e :| e in list && e.tokenId == t;
        var i :| 0 <= i < |list| && list[i] == e;
      }
      if Regularity.HasEntry(list, t) {
        var i :| 0 <= i < |list| && list[i].tokenId == t;
        assert list[i] in list;
      }
    }
  }

  lemma {:induction false} DistinctIsFull(list: seq<ResealedBundle>)
    ensures (forall i, j :: 0 <= i < j < |list| ==> list[i].tokenId != list[j].tokenId) ==>
              |ResealedIds(list)| == |list|
    decreases |list|
  {
    if list == [] {
      assert ResealedIds(list) == {};
    } else if forall i, j :: 0 <= i < j < |list| ==> list[i].tokenId != list[j].tokenId {
      var front, last := list[..|list| - 1], list[|list| - 1];
      DistinctIsFull(front);
      assert list == front + [last];
      assert ResealedIds(list) == ResealedIds(front) + {last.tokenId};
      HasEntryIs(front);
    }
  }

  lemma RotatedIfSeparated(db: Db, pk: nat, r: RotationRequest, ctx: Ctx)
    requires Inv(db) && pk in db.vaults
    ensures StrictlyAccepted(db, pk, db.vaults[pk], r) ==>
              if Separated(r.secrets) && Separated(r.configs) then Rotated(db, pk, db.vaults[pk], r, ctx).Ok?
              else Rotated(db, pk, db.vaults[pk], r, ctx) == Err(IncompleteRotation)
  {
    hide Inv, AppendAll, Complete, Separated, Resealed, RotatedVault, Applicable, TokensOf, ResealedIds;
    if StrictlyAccepted(db, pk, db.vaults[pk], r) && Separated(r.secrets) && Separated(r.configs) {
      StrictIsApplicable(db, pk, r);
      RotatedInv(db, pk, r, ctx);
    }
  }
}
