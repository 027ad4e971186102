/** What the quotas keep and what they do not: the bytes a vault may take, and the names that may be live. */
module Quotas {
  import opened Types
  import opened Tables
  import opened Rotations
  import opened Database
  import opened Invariant
  import opened CompareAndSwap
  import Audit
  import Copying
  import Recovery
  import Regularity

  // ------------------------------------------------------------ bytes

  /** What an accepted call leaves of the byte count: a put always within the bound. */
  lemma PutStaysWithin(db: Db, pk: nat, kind: RecordKind, name: NameHmac, pre: Precondition, w: RecordWrite, ctx: Ctx,
                       limits: Limits)
    requires PutRecord(db, pk, kind, name, pre, w, ctx, limits).answer.Ok?
    ensures var db' := PutRecord(db, pk, kind, name, pre, w, ctx, limits).db;
            pk in db'.vaults && db'.vaults[pk].bytesUsed <= limits.maxVaultBytes
  {
    hide LiveNames, FreedBy, Assigned, Vault.HeadOf, Vault.Records, Written, Prunable;
  }

  /** From within the bound an accepted delete leaves it exactly when the tombstone's name takes more than
  pruning frees and than there was left. */
  lemma DeleteExceedsExactly(db: Db, pk: nat, kind: RecordKind, name: NameHmac, x: nat, w: RecordWrite, ctx: Ctx,
                        limits: Limits)
    requires Inv(db) && pk in db.vaults && DeleteRecord(db, pk, kind, name, x, w, ctx, limits).answer.Ok?
    ensures var v, db' := db.vaults[pk], DeleteRecord(db, pk, kind, name, x, w, ctx, limits).db;
            && pk in db'.vaults
            && (db'.vaults[pk].bytesUsed > limits.maxVaultBytes <==>
                  v.bytesUsed + |w.nameCt| - FreedBy(v.Records(kind), name,
                      limits.Versions(kind)) > limits.maxVaultBytes)
  {
    hide Inv, FreedBy, Written, Prunable, Vault.Records;
    WriteInv(db, pk, kind, name, w, ctx, limits);
  }

  /** An accepted rotation leaves it exactly when the batch is too big: the old rows are gone. */
  lemma RotationExceedsExactly(db: Db, pk: nat, r: RotationRequest, ctx: Ctx, hook: bool, limits: Limits)
    requires ApplyRotation(db, pk, r, ctx, hook).answer.Ok?
    ensures var db' := ApplyRotation(db, pk, r, ctx, hook).db;
            && pk in db'.vaults
            && (db'.vaults[pk].bytesUsed > limits.maxVaultBytes <==>
                  BatchBytes(r.secrets) + BatchBytes(r.configs) > limits.maxVaultBytes)
  {
    hide Rotated, StrictlyAccepted, BatchBytes;
    Regularity.RotatedBytes(db, pk, r, ctx);
  }

  /** Limits under which one secret of no size fits, and nothing more. */
  const Tight := Limits(1, 0, 2, 0, 1, 1, 0, 2)

  function EmptyValue(generation: nat, version: nat): RecordWrite {
    RecordWrite([], Some([]), generation, version, 0, [])
  }

  /** Writes a secret that takes nothing, then deletes it: the tombstone has a name of one byte. */
  function OverRun(v: NewVault, name: NameHmac): seq<Recovery.Op> {
    [Recovery.Create(v, 0),
     Recovery.Put(1, Secret, name, IfNoneMatch, EmptyValue(1, 1), Ctx(Owner, 0), Tight),
     Recovery.Delete(1, Secret, name, 1, RecordWrite([0], None, 1, 2, 0, []), Ctx(Owner, 0), Tight)]
  }

  lemma RunOn(db: Db, ops: seq<Recovery.Op>, op: Recovery.Op)
    ensures Recovery.Run(db, ops + [op]) == Recovery.Step(Recovery.Run(db, ops), op).db
  {
    hide Recovery.Step;
    assert (ops + [op])[..|ops|] == ops;
  }

  /** So the bound is no invariant: a run in which every call succeeds leaves it. */
  lemma BytesMayExceed(v: NewVault, name: NameHmac)
    ensures var db := Recovery.Run(EmptyDb, OverRun(v, name));
            1 in db.vaults && db.vaults[1].bytesUsed > Tight.maxVaultBytes
  {
    hide Inv, PutRecord, DeleteRecord, Recovery.Run, CreateVault;
    var db := Audit.OneVault(v, 0);
    Audit.OneVaultIs(v, 0);
    var ctx, w, d := Ctx(Owner, 0), EmptyValue(1, 1), RecordWrite([0], None, 1, 2, 0, []);
    FirstPut(db, 1, name, w, ctx, Tight);
    var db1 := PutRecord(db, 1, Secret, name, IfNoneMatch, w, ctx, Tight).db;
    DeleteComparesAndSwaps(db1, 1, Secret, name, 1, d, ctx, Tight);
    DeleteExceedsExactly(db1, 1, Secret, name, 1, d, ctx, Tight);
    FewPruned(db1.vaults[1], name, 1, Tight);
    var ops := OverRun(v, name);
    assert ops[..1] == [] + [ops[0]] && ops[..2] == ops[..1] + [ops[1]] && ops == ops[..2] + [ops[2]];
    assert Recovery.Run(EmptyDb, []) == EmptyDb by { RunNone(EmptyDb); }
    RunOn(EmptyDb, [], ops[0]);
    RunOn(EmptyDb, ops[..1], ops[1]);
    RunOn(EmptyDb, ops[..2], ops[2]);
  }

  lemma RunNone(db: Db)
    ensures Recovery.Run(db, []) == db
  {
  }

  lemma FewPruned(v: Vault, name: NameHmac, n: nat, limits: Limits)
    requires forall k: nat :: Key(name, k) in v.secrets.rows <==> 1 <= k <= n
    requires n < Max(1, limits.maxVersions)
    ensures FreedBy(v.secrets, name, limits.maxVersions) == 0
  {
    hide Prunable;
    Copying.NothingToPrune(v.secrets, name, n, limits.maxVersions);
  }

  /** The first put of a name into a vault with room for it. */
  lemma FirstPut(db: Db, pk: nat, name: NameHmac, w: RecordWrite, ctx: Ctx, limits: Limits)
    requires Inv(db) && pk in db.vaults && w.valueCt == Some([]) && w.nameCt == [] && w.version == 1
    requires db.vaults[pk].generation == w.generation && name !in db.vaults[pk].secrets.heads
    requires |LiveNames(db.vaults[pk].secrets)| < limits.maxNames && db.vaults[pk].bytesUsed <= limits.maxVaultBytes
    requires limits.maxVersions >= 1
    ensures var o := PutRecord(db, pk, Secret, name, IfNoneMatch, w, ctx, limits);
            && o.answer == Ok(1) && Inv(o.db) && o.db.vaults.Keys == db.vaults.Keys
            && (forall qk :: qk in db.vaults && qk != pk ==> o.db.vaults[qk] == db.vaults[qk])
            && o.db.vaults[pk].generation == db.vaults[pk].generation
            && o.db.vaults[pk].secrets.heads == db.vaults[pk].secrets.heads[name := Head(1, false)]
            && (forall k: nat :: Key(name, k) in o.db.vaults[pk].secrets.rows <==> k == 1)
            && o.db.vaults[pk].bytesUsed <= limits.maxVaultBytes
            && LiveNames(o.db.vaults[pk].secrets) == LiveNames(db.vaults[pk].secrets) + {name}
  {
    hide Inv, PutRecord, TotalBytes, Chain;
    var v := db.vaults[pk];
    var t := v.secrets;
    assert v.Records(Secret) == t;
    VaultIsOk(db, pk);
    NoRows(t, v.generation, name);
    FewPruned(v, name, 0, limits);
    Copying.PutWithinQuotas(db, pk, Secret, name, Create, w, ctx, limits);
    PutComparesAndSwaps(db, pk, Secret, name, Create, w, ctx, limits);
    PutRecordInv(db, pk, Secret, name, IfNoneMatch, w, ctx, limits);
    PutStaysWithin(db, pk, Secret, name, IfNoneMatch, w, ctx, limits);
    Copying.PutWrites(db, pk, Secret, name, IfNoneMatch, w, ctx, limits);
    Copying.NothingToPrune(t, name, 0, limits.maxVersions);
    var db' := PutRecord(db, pk, Secret, name, IfNoneMatch, w, ctx, limits).db;
    assert db'.vaults[pk].Records(Secret) == db'.vaults[pk].secrets;
    Regularity.WrittenLive(t, name, 1, WrittenRow(w, ctx.actor), []);
    WrittenFirst(t, name, WrittenRow(w, ctx.actor));
  }

  lemma NoRows(t: Table, generation: nat, name: NameHmac)
    requires TableOk(t, generation) && name !in t.heads
    ensures forall k: nat :: Key(name, k) !in t.rows
  {
  }

  lemma WrittenFirst(t: Table, name: NameHmac, row: VersionRow)
    requires forall k: nat :: Key(name, k) !in t.rows
    ensures var t' := Written(t, name, 1, row, []);
            && t'.heads == t.heads[name := Head(1, row.tombstone)]
            && forall k: nat :: Key(name, k) in t'.rows <==> k == 1
  {
    assert KeysOf(name, []) == {};
  }

  // ------------------------------------------------------------ live names

  /** A name that is not there cannot be written while as many others are live as may be; and trying leaves
  it so. */
  lemma FullIsRefused(db: Db, pk: nat, kind: RecordKind, name: NameHmac, w: RecordWrite, ctx: Ctx, limits: Limits)
    requires Inv(db) && pk in db.vaults && w.valueCt.Some? && |w.valueCt.value| <= limits.MaxValue(kind)
    requires w.version == 1 && w.generation == db.vaults[pk].generation && name !in db.vaults[pk].Records(kind).heads
    requires |LiveNames(db.vaults[pk].Records(kind))| >= limits.MaxLive(kind)
    ensures var o := PutRecord(db, pk, kind, name, IfNoneMatch, w, ctx, limits);
            && o.answer == Err(QuotaExceeded(LiveQuota(kind)))
            && Inv(o.db) && pk in o.db.vaults && o.db.vaults[pk].generation == db.vaults[pk].generation
            && o.db.vaults[pk].Records(kind) == db.vaults[pk].Records(kind)
  {
    hide Inv, AppendAudit, Stored, FreedBy, Refuse, LiveNames, Chain;
    LoadVaultOk(db, pk);
    forall error: StoreError {
      RefuseInv<nat>(db, pk, Event(ctx.actor, PutAction(kind), Some(name), None, Refused), ctx.now, error);
    }
    PutRecordInv(db, pk, kind, name, IfNoneMatch, w, ctx, limits);
    Audit.RefusedPut(db, pk, kind, name, IfNoneMatch, w, ctx, limits);
  }

  /** The deletion of a secret written once, under a name that takes nothing. */
  lemma FirstDelete(db: Db, pk: nat, name: NameHmac, w: RecordWrite, ctx: Ctx, limits: Limits)
    requires Inv(db) && pk in db.vaults && w.valueCt.None? && w.nameCt == [] && w.version == 2
    requires db.vaults[pk].generation == w.generation && limits.maxVersions >= 2
    requires name in db.vaults[pk].secrets.heads && db.vaults[pk].secrets.heads[name] == Head(1, false)
    requires forall k: nat :: Key(name, k) in db.vaults[pk].secrets.rows <==> k == 1
    requires db.vaults[pk].bytesUsed <= limits.maxVaultBytes
    ensures var o := DeleteRecord(db, pk, Secret, name, 1, w, ctx, limits);
            && o.answer == Ok(2) && Inv(o.db) && o.db.vaults.Keys == db.vaults.Keys
            && (forall qk :: qk in db.vaults && qk != pk ==> o.db.vaults[qk] == db.vaults[qk])
            && o.db.vaults[pk].generation == db.vaults[pk].generation
            && o.db.vaults[pk].secrets.heads == db.vaults[pk].secrets.heads[name := Head(2, true)]
            && Key(name, 1) in o.db.vaults[pk].secrets.rows
            && o.db.vaults[pk].secrets.rows[Key(name, 1)] == db.vaults[pk].secrets.rows[Key(name, 1)]
            && o.db.vaults[pk].bytesUsed <= limits.maxVaultBytes
            && LiveNames(o.db.vaults[pk].secrets) == LiveNames(db.vaults[pk].secrets) - {name}
  {
    hide Inv, DeleteRecord, TotalBytes, Chain;
    var v := db.vaults[pk];
    var t := v.secrets;
    assert v.Records(Secret) == t && v.HeadOf(Secret, name) == Some(Head(1, false));
    FewPruned(v, name, 1, limits);
    Copying.NothingToPrune(t, name, 1, limits.maxVersions);
    DeleteComparesAndSwaps(db, pk, Secret, name, 1, w, ctx, limits);
    DeleteRecordInv(db, pk, Secret, name, 1, w, ctx, limits);
    DeleteExceedsExactly(db, pk, Secret, name, 1, w, ctx, limits);
    Copying.DeleteWrites(db, pk, Secret, name, 1, w, ctx, limits);
    var db' := DeleteRecord(db, pk, Secret, name, 1, w, ctx, limits).db;
    assert db'.vaults[pk].Records(Secret) == db'.vaults[pk].secrets;
    Regularity.WrittenLive(t, name, 2, WrittenRow(w, ctx.actor), []);
    assert KeysOf(name, []) == {};
  }

  lemma TwoVaults(a: NewVault, b: NewVault)
    requires a.id != b.id
    ensures var db := CreateVault(Audit.OneVault(a, 0), b, 0).db;
            && Inv(db) && db.vaults.Keys == {1, 2}
            && (forall pk :: pk in db.vaults ==>
                  db.vaults[pk].secrets == EmptyTable && db.vaults[pk].generation == 1 && db.vaults[pk].bytesUsed == 0)
  {
    hide Inv, CreateVault, Audit.OneVault;
    var db := Audit.OneVault(a, 0);
    Audit.OneVaultIs(a, 0);
    SecondVault(db, b);
  }

  lemma SecondVault(db: Db, b: NewVault)
    requires Inv(db) && db.vaults.Keys == {1} && db.vaults[1].id != b.id
    ensures var o := CreateVault(db, b, 0);
            && Inv(o.db) && o.db.vaults.Keys == {1, 2} && o.db.vaults[1] == db.vaults[1]
            && o.db.vaults[2].secrets == EmptyTable && o.db.vaults[2].generation == 1 && o.db.vaults[2].bytesUsed == 0
  {
    hide Inv, Ascending;
    CreateVaultInv(db, b, 0);
    assert Ascending({1}) == [1] by { Audit.AscendingRun({1}, 1, 1); }
  }

  /** One environment's history, with one name live at a time: `z` is written and deleted, then `a` is
  written. And the beginning of its copy, in which `a` comes first. */
  function ShortOfRoom(v: NewVault, v': NewVault, z: NameHmac, a: NameHmac, a': NameHmac): seq<Recovery.Op> {
    var ctx := Ctx(Owner, 0);
    [Recovery.Create(v, 0), Recovery.Create(v', 0),
     Recovery.Put(1, Secret, z, IfNoneMatch, EmptyValue(1, 1), ctx, Tight),
     Recovery.Delete(1, Secret, z, 1, RecordWrite([], None, 1, 2, 0, []), ctx, Tight),
     Recovery.Put(1, Secret, a, IfNoneMatch, EmptyValue(1, 1), ctx, Tight),
     Recovery.Put(2, Secret, a', IfNoneMatch, EmptyValue(1, 1), ctx, Tight)]
  }

  lemma RunSix(ops: seq<Recovery.Op>)
    requires |ops| == 6
    ensures var s := (db: Db, i: nat) requires i < 6 => Recovery.Step(db, ops[i]).db;
            Recovery.Run(EmptyDb, ops) == s(s(s(s(s(s(EmptyDb, 0), 1), 2), 3), 4), 5)
  {
    hide Recovery.Step, Recovery.Run;
    RunNone(EmptyDb);
    assert ops[..0] == [] && ops[..6] == ops;
    assert forall i :: 0 <= i < 6 ==> ops[..i + 1] == ops[..i] + [ops[i]];
    RunOn(EmptyDb, ops[..0], ops[0]);
    RunOn(EmptyDb, ops[..1], ops[1]);
    RunOn(EmptyDb, ops[..2], ops[2]);
    RunOn(EmptyDb, ops[..3], ops[3]);
    RunOn(EmptyDb, ops[..4], ops[4]);
    RunOn(EmptyDb, ops[..5], ops[5]);
  }

  /** What the source's own calls leave: `a` live, `z` deleted, and `z`'s first version retained. */
  lemma SourceBuilt(db: Db, z: NameHmac, a: NameHmac)
    requires Inv(db) && db.vaults.Keys == {1, 2} && z != a
    requires forall pk :: pk in db.vaults ==>
               db.vaults[pk].secrets == EmptyTable && db.vaults[pk].generation == 1 && db.vaults[pk].bytesUsed == 0
    ensures var c, w, d := Ctx(Owner, 0), EmptyValue(1, 1), RecordWrite([], None, 1, 2, 0, []);
            var db3 := PutRecord(db, 1, Secret, z, IfNoneMatch, w, c, Tight).db;
            var db4 := DeleteRecord(db3, 1, Secret, z, 1, d, c, Tight).db;
            var db5 := PutRecord(db4, 1, Secret, a, IfNoneMatch, w, c, Tight).db;
            && Inv(db5) && db5.vaults.Keys == {1, 2} && db5.vaults[2] == db.vaults[2]
            && LiveNames(db5.vaults[1].secrets) == {a} && Key(z, 1) in db5.vaults[1].secrets.rows
  {
    hide Inv, PutRecord, DeleteRecord, LiveNames;
    var c, w, d := Ctx(Owner, 0), EmptyValue(1, 1), RecordWrite([], None, 1, 2, 0, []);
    NoneLive();
    FirstPut(db, 1, z, w, c, Tight);
    var db3 := PutRecord(db, 1, Secret, z, IfNoneMatch, w, c, Tight).db;
    FirstDelete(db3, 1, z, d, c, Tight);
    var db4 := DeleteRecord(db3, 1, Secret, z, 1, d, c, Tight).db;
    assert LiveNames(db4.vaults[1].secrets) == {};
    FirstPut(db4, 1, a, w, c, Tight);
    KeepsRow(db4, PutRecord(db4, 1, Secret, a, IfNoneMatch, w, c, Tight).db, a, z, w, c);
  }

  lemma ShortOfRoomIs(v: NewVault, v': NewVault, z: NameHmac, a: NameHmac, a': NameHmac)
    requires v.id != v'.id && z != a
    ensures var db := Recovery.Run(EmptyDb, ShortOfRoom(v, v', z, a, a'));
            && Inv(db) && db.vaults.Keys == {1, 2} && db.vaults[2].generation == 1
            && LiveNames(db.vaults[1].secrets) == {a} && Key(z, 1) in db.vaults[1].secrets.rows
            && LiveNames(db.vaults[2].secrets) == {a'} && db.vaults[2].secrets.heads.Keys == {a'}
  {
    hide Inv, PutRecord, DeleteRecord, Recovery.Run, CreateVault, LiveNames;
    TwoVaults(v, v');
    var db2 := CreateVault(Audit.OneVault(v, 0), v', 0).db;
    SourceBuilt(db2, z, a);
    RunSix(ShortOfRoom(v, v', z, a, a'));
    var c, w, d := Ctx(Owner, 0), EmptyValue(1, 1), RecordWrite([], None, 1, 2, 0, []);
    var db3 := PutRecord(db2, 1, Secret, z, IfNoneMatch, w, c, Tight).db;
    var db4 := DeleteRecord(db3, 1, Secret, z, 1, d, c, Tight).db;
    var db5 := PutRecord(db4, 1, Secret, a, IfNoneMatch, w, c, Tight).db;
    NoneLive();
    FirstPut(db5, 2, a', w, c, Tight);
  }

  /** A source that kept every quota, and a copy of it that a quota stops for good: `z`'s first version is
  still there to copy, and is refused however often it is tried, because `a` is live already. */
  lemma CopyMayBeRefused(v: NewVault, v': NewVault, z: NameHmac, a: NameHmac, z': NameHmac, a': NameHmac, ctx: Ctx)
    requires v.id != v'.id && z != a && z' != a'
    ensures var db := Recovery.Run(EmptyDb, ShortOfRoom(v, v', z, a, a'));
            && Inv(db) && 1 in db.vaults && 2 in db.vaults
            && LiveNames(db.vaults[1].secrets) == {a} && Key(z, 1) in db.vaults[1].secrets.rows
            && LiveNames(db.vaults[2].secrets) == {a'}
            && var o := PutRecord(db, 2, Secret, z', IfNoneMatch, EmptyValue(1, 1), ctx, Tight);
               && o.answer == Err(QuotaExceeded(Names))
               && 2 in o.db.vaults && o.db.vaults[2].secrets == db.vaults[2].secrets
               && PutRecord(o.db, 2, Secret, z', IfNoneMatch, EmptyValue(1, 1), ctx, Tight).answer
                   == Err(QuotaExceeded(Names))
  {
    hide Inv, PutRecord, Recovery.Run, LiveNames, ShortOfRoom;
    var w := EmptyValue(1, 1);
    ShortOfRoomIs(v, v', z, a, a');
    var db := Recovery.Run(EmptyDb, ShortOfRoom(v, v', z, a, a'));
    assert db.vaults[2].Records(Secret) == db.vaults[2].secrets;
    FullIsRefused(db, 2, Secret, z', w, ctx, Tight);
    var o := PutRecord(db, 2, Secret, z', IfNoneMatch, w, ctx, Tight);
    assert o.db.vaults[2].Records(Secret) == o.db.vaults[2].secrets;
    FullIsRefused(o.db, 2, Secret, z', w, ctx, Tight);
  }

  lemma NoneLive()
    ensures LiveNames(EmptyTable) == {}
  {
  }

  /** Writing one name keeps the rows of another. */
  lemma KeepsRow(db: Db, db': Db, a: NameHmac, z: NameHmac, w: RecordWrite, ctx: Ctx)
    requires a != z && 1 in db.vaults && Key(z, 1) in db.vaults[1].secrets.rows
    requires PutRecord(db, 1, Secret, a, IfNoneMatch, w, ctx, Tight).answer.Ok?
    requires db' == PutRecord(db, 1, Secret, a, IfNoneMatch, w, ctx, Tight).db
    ensures 1 in db'.vaults && Key(z, 1) in db'.vaults[1].secrets.rows
  {
    hide PutRecord, Prunable;
    Copying.PutWrites(db, 1, Secret, a, IfNoneMatch, w, ctx, Tight);
    assert db.vaults[1].Records(Secret) == db.vaults[1].secrets
        && db'.vaults[1].Records(Secret) == db'.vaults[1].secrets;
  }
}
