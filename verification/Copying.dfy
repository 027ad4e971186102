/** Copying a vault's records into a fresh vault, resumably: what `copy_from` writes, and why nothing but
a quota can stop it. */
module Copying {
  import opened Types
  import opened Tables
  import opened Database
  import opened Invariant
  import opened CompareAndSwap
  import opened Histories
  import Regularity
  import Audit
  import SqliteStore

  /** What a handle does with a generation's keys. Sealing is opened by the same keys, and a name's index
  stands for that name alone. */
  datatype Ring = Ring(
    index: (RecordKind, string) -> NameHmac,
    sealName: string -> Bytes, openName: Bytes -> Option<string>,
    seal: Bytes -> Bytes, open: Bytes -> Option<Bytes>)

  ghost predicate RingOk(ring: Ring) {
    && (forall n :: ring.openName(ring.sealName(n)) == Some(n))
    && (forall b :: ring.open(ring.seal(b)) == Some(b))
    && (forall kind, a, b :: ring.index(kind, a) == ring.index(kind, b) ==> a == b)
  }

  /** The row opens to the entry. */
  ghost predicate Shows(ring: Ring, row: VersionRow, e: Entry) {
    && ring.openName(row.nameCt) == e.name
    && row.writtenAt == e.writtenAt
    && row.tombstone == e.value.None?
    && (e.value.Some? ==> row.valueCt.Some? && ring.open(row.valueCt.value) == e.value)
  }

  /** Every live row opens, and every name's rows are under the index of the name they seal. */
  ghost predicate Readable(ring: Ring, kind: RecordKind, t: Table) {
    && (forall k :: k in t.rows && t.rows[k].valueCt.Some? ==> ring.open(t.rows[k].valueCt.value).Some?)
    && (forall k :: k in t.rows ==>
          var n := ring.openName(t.rows[k].nameCt); n.Some? && ring.index(kind, n.value) == k.name)
  }

  function EntryAt(ring: Ring, row: VersionRow): Entry {
    Entry(ring.openName(row.nameCt), if row.valueCt.Some? then ring.open(row.valueCt.value) else None, row.writtenAt)
  }

  /** The versions a copy takes, oldest first: all retained ones, less leading tombstones. */
  function Source(t: Table, name: NameHmac): seq<nat> {
    WithoutLeading(t, name, Ascending(VersionsOf(t, name)))
  }

  function WithoutLeading(t: Table, name: NameHmac, vs: seq<nat>): seq<nat> {
    if vs != [] && Key(name, vs[0]) in t.rows && t.rows[Key(name, vs[0])].tombstone
    then WithoutLeading(t, name, vs[1..]) else vs
  }

  /** What the copy must end up holding. */
  ghost function Goal(ring: Ring, t: Table, name: NameHmac): seq<Entry> {
    var vs := Source(t, name);
    seq(|vs|, i requires 0 <= i < |vs| =>
      if Key(name, vs[i]) in t.rows then EntryAt(ring, t.rows[Key(name, vs[i])]) else Entry(None, None, 0))
  }

  /** A history that can be written from the start: it begins with a value, and no deletion follows another. */
  ghost predicate Writable(goal: seq<Entry>) {
    && (goal != [] ==> goal[0].value.Some?)
    && forall i :: 0 < i < |goal| ==> goal[i].value.Some? || goal[i - 1].value.Some?
  }

  /** How many versions the target has of a name. */
  function Count(t: Table, name: NameHmac): nat {
    if name in t.heads then t.heads[name].version else 0
  }

  /** The target holds exactly the first entries of `goal`, numbered from 1. */
  ghost predicate HoldsPrefix(ring: Ring, t: Table, name: NameHmac, goal: seq<Entry>) {
    && Count(t, name) <= |goal|
    && (forall v: nat :: Key(name, v) in t.rows <==> 1 <= v <= Count(t, name))
    && (forall v: nat :: 1 <= v <= Count(t, name) ==> Shows(ring, t.rows[Key(name, v)], goal[v - 1]))
  }

  ghost predicate HoldsAll(ring: Ring, t: Table, name: NameHmac, goal: seq<Entry>) {
    HoldsPrefix(ring, t, name, goal) && Count(t, name) == |goal|
  }

  /** What the target shows of a name, oldest first. */
  ghost function Seen(ring: Ring, t: Table, name: NameHmac): seq<Entry> {
    seq(Count(t, name), i requires 0 <= i < Count(t, name) =>
      if Key(name, i + 1) in t.rows then EntryAt(ring, t.rows[Key(name, i + 1)]) else Entry(None, None, 0))
  }

  /** Holding a prefix of the goal is showing one. */
  lemma SeenIsPrefix(ring: Ring, t: Table, generation: nat, name: NameHmac, goal: seq<Entry>)
    requires RowsOk(t, generation) && HoldsPrefix(ring, t, name, goal)
    ensures Seen(ring, t, name) <= goal && (HoldsAll(ring, t, name, goal) <==> Seen(ring, t, name) == goal)
  {
    var seen := Seen(ring, t, name);
    forall i | 0 <= i < |seen|
      ensures seen[i] == goal[i]
    {
      assert Shows(ring, t.rows[Key(name, i + 1)], goal[i + 1 - 1]);
      assert RowOk(Key(name, i + 1), t.rows[Key(name, i + 1)], generation);
    }
  }

  // ------------------------------------------------------------ the source

  lemma {:induction false} LeadingDropped(t: Table, name: NameHmac, vs: seq<nat>)
    requires forall v :: v in vs ==> Key(name, v) in t.rows
    ensures var r := WithoutLeading(t, name, vs);
            && |r| <= |vs| && r == vs[|vs| - |r|..]
            && (r != [] ==> !t.rows[Key(name, r[0])].tombstone)
            && (forall i :: 0 <= i < |vs| - |r| ==> t.rows[Key(name, vs[i])].tombstone)
    decreases |vs|
  {
    if vs != [] && t.rows[Key(name, vs[0])].tombstone {
      LeadingDropped(t, name, vs[1..]);
      var r := WithoutLeading(t, name, vs[1..]);
      assert vs[1..][|vs| - 1 - |r|..] == vs[|vs| - |r|..];
    }
  }

  /** The source is a suffix of what is retained, begins live, and skips tombstones only. */
  lemma SourceIsSuffix(t: Table, name: NameHmac)
    ensures var all, vs := Ascending(VersionsOf(t, name)), Source(t, name);
            && |vs| <= |all| && vs == all[|all| - |vs|..]
            && (forall i :: 0 <= i < |all| ==> Key(name, all[i]) in t.rows)
            && (vs != [] ==> !t.rows[Key(name, vs[0])].tombstone)
            && (forall i :: 0 <= i < |all| - |vs| ==> t.rows[Key(name, all[i])].tombstone)
  {
    hide WithoutLeading, Ascending, StrictlyAscending;
    var all := Ascending(VersionsOf(t, name));
    forall v | v in all
      ensures Key(name, v) in t.rows
    {
      assert v in VersionsOf(t, name);
    }
    LeadingDropped(t, name, all);
    forall i | 0 <= i < |all|
      ensures Key(name, all[i]) in t.rows
    {
      assert all[i] in all;
    }
  }

  lemma GoalShows(ring: Ring, kind: RecordKind, t: Table, generation: nat, name: NameHmac, i: nat)
    requires RowsOk(t, generation) && Readable(ring, kind, t)
    requires i < |Source(t, name)|
    ensures |Goal(ring, t, name)| == |Source(t, name)|
    ensures var k := Key(name, Source(t, name)[i]); k in t.rows && Shows(ring, t.rows[k], Goal(ring, t, name)[i])
  {
    hide Source, Ascending;
    SourceIsSuffix(t, name);
    var k := Key(name, Source(t, name)[i]);
    assert k in t.rows && RowOk(k, t.rows[k], generation);
  }

  /** Consecutive retained versions are not both deletions. */
  lemma NoTwoDeletions(t: Table, generation: nat, name: NameHmac, i: nat)
    requires TableOk(t, generation) && Regularity.Gapless(t) && Regularity.Spaced(t)
    requires var all := Ascending(VersionsOf(t, name)); 0 < i < |all|
    ensures var all := Ascending(VersionsOf(t, name));
            && Key(name, all[i - 1]) in t.rows && Key(name, all[i]) in t.rows
            && !(t.rows[Key(name, all[i - 1])].tombstone && t.rows[Key(name, all[i])].tombstone)
  {
    hide Ascending, TableOk, Regularity.Gapless;
    NeighboursAreAdjacent(t, generation, name, i);
  }

  /** What a regular table's name gives to copy can be written from the start: at most one leading
  tombstone is dropped, no deletion follows another, and it fits the limit. */
  lemma SourceIsWritable(ring: Ring, kind: RecordKind, t: Table, generation: nat, name: NameHmac, max: nat)
    requires TableOk(t, generation) && Regularity.Regular(t, max) && Readable(ring, kind, t)
    ensures var vs, goal := Source(t, name), Goal(ring, t, name);
            && Writable(goal) && |goal| == |vs| <= Max(1, max)
            && |Ascending(VersionsOf(t, name))| - |vs| <= 1
  {
    hide Source, Goal, Ascending, StrictlyAscending, TableOk, Readable, Regularity.Gapless, Regularity.Spaced;
    var all, vs, goal := Ascending(VersionsOf(t, name)), Source(t, name), Goal(ring, t, name);
    SourceIsSuffix(t, name);
    assert |goal| == |vs| by { GoalSize(ring, t, name); }
    var skipped := |all| - |vs|;
    assert RowsOk(t, generation) by { Regularity.TableRowsOk(t, generation); }
    forall i | 0 < i < |goal|
      ensures goal[i].value.Some? || goal[i - 1].value.Some?
    {
      NoTwoDeletions(t, generation, name, skipped + i);
      GoalShows(ring, kind, t, generation, name, i);
      GoalShows(ring, kind, t, generation, name, i - 1);
    }
    if goal != [] {
      GoalShows(ring, kind, t, generation, name, 0);
    }
    if skipped > 1 {
      NoTwoDeletions(t, generation, name, 1);
    }
    assert |VersionsOf(t, name)| <= Max(1, max);
  }

  /** Every entry of the history is the name's own. */
  ghost predicate AllNamed(goal: seq<Entry>, name: string) {
    forall i :: 0 <= i < |goal| ==> goal[i].name == Some(name)
  }

  lemma GoalIsNamed(ring: Ring, kind: RecordKind, t: Table, generation: nat, name: string)
    requires RingOk(ring) && RowsOk(t, generation) && Readable(ring, kind, t)
    ensures AllNamed(Goal(ring, t, ring.index(kind, name)), name)
  {
    hide Source, Ascending;
    var hmac := ring.index(kind, name);
    GoalSize(ring, t, hmac);
    var goal := Goal(ring, t, hmac);
    forall i | 0 <= i < |goal|
      ensures goal[i].name == Some(name)
    {
      GoalShows(ring, kind, t, generation, hmac, i);
    }
  }

  lemma GoalSize(ring: Ring, t: Table, name: NameHmac)
    ensures |Goal(ring, t, name)| == |Source(t, name)|
  {
  }

  /** In a gapless table, consecutive listed versions are consecutive numbers. */
  lemma NeighboursAreAdjacent(t: Table, generation: nat, name: NameHmac, i: nat)
    requires TableOk(t, generation) && Regularity.Gapless(t)
    requires var all := Ascending(VersionsOf(t, name)); 0 < i < |all|
    ensures var all := Ascending(VersionsOf(t, name));
            && Key(name, all[i - 1]) in t.rows && Key(name, all[i]) in t.rows
            && all[i] == all[i - 1] + 1
  {
    hide RowOk;
    var all := Ascending(VersionsOf(t, name));
    assert all[i - 1] in all && all[i] in all;
    var v := all[i - 1] + 1;
    assert Key(name, v) in t.rows;
    assert v in VersionsOf(t, name) && v in all;
    var j :| 0 <= j < |all| && all[j] == v;
    assert i - 1 < j <= i;
  }

  // ------------------------------------------------------------ one write

  /** The only records that changed are one vault's of one kind, which are now `t`. */
  ghost predicate OnlyRecords(db: Db, db': Db, pk: nat, kind: RecordKind, t: Table) {
    && db'.vaults.Keys == db.vaults.Keys
    && pk in db.vaults
    && (forall qk :: qk in db.vaults && qk != pk ==> db'.vaults[qk] == db.vaults[qk])
    && db'.vaults[pk].generation == db.vaults[pk].generation
    && (forall k :: db'.vaults[pk].Records(k) == if k == kind then t else db.vaults[pk].Records(k))
  }

  lemma StoredRecords(db: Db, pk: nat, kind: RecordKind, name: NameHmac, version: nat, row: VersionRow, max: nat,
                      total: nat, e: AuditEvent, now: int)
    requires pk in db.vaults
    ensures var t := db.vaults[pk].Records(kind);
            var s := Stored(db.vaults[pk], kind, name, version, row, max, total);
            s.Ok? && AppendAudit(s.value, e, now).Ok? ==>
              OnlyRecords(db, WithVault(db, pk, AppendAudit(s.value, e, now).value), pk, kind,
                          Written(t, name, version, row, Prunable(t, name, max)))
  {
    hide Written, Prunable;
  }

  /** What a put that succeeds does to the records. */
  lemma PutWrites(db: Db, pk: nat, kind: RecordKind, name: NameHmac, pre: Precondition, w: RecordWrite,
                  ctx: Ctx, limits: Limits)
    requires PutRecord(db, pk, kind, name, pre, w, ctx, limits).answer.Ok?
    ensures pk in db.vaults
    ensures var t := db.vaults[pk].Records(kind);
            OnlyRecords(db, PutRecord(db, pk, kind, name, pre, w, ctx, limits).db, pk, kind,
                        Written(t, name, NextVersion(t, name), WrittenRow(w, ctx.actor),
                                Prunable(t, name, limits.Versions(kind))))
  {
    hide OnlyRecords, AppendAudit, Stored, FreedBy, LiveNames, Assigned, Vault.HeadOf, Vault.Records, NextVersion,
         WithVault, Written, Prunable;
    var v := db.vaults[pk];
    AssignedIsNext(pre, v, kind, name);
    var row, max, next := WrittenRow(w, ctx.actor), limits.Versions(kind), NextVersion(v.Records(kind), name);
    var total := v.bytesUsed + RowBytes(row) - FreedBy(v.Records(kind), name, max);
    StoredRecords(db, pk, kind, name, next, row, max, total,
      WriteEvent(ctx.actor, PutAction(kind), Some(name), next, Some(ValueHash(w.valueCt))), ctx.now);
  }

  lemma DeleteWrites(db: Db, pk: nat, kind: RecordKind, name: NameHmac, ifMatch: nat, w: RecordWrite,
                     ctx: Ctx, limits: Limits)
    requires DeleteRecord(db, pk, kind, name, ifMatch, w, ctx, limits).answer.Ok?
    ensures pk in db.vaults
    ensures var t := db.vaults[pk].Records(kind);
            OnlyRecords(db, DeleteRecord(db, pk, kind, name, ifMatch, w, ctx, limits).db, pk, kind,
                        Written(t, name, NextVersion(t, name), WrittenRow(w, ctx.actor),
                                Prunable(t, name, limits.Versions(kind))))
  {
    hide OnlyRecords, AppendAudit, Stored, FreedBy, Vault.Records, WithVault, Written, Prunable;
    var v := db.vaults[pk];
    var row, max, next := WrittenRow(w, ctx.actor), limits.Versions(kind), NextVersion(v.Records(kind), name);
    var spent, freed := v.bytesUsed + |w.nameCt|, FreedBy(v.Records(kind), name, max);
    var total := if spent < freed then 0 else spent - freed;
    StoredRecords(db, pk, kind, name, next, row, max, total,
      WriteEvent(ctx.actor, DeleteAction(kind), Some(name), next, None), ctx.now);
  }

  // ------------------------------------------------------------ a copied history grows

  lemma NothingToPrune(t: Table, name: NameHmac, n: nat, max: nat)
    requires forall v: nat :: Key(name, v) in t.rows <==> 1 <= v <= n
    requires n < Max(1, max)
    ensures |VersionsOf(t, name)| == n && Prunable(t, name, max) == []
  {
    hide Ascending;
    Audit.AscendingRun(VersionsOf(t, name), 1, n);
  }

  /** Writing the next entry of a history that is held so far makes it held one further. */
  lemma PrefixGrows(ring: Ring, t: Table, generation: nat, name: NameHmac, goal: seq<Entry>, row: VersionRow, max: nat)
    requires TableOk(t, generation) && HoldsPrefix(ring, t, name, goal)
    requires Count(t, name) < |goal| <= Max(1, max)
    requires Shows(ring, row, goal[Count(t, name)])
    ensures var t' := Written(t, name, NextVersion(t, name), row, Prunable(t, name, max));
            HoldsPrefix(ring, t', name, goal) && Count(t', name) == Count(t, name) + 1
  {
    hide Prunable, Shows, RowOk;
    var n := Count(t, name);
    NothingToPrune(t, name, n, max);
    var t' := Written(t, name, NextVersion(t, name), row, []);
    assert KeysOf(name, []) == {};
    assert t'.rows == t.rows[Key(name, n + 1) := row];
    assert Count(t', name) == n + 1;
  }

  /** The two tables agree on every name but `name`. */
  ghost predicate OthersSame(t: Table, t': Table, name: NameHmac) {
    && (forall k: Key :: k.name != name ==>
          (k in t'.rows <==> k in t.rows) && (k in t.rows ==> t'.rows[k] == t.rows[k]))
    && (forall n: NameHmac :: n != name ==>
          (n in t'.heads <==> n in t.heads) && (n in t.heads ==> t'.heads[n] == t.heads[n]))
  }

  lemma WrittenOthersSame(t: Table, name: NameHmac, version: nat, row: VersionRow, pruned: seq<nat>)
    ensures OthersSame(t, Written(t, name, version, row, pruned), name)
  {
  }

  lemma OthersHold(ring: Ring, t: Table, t': Table, name: NameHmac, other: NameHmac, goal: seq<Entry>)
    requires OthersSame(t, t', name) && other != name
    ensures Count(t', other) == Count(t, other)
    ensures HoldsPrefix(ring, t, other, goal) ==> HoldsPrefix(ring, t', other, goal)
  {
    hide Shows;
  }

  /** Nothing changed but one name's records, in one vault and kind. */
  ghost predicate OnlyName(db: Db, db': Db, pk: nat, kind: RecordKind, name: NameHmac) {
    && db'.vaults.Keys == db.vaults.Keys
    && pk in db.vaults
    && (forall qk :: qk in db.vaults && qk != pk ==> db'.vaults[qk] == db.vaults[qk])
    && db'.vaults[pk].generation == db.vaults[pk].generation
    && (forall k :: k != kind ==> db'.vaults[pk].Records(k) == db.vaults[pk].Records(k))
    && OthersSame(db.vaults[pk].Records(kind), db'.vaults[pk].Records(kind), name)
  }

  lemma OnlyNameTransitive(a: Db, b: Db, c: Db, pk: nat, kind: RecordKind, name: NameHmac)
    requires OnlyName(a, b, pk, kind, name) && OnlyName(b, c, pk, kind, name)
    ensures OnlyName(a, c, pk, kind, name)
  {
    hide OthersSame, Vault.Records;
    OthersSameTransitive(a.vaults[pk].Records(kind), b.vaults[pk].Records(kind), c.vaults[pk].Records(kind), name);
  }

  lemma OthersSameTransitive(a: Table, b: Table, c: Table, name: NameHmac)
    requires OthersSame(a, b, name) && OthersSame(b, c, name)
    ensures OthersSame(a, c, name)
  {
  }

  /** The precondition a client computes for a name whose history is held so far. */
  lemma PrefixHead(ring: Ring, t: Table, generation: nat, name: NameHmac, goal: seq<Entry>)
    requires TableOk(t, generation) && HoldsPrefix(ring, t, name, goal)
    ensures var n := Count(t, name);
            && Latest(t, name) == (if n == 0 then None else Some(Head(n, goal[n - 1].value.None?)))
            && Latest(t, name) == (if name in t.heads then Some(t.heads[name]) else None)
            && |Metas(t, name)| == n
            && NextVersion(t, name) == n + 1
  {
    hide Metas, Latest, RowOk;
    LatestIsHead(t, generation, name);
    HeadsAreRows(t, name, generation);
    Audit.AscendingRun(VersionsOf(t, name), 1, Count(t, name));
    assert |VersionsOf(t, name)| == Count(t, name);
  }

  lemma HeadsAreRows(t: Table, name: NameHmac, generation: nat)
    requires TableOk(t, generation)
    ensures name in t.heads ==>
              var k := Key(name, t.heads[name].version);
              k in t.rows && 1 <= k.version && t.rows[k].tombstone == t.heads[name].tombstone
  {
    if name in t.heads {
      var k := Key(name, t.heads[name].version);
      assert RowOk(k, t.rows[k], generation);
    }
  }

  // ------------------------------------------------------------ sending a copied version

  /** What an entry takes once sealed under a ring's keys. */
  function SealedSize(ring: Ring, e: Entry): nat {
    (if e.name.Some? then |ring.sealName(e.name.value)| else 0)
      + if e.value.Some? then |ring.seal(e.value.value)| else 0
  }

  function Sizes(ring: Ring): Entry -> nat {
    (e: Entry) => SealedSize(ring, e)
  }

  /** The write carries the entry, re-sealed. */
  ghost predicate Carries(ring: Ring, w: RecordWrite, e: Entry) {
    && |w.nameCt| + (if w.valueCt.Some? then |w.valueCt.value| else 0) == SealedSize(ring, e)
    && (w.valueCt.Some? && e.value.Some? ==> |w.valueCt.value| == |ring.seal(e.value.value)|)
    && ring.openName(w.nameCt) == e.name
    && w.writtenAt == e.writtenAt
    && w.valueCt.Some? == e.value.Some?
    && (e.value.Some? ==> ring.open(w.valueCt.value) == e.value)
  }

  lemma CarriedShows(ring: Ring, w: RecordWrite, e: Entry, actor: Actor)
    requires Carries(ring, w, e)
    ensures Shows(ring, WrittenRow(w, actor), e)
  {
  }

  /** One entry further, and nothing else changed. */
  ghost predicate OneFurther(ring: Ring, db: Db, db': Db, pk: nat, kind: RecordKind, name: NameHmac, goal: seq<Entry>) {
    && OnlyName(db, db', pk, kind, name)
    && Count(db'.vaults[pk].Records(kind), name) == Count(db.vaults[pk].Records(kind), name) + 1
    && HoldsPrefix(ring, db'.vaults[pk].Records(kind), name, goal)
  }

  /** The vault takes as many bytes more as the entry, sealed. */
  ghost predicate Heavier(ring: Ring, db: Db, db': Db, pk: nat, e: Entry) {
    pk in db.vaults && pk in db'.vaults && db'.vaults[pk].bytesUsed == db.vaults[pk].bytesUsed + SealedSize(ring, e)
  }

  lemma WrittenIsHeavier(ring: Ring, db: Db, db': Db, pk: nat, kind: RecordKind, name: NameHmac, goal: seq<Entry>,
                         w: RecordWrite, actor: Actor, max: nat)
    requires Inv(db) && Inv(db') && pk in db.vaults
    requires var t := db.vaults[pk].Records(kind);
             && HoldsPrefix(ring, t, name, goal)
             && Count(t, name) < |goal| <= Max(1, max) && Carries(ring, w, goal[Count(t, name)])
             && OnlyRecords(db, db', pk, kind,
                 Written(t, name, NextVersion(t, name), WrittenRow(w, actor), Prunable(t, name, max)))
    ensures Heavier(ring, db, db', pk, goal[Count(db.vaults[pk].Records(kind), name)])
  {
    hide Inv, Carries, Written, Prunable, TotalBytes, TableOk, Chain, Shows;
    var t, row := db.vaults[pk].Records(kind), WrittenRow(w, actor);
    var n := Count(t, name);
    NothingToPrune(t, name, n, max);
    RecordsAreOk(db, pk, kind);
    VaultIsOk(db, pk);
    VaultIsOk(db', pk);
    NextIsFree(t, db.vaults[pk].generation, name);
    PrunesNothing(t, name);
    WrittenBytes(t, name, NextVersion(t, name), row, []);
    assert RowBytes(row) == SealedSize(ring, goal[n]) by { CarriedSize(ring, w, goal[n], actor); }
    BothKinds(db.vaults[pk], db'.vaults[pk], kind, Written(t, name, NextVersion(t, name), row, []));
  }

  lemma PrunesNothing(t: Table, name: NameHmac)
    ensures Retained(t, name, []) && StrictlyAscending([]) && Freed(t, name, []) == 0
  {
  }

  lemma NextIsFree(t: Table, generation: nat, name: NameHmac)
    requires TableOk(t, generation)
    ensures Key(name, NextVersion(t, name)) !in t.rows
  {
    NextVersionIsFree(t, generation, name);
  }

  lemma CarriedSize(ring: Ring, w: RecordWrite, e: Entry, actor: Actor)
    requires Carries(ring, w, e)
    ensures RowBytes(WrittenRow(w, actor)) == SealedSize(ring, e)
  {
  }

  lemma BothKinds(v: Vault, v': Vault, kind: RecordKind, t: Table)
    requires forall k :: v'.Records(k) == if k == kind then t else v.Records(k)
    ensures TotalBytes(v'.secrets.rows) + TotalBytes(v'.configs.rows) + TotalBytes(v.Records(kind).rows)
            == TotalBytes(v.secrets.rows) + TotalBytes(v.configs.rows) + TotalBytes(t.rows)
  {
    assert v'.Records(Secret) == v'.secrets && v'.Records(Config) == v'.configs;
    assert v.Records(Secret) == v.secrets && v.Records(Config) == v.configs;
  }

  /** The entry is within every quota: its value is not too long, its name is live or another may be, and
  the vault has room for it. A deletion always is. */
  ghost predicate Fits(ring: Ring, v: Vault, kind: RecordKind, name: NameHmac, e: Entry, limits: Limits) {
    e.value.Some? ==>
      && |ring.seal(e.value.value)| <= limits.MaxValue(kind)
      && (name in LiveNames(v.Records(kind)) || |LiveNames(v.Records(kind))| < limits.MaxLive(kind))
      && v.bytesUsed + SealedSize(ring, e) <= limits.maxVaultBytes
  }

  /** A put on the head it expects succeeds exactly when no quota is against it. */
  lemma PutWithinQuotas(db: Db, pk: nat, kind: RecordKind, name: NameHmac, pre: Pre, w: RecordWrite, ctx: Ctx,
                        limits: Limits)
    requires Inv(db) && pk in db.vaults && w.valueCt.Some? && w.version == pre.Signs()
    requires pre.Revive? ==> 1 <= pre.tombstone
    requires db.vaults[pk].HeadOf(kind, name) == pre.Expects() && db.vaults[pk].generation == w.generation
    ensures var v := db.vaults[pk];
            PutRecord(db, pk, kind, name, pre.Header(), w, ctx, limits).answer.Ok? <==>
              && |w.valueCt.value| <= limits.MaxValue(kind)
              && (name in LiveNames(v.Records(kind)) || |LiveNames(v.Records(kind))| < limits.MaxLive(kind))
              && v.bytesUsed + RowBytes(WrittenRow(w, ctx.actor)) - FreedBy(v.Records(kind), name,
                  limits.Versions(kind))
                 <= limits.maxVaultBytes
  {
    hide Inv, AppendAudit, Stored, FreedBy, Refuse, RowsOk, HeadsOk, Chain;
    LoadVaultOk(db, pk);
    AssignedIsNext(pre.Header(), db.vaults[pk], kind, name);
    WriteInv(db, pk, kind, name, w, ctx, limits);
    forall error: StoreError {
      RefuseInv<nat>(db, pk, Event(ctx.actor, PutAction(kind), Some(name), None, Refused), ctx.now, error);
    }
  }

  lemma WrittenIsFurther(ring: Ring, db: Db, db': Db, pk: nat, kind: RecordKind, name: NameHmac, goal: seq<Entry>,
                         w: RecordWrite, actor: Actor, max: nat)
    requires Inv(db) && pk in db.vaults
    requires var t := db.vaults[pk].Records(kind);
             && HoldsPrefix(ring, t, name, goal)
             && Count(t, name) < |goal| <= Max(1, max) && Carries(ring, w, goal[Count(t, name)])
             && OnlyRecords(db, db', pk, kind,
                 Written(t, name, NextVersion(t, name), WrittenRow(w, actor), Prunable(t, name, max)))
    ensures OneFurther(ring, db, db', pk, kind, name, goal)
  {
    hide Inv, HoldsPrefix, Carries, Vault.Records, Written, Prunable, NextVersion, OthersSame, Count, WrittenRow;
    var t := db.vaults[pk].Records(kind);
    RecordsAreOk(db, pk, kind);
    CarriedShows(ring, w, goal[Count(t, name)], actor);
    PrefixGrows(ring, t, db.vaults[pk].generation, name, goal, WrittenRow(w, actor), max);
    WrittenOthersSame(t, name, NextVersion(t, name), WrittenRow(w, actor), Prunable(t, name, max));
  }

  /** What there is to send next, and what the client computes to send it. */
  ghost predicate NextUp(ring: Ring, db: Db, pk: nat, kind: RecordKind, name: NameHmac, goal: seq<Entry>,
                        w: RecordWrite,
                         limits: Limits)
  {
    && pk in db.vaults
    && var t := db.vaults[pk].Records(kind);
       && HoldsPrefix(ring, t, name, goal) && Writable(goal)
       && Count(t, name) < |goal| <= Max(1, limits.Versions(kind))
       && Carries(ring, w, goal[Count(t, name)]) && w.version == Count(t, name) + 1
       && w.generation == db.vaults[pk].generation
  }

  /** The precondition such a write is sent under is the one its signature and the store's head agree on. */
  lemma NextPre(ring: Ring, db: Db, pk: nat, kind: RecordKind, name: NameHmac, goal: seq<Entry>, w: RecordWrite,
                limits: Limits)
    requires Inv(db) && NextUp(ring, db, pk, kind, name, goal, w, limits)
    ensures var v := db.vaults[pk];
            var n, pre := Count(v.Records(kind), name), Pre.After(Latest(v.Records(kind), name));
            && v.HeadOf(kind, name) == pre.Expects() && pre.Signs() == n + 1 == w.version
            && (pre.Revive? ==> 1 <= pre.tombstone)
            && (w.valueCt.None? ==> pre.Update? && pre.live == n && v.HeadOf(kind, name) == Some(Head(n, false)))
  {
    hide Inv, HoldsPrefix, Carries, Latest, Vault.Records, Count;
    var t := db.vaults[pk].Records(kind);
    RecordsAreOk(db, pk, kind);
    PrefixHead(ring, t, db.vaults[pk].generation, name, goal);
    CarriesValue(ring, w, goal[Count(t, name)]);
  }

  /** The vault's records of a kind and its bytes are as they were. */
  ghost predicate SameVault(db: Db, db': Db, pk: nat, kind: RecordKind) {
    && pk in db.vaults && pk in db'.vaults
    && db'.vaults[pk].Records(kind) == db.vaults[pk].Records(kind)
        && db'.vaults[pk].bytesUsed == db.vaults[pk].bytesUsed
  }

  lemma NextPutFits(ring: Ring, db: Db, pk: nat, kind: RecordKind, name: NameHmac, goal: seq<Entry>, w: RecordWrite,
                    ctx: Ctx, limits: Limits)
    requires Inv(db) && NextUp(ring, db, pk, kind, name, goal, w, limits) && w.valueCt.Some?
    ensures var t := db.vaults[pk].Records(kind);
            PutRecord(db, pk, kind, name, Pre.After(Latest(t, name)).Header(), w, ctx, limits).answer.Ok? <==>
              Fits(ring, db.vaults[pk], kind, name, goal[Count(t, name)], limits)
  {
    hide Inv, PutRecord, Latest, Vault.Records, Vault.HeadOf, Prunable, Pre.Expects, Pre.Signs, Pre.After, Pre.Header,
         Writable, Shows, LiveNames;
    var t := db.vaults[pk].Records(kind);
    var pre := Pre.After(Latest(t, name));
    NextPre(ring, db, pk, kind, name, goal, w, limits);
    PutWithinQuotas(db, pk, kind, name, pre, w, ctx, limits);
    CarriedSize(ring, w, goal[Count(t, name)], ctx.actor);
    NothingToPrune(t, name, Count(t, name), limits.Versions(kind));
    PrunesNothing(t, name);
  }

  lemma NextPutIsTaken(ring: Ring, db: Db, pk: nat, kind: RecordKind, name: NameHmac, goal: seq<Entry>, w: RecordWrite,
                       ctx: Ctx, limits: Limits)
    requires Inv(db) && NextUp(ring, db, pk, kind, name, goal, w, limits) && w.valueCt.Some?
    ensures var t := db.vaults[pk].Records(kind);
            var o := PutRecord(db, pk, kind, name, Pre.After(Latest(t, name)).Header(), w, ctx, limits);
            && Inv(o.db) && (o.answer.Ok? <==> Fits(ring, db.vaults[pk], kind, name, goal[Count(t, name)], limits))
            && (o.answer.Ok? ==>
                 && o.answer.value == w.version && OneFurther(ring, db, o.db, pk, kind, name, goal)
                 && Heavier(ring, db, o.db, pk, goal[Count(t, name)]))
            && (o.answer.Err? ==>
                 && o.answer.error.QuotaExceeded? && OnlyName(db, o.db, pk, kind, name)
                 && SameVault(db, o.db, pk, kind))
  {
    hide Inv, PutRecord, HoldsPrefix, Carries, Latest, Vault.Records, Vault.HeadOf, OneFurther, OnlyName, OnlyRecords,
         Written, Prunable, Pre.Expects, Pre.Signs, Pre.After, Pre.Header, Writable, Count, Fits, Heavier;
    NextPutFits(ring, db, pk, kind, name, goal, w, ctx, limits);
    var pre := Pre.After(Latest(db.vaults[pk].Records(kind), name));
    NextPre(ring, db, pk, kind, name, goal, w, limits);
    PutComparesAndSwaps(db, pk, kind, name, pre, w, ctx, limits);
    PutRecordInv(db, pk, kind, name, pre.Header(), w, ctx, limits);
    var o := PutRecord(db, pk, kind, name, pre.Header(), w, ctx, limits);
    if o.answer.Ok? {
      PutWrites(db, pk, kind, name, pre.Header(), w, ctx, limits);
      WrittenIsFurther(ring, db, o.db, pk, kind, name, goal, w, ctx.actor, limits.Versions(kind));
      WrittenIsHeavier(ring, db, o.db, pk, kind, name, goal, w, ctx.actor, limits.Versions(kind));
    } else {
      Audit.RefusedPut(db, pk, kind, name, pre.Header(), w, ctx, limits);
      RefusedRecords(db, o.db, pk, kind, name);
    }
  }

  lemma NextDeleteIsTaken(ring: Ring, db: Db, pk: nat, kind: RecordKind, name: NameHmac, goal: seq<Entry>,
                        w: RecordWrite,
                          ctx: Ctx, limits: Limits)
    requires Inv(db) && NextUp(ring, db, pk, kind, name, goal, w, limits) && w.valueCt.None?
    ensures var pre := Pre.After(Latest(db.vaults[pk].Records(kind), name));
            && pre.Update?
            && var o := DeleteRecord(db, pk, kind, name, pre.live, w, ctx, limits);
               && Inv(o.db) && o.answer == Ok(w.version) && OneFurther(ring, db, o.db, pk, kind, name, goal)
               && Heavier(ring, db, o.db, pk, goal[Count(db.vaults[pk].Records(kind), name)])
  {
    hide Inv, DeleteRecord, HoldsPrefix, Carries, Latest, Vault.Records, Vault.HeadOf, OneFurther, OnlyRecords,
         Written, Prunable, Pre.Expects, Pre.Signs, Pre.After, Writable, Count, Heavier;
    var pre := Pre.After(Latest(db.vaults[pk].Records(kind), name));
    NextPre(ring, db, pk, kind, name, goal, w, limits);
    DeleteComparesAndSwaps(db, pk, kind, name, pre.live, w, ctx, limits);
    DeleteRecordInv(db, pk, kind, name, pre.live, w, ctx, limits);
    DeleteWrites(db, pk, kind, name, pre.live, w, ctx, limits);
    var o := DeleteRecord(db, pk, kind, name, pre.live, w, ctx, limits);
    WrittenIsFurther(ring, db, o.db, pk, kind, name, goal, w, ctx.actor, limits.Versions(kind));
    WrittenIsHeavier(ring, db, o.db, pk, kind, name, goal, w, ctx.actor, limits.Versions(kind));
  }

  /** The next entry, sent under the precondition the target's history gives, is stored as the next
  version exactly when it fits the quotas; otherwise a quota refuses it, and leaves the records as they
  were. */
  lemma NextEntryIsTaken(ring: Ring, db: Db, pk: nat, kind: RecordKind, name: NameHmac, goal: seq<Entry>,
                        w: RecordWrite,
                         ctx: Ctx, limits: Limits)
    requires Inv(db) && NextUp(ring, db, pk, kind, name, goal, w, limits)
    ensures var t := db.vaults[pk].Records(kind);
            var o := Sent(db, pk, kind, name, w, Pre.After(Latest(t, name)), ctx, limits);
            && Inv(o.db) && OnlyName(db, o.db, pk, kind, name)
            && (o.answer.Ok? <==> Fits(ring, db.vaults[pk], kind, name, goal[Count(t, name)], limits))
            && match o.answer
               case Ok(v) =>
                 && v == Count(t, name) + 1 && OneFurther(ring, db, o.db, pk, kind, name, goal)
                 && Heavier(ring, db, o.db, pk, goal[Count(t, name)])
               case Err(e) => e.QuotaExceeded? && SameVault(db, o.db, pk, kind)
  {
    hide Inv, PutRecord, DeleteRecord, HoldsPrefix, Latest, Vault.Records, OnlyName, Pre.After, Pre.Header, Writable,
         Count, Heavier, SameVault, SealedSize;
    if w.valueCt.Some? {
      NextPutIsTaken(ring, db, pk, kind, name, goal, w, ctx, limits);
    } else {
      NextDeleteIsTaken(ring, db, pk, kind, name, goal, w, ctx, limits);
    }
  }

  lemma CarriesValue(ring: Ring, w: RecordWrite, e: Entry)
    requires Carries(ring, w, e)
    ensures w.valueCt.Some? == e.value.Some?
  {
  }

  lemma RecordsAreOk(db: Db, pk: nat, kind: RecordKind)
    requires Inv(db) && pk in db.vaults
    ensures TableOk(db.vaults[pk].Records(kind), db.vaults[pk].generation)
  {
    hide TableOk, Chain;
    VaultIsOk(db, pk);
  }

  lemma RefusedRecords(db: Db, db': Db, pk: nat, kind: RecordKind, name: NameHmac)
    requires Audit.OnlyARefusedRow(db, db', pk)
    ensures SameVault(db, db', pk, kind)
    ensures OnlyName(db, db', pk, kind, name)
  {
  }

  // ------------------------------------------------------------ the copy itself

  /** Why a copy stopped short: it was interrupted, or the server refused a write. */
  datatype Stop = Interrupted | Refusal(error: StoreError)

  /** The source can be copied under `limits`: every name's history is regular and opens. */
  ghost predicate Copyable(v: Vault, ring: Ring, limits: Limits) {
    forall kind :: Regularity.Regular(v.Records(kind), limits.Versions(kind)) && Readable(ring, kind, v.Records(kind))
  }

  ghost function GoalOf(v: Vault, ring: Ring, kind: RecordKind, name: string): seq<Entry> {
    Goal(ring, v.Records(kind), ring.index(kind, name))
  }

  /** Of every name, the target holds a prefix of what the source has to copy, so of no other name
  anything; and all it holds can be read. */
  ghost predicate PartlyCopied(source: Vault, target: Vault, from: Ring, to: Ring) {
    && (forall kind :: Readable(to, kind, target.Records(kind)))
    && forall kind, name :: HoldsPrefix(to, target.Records(kind), to.index(kind, name),
        GoalOf(source, from, kind, name))
  }

  ghost predicate NameCopied(source: Vault, target: Vault, from: Ring, to: Ring, kind: RecordKind, name: string) {
    HoldsAll(to, target.Records(kind), to.index(kind, name), GoalOf(source, from, kind, name))
  }

  ghost predicate FullyCopied(source: Vault, target: Vault, from: Ring, to: Ring) {
    forall kind, name :: NameCopied(source, target, from, to, kind, name)
  }

  /** A fresh vault is where a copy starts. */
  lemma FreshIsPartlyCopied(source: Vault, target: Vault, from: Ring, to: Ring)
    requires target.secrets == EmptyTable && target.configs == EmptyTable
    ensures PartlyCopied(source, target, from, to)
  {
  }

  lemma MetasAre(t: Table, name: NameHmac, i: nat)
    requires i < |Metas(t, name)|
    ensures var all := Ascending(VersionsOf(t, name));
            && |all| == |Metas(t, name)| && Key(name, all[i]) in t.rows
            && Metas(t, name)[i] == Head(all[i], t.rows[Key(name, all[i])].tombstone)
  {
    hide Ascending;
    var all := Ascending(VersionsOf(t, name));
    assert all[i] in all;
    assert all[i] in VersionsOf(t, name);
  }

  /** The listed versions less leading tombstones, as the client gathers them. */
  method GatherSource(t: Table, name: NameHmac) returns (source: seq<nat>)
    ensures source == Source(t, name)
  {
    hide Metas, Ascending;
    var metas := Metas(t, name);
    ghost var all := Ascending(VersionsOf(t, name));
    source := [];
    assert all[0..] == all;
    for i := 0 to |metas|
      invariant |metas| == |all|
      invariant source == [] ==> WithoutLeading(t, name, all[i..]) == Source(t, name)
      invariant source != [] ==> source + all[i..] == Source(t, name)
    {
      MetasAre(t, name, i);
      ghost var rest := all[i..];
      assert rest[0] == all[i] && rest[1..] == all[i + 1..];
      if !(source == [] && metas[i].tombstone) {
        assert source == [] ==> WithoutLeading(t, name, rest) == rest;
        assert source + rest == source + [all[i]] + all[i + 1..];
        source := source + [metas[i].version];
      }
    }
  }

  method SendWrite(store: SqliteStore.Store, pk: nat, kind: RecordKind, name: NameHmac, w: RecordWrite, pre: Pre,
                   ctx: Ctx, limits: Limits) returns (answer: Result<nat, StoreError>)
    requires store.Valid()
    modifies store
    ensures store.Valid()
    ensures Outcome(store.State(), answer, []) == Sent(old(store.State()), pk, kind, name, w, pre, ctx, limits)
  {
    hide Inv, PutRecord, DeleteRecord;
    if w.valueCt.Some? {
      answer := store.PutRecord(pk, kind, name, pre.Header(), w, ctx, limits);
    } else if pre.Update? {
      answer := store.DeleteRecord(pk, kind, name, pre.live, w, ctx, limits);
    } else {
      answer := Err(Malformed);
    }
  }

  /** The last thing that happened: the next entry of some name was sent, as it must be, and the store
  refused it with `e`. */
  ghost predicate RefusedNext(db: Db, source: Vault, to: nat, from: Ring, toRing: Ring, ctx: Ctx, limits: Limits,
                        e: StoreError) {
    exists before, kind, name, w :: RefusedAt(before, db, source, to, from, toRing, ctx, limits, kind, name, w, e)
  }

  ghost predicate RefusedAt(before: Db, db: Db, source: Vault, to: nat, from: Ring, toRing: Ring, ctx: Ctx,
                        limits: Limits,
                            kind: RecordKind, name: string, w: RecordWrite, e: StoreError)
  {
    var hmac := toRing.index(kind, name);
    && NextUp(toRing, before, to, kind, hmac, GoalOf(source, from, kind, name), w, limits)
    && Sent(before, to, kind, hmac, w, Pre.After(Latest(before.vaults[to].Records(kind), hmac)), ctx, limits)
       == Outcome(db, Err(e), [])
  }

  /** `n` versions of the name are copied, the source is as it was, and `pre` is what the next write needs. */
  ghost predicate Underway(start: Db, db: Db, from: nat, to: nat, kind: RecordKind, name: NameHmac, ring: Ring,
                           goal: seq<Entry>, n: nat, pre: Pre)
  {
    && Inv(db) && OnlyName(start, db, to, kind, name) && from != to
    && from in start.vaults && from in db.vaults && db.vaults[from] == start.vaults[from]
    && to in db.vaults
    && var t := db.vaults[to].Records(kind);
       HoldsPrefix(ring, t, name, goal) && Count(t, name) == n <= |goal| && pre == Pre.After(Latest(t, name))
  }

  /** Where a copy of a name picks up: after the versions the target already has. */
  lemma PicksUp(db: Db, from: nat, to: nat, kind: RecordKind, name: NameHmac, ring: Ring, goal: seq<Entry>)
    requires Inv(db) && from in db.vaults && to in db.vaults && from != to
    requires HoldsPrefix(ring, db.vaults[to].Records(kind), name, goal)
    ensures var t := db.vaults[to].Records(kind);
            Underway(db, db, from, to, kind, name, ring, goal, |Metas(t, name)|, Pre.After(Latest(t, name)))
  {
    hide Inv, OnlyName, Shows, Metas, Latest;
    RecordsAreOk(db, to, kind);
    PrefixHead(ring, db.vaults[to].Records(kind), db.vaults[to].generation, name, goal);
    OnlyNameReflexive(db, to, kind, name);
  }

  /** One accepted write moves the copy of a name one further; a refused one leaves it where it was. It is
  accepted exactly when it fits. */
  lemma MovesAlong(start: Db, db: Db, from: nat, to: nat, kind: RecordKind, name: NameHmac, ring: Ring,
                   goal: seq<Entry>,
                   n: nat, pre: Pre, w: RecordWrite, ctx: Ctx, limits: Limits)
    requires Underway(start, db, from, to, kind, name, ring, goal, n, pre)
    requires n < |goal| <= Max(1, limits.Versions(kind)) && Writable(goal)
    requires Carries(ring, w, goal[n]) && w.version == n + 1 && w.generation == db.vaults[to].generation
    ensures var o := Sent(db, to, kind, name, w, pre, ctx, limits);
            && (o.answer.Ok? <==> Fits(ring, db.vaults[to], kind, name, goal[n], limits))
            && match o.answer
               case Ok(v) =>
                 && Heavier(ring, db, o.db, to, goal[n])
                 && Underway(start, o.db, from, to, kind, name, ring, goal, n + 1,
                             if w.valueCt.Some? then Update(v) else Revive(v))
               case Err(e) =>
                 && e.QuotaExceeded? && SameVault(db, o.db, to, kind)
                 && Underway(start, o.db, from, to, kind, name, ring, goal, n, pre)
  {
    hide Inv, OnlyName, HoldsPrefix, Latest, Sent, Carries, Vault.Records, Fits, Heavier;
    NextEntryIsTaken(ring, db, to, kind, name, goal, w, ctx, limits);
    var o := Sent(db, to, kind, name, w, pre, ctx, limits);
    OnlyNameTransitive(start, db, o.db, to, kind, name);
    OnlyNameElsewhere(db, o.db, to, kind, name, from);
    OnlyNameElsewhere(start, o.db, to, kind, name, from);
    OnlyNameKeepsTarget(db, o.db, to, kind, name);
    RecordsAreOk(o.db, to, kind);
    PrefixHead(ring, o.db.vaults[to].Records(kind), o.db.vaults[to].generation, name, goal);
    CarriesValue(ring, w, goal[n]);
  }

  /** There is room for what is left of a name, from its entry `n` on: no value is too long, another name
  may be live beside those that are, and the vault can take all of it. */
  ghost predicate NameRoom(ring: Ring, v: Vault, kind: RecordKind, name: NameHmac, goal: seq<Entry>, n: nat,
                        limits: Limits) {
    && (forall i :: n <= i < |goal| && goal[i].value.Some? ==>
        |ring.seal(goal[i].value.value)| <= limits.MaxValue(kind))
    && (n < |goal| ==> |LiveNames(v.Records(kind)) - {name}| < limits.MaxLive(kind))
    && v.bytesUsed + Weight(goal, n, Sizes(ring)) <= limits.maxVaultBytes
  }

  lemma RoomFits(ring: Ring, v: Vault, kind: RecordKind, name: NameHmac, goal: seq<Entry>, n: nat, limits: Limits)
    requires NameRoom(ring, v, kind, name, goal, n, limits) && n < |goal|
    ensures Fits(ring, v, kind, name, goal[n], limits)
  {
    hide LiveNames, Vault.Records;
    var live := LiveNames(v.Records(kind));
    if name !in live {
      assert live - {name} == live;
    }
  }

  /** Writing an entry uses up the room it had. */
  lemma RoomStays(ring: Ring, start: Db, db: Db, db': Db, to: nat, kind: RecordKind, name: NameHmac, goal: seq<Entry>,
                  n: nat,
                  limits: Limits)
    requires n < |goal| && to in db.vaults && to in db'.vaults && Heavier(ring, db, db', to, goal[n])
    requires OnlyName(start, db, to, kind, name) && OnlyName(start, db', to, kind, name)
    ensures db'.vaults[to].bytesUsed + Weight(goal, n + 1, Sizes(ring))
        == db.vaults[to].bytesUsed + Weight(goal, n, Sizes(ring))
    ensures NameRoom(ring, db.vaults[to], kind, name, goal, n, limits) ==>
              NameRoom(ring, db'.vaults[to], kind, name, goal, n + 1, limits)
  {
    hide Vault.Records, SealedSize, OthersSame;
    OthersLive(start.vaults[to].Records(kind), db.vaults[to].Records(kind), name);
    OthersLive(start.vaults[to].Records(kind), db'.vaults[to].Records(kind), name);
  }

  lemma OthersLive(t: Table, t': Table, name: NameHmac)
    requires OthersSame(t, t', name)
    ensures LiveNames(t') - {name} == LiveNames(t) - {name}
  {
  }

  lemma RefusedHere(start: Db, db: Db, db': Db, from: nat, to: nat, fromRing: Ring, toRing: Ring, kind: RecordKind,
                    name: string, n: nat, pre: Pre, w: RecordWrite, ctx: Ctx, limits: Limits, e: StoreError)
    requires from in start.vaults
    requires var goal := GoalOf(start.vaults[from], fromRing, kind, name);
             && Underway(start, db, from, to, kind, toRing.index(kind, name), toRing, goal, n, pre)
             && n < |goal| <= Max(1, limits.Versions(kind)) && Writable(goal)
             && Carries(toRing, w, goal[n]) && w.version == n + 1 && w.generation == db.vaults[to].generation
    requires Sent(db, to, kind, toRing.index(kind, name), w, pre, ctx, limits) == Outcome(db', Err(e), [])
    ensures RefusedNext(db', start.vaults[from], to, fromRing, toRing, ctx, limits, e)
  {
    hide Inv, OnlyName, HoldsPrefix, Latest, Sent, Carries, Vault.Records, GoalOf, Writable, Count;
    assert RefusedAt(db, db', start.vaults[from], to, fromRing, toRing, ctx, limits, kind, name, w, e);
  }

  lemma OnlyNameKeepsTarget(db: Db, db': Db, pk: nat, kind: RecordKind, name: NameHmac)
    requires OnlyName(db, db', pk, kind, name)
    ensures pk in db'.vaults
  {
  }

  /** The copy of a name is underway at `n`, having started at `had`: the vault is heavier by what was
  copied, and what was room for all of it is room for the rest. */
  ghost predicate Along(start: Db, db: Db, from: nat, to: nat, kind: RecordKind, name: NameHmac, ring: Ring,
                        goal: seq<Entry>,
                        had: nat, n: nat, pre: Pre, limits: Limits)
  {
    && Underway(start, db, from, to, kind, name, ring, goal, n, pre) && to in start.vaults && had <= n
    && db.vaults[to].bytesUsed + Weight(goal, n, Sizes(ring))
        == start.vaults[to].bytesUsed + Weight(goal, had, Sizes(ring))
    && (NameRoom(ring, start.vaults[to], kind, name, goal, had, limits) ==>
          NameRoom(ring, db.vaults[to], kind, name, goal, n, limits))
  }

  lemma GoesAlong(start: Db, db: Db, from: nat, to: nat, kind: RecordKind, name: NameHmac, ring: Ring, goal: seq<Entry>,
                  had: nat, n: nat, pre: Pre, w: RecordWrite, ctx: Ctx, limits: Limits)
    requires Along(start, db, from, to, kind, name, ring, goal, had, n, pre, limits)
    requires n < |goal| <= Max(1, limits.Versions(kind)) && Writable(goal)
    requires Carries(ring, w, goal[n]) && w.version == n + 1 && w.generation == db.vaults[to].generation
    ensures var o := Sent(db, to, kind, name, w, pre, ctx, limits);
            match o.answer
            case Ok(v) =>
              Along(start, o.db, from, to, kind, name, ring, goal, had, n + 1,
                    if w.valueCt.Some? then Update(v) else Revive(v), limits)
            case Err(e) =>
              && e.QuotaExceeded? && !NameRoom(ring, start.vaults[to], kind, name, goal, had, limits)
              && Along(start, o.db, from, to, kind, name, ring, goal, had, n, pre, limits)
  {
    hide Sent, Carries, Writable, Fits, NameRoom, Weight, Inv, OnlyName, HoldsPrefix, Latest, Vault.Records, Count,
         Pre.After;
    MovesAlong(start, db, from, to, kind, name, ring, goal, n, pre, w, ctx, limits);
    var o := Sent(db, to, kind, name, w, pre, ctx, limits);
    if NameRoom(ring, db.vaults[to], kind, name, goal, n, limits) {
      RoomFits(ring, db.vaults[to], kind, name, goal, n, limits);
    }
    if o.answer.Ok? {
      RoomStays(ring, start, db, o.db, to, kind, name, goal, n, limits);
    }
  }

  lemma StartsAlong(db: Db, from: nat, to: nat, kind: RecordKind, name: NameHmac, ring: Ring, goal: seq<Entry>,
                    limits: Limits)
    requires Inv(db) && from in db.vaults && to in db.vaults && from != to
    requires HoldsPrefix(ring, db.vaults[to].Records(kind), name, goal)
    ensures var t := db.vaults[to].Records(kind);
            && |Metas(t, name)| == Count(t, name)
            && Along(db, db, from, to, kind, name, ring, goal, Count(t, name), Count(t, name),
                Pre.After(Latest(t, name)), limits)
  {
    hide Inv, HoldsPrefix, Metas, Latest, NameRoom, Weight, OnlyName, Vault.Records;
    PicksUp(db, from, to, kind, name, ring, goal);
    RecordsAreOk(db, to, kind);
    PrefixHead(ring, db.vaults[to].Records(kind), db.vaults[to].generation, name, goal);
  }

  /** What going along leaves, in one place. */
  lemma AlongMeans(start: Db, db: Db, from: nat, to: nat, kind: RecordKind, name: NameHmac, ring: Ring,
                   goal: seq<Entry>,
                   had: nat, n: nat, pre: Pre, limits: Limits)
    requires Along(start, db, from, to, kind, name, ring, goal, had, n, pre, limits)
    ensures Inv(db) && OnlyName(start, db, to, kind, name) && to in start.vaults && to in db.vaults
    ensures from in start.vaults && from in db.vaults && db.vaults[from] == start.vaults[from]
    ensures HoldsPrefix(ring, db.vaults[to].Records(kind), name, goal)
        && Count(db.vaults[to].Records(kind), name) == n <= |goal|
    ensures db.vaults[to].bytesUsed + Weight(goal, n, Sizes(ring))
        == start.vaults[to].bytesUsed + Weight(goal, had, Sizes(ring))
    ensures pre.Signs() == n + 1
  {
    hide Inv, OnlyName, HoldsPrefix, Latest, Vault.Records, NameRoom, Weight, Count;
    UnderwaySigns(start, db, from, to, kind, name, ring, goal, n, pre);
  }

  /** Copy one entry: open it with the source's keys, seal it with the target's, and send it. */
  method CopyEntry(store: SqliteStore.Store, ghost start: Db, from: nat, to: nat, kind: RecordKind, name: string,
                   fromRing: Ring, toRing: Ring, ctx: Ctx, limits: Limits, row: VersionRow, ghost had: nat,
                       ghost n: nat, pre: Pre)
    returns (answer: Result<nat, StoreError>)
    requires store.Valid() && from in start.vaults && to in store.vaults
    requires var goal := GoalOf(start.vaults[from], fromRing, kind, name);
             && Along(start, store.State(), from, to, kind, toRing.index(kind, name), toRing, goal, had, n, pre, limits)
             && n < |goal| <= Max(1, limits.Versions(kind)) && Writable(goal)
             && RingOk(toRing) && Shows(fromRing, row, goal[n]) && row.tombstone == row.valueCt.None?
                 && goal[n].name == Some(name)
    modifies store
    ensures store.Valid()
    ensures var goal := GoalOf(start.vaults[from], fromRing, kind, name);
            match answer
            case Ok(v) =>
              Along(start, store.State(), from, to, kind, toRing.index(kind, name), toRing, goal, had, n + 1,
                    if row.valueCt.Some? then Update(v) else Revive(v), limits)
            case Err(e) =>
              && e.QuotaExceeded? && to in start.vaults
              && !NameRoom(toRing, start.vaults[to], kind, toRing.index(kind, name), goal, had, limits)
              && Along(start, store.State(), from, to, kind, toRing.index(kind, name), toRing, goal, had, n, pre,
                  limits)
              && RefusedNext(store.State(), start.vaults[from], to, fromRing, toRing, ctx, limits, e)
  {
    hide Along, Inv, GoalOf, Sent, Carries, Writable, NameRoom, RefusedNext, Shows, RingOk, Vault.Records;
    ghost var goal, hmac := GoalOf(start.vaults[from], fromRing, kind, name), toRing.index(kind, name);
    ghost var before := store.State();
    AlongMeans(start, before, from, to, kind, hmac, toRing, goal, had, n, pre, limits);
    var w := Reseal(fromRing, toRing, name, row, goal[n], store.vaults[to].generation, pre.Signs());
    GoesAlong(start, before, from, to, kind, hmac, toRing, goal, had, n, pre, w, ctx, limits);
    answer := SendWrite(store, to, kind, toRing.index(kind, name), w, pre, ctx, limits);
    if answer.Err? {
      assert Underway(start, before, from, to, kind, hmac, toRing, goal, n, pre) by {
        AlongIsUnderway(start, before, from, to, kind, hmac, toRing, goal, had, n, pre, limits);
      }
      RefusedHere(start, before, store.State(), from, to, fromRing, toRing, kind, name, n, pre, w, ctx, limits,
          answer.error);
    }
  }

  lemma AlongIsUnderway(start: Db, db: Db, from: nat, to: nat, kind: RecordKind, name: NameHmac, ring: Ring,
                        goal: seq<Entry>,
                        had: nat, n: nat, pre: Pre, limits: Limits)
    requires Along(start, db, from, to, kind, name, ring, goal, had, n, pre, limits)
    ensures Underway(start, db, from, to, kind, name, ring, goal, n, pre)
  {
    hide Underway, NameRoom, Weight;
  }

  lemma SourceOf(v: Vault, ring: Ring, kind: RecordKind, name: string, limits: Limits)
    requires Copyable(v, ring, limits) && TableOk(v.Records(kind), v.generation)
    ensures var vs, goal := Source(v.Records(kind), ring.index(kind, name)), GoalOf(v, ring, kind, name);
            Writable(goal) && |goal| == |vs| <= Max(1, limits.Versions(kind))
  {
    hide Source, Goal, TableOk, Regularity.Regular, Readable, Vault.Records, Writable;
    SourceIsWritable(ring, kind, v.Records(kind), v.generation, ring.index(kind, name), limits.Versions(kind));
  }

  /** Entry `i` of a name's goal is the row of its `i`th source version, opened. */
  lemma SourceAt(v: Vault, ring: Ring, kind: RecordKind, name: string, limits: Limits, i: nat)
    requires Copyable(v, ring, limits) && TableOk(v.Records(kind), v.generation) && RingOk(ring)
    requires i < |Source(v.Records(kind), ring.index(kind, name))| && i < |GoalOf(v, ring, kind, name)|
    ensures var t, goal := v.Records(kind), GoalOf(v, ring, kind, name);
            var k := Key(ring.index(kind, name), Source(t, ring.index(kind, name))[i]);
            && k in t.rows && Shows(ring, t.rows[k], goal[i])
            && t.rows[k].tombstone == t.rows[k].valueCt.None? && goal[i].name == Some(name)
  {
    hide Source, Goal, HeadsOk, RowsOk, Regularity.Regular, Readable, Vault.Records, RingOk, Shows;
    var t, hmac := v.Records(kind), ring.index(kind, name);
    GoalShows(ring, kind, t, v.generation, hmac, i);
    GoalIsNamed(ring, kind, t, v.generation, name);
    RowIsOk(t, v.generation, Key(hmac, Source(t, hmac)[i]));
  }

  /** Copy one name, making at most `budget` writes before being interrupted. */
  method CopyName(store: SqliteStore.Store, from: nat, to: nat, kind: RecordKind, name: string, fromRing: Ring,
                  toRing: Ring,
                  ctx: Ctx, limits: Limits, budget: nat) returns (copied: nat, stop: Option<Stop>)
    requires store.Valid() && from in store.vaults && to in store.vaults && from != to
    requires RingOk(fromRing) && RingOk(toRing) && Copyable(store.vaults[from], fromRing, limits)
    requires HoldsPrefix(toRing, store.vaults[to].Records(kind), toRing.index(kind, name),
                         GoalOf(store.vaults[from], fromRing, kind, name))
    modifies store
    ensures store.Valid()
    ensures OnlyName(old(store.State()), store.State(), to, kind, toRing.index(kind, name))
    ensures HoldsPrefix(toRing, store.vaults[to].Records(kind), toRing.index(kind, name),
                        GoalOf(store.vaults[from], fromRing, kind, name))
    ensures copied <= budget
    ensures var t, t' := old(store.vaults[to]).Records(kind), store.vaults[to].Records(kind);
            Count(t', toRing.index(kind, name)) == Count(t, toRing.index(kind, name)) + copied
    ensures stop.None? <==> NameCopied(store.vaults[from], store.vaults[to], fromRing, toRing, kind, name)
    ensures stop == Some(Interrupted) ==> copied == budget
    ensures var hmac := toRing.index(kind, name);
            var goal, n := GoalOf(store.vaults[from], fromRing, kind, name),
                Count(old(store.vaults[to]).Records(kind), hmac);
            && store.vaults[to].bytesUsed + Weight(goal, n + copied, Sizes(toRing))
               == old(store.vaults[to]).bytesUsed + Weight(goal, n, Sizes(toRing))
            && (stop.Some? && stop.value.Refusal? ==>
                 && stop.value.error.QuotaExceeded?
                 && RefusedNext(store.State(), store.vaults[from], to, fromRing, toRing, ctx, limits, stop.value.error)
                 && !NameRoom(toRing, old(store.vaults[to]), kind, hmac, goal, n, limits))
    ensures old(NameCopied(store.vaults[from], store.vaults[to], fromRing, toRing, kind, name)) ==>
              copied == 0 && stop.None? && store.State() == old(store.State())
  {
    hide Inv, HoldsPrefix, Goal, Metas, Latest, Regularity.Regular, Readable, RingOk, Shows, Vault.Records, OnlyName,
         Writable, Source, RefusedNext, Count, NameRoom, Weight, Along, RowsOk, HeadsOk, AllNamed, GoalOf, Sizes,
         Copyable;
    ghost var start := store.State();
    var fromName, toName := fromRing.index(kind, name), toRing.index(kind, name);
    var table, target := store.vaults[from].Records(kind), store.vaults[to].Records(kind);
    ghost var goal := GoalOf(store.vaults[from], fromRing, kind, name);
    RecordsAreOk(start, from, kind);
    SourceOf(start.vaults[from], fromRing, kind, name, limits);
    var source := GatherSource(table, fromName);
    StartsAlong(start, from, to, kind, toName, toRing, goal, limits);
    var pre, i := Pre.After(Latest(target, toName)), |Metas(target, toName)|;
    ghost var had := i;
    copied, stop := 0, None;
    AlongMeans(start, store.State(), from, to, kind, toName, toRing, goal, had, i, pre, limits);
    while i < |source|
      invariant store.Valid() && to in store.vaults && had <= i <= |source| == |goal|
      invariant Along(start, store.State(), from, to, kind, toName, toRing, goal, had, i, pre, limits)
      invariant copied == i - had && copied <= budget
      invariant had == |source| ==> store.State() == start
    {
      AlongMeans(start, store.State(), from, to, kind, toName, toRing, goal, had, i, pre, limits);
      if copied == budget {
        stop := Some(Interrupted);
        return;
      }
      SourceAt(start.vaults[from], fromRing, kind, name, limits, i);
      var row := table.rows[Key(fromName, source[i])];
      var answer := CopyEntry(store, start, from, to, kind, name, fromRing, toRing, ctx, limits, row, had, i, pre);
      if answer.Err? {
        AlongMeans(start, store.State(), from, to, kind, toName, toRing, goal, had, i, pre, limits);
        stop := Some(Refusal(answer.error));
        return;
      }
      pre := if row.valueCt.Some? then Update(answer.value) else Revive(answer.value);
      i, copied := i + 1, copied + 1;
      AlongMeans(start, store.State(), from, to, kind, toName, toRing, goal, had, i, pre, limits);
    }
    AlongMeans(start, store.State(), from, to, kind, toName, toRing, goal, had, i, pre, limits);
  }

  lemma RowIsOk(t: Table, generation: nat, k: Key)
    requires TableOk(t, generation) && k in t.rows
    ensures t.rows[k].tombstone == t.rows[k].valueCt.None?
  {
    assert RowOk(k, t.rows[k], generation);
  }

  lemma UnderwaySigns(start: Db, db: Db, from: nat, to: nat, kind: RecordKind, name: NameHmac, ring: Ring,
                      goal: seq<Entry>, n: nat, pre: Pre)
    requires Underway(start, db, from, to, kind, name, ring, goal, n, pre)
    ensures pre.Signs() == n + 1
  {
    hide Inv, OnlyName, HoldsPrefix, Latest, Vault.Records;
    RecordsAreOk(db, to, kind);
    PrefixHead(ring, db.vaults[to].Records(kind), db.vaults[to].generation, name, goal);
  }

  /** The row's content, sealed again under the target's keys and signed as version `version`. */
  method Reseal(from: Ring, to: Ring, name: string, row: VersionRow, ghost e: Entry, generation: nat, version: nat)
    returns (w: RecordWrite)
    requires RingOk(to) && Shows(from, row, e) && row.tombstone == row.valueCt.None? && e.name == Some(name)
    ensures Carries(to, w, e) && w.generation == generation && w.version == version
    ensures w.valueCt.Some? == row.valueCt.Some?
    ensures w.nameCt == to.sealName(name)
  {
    var value := if row.valueCt.Some? then Some(to.seal(from.open(row.valueCt.value).value)) else None;
    w := RecordWrite(to.sealName(name), value, generation, version, row.writtenAt, []);
  }

  lemma OnlyNameReflexive(db: Db, pk: nat, kind: RecordKind, name: NameHmac)
    requires pk in db.vaults
    ensures OnlyName(db, db, pk, kind, name)
  {
  }

  lemma OnlyNameElsewhere(db: Db, db': Db, pk: nat, kind: RecordKind, name: NameHmac, qk: nat)
    requires OnlyName(db, db', pk, kind, name) && qk in db.vaults && qk != pk
    ensures qk in db'.vaults && db'.vaults[qk] == db.vaults[qk]
  {
  }
}
