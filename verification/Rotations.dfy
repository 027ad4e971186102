/** A rotation's batch: when it covers a table exactly once, and the table it leaves behind. */
module Rotations {
  import opened Types
  import opened Tables

  function OldKey(s: RotatedVersion): Key {
    Key(s.oldName, s.version)
  }

  function NewKey(s: RotatedVersion): Key {
    Key(s.name, s.version)
  }

  function OldKeys(batch: seq<RotatedVersion>): (ks: seq<Key>)
    ensures |ks| == |batch| && forall i :: 0 <= i < |batch| ==> ks[i] == OldKey(batch[i])
  {
    seq(|batch|, i requires 0 <= i < |batch| => OldKey(batch[i]))
  }

  function NewKeys(batch: seq<RotatedVersion>): (ks: seq<Key>)
    ensures |ks| == |batch| && forall i :: 0 <= i < |batch| ==> ks[i] == NewKey(batch[i])
  {
    seq(|batch|, i requires 0 <= i < |batch| => NewKey(batch[i]))
  }

  function Elements(ks: seq<Key>): set<Key> {
    set k | k in ks
  }

  /** The batch's old names and versions are the table's, each once, with the write times and deletions
  the table has: the check the live path makes, by set sizes as the store makes it. */
  predicate Complete(batch: seq<RotatedVersion>, rows: map<Key, VersionRow>) {
    && |Elements(OldKeys(batch))| == |batch|
    && Elements(OldKeys(batch)) == rows.Keys
    && forall i :: 0 <= i < |batch| ==> Faithful(batch[i], rows)
  }

  predicate Faithful(s: RotatedVersion, rows: map<Key, VersionRow>) {
    && OldKey(s) in rows
    && rows[OldKey(s)].tombstone == s.valueCt.None?
    && rows[OldKey(s)].writtenAt == s.writtenAt
  }

  /** No two entries of the batch land on the same new name and version. */
  predicate Separated(batch: seq<RotatedVersion>) {
    |Elements(NewKeys(batch))| == |batch|
  }

  /** The same, entry by entry. */
  ghost predicate Apart(batch: seq<RotatedVersion>) {
    forall i, j :: 0 <= i < j < |batch| ==> NewKey(batch[i]) != NewKey(batch[j])
  }

  ghost predicate OldApart(batch: seq<RotatedVersion>) {
    forall i, j :: 0 <= i < j < |batch| ==> OldKey(batch[i]) != OldKey(batch[j])
  }

  predicate Distinct(ks: seq<Key>) {
    forall i, j :: 0 <= i < j < |ks| ==> ks[i] != ks[j]
  }

  lemma {:induction false} ElementsAtMost(ks: seq<Key>)
    ensures |Elements(ks)| <= |ks|
  {
    if ks == [] {
      assert Elements(ks) == {};
    } else {
      var front, last := ks[..|ks| - 1], ks[|ks| - 1];
      ElementsAtMost(front);
      assert ks == front + [last];
      assert Elements(ks) == Elements(front) + {last};
    }
  }

  /** As many different keys as entries means no key repeats. */
  lemma {:induction false} FullSizeMeansDistinct(ks: seq<Key>)
    ensures |Elements(ks)| == |ks| <==> Distinct(ks)
  {
    if ks == [] {
      assert Elements(ks) == {};
    } else {
      var front, last := ks[..|ks| - 1], ks[|ks| - 1];
      FullSizeMeansDistinct(front);
      ElementsAtMost(front);
      assert ks == front + [last];
      assert Elements(ks) == Elements(front) + {last};
      if last in front {
        assert Elements(ks) == Elements(front);
        assert !Distinct(ks);
      } else {
        assert last !in Elements(front);
        assert Distinct(ks) <==> Distinct(front);
      }
    }
  }

  // ------------------------------------------------------------ the table a batch makes

  /** The row an entry becomes: its writer is kept where the table still knows it, and is the rotating
  actor otherwise. */
  function RowOf(s: RotatedVersion, rows: map<Key, VersionRow>, actor: Actor, generation: nat): VersionRow {
    VersionRow(s.nameCt, s.valueCt, ValueHash(s.valueCt), generation, s.writtenAt,
               if OldKey(s) in rows then rows[OldKey(s)].writtenBy else actor,
               s.valueCt.None?, s.sig)
  }

  /** Add one row, moving its name's head if the row is at least as new. */
  function Added(t: Table, k: Key, row: VersionRow): Table {
    Table(t.rows[k := row],
          if k.name in t.heads && k.version < t.heads[k.name].version then t.heads
          else t.heads[k.name := Head(k.version, row.tombstone)])
  }

  function Rebuilt(batch: seq<RotatedVersion>, rows: map<Key, VersionRow>, actor: Actor, generation: nat): Table {
    if batch == [] then EmptyTable else
      var last := batch[|batch| - 1];
      Added(Rebuilt(batch[..|batch| - 1], rows, actor, generation), NewKey(last),
            RowOf(last, rows, actor, generation))
  }

  function EntryBytes(s: RotatedVersion): nat {
    |s.nameCt| + if s.valueCt.Some? then |s.valueCt.value| else 0
  }

  function BatchBytes(batch: seq<RotatedVersion>): nat {
    if batch == [] then 0 else
      BatchBytes(batch[..|batch| - 1]) + EntryBytes(batch[|batch| - 1])
  }

  ghost predicate Positive(batch: seq<RotatedVersion>) {
    forall i :: 0 <= i < |batch| ==> 1 <= batch[i].version
  }

  lemma SeparatedMeansApart(batch: seq<RotatedVersion>)
    ensures Separated(batch) <==> Apart(batch)
  {
    FullSizeMeansDistinct(NewKeys(batch));
    assert Distinct(NewKeys(batch)) ==> Apart(batch) by {
      if Distinct(NewKeys(batch)) {
        forall i, j | 0 <= i < j < |batch|
          ensures NewKey(batch[i]) != NewKey(batch[j])
        {
          assert NewKeys(batch)[i] != NewKeys(batch)[j];
        }
      }
    }
  }

  ghost predicate Lands(batch: seq<RotatedVersion>, k: Key) {
    exists i :: 0 <= i < |batch| && NewKey(batch[i]) == k
  }

  lemma LandsInFrontOrLast(batch: seq<RotatedVersion>, k: Key)
    requires batch != []
    ensures Lands(batch, k) <==> Lands(batch[..|batch| - 1], k) || NewKey(batch[|batch| - 1]) == k
  {
    var front := batch[..|batch| - 1];
    if Lands(front, k) {
      var i :| 0 <= i < |front| && NewKey(front[i]) == k;
      assert NewKey(batch[i]) == k;
    }
    if Lands(batch, k) {
      var i :| 0 <= i < |batch| && NewKey(batch[i]) == k;
      if i < |front| {
        assert front[i] == batch[i];
        assert Lands(front, k);
      }
    }
  }

  /** A rebuilt table's keys are exactly the batch's new keys. */
  lemma {:induction false} RebuiltKeys(
    batch: seq<RotatedVersion>, rows: map<Key, VersionRow>, actor: Actor, generation: nat, k: Key)
    ensures k in Rebuilt(batch, rows, actor, generation).rows <==> Lands(batch, k)
    decreases |batch|
  {
    if batch != [] {
      RebuiltKeys(batch[..|batch| - 1], rows, actor, generation, k);
      LandsInFrontOrLast(batch, k);
    }
  }

  /** Each entry is stored under its new key as it was sent. */
  lemma {:induction false} RebuiltAt(
    batch: seq<RotatedVersion>, rows: map<Key, VersionRow>, actor: Actor, generation: nat, i: nat)
    requires Apart(batch) && i < |batch|
    ensures var t := Rebuilt(batch, rows, actor, generation);
            NewKey(batch[i]) in t.rows && t.rows[NewKey(batch[i])] == RowOf(batch[i], rows, actor, generation)
    decreases |batch|
  {
    var front := batch[..|batch| - 1];
    if i < |front| {
      assert front[i] == batch[i] && Apart(front);
      RebuiltAt(front, rows, actor, generation, i);
    }
  }

  lemma RebuiltFresh(batch: seq<RotatedVersion>, rows: map<Key, VersionRow>, actor: Actor, generation: nat)
    requires Apart(batch) && batch != []
    ensures var front := batch[..|batch| - 1];
            && Apart(front)
            && NewKey(batch[|batch| - 1]) !in Rebuilt(front, rows, actor, generation).rows
  {
    RebuiltKeys(batch[..|batch| - 1], rows, actor, generation, NewKey(batch[|batch| - 1]));
  }

  lemma AddedRowsOk(t: Table, k: Key, row: VersionRow, generation: nat)
    requires RowsOk(t, generation) && RowOk(k, row, generation)
    ensures RowsOk(Added(t, k, row), generation)
  {
    var t' := Added(t, k, row);
    forall j | j in t'.rows
      ensures RowOk(j, t'.rows[j], generation) && j.name in t'.heads && j.version <= t'.heads[j.name].version
    {
      if j != k {
        assert j in t.rows;
      }
    }
  }

  lemma AddedHeadsOk(t: Table, k: Key, row: VersionRow)
    requires HeadsOk(t) && k !in t.rows
    ensures HeadsOk(Added(t, k, row))
  {
    var t' := Added(t, k, row);
    forall n | n in t'.heads
      ensures var h := Key(n, t'.heads[n].version);
              h in t'.rows && t'.rows[h].tombstone == t'.heads[n].tombstone
    {
      if n in t.heads {
        assert Key(n, t.heads[n].version) in t.rows;
      }
    }
  }

  /** A rebuilt table is consistent, and takes the bytes of the batch. */
  lemma {:induction false} RebuiltOk(
    batch: seq<RotatedVersion>, rows: map<Key, VersionRow>, actor: Actor, generation: nat)
    requires Apart(batch) && Positive(batch)
    ensures TableOk(Rebuilt(batch, rows, actor, generation), generation)
    ensures TotalBytes(Rebuilt(batch, rows, actor, generation).rows) == BatchBytes(batch)
    decreases |batch|
  {
    if batch != [] {
      var front, last := batch[..|batch| - 1], batch[|batch| - 1];
      var u, row := Rebuilt(front, rows, actor, generation), RowOf(last, rows, actor, generation);
      RebuiltFresh(batch, rows, actor, generation);
      RebuiltOk(front, rows, actor, generation);
      AddedRowsOk(u, NewKey(last), row, generation);
      AddedHeadsOk(u, NewKey(last), row);
      TotalBytesAdd(u.rows, NewKey(last), row);
    }
  }

  // ------------------------------------------------------------ independence of the state it lands on

  function WriterErased(r: VersionRow): VersionRow {
    r.(writtenBy := Owner)
  }

  /** Same keys, same heads, and rows that differ at most in who is recorded as the writer. */
  ghost predicate SameButWriters(t: Table, u: Table) {
    && t.heads == u.heads
    && t.rows.Keys == u.rows.Keys
    && forall k :: k in t.rows ==> WriterErased(t.rows[k]) == WriterErased(u.rows[k])
  }

  lemma {:induction false} RebuiltIndependent(
    batch: seq<RotatedVersion>, rows: map<Key, VersionRow>, rows': map<Key, VersionRow>,
    actor: Actor, actor': Actor, generation: nat)
    ensures SameButWriters(Rebuilt(batch, rows, actor, generation), Rebuilt(batch, rows', actor', generation))
    decreases |batch|
  {
    if batch != [] {
      RebuiltIndependent(batch[..|batch| - 1], rows, rows', actor, actor', generation);
    }
  }

  // ------------------------------------------------------------ an accepted batch is one-to-one

  lemma CompleteMeans(batch: seq<RotatedVersion>, t: Table, generation: nat)
    requires RowsOk(t, generation) && Complete(batch, t.rows)
    ensures OldApart(batch) && Positive(batch)
    ensures forall k :: k in t.rows ==> exists i :: 0 <= i < |batch| && OldKey(batch[i]) == k
  {
    FullSizeMeansDistinct(OldKeys(batch));
    forall i, j | 0 <= i < j < |batch|
      ensures OldKey(batch[i]) != OldKey(batch[j])
    {
      assert OldKeys(batch)[i] != OldKeys(batch)[j];
    }
    forall i | 0 <= i < |batch|
      ensures 1 <= batch[i].version
    {
      assert Faithful(batch[i], t.rows);
      assert RowOk(OldKey(batch[i]), t.rows[OldKey(batch[i])], generation);
    }
    forall k | k in t.rows
      ensures exists i :: 0 <= i < |batch| && OldKey(batch[i]) == k
    {
      assert k in Elements(OldKeys(batch));
      var i :| 0 <= i < |batch| && OldKeys(batch)[i] == k;
    }
  }

  ghost predicate CarriedOver(k: Key, r: VersionRow, k': Key, r': VersionRow) {
    && k'.version == k.version
    && r'.tombstone == r.tombstone
    && r'.writtenAt == r.writtenAt
    && r'.writtenBy == r.writtenBy
  }

  /** Some entry of the batch moves the row at `k` to `k'`. */
  ghost predicate Moves(batch: seq<RotatedVersion>, k: Key, k': Key) {
    exists i :: 0 <= i < |batch| && OldKey(batch[i]) == k && NewKey(batch[i]) == k'
  }

  lemma MovedRow(batch: seq<RotatedVersion>, t: Table, actor: Actor, generation: nat, k: Key, k': Key)
    requires Complete(batch, t.rows) && Apart(batch) && Moves(batch, k, k')
    ensures var t' := Rebuilt(batch, t.rows, actor, generation);
            k in t.rows && k' in t'.rows && CarriedOver(k, t.rows[k], k', t'.rows[k'])
  {
    var i :| 0 <= i < |batch| && OldKey(batch[i]) == k && NewKey(batch[i]) == k';
    assert Faithful(batch[i], t.rows);
    RebuiltAt(batch, t.rows, actor, generation, i);
  }

  lemma MovesBothWays(batch: seq<RotatedVersion>, k: Key, k': Key, l: Key, l': Key)
    requires Apart(batch) && OldApart(batch)
    requires Moves(batch, k, k') && Moves(batch, l, l')
    ensures k == l <==> k' == l'
  {
    var i :| 0 <= i < |batch| && OldKey(batch[i]) == k && NewKey(batch[i]) == k';
    var j :| 0 <= j < |batch| && OldKey(batch[j]) == l && NewKey(batch[j]) == l';
    assert i == j || i < j || j < i;
  }

  ghost predicate Leaves(batch: seq<RotatedVersion>, k: Key) {
    exists k' :: Moves(batch, k, k')
  }

  ghost predicate Arrives(batch: seq<RotatedVersion>, k': Key) {
    exists k :: Moves(batch, k, k')
  }

  /** Every retained version moves, every new row has come from one, and nothing else is involved. */
  ghost predicate Onto(batch: seq<RotatedVersion>, t: Table, t': Table) {
    && (forall k :: k in t.rows <==> Leaves(batch, k))
    && (forall k' :: k' in t'.rows <==> Arrives(batch, k'))
  }

  /** Two moves have the same source exactly when they have the same target. */
  ghost predicate PairedOff(batch: seq<RotatedVersion>) {
    forall k, k', l, l' :: Moves(batch, k, k') && Moves(batch, l, l') ==> (k == l <==> k' == l')
  }

  /** A moved row keeps its version number, tombstone flag, write time and writer. */
  ghost predicate Keeps(batch: seq<RotatedVersion>, t: Table, t': Table) {
    forall k, k' :: Moves(batch, k, k') && k in t.rows && k' in t'.rows ==>
      CarriedOver(k, t.rows[k], k', t'.rows[k'])
  }

  lemma LeavesIffRetained(batch: seq<RotatedVersion>, t: Table, generation: nat, k: Key)
    requires RowsOk(t, generation) && Complete(batch, t.rows)
    ensures k in t.rows <==> Leaves(batch, k)
  {
    CompleteMeans(batch, t, generation);
    if k in t.rows {
      var i :| 0 <= i < |batch| && OldKey(batch[i]) == k;
      assert Moves(batch, k, NewKey(batch[i]));
    }
    if Leaves(batch, k) {
      var k' :| Moves(batch, k, k');
      var i :| 0 <= i < |batch| && OldKey(batch[i]) == k;
      assert Faithful(batch[i], t.rows);
    }
  }

  lemma ArrivesIffStored(batch: seq<RotatedVersion>, rows: map<Key, VersionRow>, actor: Actor, generation: nat, k': Key)
    ensures k' in Rebuilt(batch, rows, actor, generation).rows <==> Arrives(batch, k')
  {
    RebuiltKeys(batch, rows, actor, generation, k');
    if Lands(batch, k') {
      var i :| 0 <= i < |batch| && NewKey(batch[i]) == k';
      assert Moves(batch, OldKey(batch[i]), k');
    }
  }

  lemma RotationIsOnto(batch: seq<RotatedVersion>, t: Table, actor: Actor, generation: nat)
    requires RowsOk(t, generation) && Complete(batch, t.rows)
    ensures Onto(batch, t, Rebuilt(batch, t.rows, actor, generation + 1))
  {
    hide Leaves, Arrives, Rebuilt, RowsOk, Complete;
    forall k
      ensures k in t.rows <==> Leaves(batch, k)
    {
      LeavesIffRetained(batch, t, generation, k);
    }
    var t' := Rebuilt(batch, t.rows, actor, generation + 1);
    forall k'
      ensures k' in t'.rows <==> Arrives(batch, k')
    {
      ArrivesIffStored(batch, t.rows, actor, generation + 1, k');
    }
  }

  lemma RotationPairsOff(batch: seq<RotatedVersion>)
    requires Apart(batch) && OldApart(batch)
    ensures PairedOff(batch)
  {
    forall k, k', l, l' | Moves(batch, k, k') && Moves(batch, l, l')
      ensures k == l <==> k' == l'
    {
      MovesBothWays(batch, k, k', l, l');
    }
  }

  lemma RotationKeeps(batch: seq<RotatedVersion>, t: Table, actor: Actor, generation: nat)
    requires Complete(batch, t.rows) && Apart(batch)
    ensures Keeps(batch, t, Rebuilt(batch, t.rows, actor, generation))
  {
    var t' := Rebuilt(batch, t.rows, actor, generation);
    forall k, k' | Moves(batch, k, k') && k in t.rows && k' in t'.rows
      ensures CarriedOver(k, t.rows[k], k', t'.rows[k'])
    {
      MovedRow(batch, t, actor, generation, k, k');
    }
  }

  /** An accepted batch is a one-to-one map from the retained versions to the new rows. */
  lemma RotationIsOneToOne(batch: seq<RotatedVersion>, t: Table, actor: Actor, generation: nat)
    requires TableOk(t, generation)
    requires Complete(batch, t.rows) && Separated(batch)
    ensures Onto(batch, t, Rebuilt(batch, t.rows, actor, generation + 1))
    ensures PairedOff(batch)
    ensures Keeps(batch, t, Rebuilt(batch, t.rows, actor, generation + 1))
  {
    assert Apart(batch) && OldApart(batch) by {
      CompleteMeans(batch, t, generation);
      SeparatedMeansApart(batch);
    }
    RotationIsOnto(batch, t, actor, generation);
    RotationPairsOff(batch);
    RotationKeeps(batch, t, actor, generation + 1);
  }
}
