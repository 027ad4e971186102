/** One kind's record table and its heads: what a write, a prune and a rotation do to them. */
module Tables {
  import opened Types

  datatype Key = Key(name: NameHmac, version: nat)

  datatype VersionRow = VersionRow(
    nameCt: Bytes, valueCt: Option<Bytes>, ctHash: Digest, generation: nat, writtenAt: int,
    writtenBy: Actor, tombstone: bool, sig: Bytes)

  datatype Head = Head(version: nat, tombstone: bool)

  datatype Table = Table(rows: map<Key, VersionRow>, heads: map<NameHmac, Head>)

  const EmptyTable := Table(map[], map[])

  // ------------------------------------------------------------ bytes

  function RowBytes(r: VersionRow): nat {
    |r.nameCt| + if r.valueCt.Some? then |r.valueCt.value| else 0
  }

  /** The bytes all rows take together. */
  ghost function TotalBytes(rows: map<Key, VersionRow>): nat {
    if rows == map[] then 0 else
      var k :| k in rows;
      RowBytes(rows[k]) + TotalBytes(rows - {k})
  }

  /** The sum does not depend on the order rows are taken in. */
  lemma {:induction false} TotalBytesRemove(rows: map<Key, VersionRow>, k: Key)
    requires k in rows
    ensures TotalBytes(rows) == RowBytes(rows[k]) + TotalBytes(rows - {k})
    decreases rows
  {
    var j :| j in rows && TotalBytes(rows) == RowBytes(rows[j]) + TotalBytes(rows - {j});
    if j != k {
      TotalBytesRemove(rows - {j}, k);
      TotalBytesRemove(rows - {k}, j);
      assert rows - {j} - {k} == rows - {k} - {j};
    }
  }

  lemma TotalBytesAdd(rows: map<Key, VersionRow>, k: Key, r: VersionRow)
    requires k !in rows
    ensures TotalBytes(rows[k := r]) == TotalBytes(rows) + RowBytes(r)
  {
    TotalBytesRemove(rows[k := r], k);
    assert rows[k := r] - {k} == rows;
  }

  // ------------------------------------------------------------ pruning

  predicate IsLeast(m: nat, s: set<nat>) {
    m in s && forall x :: x in s ==> m <= x
  }

  lemma {:induction false} LeastExists(s: set<nat>)
    requires s != {}
    ensures exists m :: IsLeast(m, s)
    decreases s
  {
    var y :| y in s;
    var smaller := set x | x in s && x < y;
    if smaller == {} {
      assert forall x :: x in s ==> x in smaller || y <= x;
      assert IsLeast(y, s);
    } else {
      assert y !in smaller;
      LeastExists(smaller);
      var m :| IsLeast(m, smaller);
      forall x | x in s
        ensures m <= x
      {
        assert x in smaller || y <= x;
      }
      assert IsLeast(m, s);
    }
  }

  function MinOf(s: set<nat>): (m: nat)
    requires s != {}
    ensures IsLeast(m, s)
  {
    LeastExists(s);
    var m :| IsLeast(m, s);
    m
  }

  predicate StrictlyAscending(r: seq<nat>) {
    forall i, j :: 0 <= i < j < |r| ==> r[i] < r[j]
  }

  /** The elements of `s` in ascending order: what `ORDER BY version` lists. */
  function Ascending(s: set<nat>): (r: seq<nat>)
    ensures |r| == |s|
    ensures forall x :: x in r <==> x in s
    ensures StrictlyAscending(r)
    decreases |s|
  {
    if s == {} then [] else
      var m := MinOf(s);
      [m] + Ascending(s - {m})
  }

  function VersionsOf(t: Table, name: NameHmac): (s: set<nat>)
    ensures forall v: nat :: v in s <==> Key(name, v) in t.rows
  {
    set k | k in t.rows && k.name == name :: k.version
  }

  function Max(a: nat, b: nat): nat {
    if a < b then b else a
  }

  function Excess(retained: nat, maxVersions: nat): (n: nat)
    ensures n <= retained
  {
    if retained + 1 <= Max(1, maxVersions) then 0 else retained + 1 - Max(1, maxVersions)
  }

  /** What one more version pushes out: from the front of the history, as many as exceed the limit. */
  function Prunable(t: Table, name: NameHmac, maxVersions: nat): seq<nat> {
    var all := Ascending(VersionsOf(t, name));
    all[..Excess(|all|, maxVersions)]
  }

  ghost predicate Retained(t: Table, name: NameHmac, versions: seq<nat>) {
    forall v :: v in versions ==> Key(name, v) in t.rows
  }

  /** What is pruned is retained, is older than everything kept, and leaves room for exactly one more. */
  lemma PrunableIsOldest(t: Table, name: NameHmac, maxVersions: nat)
    ensures var pruned := Prunable(t, name, maxVersions);
            && StrictlyAscending(pruned)
            && Retained(t, name, pruned)
            && (forall p, v: nat :: p in pruned && Key(name, v) in t.rows && v !in pruned ==> p < v)
            && |pruned| == Excess(|VersionsOf(t, name)|, maxVersions)
  {
    var all := Ascending(VersionsOf(t, name));
    var n := Excess(|all|, maxVersions);
    forall p, v: nat | p in all[..n] && Key(name, v) in t.rows && v !in all[..n]
      ensures p < v
    {
      assert v in VersionsOf(t, name);
      var i :| 0 <= i < n && all[i] == p;
      var j :| 0 <= j < |all| && all[j] == v;
    }
    forall v | v in all[..n]
      ensures Key(name, v) in t.rows
    {
      assert v in VersionsOf(t, name);
    }
  }

  function KeysOf(name: NameHmac, versions: seq<nat>): (s: set<Key>)
    ensures forall k :: k in s <==> k.name == name && k.version in versions
  {
    set v | v in versions :: Key(name, v)
  }

  /** The bytes the listed versions of `name` take. */
  function Freed(t: Table, name: NameHmac, versions: seq<nat>): nat
    requires Retained(t, name, versions)
  {
    if versions == [] then 0 else
      Freed(t, name, versions[1..]) + RowBytes(t.rows[Key(name, versions[0])])
  }

  lemma {:induction false} FreedIsTheDifference(t: Table, name: NameHmac, versions: seq<nat>)
    requires Retained(t, name, versions)
    requires StrictlyAscending(versions)
    ensures TotalBytes(t.rows) == TotalBytes(t.rows - KeysOf(name, versions)) + Freed(t, name, versions)
    decreases |versions|
  {
    if versions == [] {
      assert t.rows - KeysOf(name, versions) == t.rows;
    } else {
      var first, rest := versions[0], versions[1..];
      FreedIsTheDifference(t, name, rest);
      assert first in versions && first !in rest;
      var left := t.rows - KeysOf(name, rest);
      assert Key(name, first) in left;
      TotalBytesRemove(left, Key(name, first));
      assert left - {Key(name, first)} == t.rows - KeysOf(name, versions);
    }
  }

  // ------------------------------------------------------------ writing one version

  /** Insert a version, move the head to it, and drop the pruned versions. */
  function Written(t: Table, name: NameHmac, version: nat, row: VersionRow, pruned: seq<nat>): Table {
    Table(t.rows[Key(name, version) := row] - KeysOf(name, pruned),
          t.heads[name := Head(version, row.tombstone)])
  }

  ghost predicate RowOk(k: Key, r: VersionRow, generation: nat) {
    && 1 <= k.version
    && r.generation == generation
    && r.tombstone == r.valueCt.None?
    && r.ctHash == ValueHash(r.valueCt)
  }

  /** Every retained row is of the vault's current generation and no newer than its name's head. */
  ghost predicate RowsOk(t: Table, generation: nat) {
    forall k :: k in t.rows ==>
      RowOk(k, t.rows[k], generation) && k.name in t.heads && k.version <= t.heads[k.name].version
  }

  /** Every head's row is there, and the two agree on whether it is a tombstone. */
  ghost predicate HeadsOk(t: Table) {
    forall n :: n in t.heads ==>
      var k := Key(n, t.heads[n].version);
      k in t.rows && t.rows[k].tombstone == t.heads[n].tombstone
  }

  ghost predicate TableOk(t: Table, generation: nat) {
    RowsOk(t, generation) && HeadsOk(t)
  }

  /** The version a write of `name` takes. */
  function NextVersion(t: Table, name: NameHmac): nat {
    if name in t.heads then t.heads[name].version + 1 else 1
  }

  lemma NextVersionIsFree(t: Table, generation: nat, name: NameHmac)
    requires RowsOk(t, generation)
    ensures Key(name, NextVersion(t, name)) !in t.rows
  {
  }

  lemma WrittenRowsOk(t: Table, generation: nat, name: NameHmac, version: nat, row: VersionRow, pruned: seq<nat>)
    requires RowsOk(t, generation)
    requires name in t.heads ==> t.heads[name].version <= version
    requires RowOk(Key(name, version), row, generation)
    ensures RowsOk(Written(t, name, version, row, pruned), generation)
  {
    var t' := Written(t, name, version, row, pruned);
    forall k | k in t'.rows
      ensures RowOk(k, t'.rows[k], generation) && k.name in t'.heads && k.version <= t'.heads[k.name].version
    {
      if k == Key(name, version) {
      } else {
        assert k in t.rows;
      }
    }
  }

  lemma WrittenHeadsOk(t: Table, name: NameHmac, version: nat, row: VersionRow, pruned: seq<nat>)
    requires HeadsOk(t)
    requires version !in pruned
    ensures HeadsOk(Written(t, name, version, row, pruned))
  {
    var t' := Written(t, name, version, row, pruned);
    forall n | n in t'.heads
      ensures var k := Key(n, t'.heads[n].version);
              k in t'.rows && t'.rows[k].tombstone == t'.heads[n].tombstone
    {
      if n != name {
        assert Key(n, t.heads[n].version) in t.rows;
      }
    }
  }

  lemma WrittenOk(t: Table, generation: nat, name: NameHmac, row: VersionRow, pruned: seq<nat>)
    requires TableOk(t, generation)
    requires RowOk(Key(name, NextVersion(t, name)), row, generation)
    requires Retained(t, name, pruned)
    ensures TableOk(Written(t, name, NextVersion(t, name), row, pruned), generation)
  {
    NextVersionIsFree(t, generation, name);
    WrittenRowsOk(t, generation, name, NextVersion(t, name), row, pruned);
    WrittenHeadsOk(t, name, NextVersion(t, name), row, pruned);
  }

  lemma WrittenBytes(t: Table, name: NameHmac, version: nat, row: VersionRow, pruned: seq<nat>)
    requires Key(name, version) !in t.rows
    requires Retained(t, name, pruned) && StrictlyAscending(pruned)
    ensures Freed(t, name, pruned) <= TotalBytes(t.rows)
    ensures TotalBytes(Written(t, name, version, row, pruned).rows)
         == TotalBytes(t.rows) + RowBytes(row) - Freed(t, name, pruned)
  {
    var k := Key(name, version);
    FreedIsTheDifference(t, name, pruned);
    var gone := KeysOf(name, pruned);
    TotalBytesAdd(t.rows - gone, k, row);
    assert t.rows[k := row] - gone == (t.rows - gone)[k := row] by {
      assert k !in gone;
    }
  }
}
