/** Copying all of a vault's names into another vault, run after run: how far each run gets, and when it
cannot be refused. */
module Transfer {
  import opened Types
  import opened Tables
  import opened Database
  import opened Invariant
  import opened Histories
  import opened Copying
  import SqliteStore

  // ------------------------------------------------------------ one name among all

  /** Copying one name leaves the others as far as they were. */
  lemma OtherNamesKept(db: Db, db': Db, source: Vault, to: nat, from: Ring, toRing: Ring, kind: RecordKind,
                       name: string,
                       kind': RecordKind, name': string)
    requires OnlyName(db, db', to, kind, toRing.index(kind, name)) && to in db'.vaults && RingOk(toRing)
    requires kind' != kind || name' != name
    requires HoldsPrefix(toRing, db.vaults[to].Records(kind'), toRing.index(kind', name'),
        GoalOf(source, from, kind', name'))
    ensures HoldsPrefix(toRing, db'.vaults[to].Records(kind'), toRing.index(kind', name'),
        GoalOf(source, from, kind', name'))
    ensures NameCopied(source, db.vaults[to], from, toRing, kind', name') ==>
              NameCopied(source, db'.vaults[to], from, toRing, kind', name')
  {
    hide HoldsPrefix, Goal, Vault.Records, OthersSame;
    if kind' == kind {
      OthersHold(toRing, db.vaults[to].Records(kind), db'.vaults[to].Records(kind), toRing.index(kind, name),
                 toRing.index(kind', name'), GoalOf(source, from, kind', name'));
    }
  }

  /** What is written of a name reads back, and the rest still does. */
  lemma StillReadable(ring: Ring, kind: RecordKind, t: Table, t': Table, generation: nat, name: string,
                      goal: seq<Entry>)
    requires Readable(ring, kind, t) && OthersSame(t, t', ring.index(kind, name)) && RowsOk(t', generation)
    requires HoldsPrefix(ring, t', ring.index(kind, name), goal) && AllNamed(goal, name)
    ensures Readable(ring, kind, t')
  {
    hide OthersSame;
    var hmac := ring.index(kind, name);
    forall k | k in t'.rows
      ensures t'.rows[k].valueCt.Some? ==> ring.open(t'.rows[k].valueCt.value).Some?
      ensures var n := ring.openName(t'.rows[k].nameCt); n.Some? && ring.index(kind, n.value) == k.name
    {
      if k.name == hmac {
        assert k == Key(hmac, k.version);
        assert Shows(ring, t'.rows[k], goal[k.version - 1]);
        assert RowOk(k, t'.rows[k], generation);
      } else {
        SameElsewhere(t, t', hmac, k);
      }
    }
  }

  lemma SameElsewhere(t: Table, t': Table, name: NameHmac, k: Key)
    requires OthersSame(t, t', name) && k.name != name && k in t'.rows
    ensures k in t.rows && t'.rows[k] == t.rows[k]
  {
  }

  lemma ReadableKept(db: Db, db': Db, source: Vault, to: nat, from: Ring, toRing: Ring, kind: RecordKind, name: string,
                     generation: nat, k: RecordKind)
    requires to in db.vaults && to in db'.vaults && Inv(db') && RingOk(from)
    requires OnlyName(db, db', to, kind, toRing.index(kind, name))
    requires RowsOk(source.Records(kind), generation) && Readable(from, kind, source.Records(kind))
    requires forall k :: Readable(toRing, k, db.vaults[to].Records(k))
    requires HoldsPrefix(toRing, db'.vaults[to].Records(kind), toRing.index(kind, name),
        GoalOf(source, from, kind, name))
    ensures Readable(toRing, k, db'.vaults[to].Records(k))
  {
    hide Inv, HoldsPrefix, Vault.Records, RingOk, Readable, Goal, OthersSame;
    if k == kind {
      RecordsAreOk(db', to, kind);
      GoalIsNamed(from, kind, source.Records(kind), generation, name);
      StillReadable(toRing, kind, db.vaults[to].Records(kind), db'.vaults[to].Records(kind), db'.vaults[to].generation,
          name,
                    GoalOf(source, from, kind, name));
    }
  }

  lemma PartlyCopiedKept(db: Db, db': Db, source: Vault, to: nat, from: Ring, toRing: Ring, kind: RecordKind,
                        name: string,
                         generation: nat)
    requires to in db.vaults && to in db'.vaults && Inv(db') && RingOk(from) && RingOk(toRing)
    requires OnlyName(db, db', to, kind, toRing.index(kind, name))
    requires RowsOk(source.Records(kind), generation) && Readable(from, kind, source.Records(kind))
    requires PartlyCopied(source, db.vaults[to], from, toRing)
    requires HoldsPrefix(toRing, db'.vaults[to].Records(kind), toRing.index(kind, name),
        GoalOf(source, from, kind, name))
    ensures PartlyCopied(source, db'.vaults[to], from, toRing)
    ensures forall k, n :: (k != kind || n != name) && NameCopied(source, db.vaults[to], from, toRing, k, n) ==>
              NameCopied(source, db'.vaults[to], from, toRing, k, n)
  {
    hide Inv, HoldsPrefix, GoalOf, Vault.Records, OnlyName, RingOk, NameCopied, Readable, RowsOk;
    forall k
      ensures Readable(toRing, k, db'.vaults[to].Records(k))
    {
      ReadableKept(db, db', source, to, from, toRing, kind, name, generation, k);
    }
    forall k, n | k != kind || n != name
      ensures HoldsPrefix(toRing, db'.vaults[to].Records(k), toRing.index(k, n), GoalOf(source, from, k, n))
      ensures NameCopied(source, db.vaults[to], from, toRing, k, n) ==>
          NameCopied(source, db'.vaults[to], from, toRing, k, n)
    {
      OtherNamesKept(db, db', source, to, from, toRing, kind, name, k, n);
    }
  }

  /** The name a source head seals. */
  function NameAt(ring: Ring, t: Table, hmac: NameHmac): string {
    if hmac in t.heads && Key(hmac, t.heads[hmac].version) in t.rows then
      var n := ring.openName(t.rows[Key(hmac, t.heads[hmac].version)].nameCt);
      if n.Some? then n.value else ""
    else ""
  }

  lemma NameAtIsIndexed(ring: Ring, kind: RecordKind, t: Table, hmac: NameHmac)
    requires HeadsOk(t) && Readable(ring, kind, t) && hmac in t.heads
    ensures ring.index(kind, NameAt(ring, t, hmac)) == hmac
  {
  }

  /** A name the source does not have is copied by copying nothing. */
  lemma AbsentIsCopied(source: Vault, target: Vault, from: Ring, to: Ring, kind: RecordKind, name: string,
                       generation: nat)
    requires PartlyCopied(source, target, from, to)
    requires RowsOk(source.Records(kind), generation) && from.index(kind, name) !in source.Records(kind).heads
    ensures NameCopied(source, target, from, to, kind, name)
  {
    hide Shows, Vault.Records;
    var t, hmac := source.Records(kind), from.index(kind, name);
    assert VersionsOf(t, hmac) == {} by {
      forall v: nat
        ensures v !in VersionsOf(t, hmac)
      {
        assert Key(hmac, v) !in t.rows;
      }
    }
    assert Source(t, hmac) == [];
    assert HoldsPrefix(to, target.Records(kind), to.index(kind, name), GoalOf(source, from, kind, name));
  }

  lemma CopyableReads(v: Vault, ring: Ring, limits: Limits, kind: RecordKind)
    requires Copyable(v, ring, limits)
    ensures Readable(ring, kind, v.Records(kind))
  {
  }

  lemma PartlyCopiedAt(source: Vault, target: Vault, from: Ring, to: Ring, kind: RecordKind, name: string)
    requires PartlyCopied(source, target, from, to)
    ensures HoldsPrefix(to, target.Records(kind), to.index(kind, name), GoalOf(source, from, kind, name))
  {
  }

  lemma EveryNameCopied(source: Vault, target: Vault, from: Ring, to: Ring, kind: RecordKind, table: Table,
                        generation: nat,
                        name: string)
    requires table == source.Records(kind) && TableOk(table, generation) && Readable(from, kind, table) && RingOk(from)
    requires PartlyCopied(source, target, from, to)
    requires forall hmac :: hmac in table.heads ==>
        NameCopied(source, target, from, to, kind, NameAt(from, table, hmac))
    ensures NameCopied(source, target, from, to, kind, name)
  {
    hide NameCopied, PartlyCopied, NameAt, RowsOk, HeadsOk, Readable, Vault.Records;
    var hmac := from.index(kind, name);
    if hmac in table.heads {
      NameAtIsIndexed(from, kind, table, hmac);
      assert NameAt(from, table, hmac) == name;
    } else {
      AbsentIsCopied(source, target, from, to, kind, name, generation);
    }
  }

  // ------------------------------------------------------------ all names, in the order they are copied

  type Name = (RecordKind, string)

  /** What each name's copy must hold. */
  ghost function GoalsFor(source: Vault, ring: Ring, names: seq<Name>): (goals: seq<History>)
    ensures |goals| == |names| && forall i :: 0 <= i < |names| ==>
        goals[i] == GoalOf(source, ring, names[i].0, names[i].1)
  {
    seq(|names|, i requires 0 <= i < |names| => GoalOf(source, ring, names[i].0, names[i].1))
  }

  ghost function SeenOf(target: Vault, ring: Ring, name: Name): History {
    Seen(ring, target.Records(name.0), ring.index(name.0, name.1))
  }

  /** What the target shows of each name. */
  ghost function SeenAll(target: Vault, ring: Ring, names: seq<Name>): (seen: seq<History>)
    ensures |seen| == |names| && forall i :: 0 <= i < |names| ==> seen[i] == SeenOf(target, ring, names[i])
  {
    seq(|names|, i requires 0 <= i < |names| => SeenOf(target, ring, names[i]))
  }

  /** The listing: every name the source has, once, in some order. */
  ghost predicate Catalogue(source: Vault, ring: Ring, names: seq<Name>) {
    && (forall i, j :: 0 <= i < j < |names| ==> names[i] != names[j])
    && (forall i :: 0 <= i < |names| ==> ring.index(names[i].0, names[i].1) in source.Records(names[i].0).heads)
    && (forall kind, h :: h in source.Records(kind).heads ==> (kind, NameAt(ring, source.Records(kind), h)) in names)
  }

  /** A copy that is under way shows a beginning of every history. */
  lemma PartlySeen(source: Vault, target: Vault, from: Ring, to: Ring, names: seq<Name>)
    requires VaultOk(target) && PartlyCopied(source, target, from, to)
    ensures Prefixes(SeenAll(target, to, names), GoalsFor(source, from, names))
    ensures forall i :: 0 <= i < |names| ==>
              (SeenAll(target, to, names)[i] == GoalsFor(source, from, names)[i] <==>
                 NameCopied(source, target, from, to, names[i].0, names[i].1))
  {
    hide Seen, HoldsPrefix, GoalOf, ChainOk, DescriptorsOk, Readable, HeadsOk, RowsOk;
    forall i | 0 <= i < |names|
      ensures SeenAll(target, to, names)[i] <= GoalsFor(source, from, names)[i]
      ensures SeenAll(target, to, names)[i] == GoalsFor(source, from, names)[i] <==>
                NameCopied(source, target, from, to, names[i].0, names[i].1)
    {
      var (kind, name) := names[i];
      PartlyCopiedAt(source, target, from, to, kind, name);
      SeenIsPrefix(to, target.Records(kind), target.generation, to.index(kind, name), GoalOf(source, from, kind, name));
    }
  }

  /** Everything is copied exactly when every listed history shows whole. */
  lemma FullySeen(source: Vault, target: Vault, from: Ring, to: Ring, names: seq<Name>, limits: Limits)
    requires VaultOk(source) && VaultOk(target) && RingOk(from) && Copyable(source, from, limits)
    requires Catalogue(source, from, names) && PartlyCopied(source, target, from, to)
    ensures FullyCopied(source, target, from, to) <==> SeenAll(target, to, names) == GoalsFor(source, from, names)
  {
    hide SeenOf, ChainOk, DescriptorsOk, Readable, HeadsOk, RowsOk, NameCopied, PartlyCopied, RingOk, Vault.Records,
         NameAt, GoalOf, Copyable;
    PartlySeen(source, target, from, to, names);
    if SeenAll(target, to, names) == GoalsFor(source, from, names) {
      forall kind, name
        ensures NameCopied(source, target, from, to, kind, name)
      {
        var table := source.Records(kind);
        CopyableReads(source, from, limits, kind);
        KindIsOk(source, kind);
        forall h | h in table.heads
          ensures NameCopied(source, target, from, to, kind, NameAt(from, table, h))
        {
          var i :| 0 <= i < |names| && names[i] == (kind, NameAt(from, table, h));
        }
        EveryNameCopied(source, target, from, to, kind, table, source.generation, name);
      }
    }
  }

  lemma KindIsOk(v: Vault, kind: RecordKind)
    requires VaultOk(v)
    ensures TableOk(v.Records(kind), v.generation)
  {
    hide TableOk, Chain;
  }

  /** The two rows have the same content, each under its own keys. */
  ghost predicate Mirrors(from: Ring, to: Ring, row: VersionRow, row': VersionRow) {
    && to.openName(row'.nameCt) == from.openName(row.nameCt) && row'.writtenAt == row.writtenAt
    && row'.tombstone == row.tombstone && row'.valueCt.None? == row'.tombstone && row.valueCt.None? == row.tombstone
    && (!row.tombstone ==>
         from.open(row.valueCt.value).Some? && to.open(row'.valueCt.value) == from.open(row.valueCt.value))
  }

  /** Some retained version up to `v` is live. */
  ghost predicate LiveBy(t: Table, name: NameHmac, v: nat) {
    exists u: nat :: u <= v && Key(name, u) in t.rows && !t.rows[Key(name, u)].tombstone
  }

  /** In ascending order, the retained versions from the first live one on. */
  ghost predicate FromFirstLive(t: Table, name: NameHmac, vs: seq<nat>) {
    StrictlyAscending(vs) && forall v: nat :: v in vs <==> Key(name, v) in t.rows && LiveBy(t, name, v)
  }

  /** Row for row: version `i + 1` of the target is the `i`-th version to copy, and there is no other. */
  ghost predicate RowForRow(from: Ring, to: Ring, t: Table, t': Table, name: NameHmac, name': NameHmac, vs: seq<nat>) {
    && (forall v: nat :: Key(name', v) in t'.rows <==> 1 <= v <= |vs|)
    && (forall i :: 0 <= i < |vs| ==>
          Key(name, vs[i]) in t.rows && Mirrors(from, to, t.rows[Key(name, vs[i])], t'.rows[Key(name', i + 1)]))
  }

  lemma SourceIsLive(t: Table, name: NameHmac, v: nat)
    requires v in Source(t, name)
    ensures Key(name, v) in t.rows && LiveBy(t, name, v)
  {
    hide Source;
    var all, vs := Ascending(VersionsOf(t, name)), Source(t, name);
    SourceIsSuffix(t, name);
    var skipped := |all| - |vs|;
    var i :| 0 <= i < |vs| && vs[i] == v;
    assert vs[0] == all[skipped] && v == all[skipped + i];
    hide Ascending;
    assert Key(name, vs[0]) in t.rows && vs[0] <= v;
  }

  lemma LiveIsSource(t: Table, name: NameHmac, u: nat, v: nat)
    requires u <= v && Key(name, u) in t.rows && Key(name, v) in t.rows && !t.rows[Key(name, u)].tombstone
    ensures v in Source(t, name)
  {
    hide Source, StrictlyAscending;
    var all, vs := Ascending(VersionsOf(t, name)), Source(t, name);
    SourceIsSuffix(t, name);
    assert u in all && v in all;
    var i :| 0 <= i < |all| && all[i] == u;
    var j :| 0 <= j < |all| && all[j] == v;
    InTheirOrder(all, i, j);
    assert vs[j - (|all| - |vs|)] == v;
  }

  lemma InTheirOrder(r: seq<nat>, i: nat, j: nat)
    requires StrictlyAscending(r) && i < |r| && j < |r| && r[i] <= r[j]
    ensures i <= j
  {
  }

  lemma SourceAscends(t: Table, name: NameHmac)
    ensures StrictlyAscending(Source(t, name))
  {
    hide Source;
    var all, vs := Ascending(VersionsOf(t, name)), Source(t, name);
    SourceIsSuffix(t, name);
    hide Ascending, VersionsOf;
    assert forall i :: 0 <= i < |vs| ==> vs[i] == all[|all| - |vs| + i];
  }

  lemma SourceIsFromFirstLive(t: Table, name: NameHmac)
    ensures FromFirstLive(t, name, Source(t, name))
  {
    hide Source, StrictlyAscending, LiveBy;
    SourceAscends(t, name);
    forall v: nat
      ensures v in Source(t, name) <==> Key(name, v) in t.rows && LiveBy(t, name, v)
    {
      if v in Source(t, name) {
        SourceIsLive(t, name, v);
      }
      if Key(name, v) in t.rows && LiveBy(t, name, v) {
        IsSource(t, name, v);
      }
    }
  }

  lemma IsSource(t: Table, name: NameHmac, v: nat)
    requires Key(name, v) in t.rows && LiveBy(t, name, v)
    ensures v in Source(t, name)
  {
    hide Source;
    var u: nat :| u <= v && Key(name, u) in t.rows && !t.rows[Key(name, u)].tombstone;
    LiveIsSource(t, name, u, v);
  }

  lemma BothShow(from: Ring, to: Ring, k: Key, row: VersionRow, k': Key, row': VersionRow, e: Entry, g: nat, g': nat)
    requires Shows(from, row, e) && Shows(to, row', e) && RowOk(k, row, g) && RowOk(k', row', g')
    ensures Mirrors(from, to, row, row')
  {
  }

  /** Everything of a name is copied exactly when the target holds, row for row, what the source retains
  from the first live version on. */
  lemma CopiedRowForRow(source: Vault, target: Vault, from: Ring, to: Ring, limits: Limits, kind: RecordKind,
                        name: string)
    requires VaultOk(source) && VaultOk(target) && Copyable(source, from, limits)
    requires PartlyCopied(source, target, from, to)
    ensures var t, t' := source.Records(kind), target.Records(kind);
            var hmac, hmac' := from.index(kind, name), to.index(kind, name);
            && FromFirstLive(t, hmac, Source(t, hmac))
            && (NameCopied(source, target, from, to, kind, name) <==>
                  RowForRow(from, to, t, t', hmac, hmac', Source(t, hmac)))
  {
    hide VaultOk, Copyable, PartlyCopied, Source, FromFirstLive, Vault.Records, HeadsOk, Goal, HoldsPrefix, RowForRow;
    SourceIsFromFirstLive(source.Records(kind), from.index(kind, name));
    CopyableReads(source, from, limits, kind);
    KindIsOk(source, kind);
    KindIsOk(target, kind);
    PartlyCopiedAt(source, target, from, to, kind, name);
    HeldRowForRow(from, to, kind, source.Records(kind), source.generation, target.Records(kind), target.generation,
      from.index(kind, name), to.index(kind, name));
  }

  lemma HeldRowForRow(from: Ring, to: Ring, kind: RecordKind, t: Table, g: nat, t': Table, g': nat, name: NameHmac,
                      name': NameHmac)
    requires TableOk(t, g) && TableOk(t', g') && Readable(from, kind, t)
    requires HoldsPrefix(to, t', name', Goal(from, t, name))
    ensures HoldsAll(to, t', name', Goal(from, t, name)) <==> RowForRow(from, to, t, t', name, name', Source(t, name))
  {
    hide Source, HeadsOk, Readable, Shows, Mirrors, Count, RowOk;
    var vs, goal, n := Source(t, name), Goal(from, t, name), Count(t', name');
    assert |goal| == |vs|;
    if n == |vs| {
      forall i: nat | i < |vs|
        ensures Key(name, vs[i]) in t.rows && Mirrors(from, to, t.rows[Key(name, vs[i])], t'.rows[Key(name', i + 1)])
      {
        GoalShows(from, kind, t, g, name, i);
        var k, k' := Key(name, vs[i]), Key(name', i + 1);
        assert Shows(to, t'.rows[k'], goal[i + 1 - 1]);
        BothShow(from, to, k, t.rows[k], k', t'.rows[k'], goal[i], g, g');
      }
    } else {
      assert Key(name', |vs|) !in t'.rows;
    }
  }

  /** Copying on with one name changes what is seen of that name, and of no other. */
  lemma NameSeen(db: Db, db': Db, source: Vault, to: nat, from: Ring, toRing: Ring, names: seq<Name>, k: nat, n: nat)
    requires to in db.vaults && to in db'.vaults && Inv(db') && RingOk(toRing)
    requires k < |names| && forall i, j :: 0 <= i < j < |names| ==> names[i] != names[j]
    requires var (kind, name) := names[k];
             && OnlyName(db, db', to, kind, toRing.index(kind, name))
             && HoldsPrefix(toRing, db'.vaults[to].Records(kind), toRing.index(kind, name),
                 GoalOf(source, from, kind, name))
             && Count(db'.vaults[to].Records(kind), toRing.index(kind, name))
                == Count(db.vaults[to].Records(kind), toRing.index(kind, name)) + n
    ensures var seen, goal := SeenAll(db.vaults[to], toRing, names), GoalsFor(source, from, names);
            && |seen[k]| + n <= |goal[k]|
            && SeenAll(db'.vaults[to], toRing, names) == seen[k := goal[k][..|seen[k]| + n]]
  {
    hide Inv, GoalOf, Vault.Records, OthersSame, RingOk, HoldsPrefix, Seen, Count;
    var (kind, name) := names[k];
    var seen, seen' := SeenAll(db.vaults[to], toRing, names), SeenAll(db'.vaults[to], toRing, names);
    forall i | 0 <= i < |names| && i != k
      ensures seen'[i] == seen[i]
    {
      OtherSeen(db, db', to, toRing, kind, name, names[i]);
    }
    RecordsAreOk(db', to, kind);
    SeenIsPrefix(toRing, db'.vaults[to].Records(kind), db'.vaults[to].generation, toRing.index(kind, name),
                 GoalOf(source, from, kind, name));
    SeenCount(toRing, db'.vaults[to].Records(kind), toRing.index(kind, name));
    SeenCount(toRing, db.vaults[to].Records(kind), toRing.index(kind, name));
    var goal := GoalsFor(source, from, names);
    assert seen'[k] == goal[k][..|seen'[k]|];
  }

  lemma SeenCount(ring: Ring, t: Table, name: NameHmac)
    ensures |Seen(ring, t, name)| == Count(t, name)
  {
  }

  lemma OtherSeen(db: Db, db': Db, to: nat, ring: Ring, kind: RecordKind, name: string, other: Name)
    requires to in db.vaults && to in db'.vaults && RingOk(ring) && other != (kind, name)
    requires OnlyName(db, db', to, kind, ring.index(kind, name))
    ensures SeenOf(db'.vaults[to], ring, other) == SeenOf(db.vaults[to], ring, other)
  {
    hide Vault.Records;
    if other.0 == kind {
      var t, t', hmac := db.vaults[to].Records(kind), db'.vaults[to].Records(kind), ring.index(kind, other.1);
      assert hmac != ring.index(kind, name);
      assert Seen(ring, t', hmac) == Seen(ring, t, hmac);
    }
  }

  // ------------------------------------------------------------ room for all of it

  /** The names of a kind that there is something to copy of. */
  ghost function Wanted(source: Vault, from: Ring, names: seq<Name>, kind: RecordKind): set<Name> {
    set n | n in names && n.0 == kind && GoalOf(source, from, kind, n.1) != []
  }

  /** What the caller can see before it starts, and what makes a refusal impossible: no more names to copy
  than may be live, no value too long once sealed again, and bytes enough for all that is still to copy. */
  ghost predicate Roomy(source: Vault, target: Vault, from: Ring, to: Ring, names: seq<Name>, limits: Limits) {
    && (forall kind :: |Wanted(source, from, names, kind)| <= limits.MaxLive(kind))
    && (forall i :: 0 <= i < |names| ==> ValuesFit(to, GoalsFor(source, from, names)[i], limits.MaxValue(names[i].0)))
    && target.bytesUsed + Owed(SeenAll(target, to, names), GoalsFor(source, from, names), Sizes(to),
        0) <= limits.maxVaultBytes
  }

  ghost predicate ValuesFit(ring: Ring, h: History, max: nat) {
    forall i :: 0 <= i < |h| && h[i].value.Some? ==> |ring.seal(h[i].value.value)| <= max
  }

  function Indexed(ring: Ring, s: set<Name>): set<NameHmac> {
    set n | n in s :: ring.index(n.0, n.1)
  }

  lemma {:induction false} IndexedSize(ring: Ring, s: set<Name>)
    ensures |Indexed(ring, s)| <= |s|
    decreases |s|
  {
    if s != {} {
      var n :| n in s;
      IndexedSize(ring, s - {n});
      assert Indexed(ring, s) == Indexed(ring, s - {n}) + {ring.index(n.0, n.1)};
    } else {
      assert Indexed(ring, s) == {};
    }
  }

  lemma Within(a: set<NameHmac>, b: set<NameHmac>)
    requires a <= b
    ensures |a| <= |b|
  {
    assert b == a + (b - a);
  }

  /** Every live name of the target is one of the names to copy. */
  lemma LiveIsWanted(source: Vault, target: Vault, from: Ring, to: Ring, names: seq<Name>, kind: RecordKind,
                     h: NameHmac)
    requires VaultOk(source) && VaultOk(target) && RingOk(from) && Readable(from, kind, source.Records(kind))
    requires Catalogue(source, from, names) && PartlyCopied(source, target, from, to)
        && h in LiveNames(target.Records(kind))
    ensures h in Indexed(to, Wanted(source, from, names, kind))
  {
    hide ChainOk, DescriptorsOk, Vault.Records, GoalOf, NameAt, Chain, TotalBytes, RowOk, Shows;
    KindIsOk(target, kind);
    KindIsOk(source, kind);
    var t := target.Records(kind);
    var k := Key(h, t.heads[h].version);
    assert k in t.rows;
    var name := to.openName(t.rows[k].nameCt).value;
    assert to.index(kind, name) == h;
    PartlyCopiedAt(source, target, from, to, kind, name);
    LiveHasGoal(source, from, kind, name, t, to, target.generation);
    ListedIfWanted(source, from, names, kind, name);
    assert (kind, name) in Wanted(source, from, names, kind);
  }

  lemma LiveHasGoal(source: Vault, from: Ring, kind: RecordKind, name: string, t: Table, to: Ring, generation: nat)
    requires TableOk(t, generation) && to.index(kind, name) in t.heads
    requires HoldsPrefix(to, t, to.index(kind, name), GoalOf(source, from, kind, name))
    ensures GoalOf(source, from, kind, name) != []
  {
    hide GoalOf, Shows;
    HeadsAreRows(t, to.index(kind, name), generation);
  }

  /** What there is something to copy of is listed. */
  lemma ListedIfWanted(source: Vault, from: Ring, names: seq<Name>, kind: RecordKind, name: string)
    requires VaultOk(source) && RingOk(from) && Readable(from, kind, source.Records(kind))
        && Catalogue(source, from, names)
    requires GoalOf(source, from, kind, name) != []
    ensures (kind, name) in names
  {
    hide ChainOk, DescriptorsOk, Vault.Records, NameAt, Readable, RingOk, RowsOk, HeadsOk, Source;
    var t, hmac := source.Records(kind), from.index(kind, name);
    KindIsOk(source, kind);
    if hmac in t.heads {
      NameAtIsIndexed(from, kind, t, hmac);
      SameIndexSameName(from, kind, NameAt(from, t, hmac), name);
    } else {
      NoGoal(from, t, source.generation, hmac);
    }
  }

  lemma SameIndexSameName(ring: Ring, kind: RecordKind, a: string, b: string)
    requires RingOk(ring) && ring.index(kind, a) == ring.index(kind, b)
    ensures a == b
  {
  }

  lemma NoGoal(ring: Ring, t: Table, generation: nat, hmac: NameHmac)
    requires TableOk(t, generation) && hmac !in t.heads
    ensures Goal(ring, t, hmac) == []
  {
    hide HeadsOk, RowOk, Ascending;
    assert VersionsOf(t, hmac) == {} by {
      forall v: nat
        ensures v !in VersionsOf(t, hmac)
      {
        assert Key(hmac, v) !in t.rows;
      }
    }
    assert Source(t, hmac) == [];
  }

  lemma FewLive(source: Vault, target: Vault, from: Ring, to: Ring, names: seq<Name>, kind: RecordKind, name: string,
                limits: Limits)
    requires VaultOk(source) && VaultOk(target) && RingOk(from) && RingOk(to)
        && Readable(from, kind, source.Records(kind))
    requires Catalogue(source, from, names) && PartlyCopied(source, target, from, to)
    requires |Wanted(source, from, names, kind)| <= limits.MaxLive(kind)
    requires GoalOf(source, from, kind, name) != []
    ensures |LiveNames(target.Records(kind)) - {to.index(kind, name)}| < limits.MaxLive(kind)
  {
    hide VaultOk, Vault.Records, GoalOf, RingOk, Readable, Catalogue, PartlyCopied, LiveNames;
    var live, wanted, me := LiveNames(target.Records(kind)), Wanted(source, from, names, kind), (kind, name);
    ListedIfWanted(source, from, names, kind, name);
    assert me in wanted;
    forall h | h in live - {to.index(kind, name)}
      ensures h in Indexed(to, wanted - {me})
    {
      LiveIsWanted(source, target, from, to, names, kind, h);
      var n :| n in wanted && to.index(n.0, n.1) == h;
      assert n != me;
    }
    Within(live - {to.index(kind, name)}, Indexed(to, wanted - {me}));
    IndexedSize(to, wanted - {me});
    assert |wanted - {me}| == |wanted| - 1;
  }

  /** Room for everything is room for each name. */
  lemma RoomyIsRoom(source: Vault, target: Vault, from: Ring, to: Ring, names: seq<Name>, k: nat, limits: Limits)
    requires VaultOk(source) && VaultOk(target) && RingOk(from) && RingOk(to) && Copyable(source, from, limits)
    requires Catalogue(source, from, names) && PartlyCopied(source, target, from, to) && k < |names|
    requires Roomy(source, target, from, to, names, limits)
    ensures var (kind, name) := names[k];
            NameRoom(to, target, kind, to.index(kind, name), GoalOf(source, from, kind, name),
                     Count(target.Records(kind), to.index(kind, name)), limits)
  {
    hide VaultOk, Vault.Records, GoalOf, RingOk, Readable, Catalogue, PartlyCopied, LiveNames, Wanted, Owed, Weight,
         Seen, Copyable, Count;
    var (kind, name) := names[k];
    var hmac, goal := to.index(kind, name), GoalOf(source, from, kind, name);
    assert ValuesFit(to, GoalsFor(source, from, names)[k], limits.MaxValue(names[k].0));
    CopyableReads(source, from, limits, kind);
    SeenCount(to, target.Records(kind), hmac);
    OwedAtLeast(SeenAll(target, to, names), GoalsFor(source, from, names), Sizes(to), 0, k);
    if goal != [] {
      FewLive(source, target, from, to, names, kind, name, limits);
    }
  }

  // ------------------------------------------------------------ the whole copy

  /** What the target weighs and what is still to come. */
  ghost function WithOwed(source: Vault, target: Vault, from: Ring, to: Ring, names: seq<Name>): nat {
    target.bytesUsed + Owed(SeenAll(target, to, names), GoalsFor(source, from, names), Sizes(to), 0)
  }

  /** So far `copied` entries have been added to what the target showed at the start, those of the names
  before `k` to the last, and it is heavier by as much. */
  ghost predicate Going(start: Db, db: Db, from: nat, to: nat, fromRing: Ring, toRing: Ring, names: seq<Name>,
                        copied: nat, k: nat) {
    && Inv(db) && from in start.vaults && to in start.vaults && from in db.vaults && to in db.vaults && from != to
    && db.vaults[from] == start.vaults[from]
    && PartlyCopied(start.vaults[from], db.vaults[to], fromRing, toRing)
    && k <= |names|
    && var source := start.vaults[from];
       var goal, seen := GoalsFor(source, fromRing, names), SeenAll(db.vaults[to], toRing, names);
       && seen == More(SeenAll(start.vaults[to], toRing, names), goal, copied)
       && (forall j :: 0 <= j < k ==> seen[j] == goal[j])
       && copied + AllMissing(seen, goal) == AllMissing(SeenAll(start.vaults[to], toRing, names), goal)
       && WithOwed(source, db.vaults[to], fromRing, toRing, names)
           == WithOwed(source, start.vaults[to], fromRing, toRing, names)
  }

  lemma GoingStarts(db: Db, from: nat, to: nat, fromRing: Ring, toRing: Ring, names: seq<Name>)
    requires Inv(db) && from in db.vaults && to in db.vaults && from != to
    requires PartlyCopied(db.vaults[from], db.vaults[to], fromRing, toRing)
    ensures Going(db, db, from, to, fromRing, toRing, names, 0, 0)
  {
    hide Inv, PartlyCopied, WithOwed;
  }

  /** Room at the start is room all along: what was copied is no longer owed. */
  lemma StillRoomy(start: Db, db: Db, from: nat, to: nat, fromRing: Ring, toRing: Ring, names: seq<Name>, copied: nat,
                   k: nat,
                   limits: Limits)
    requires Going(start, db, from, to, fromRing, toRing, names, copied, k)
    requires Roomy(start.vaults[from], start.vaults[to], fromRing, toRing, names, limits)
    ensures Roomy(start.vaults[from], db.vaults[to], fromRing, toRing, names, limits)
  {
    hide Inv, PartlyCopied, SeenAll, GoalsFor, Wanted, ValuesFit, Owed, More;
  }

  lemma OwedMoves(seen: seq<History>, goal: seq<History>, weigh: Entry -> nat, k: nat, n: nat)
    requires k < |seen| == |goal| && |seen[k]| + n <= |goal[k]|
    ensures Owed(seen[k := goal[k][..|seen[k]| + n]], goal, weigh, 0) + Weight(goal[k], |seen[k]|, weigh)
            == Owed(seen, goal, weigh, 0) + Weight(goal[k], |seen[k]| + n, weigh)
  {
    hide Weight, Owed;
    OwedLess(seen, goal, weigh, 0, k, goal[k][..|seen[k]| + n]);
  }

  /** What copying `n` entries of name `k` leaves: as much heavier, as much less owed. */
  ghost predicate Added(db: Db, db': Db, source: Vault, to: nat, from: Ring, toRing: Ring, names: seq<Name>, k: nat,
                        n: nat) {
    && to in db.vaults && to in db'.vaults && k < |names|
    && var seen, goal := SeenAll(db.vaults[to], toRing, names), GoalsFor(source, from, names);
       && |seen[k]| + n <= |goal[k]|
       && SeenAll(db'.vaults[to], toRing, names) == seen[k := goal[k][..|seen[k]| + n]]
       && WithOwed(source, db'.vaults[to], from, toRing, names) == WithOwed(source, db.vaults[to], from, toRing, names)
  }

  lemma NameAdds(db: Db, db': Db, source: Vault, to: nat, from: Ring, toRing: Ring, names: seq<Name>, k: nat, n: nat)
    requires to in db.vaults && to in db'.vaults && Inv(db') && RingOk(toRing)
    requires k < |names| && forall i, j :: 0 <= i < j < |names| ==> names[i] != names[j]
    requires var (kind, name) := names[k];
             var hmac, goal := toRing.index(kind, name), GoalOf(source, from, kind, name);
             var had := Count(db.vaults[to].Records(kind), hmac);
             && OnlyName(db, db', to, kind, hmac) && HoldsPrefix(toRing, db'.vaults[to].Records(kind), hmac, goal)
             && Count(db'.vaults[to].Records(kind), hmac) == had + n
             && db'.vaults[to].bytesUsed + Weight(goal, had + n, Sizes(toRing))
                == db.vaults[to].bytesUsed + Weight(goal, had, Sizes(toRing))
    ensures Added(db, db', source, to, from, toRing, names, k, n)
  {
    hide Inv, HoldsPrefix, GoalOf, Count, Weight, SeenOf, Vault.Records, RingOk, OnlyName, Owed, Sizes;
    NameSeen(db, db', source, to, from, toRing, names, k, n);
    SeenIsCount(db.vaults[to], toRing, names, k);
    OwedMoves(SeenAll(db.vaults[to], toRing, names), GoalsFor(source, from, names), Sizes(toRing), k, n);
  }

  /** Adding to the next name is going on. */
  lemma AddedIsMore(db: Db, db': Db, source: Vault, to: nat, from: Ring, toRing: Ring, names: seq<Name>, k: nat, n: nat)
    requires Added(db, db', source, to, from, toRing, names, k, n)
    requires var goal, seen := GoalsFor(source, from, names), SeenAll(db.vaults[to], toRing, names);
             Prefixes(seen, goal) && forall j :: 0 <= j < k ==> seen[j] == goal[j]
    ensures var goal, seen, seen' := GoalsFor(source, from, names), SeenAll(db.vaults[to], toRing, names),
                                     SeenAll(db'.vaults[to], toRing, names);
            && seen' == More(seen, goal, n) && (forall j :: 0 <= j < k ==> seen'[j] == goal[j])
            && n + AllMissing(seen', goal) == AllMissing(seen, goal)
  {
    hide SeenOf, GoalOf, WithOwed, More, Missing;
    MissingLess(SeenAll(db.vaults[to], toRing, names), GoalsFor(source, from, names), 0, k,
                SeenAll(db'.vaults[to], toRing, names)[k]);
    MoreOfOne(SeenAll(db.vaults[to], toRing, names), GoalsFor(source, from, names), k, n);
  }

  /** Copying on with the next name adds exactly its entries. */
  lemma GoesOn(start: Db, db: Db, db': Db, from: nat, to: nat, fromRing: Ring, toRing: Ring, names: seq<Name>,
               copied: nat, k: nat,
               n: nat, limits: Limits)
    requires Going(start, db, from, to, fromRing, toRing, names, copied, k) && k < |names|
    requires Copyable(start.vaults[from], fromRing, limits)
    requires Inv(start) && RingOk(fromRing) && RingOk(toRing) && Inv(db')
    requires Added(db, db', start.vaults[from], to, fromRing, toRing, names, k, n)
    requires var (kind, name) := names[k];
             var hmac, goal := toRing.index(kind, name), GoalOf(start.vaults[from], fromRing, kind, name);
             OnlyName(db, db', to, kind, hmac) && HoldsPrefix(toRing, db'.vaults[to].Records(kind), hmac, goal)
    ensures Going(start, db', from, to, fromRing, toRing, names, copied + n, k)
    ensures var goal, seen' := GoalsFor(start.vaults[from], fromRing, names), SeenAll(db'.vaults[to], toRing, names);
            seen'[k] == goal[k] <==> NameCopied(start.vaults[from], db'.vaults[to], fromRing, toRing, names[k].0,
                names[k].1)
  {
    hide Inv, PartlyCopied, HoldsPrefix, GoalOf, Count, SeenOf, Vault.Records, RingOk, Readable, Copyable, NameCopied,
         WithOwed, More, Owed, Seen, RowsOk, HeadsOk, Prefixes, OnlyName, VaultOk, AllMissing;
    var (kind, name) := names[k];
    var source, goal := start.vaults[from], GoalsFor(start.vaults[from], fromRing, names);
    OnlyNameElsewhere(db, db', to, kind, toRing.index(kind, name), from);
    CopyableReads(source, fromRing, limits, kind);
    RecordsAreOk(start, from, kind);
    PartlyCopiedKept(db, db', source, to, fromRing, toRing, kind, name, source.generation);
    VaultIsOk(db, to);
    VaultIsOk(db', to);
    PartlySeen(source, db.vaults[to], fromRing, toRing, names);
    PartlySeen(source, db'.vaults[to], fromRing, toRing, names);
    AddedIsMore(db, db', source, to, fromRing, toRing, names, k, n);
    MoreJoin(SeenAll(start.vaults[to], toRing, names), goal, copied, n);
  }

  lemma SeenIsCount(target: Vault, ring: Ring, names: seq<Name>, k: nat)
    requires k < |names|
    ensures |SeenAll(target, ring, names)[k]| == Count(target.Records(names[k].0), ring.index(names[k].0, names[k].1))
  {
  }

  /** The next name is finished: on to the one after it. */
  lemma NextOne(start: Db, db: Db, from: nat, to: nat, fromRing: Ring, toRing: Ring, names: seq<Name>, copied: nat,
                k: nat)
    requires Going(start, db, from, to, fromRing, toRing, names, copied, k) && k < |names|
    requires SeenAll(db.vaults[to], toRing, names)[k] == GoalsFor(start.vaults[from], fromRing, names)[k]
    ensures Going(start, db, from, to, fromRing, toRing, names, copied, k + 1)
  {
    hide Inv, PartlyCopied, SeenOf, GoalOf, WithOwed, More, AllMissing;
  }

  /** What a run leaves behind, wherever it stops. */
  lemma GoingMeans(start: Db, db: Db, from: nat, to: nat, fromRing: Ring, toRing: Ring, names: seq<Name>, copied: nat,
                   k: nat,
                   limits: Limits)
    requires Going(start, db, from, to, fromRing, toRing, names, copied, k)
    requires RingOk(fromRing) && Copyable(start.vaults[from], fromRing, limits)
        && Catalogue(start.vaults[from], fromRing, names)
    ensures Inv(db) && from in db.vaults && to in db.vaults && to in start.vaults
        && db.vaults[from] == start.vaults[from]
    ensures PartlyCopied(db.vaults[from], db.vaults[to], fromRing, toRing)
    ensures var goal, seen, seen' := GoalsFor(start.vaults[from], fromRing, names),
        SeenAll(start.vaults[to], toRing, names),
                                     SeenAll(db.vaults[to], toRing, names);
            && seen' == More(seen, goal, copied) && copied + AllMissing(seen', goal) == AllMissing(seen, goal)
            && (AllMissing(seen', goal) == 0 <==> FullyCopied(db.vaults[from], db.vaults[to], fromRing, toRing))
            && (k == |names| ==> AllMissing(seen', goal) == 0)
    ensures WithOwed(start.vaults[from], db.vaults[to], fromRing, toRing, names)
            == WithOwed(start.vaults[from], start.vaults[to], fromRing, toRing, names)
  {
    hide Inv, PartlyCopied, SeenOf, GoalOf, WithOwed, More, AllMissing, RingOk, Copyable, Catalogue, FullyCopied,
         VaultOk, NameCopied;
    var source, target := db.vaults[from], db.vaults[to];
    VaultIsOk(db, from);
    VaultIsOk(db, to);
    var goal, seen' := GoalsFor(source, fromRing, names), SeenAll(target, toRing, names);
    PartlySeen(source, target, fromRing, toRing, names);
    FullySeen(source, target, fromRing, toRing, names, limits);
    NoneMissing(seen', goal);
    if k == |names| {
      assert seen' == goal;
    }
  }

  lemma FullyAt(source: Vault, target: Vault, from: Ring, to: Ring, kind: RecordKind, name: string)
    ensures FullyCopied(source, target, from, to) ==> NameCopied(source, target, from, to, kind, name)
  {
    hide NameCopied;
  }

  lemma RoomIs(db: Db, from: nat, to: nat, fromRing: Ring, toRing: Ring, names: seq<Name>, k: nat, limits: Limits)
    requires Inv(db) && from in db.vaults && to in db.vaults && k < |names|
    requires RingOk(fromRing) && RingOk(toRing) && Copyable(db.vaults[from], fromRing, limits)
    requires Catalogue(db.vaults[from], fromRing, names)
        && PartlyCopied(db.vaults[from], db.vaults[to], fromRing, toRing)
    requires Roomy(db.vaults[from], db.vaults[to], fromRing, toRing, names, limits)
    ensures var (kind, name) := names[k];
            NameRoom(toRing, db.vaults[to], kind, toRing.index(kind, name),
                GoalOf(db.vaults[from], fromRing, kind, name),
                     Count(db.vaults[to].Records(kind), toRing.index(kind, name)), limits)
  {
    hide Inv, VaultOk, RingOk, Copyable, Catalogue, PartlyCopied, Roomy, NameRoom, GoalOf, Count, Vault.Records;
    VaultIsOk(db, from);
    VaultIsOk(db, to);
    RoomyIsRoom(db.vaults[from], db.vaults[to], fromRing, toRing, names, k, limits);
  }

  lemma NameCopiedOn(start: Db, db: Db, db': Db, from: nat, to: nat, fromRing: Ring, toRing: Ring, names: seq<Name>,
                     copied: nat,
                     k: nat, n: nat, limits: Limits)
    requires Going(start, db, from, to, fromRing, toRing, names, copied, k) && k < |names| && from in start.vaults
    requires Catalogue(start.vaults[from], fromRing, names) && Copyable(start.vaults[from], fromRing, limits)
    requires Inv(start) && RingOk(fromRing) && RingOk(toRing) && Inv(db')
    requires var (kind, name) := names[k];
             var hmac, goal := toRing.index(kind, name), GoalOf(start.vaults[from], fromRing, kind, name);
             && to in db.vaults && OnlyName(db, db', to, kind, hmac) && to in db'.vaults
             && HoldsPrefix(toRing, db'.vaults[to].Records(kind), hmac, goal)
             && var had := Count(db.vaults[to].Records(kind), hmac);
                && Count(db'.vaults[to].Records(kind), hmac) == had + n
                && db'.vaults[to].bytesUsed + Weight(goal, had + n, Sizes(toRing))
                   == db.vaults[to].bytesUsed + Weight(goal, had, Sizes(toRing))
    ensures Going(start, db', from, to, fromRing, toRing, names, copied + n, k)
    ensures var goal, seen' := GoalsFor(start.vaults[from], fromRing, names), SeenAll(db'.vaults[to], toRing, names);
            seen'[k] == goal[k] <==> NameCopied(start.vaults[from], db'.vaults[to], fromRing, toRing, names[k].0,
                names[k].1)
  {
    hide Inv, HoldsPrefix, GoalOf, Count, Weight, Vault.Records, RingOk, OnlyName, Sizes, Copyable, Going, Added,
         NameCopied, SeenAll, GoalsFor;
    assert forall i, j :: 0 <= i < j < |names| ==> names[i] != names[j];
    hide Catalogue;
    NameAdds(db, db', start.vaults[from], to, fromRing, toRing, names, k, n);
    GoesOn(start, db, db', from, to, fromRing, toRing, names, copied, k, n, limits);
  }

  /** Copy every retained record, name by name in the order of the listing, making at most `budget` writes
  before being interrupted. Whatever stops it, the target shows what so many steps of copying add to what
  it showed, and all it holds can be read; so the next run carries on from there. Only a quota can refuse a
  write, and that only if there was not room for everything; an interruption has used up the budget; a run
  that is not stopped leaves everything copied; and once everything is copied a further run writes
  nothing. */
  method CopyFrom(store: SqliteStore.Store, from: nat, to: nat, fromRing: Ring, toRing: Ring, names: seq<Name>,
                  ctx: Ctx,
                  limits: Limits, budget: nat) returns (copied: nat, stop: Option<Stop>)
    requires store.Valid() && from in store.vaults && to in store.vaults && from != to
    requires RingOk(fromRing) && RingOk(toRing) && Copyable(store.vaults[from], fromRing, limits)
    requires Catalogue(store.vaults[from], fromRing, names)
    requires PartlyCopied(store.vaults[from], store.vaults[to], fromRing, toRing)
    modifies store
    ensures store.Valid() && to in store.vaults
    ensures from in store.vaults && store.vaults[from] == old(store.vaults[from])
    ensures PartlyCopied(store.vaults[from], store.vaults[to], fromRing, toRing)
    ensures copied <= budget
    ensures var goal, seen, seen' := GoalsFor(store.vaults[from], fromRing, names),
                                     SeenAll(old(store.vaults[to]), toRing, names),
                                         SeenAll(store.vaults[to], toRing, names);
            && seen' == More(seen, goal, copied) && copied + AllMissing(seen', goal) == AllMissing(seen, goal)
            && (stop == Some(Interrupted) ==> copied == budget < AllMissing(seen, goal))
    ensures Further(store.vaults[from], old(store.vaults[to]), store.vaults[to], fromRing, toRing, names, copied)
    ensures stop.None? <==> FullyCopied(store.vaults[from], store.vaults[to], fromRing, toRing)
    ensures stop.Some? && stop.value.Refusal? ==>
              && stop.value.error.QuotaExceeded?
              && RefusedNext(store.State(), store.vaults[from], to, fromRing, toRing, ctx, limits, stop.value.error)
              && !Roomy(store.vaults[from], old(store.vaults[to]), fromRing, toRing, names, limits)
    ensures old(FullyCopied(store.vaults[from], store.vaults[to], fromRing, toRing)) ==>
              copied == 0 && stop.None? && store.State() == old(store.State())
  {
    hide Inv, PartlyCopied, NameCopied, RingOk, Copyable, FullyCopied, Vault.Records, RefusedNext, Going, SeenAll,
         GoalsFor, Catalogue, Roomy, WithOwed, AllMissing, More, HoldsPrefix, GoalOf, OnlyName, Count, Weight,
         NameRoom, Added, Sizes;
    ghost var start := store.State();
    ghost var source := store.vaults[from];
    ghost var full := FullyCopied(source, store.vaults[to], fromRing, toRing);
    GoingStarts(start, from, to, fromRing, toRing, names);
    GoingMeans(start, start, from, to, fromRing, toRing, names, 0, 0, limits);
    copied, stop := 0, None;
    for k := 0 to |names|
      invariant store.Valid() && from in store.vaults && to in store.vaults && store.vaults[from] == source
      invariant Going(start, store.State(), from, to, fromRing, toRing, names, copied, k)
      invariant copied <= budget
      invariant full ==> copied == 0 && store.State() == start
    {
      var (kind, name) := names[k];
      ghost var before := store.State();
      GoingMeans(start, before, from, to, fromRing, toRing, names, copied, k, limits);
      PartlyCopiedAt(source, before.vaults[to], fromRing, toRing, kind, name);
      FullyAt(source, before.vaults[to], fromRing, toRing, kind, name);
      if Roomy(source, start.vaults[to], fromRing, toRing, names, limits) {
        StillRoomy(start, before, from, to, fromRing, toRing, names, copied, k, limits);
        RoomIs(before, from, to, fromRing, toRing, names, k, limits);
      }
      var n, halt := CopyName(store, from, to, kind, name, fromRing, toRing, ctx, limits, budget - copied);
      OnlyNameKeepsTarget(before, store.State(), to, kind, toRing.index(kind, name));
      OnlyNameElsewhere(before, store.State(), to, kind, toRing.index(kind, name), from);
      NameCopiedOn(start, before, store.State(), from, to, fromRing, toRing, names, copied, k, n, limits);
      copied := copied + n;
      GoingMeans(start, store.State(), from, to, fromRing, toRing, names, copied, k, limits);
      if halt.Some? {
        FullyAt(source, store.vaults[to], fromRing, toRing, kind, name);
        stop := halt;
        return;
      }
      NextOne(start, store.State(), from, to, fromRing, toRing, names, copied, k);
    }
    GoingMeans(start, store.State(), from, to, fromRing, toRing, names, copied, |names|, limits);
  }

  lemma RoomyKept(source: Vault, target: Vault, target': Vault, from: Ring, to: Ring, names: seq<Name>, limits: Limits)
    requires WithOwed(source, target', from, to, names) == WithOwed(source, target, from, to, names)
    ensures Roomy(source, target, from, to, names, limits) ==> Roomy(source, target', from, to, names, limits)
  {
    hide Wanted, ValuesFit, Owed;
  }

  /** Run the copy again and again, each run interrupted after a positive number of writes, until one is
  not: unless a quota refuses, that comes, after exactly as many writes as entries were missing, and
  everything is then copied and can be read in the target. Where there is room for everything at the start,
  no quota refuses. */
  method CopyUntilDone(store: SqliteStore.Store, from: nat, to: nat, fromRing: Ring, toRing: Ring, names: seq<Name>,
                       ctx: Ctx,
                       limits: Limits, budgets: nat -> nat) returns (copied: nat, refusal: Option<StoreError>)
    requires store.Valid() && from in store.vaults && to in store.vaults && from != to
    requires RingOk(fromRing) && RingOk(toRing) && Copyable(store.vaults[from], fromRing, limits)
    requires Catalogue(store.vaults[from], fromRing, names)
    requires PartlyCopied(store.vaults[from], store.vaults[to], fromRing, toRing)
    requires forall k :: budgets(k) > 0
    modifies store
    ensures store.Valid() && to in store.vaults
    ensures from in store.vaults && store.vaults[from] == old(store.vaults[from])
    ensures PartlyCopied(store.vaults[from], store.vaults[to], fromRing, toRing)
    ensures var goal, seen, seen' := GoalsFor(store.vaults[from], fromRing, names),
                                     SeenAll(old(store.vaults[to]), toRing, names),
                                         SeenAll(store.vaults[to], toRing, names);
            seen' == More(seen, goal, copied) && copied + AllMissing(seen', goal) == AllMissing(seen, goal)
    ensures refusal.None? <==> FullyCopied(store.vaults[from], store.vaults[to], fromRing, toRing)
    ensures forall kind :: Readable(toRing, kind, store.vaults[to].Records(kind))
    ensures refusal.Some? ==>
              && refusal.value.QuotaExceeded?
              && RefusedNext(store.State(), store.vaults[from], to, fromRing, toRing, ctx, limits, refusal.value)
    ensures Roomy(store.vaults[from], old(store.vaults[to]), fromRing, toRing, names, limits) ==> refusal.None?
  {
    hide Inv, PartlyCopied, RingOk, Copyable, FullyCopied, Vault.Records, Readable, RefusedNext, Catalogue, Roomy,
         Further, LeftOf, SeenAll, GoalsFor, More, AllMissing;
    ghost var source, start := store.vaults[from], store.vaults[to];
    var run: nat := 0;
    copied, refusal := 0, None;
    FurtherStarts(source, start, fromRing, toRing, names);
    while true
      invariant store.Valid() && to in store.vaults && from in store.vaults && store.vaults[from] == source
      invariant PartlyCopied(source, store.vaults[to], fromRing, toRing)
      invariant Further(source, start, store.vaults[to], fromRing, toRing, names, copied)
      decreases LeftOf(source, store.vaults[to], fromRing, toRing, names)
    {
      ghost var before := store.vaults[to];
      var n, stop := CopyFrom(store, from, to, fromRing, toRing, names, ctx, limits, budgets(run));
      FurtherOn(source, start, before, store.vaults[to], fromRing, toRing, names, copied, n, limits);
      PartlyReads(source, store.vaults[to], fromRing, toRing);
      copied := copied + n;
      FurtherMeans(source, start, store.vaults[to], fromRing, toRing, names, copied);
      LeftIs(source, before, fromRing, toRing, names);
      if stop.None? {
        return;
      }
      if stop.value.Refusal? {
        refusal := Some(stop.value.error);
        return;
      }
      run := run + 1;
    }
  }

  ghost function LeftOf(source: Vault, target: Vault, from: Ring, to: Ring, names: seq<Name>): nat {
    AllMissing(SeenAll(target, to, names), GoalsFor(source, from, names))
  }

  lemma LeftIs(source: Vault, target: Vault, from: Ring, to: Ring, names: seq<Name>)
    ensures LeftOf(source, target, from, to, names)
        == AllMissing(SeenAll(target, to, names), GoalsFor(source, from, names))
  {
  }

  /** The target shows `copied` entries more than it did, and weighs as much more. */
  ghost predicate Further(source: Vault, start: Vault, target: Vault, from: Ring, to: Ring, names: seq<Name>,
                        copied: nat) {
    var goal, seen, seen' := GoalsFor(source, from, names), SeenAll(start, to, names), SeenAll(target, to, names);
    && seen' == More(seen, goal, copied) && copied + AllMissing(seen', goal) == AllMissing(seen, goal)
    && WithOwed(source, target, from, to, names) == WithOwed(source, start, from, to, names)
  }

  lemma FurtherStarts(source: Vault, start: Vault, from: Ring, to: Ring, names: seq<Name>)
    ensures Further(source, start, start, from, to, names, 0)
  {
    hide SeenAll, GoalsFor, WithOwed, AllMissing;
    MoreNone(SeenAll(start, to, names), GoalsFor(source, from, names));
  }

  lemma FurtherMeans(source: Vault, start: Vault, target: Vault, from: Ring, to: Ring, names: seq<Name>, copied: nat)
    requires Further(source, start, target, from, to, names, copied)
    ensures var goal, seen, seen' := GoalsFor(source, from, names), SeenAll(start, to, names),
        SeenAll(target, to, names);
            seen' == More(seen, goal, copied) && copied + AllMissing(seen', goal) == AllMissing(seen, goal)
  {
    hide SeenAll, GoalsFor, WithOwed, AllMissing, More;
  }

  lemma FurtherOn(source: Vault, start: Vault, target: Vault, target': Vault, from: Ring, to: Ring, names: seq<Name>,
                  copied: nat,
                  n: nat, limits: Limits)
    requires Further(source, start, target, from, to, names, copied)
        && Further(source, target, target', from, to, names, n)
    ensures Further(source, start, target', from, to, names, copied + n)
    ensures LeftOf(source, target', from, to, names) + n == LeftOf(source, target, from, to, names)
    ensures Roomy(source, start, from, to, names, limits) ==> Roomy(source, target, from, to, names, limits)
  {
    hide SeenAll, GoalsFor, WithOwed, AllMissing, More, Roomy;
    MoreJoin(SeenAll(start, to, names), GoalsFor(source, from, names), copied, n);
    RoomyKept(source, start, target, from, to, names, limits);
  }

  lemma PartlyReads(source: Vault, target: Vault, from: Ring, to: Ring)
    requires PartlyCopied(source, target, from, to)
    ensures forall kind :: Readable(to, kind, target.Records(kind))
  {
    hide Readable, HoldsPrefix, Vault.Records;
  }

  lemma MoreNone(seen: seq<History>, goal: seq<History>)
    requires |seen| == |goal|
    ensures More(seen, goal, 0) == seen
  {
  }
}
