/** The shape of a name's history: with fixed limits and whole-name renaming, the retained versions of a
name are a gapless interval ending at its head, no longer than the limit, with no two tombstones in a row. */
module Regularity {
  import opened Types
  import opened Tables
  import opened Rotations
  import opened Database
  import opened Invariant
  import opened Recovery
  import Restoration

  ghost predicate Gapless(t: Table) {
    forall k, v: nat :: k in t.rows && k.name in t.heads && k.version <= v <= t.heads[k.name].version ==>
      Key(k.name, v) in t.rows
  }

  ghost predicate Spaced(t: Table) {
    forall k, j :: k in t.rows && j in t.rows && j.name == k.name && j.version == k.version + 1 ==>
      !(t.rows[k].tombstone && t.rows[j].tombstone)
  }

  ghost predicate Bounded(t: Table, max: nat) {
    forall n :: |VersionsOf(t, n)| <= Max(1, max)
  }

  ghost predicate Regular(t: Table, max: nat) {
    Gapless(t) && Spaced(t) && Bounded(t, max)
  }

  // ------------------------------------------------------------ writes

  ghost function Listed(s: seq<nat>): (r: set<nat>)
    ensures forall x :: x in r <==> x in s
  {
    set x | x in s
  }

  lemma {:induction false} AscendingSize(s: seq<nat>)
    requires StrictlyAscending(s)
    ensures |Listed(s)| == |s|
  {
    if s == [] {
      assert Listed(s) == {};
    } else {
      var front, last := s[..|s| - 1], s[|s| - 1];
      AscendingSize(front);
      assert s == front + [last];
      assert last !in front;
      assert Listed(s) == Listed(front) + {last};
    }
  }

  /** Pruning before a write leaves at most the limit. */
  lemma WrittenBoundedName(t: Table, generation: nat, name: NameHmac, row: VersionRow, max: nat)
    requires RowsOk(t, generation)
    ensures var t' := Written(t, name, NextVersion(t, name), row, Prunable(t, name, max));
            |VersionsOf(t', name)| <= Max(1, max)
  {
    hide RowsOk, Prunable, StrictlyAscending;
    var next, pruned := NextVersion(t, name), Prunable(t, name, max);
    var t' := Written(t, name, next, row, pruned);
    NextVersionIsFree(t, generation, name);
    PrunableIsOldest(t, name, max);
    AscendingSize(pruned);
    var all, gone := VersionsOf(t, name), Listed(pruned);
    assert gone <= all;
    assert |all - gone| == |all| - |gone|;
    assert VersionsOf(t', name) == all - gone + {next};
  }

  lemma WrittenBounded(t: Table, generation: nat, name: NameHmac, row: VersionRow, max: nat)
    requires RowsOk(t, generation) && Bounded(t, max)
    ensures Bounded(Written(t, name, NextVersion(t, name), row, Prunable(t, name, max)), max)
  {
    hide RowsOk, Prunable, NextVersion;
    var t' := Written(t, name, NextVersion(t, name), row, Prunable(t, name, max));
    forall n
      ensures |VersionsOf(t', n)| <= Max(1, max)
    {
      if n == name {
        WrittenBoundedName(t, generation, name, row, max);
      } else {
        assert VersionsOf(t', n) == VersionsOf(t, n);
      }
    }
  }

  lemma WrittenGapless(t: Table, generation: nat, name: NameHmac, row: VersionRow, max: nat)
    requires TableOk(t, generation) && Gapless(t)
    ensures Gapless(Written(t, name, NextVersion(t, name), row, Prunable(t, name, max)))
  {
    hide Prunable, RowOk;
    var next, pruned := NextVersion(t, name), Prunable(t, name, max);
    var t' := Written(t, name, next, row, pruned);
    NextVersionIsFree(t, generation, name);
    PrunableIsOldest(t, name, max);
    forall k, v: nat | k in t'.rows && k.name in t'.heads && k.version <= v <= t'.heads[k.name].version
      ensures Key(k.name, v) in t'.rows
    {
      if k.name == name && k.version != next && v != next {
        assert k in t.rows && Key(name, v) in t.rows;
      }
    }
  }

  lemma WrittenSpaced(t: Table, generation: nat, name: NameHmac, row: VersionRow, pruned: seq<nat>)
    requires TableOk(t, generation) && Spaced(t)
    requires row.tombstone ==> name in t.heads && !t.heads[name].tombstone
    ensures Spaced(Written(t, name, NextVersion(t, name), row, pruned))
  {
    hide RowOk;
    var next := NextVersion(t, name);
    var t' := Written(t, name, next, row, pruned);
    NextVersionIsFree(t, generation, name);
    forall k, j | k in t'.rows && j in t'.rows && j.name == k.name && j.version == k.version + 1
      ensures !(t'.rows[k].tombstone && t'.rows[j].tombstone)
    {
      if k == Key(name, next) {
        assert j in t.rows;
      } else if j == Key(name, next) {
        assert k in t.rows;
      } else {
        assert k in t.rows && j in t.rows;
      }
    }
  }

  lemma WrittenRegular(t: Table, generation: nat, name: NameHmac, row: VersionRow, max: nat)
    requires TableOk(t, generation) && Regular(t, max)
    requires row.tombstone ==> name in t.heads && !t.heads[name].tombstone
    ensures Regular(Written(t, name, NextVersion(t, name), row, Prunable(t, name, max)), max)
  {
    hide Written, Prunable, Gapless, Spaced, Bounded, RowsOk, HeadsOk;
    WrittenGapless(t, generation, name, row, max);
    WrittenSpaced(t, generation, name, row, Prunable(t, name, max));
    WrittenBounded(t, generation, name, row, max);
  }

  // ------------------------------------------------------------ rotations

  /** Renaming acts on whole names and is injective. */
  ghost predicate WholeName(batch: seq<RotatedVersion>) {
    forall i, j :: 0 <= i < |batch| && 0 <= j < |batch| ==>
      (batch[i].oldName == batch[j].oldName <==> batch[i].name == batch[j].name)
  }

  /** Some entry renames `n` to `n'`. */
  ghost predicate Renames(batch: seq<RotatedVersion>, n: NameHmac, n': NameHmac) {
    exists i :: 0 <= i < |batch| && batch[i].oldName == n && batch[i].name == n'
  }

  /** A renamed name has the same versions, under its new name. */
  lemma SameVersions(batch: seq<RotatedVersion>, t: Table, actor: Actor, generation: nat,
                     n: NameHmac, n': NameHmac, v: nat)
    requires RowsOk(t, generation) && Complete(batch, t.rows) && Apart(batch) && WholeName(batch)
    requires Renames(batch, n, n')
    ensures var t' := Rebuilt(batch, t.rows, actor, generation + 1);
            && (Key(n, v) in t.rows <==> Key(n', v) in t'.rows)
            && (Key(n, v) in t.rows ==> t'.rows[Key(n', v)].tombstone == t.rows[Key(n, v)].tombstone)
  {
    hide Rebuilt, RowsOk, Complete, Apart;
    var i :| 0 <= i < |batch| && batch[i].oldName == n && batch[i].name == n';
    LeavesIffRetained(batch, t, generation, Key(n, v));
    ArrivesIffStored(batch, t.rows, actor, generation + 1, Key(n', v));
    if Key(n, v) in t.rows {
      var k' :| Moves(batch, Key(n, v), k');
      assert k' == Key(n', v);
      MovedRow(batch, t, actor, generation + 1, Key(n, v), k');
    }
    if Arrives(batch, Key(n', v)) {
      var k :| Moves(batch, k, Key(n', v));
      assert k == Key(n, v);
      assert Leaves(batch, k);
    }
  }

  lemma ArrivedFrom(batch: seq<RotatedVersion>, rows: map<Key, VersionRow>, actor: Actor, generation: nat, k': Key)
    requires k' in Rebuilt(batch, rows, actor, generation).rows
    ensures exists n :: Renames(batch, n, k'.name)
  {
    RebuiltKeys(batch, rows, actor, generation, k');
    var i :| 0 <= i < |batch| && NewKey(batch[i]) == k';
    assert Renames(batch, batch[i].oldName, k'.name);
  }

  lemma EntryIsRetained(batch: seq<RotatedVersion>, t: Table, generation: nat, i: nat)
    requires RowsOk(t, generation) && Complete(batch, t.rows) && i < |batch|
    ensures OldKey(batch[i]) in t.rows
  {
    assert Faithful(batch[i], t.rows);
  }

  /** A renamed name keeps its head: the same version, live or deleted. */
  lemma SameHead(batch: seq<RotatedVersion>, t: Table, actor: Actor, generation: nat, n: NameHmac, n': NameHmac)
    requires TableOk(t, generation) && Complete(batch, t.rows) && Apart(batch) && WholeName(batch)
    requires TableOk(Rebuilt(batch, t.rows, actor, generation + 1), generation + 1)
    requires Renames(batch, n, n')
    ensures var t' := Rebuilt(batch, t.rows, actor, generation + 1);
            n in t.heads && n' in t'.heads && t'.heads[n'] == t.heads[n]
  {
    hide Rebuilt, Complete, Apart, WholeName, RowOk, Moves;
    var t' := Rebuilt(batch, t.rows, actor, generation + 1);
    var i :| 0 <= i < |batch| && batch[i].oldName == n && batch[i].name == n';
    EntryIsRetained(batch, t, generation, i);
    SameVersions(batch, t, actor, generation, n, n', batch[i].version);
    SameVersions(batch, t, actor, generation, n, n', t.heads[n].version);
    SameVersions(batch, t, actor, generation, n, n', t'.heads[n'].version);
  }

  ghost predicate GoesInto(batch: seq<RotatedVersion>, n: NameHmac, s': set<NameHmac>) {
    exists n' :: n' in s' && Renames(batch, n, n')
  }

  ghost predicate ComesFrom(batch: seq<RotatedVersion>, n': NameHmac, s: set<NameHmac>) {
    exists n :: n in s && Renames(batch, n, n')
  }

  lemma RestGoes(batch: seq<RotatedVersion>, n: NameHmac, n': NameHmac, m: NameHmac, s': set<NameHmac>)
    requires WholeName(batch) && Renames(batch, n, n') && m != n && GoesInto(batch, m, s')
    ensures GoesInto(batch, m, s' - {n'})
  {
    hide WholeName, Renames;
    var m' :| m' in s' && Renames(batch, m, m');
    RenamesBothWays(batch, n, n', m, m');
    assert m' in s' - {n'};
  }

  lemma RestComes(batch: seq<RotatedVersion>, n: NameHmac, n': NameHmac, m': NameHmac, s: set<NameHmac>)
    requires WholeName(batch) && Renames(batch, n, n') && m' != n' && ComesFrom(batch, m', s)
    ensures ComesFrom(batch, m', s - {n})
  {
    hide WholeName, Renames;
    var m :| m in s && Renames(batch, m, m');
    RenamesBothWays(batch, n, n', m, m');
    assert m in s - {n};
  }

  /** Two sets of names that a whole-name renaming pairs off have the same size. */
  lemma {:induction false} RenamedSize(batch: seq<RotatedVersion>, s: set<NameHmac>, s': set<NameHmac>)
    requires WholeName(batch)
    requires forall n :: n in s ==> GoesInto(batch, n, s')
    requires forall n' :: n' in s' ==> ComesFrom(batch, n', s)
    ensures |s| == |s'|
    decreases |s|
  {
    hide WholeName, Renames, ComesFrom;
    if s == {} {
      assert s' == {} by {
        if n' :| n' in s' {
          NothingComes(batch, n');
        }
      }
    } else {
      var n :| n in s;
      var n' :| n' in s' && Renames(batch, n, n');
      hide GoesInto;
      forall m | m in s - {n}
        ensures GoesInto(batch, m, s' - {n'})
      {
        RestGoes(batch, n, n', m, s');
      }
      forall m' | m' in s' - {n'}
        ensures ComesFrom(batch, m', s - {n})
      {
        RestComes(batch, n, n', m', s);
      }
      RenamedSize(batch, s - {n}, s' - {n'});
    }
  }

  lemma NothingComes(batch: seq<RotatedVersion>, n': NameHmac)
    ensures !ComesFrom(batch, n', {})
  {
  }

  lemma RenamesBothWays(batch: seq<RotatedVersion>, n: NameHmac, n': NameHmac, m: NameHmac, m': NameHmac)
    requires WholeName(batch) && Renames(batch, n, n') && Renames(batch, m, m')
    ensures n == m <==> n' == m'
  {
    var i :| 0 <= i < |batch| && batch[i].oldName == n && batch[i].name == n';
    var j :| 0 <= j < |batch| && batch[j].oldName == m && batch[j].name == m';
  }

  /** Every head carries over to its new name, and as many names are live as before. */
  lemma HeadsCarryOver(batch: seq<RotatedVersion>, t: Table, actor: Actor, generation: nat)
    requires TableOk(t, generation) && Complete(batch, t.rows) && Separated(batch) && WholeName(batch)
    ensures var t' := Rebuilt(batch, t.rows, actor, generation + 1);
            && (forall n, n' :: Renames(batch, n, n') ==>
                  n in t.heads && n' in t'.heads && t'.heads[n'] == t.heads[n])
            && |LiveNames(t')| == |LiveNames(t)|
  {
    hide Rebuilt, Complete, Separated, Apart, WholeName, RowsOk, Renames;
    var t' := Rebuilt(batch, t.rows, actor, generation + 1);
    CompleteMeans(batch, t, generation);
    SeparatedMeansApart(batch);
    RebuiltOk(batch, t.rows, actor, generation + 1);
    forall n, n' | Renames(batch, n, n')
      ensures n in t.heads && n' in t'.heads && t'.heads[n'] == t.heads[n]
    {
      SameHead(batch, t, actor, generation, n, n');
    }
    forall n | n in LiveNames(t)
      ensures GoesInto(batch, n, LiveNames(t'))
    {
      EveryNameLeaves(batch, t, generation, n);
      var n' :| Renames(batch, n, n');
    }
    forall n' | n' in LiveNames(t')
      ensures ComesFrom(batch, n', LiveNames(t))
    {
      ArrivedFrom(batch, t.rows, actor, generation + 1, Key(n', t'.heads[n'].version));
      var n :| Renames(batch, n, n');
    }
    RenamedSize(batch, LiveNames(t), LiveNames(t'));
  }

  lemma EveryNameLeaves(batch: seq<RotatedVersion>, t: Table, generation: nat, n: NameHmac)
    requires TableOk(t, generation) && Complete(batch, t.rows) && n in t.heads
    ensures exists n' :: Renames(batch, n, n')
  {
    hide Complete;
    CompleteMeans(batch, t, generation);
    var k := Key(n, t.heads[n].version);
    assert k in t.rows;
    var i :| 0 <= i < |batch| && OldKey(batch[i]) == k;
    assert Renames(batch, n, batch[i].name);
  }

  lemma RotatedGapless(batch: seq<RotatedVersion>, t: Table, actor: Actor, generation: nat)
    requires TableOk(t, generation) && Complete(batch, t.rows) && Apart(batch) && WholeName(batch)
    requires TableOk(Rebuilt(batch, t.rows, actor, generation + 1), generation + 1)
    requires Gapless(t)
    ensures Gapless(Rebuilt(batch, t.rows, actor, generation + 1))
  {
    hide Rebuilt, Complete, Apart, WholeName, TableOk, Renames;
    var t' := Rebuilt(batch, t.rows, actor, generation + 1);
    forall k, v: nat | k in t'.rows && k.name in t'.heads && k.version <= v <= t'.heads[k.name].version
      ensures Key(k.name, v) in t'.rows
    {
      ArrivedFrom(batch, t.rows, actor, generation + 1, k);
      var n :| Renames(batch, n, k.name);
      assert RowsOk(t, generation) by { assert TableOk(t, generation); TableRowsOk(t, generation); }
      SameHead(batch, t, actor, generation, n, k.name);
      SameVersions(batch, t, actor, generation, n, k.name, k.version);
      SameVersions(batch, t, actor, generation, n, k.name, v);
    }
  }

  lemma TableRowsOk(t: Table, generation: nat)
    requires TableOk(t, generation)
    ensures RowsOk(t, generation)
  {
  }

  lemma RotatedSpaced(batch: seq<RotatedVersion>, t: Table, actor: Actor, generation: nat)
    requires RowsOk(t, generation) && Complete(batch, t.rows) && Apart(batch) && WholeName(batch)
    requires Spaced(t)
    ensures Spaced(Rebuilt(batch, t.rows, actor, generation + 1))
  {
    hide Rebuilt, Complete, Apart, WholeName, RowsOk, Renames;
    var t' := Rebuilt(batch, t.rows, actor, generation + 1);
    forall k, j | k in t'.rows && j in t'.rows && j.name == k.name && j.version == k.version + 1
      ensures !(t'.rows[k].tombstone && t'.rows[j].tombstone)
    {
      ArrivedFrom(batch, t.rows, actor, generation + 1, k);
      var n :| Renames(batch, n, k.name);
      SameVersions(batch, t, actor, generation, n, k.name, k.version);
      SameVersions(batch, t, actor, generation, n, k.name, j.version);
      assert Key(n, k.version) in t.rows && Key(n, j.version) in t.rows;
    }
  }

  lemma RotatedBounded(batch: seq<RotatedVersion>, t: Table, actor: Actor, generation: nat, max: nat)
    requires RowsOk(t, generation) && Complete(batch, t.rows) && Apart(batch) && WholeName(batch)
    requires Bounded(t, max)
    ensures Bounded(Rebuilt(batch, t.rows, actor, generation + 1), max)
  {
    hide Rebuilt, Complete, Apart, WholeName, RowsOk, Renames;
    var t' := Rebuilt(batch, t.rows, actor, generation + 1);
    forall n'
      ensures |VersionsOf(t', n')| <= Max(1, max)
    {
      if n :| Renames(batch, n, n') {
        forall v: nat
          ensures v in VersionsOf(t', n') <==> v in VersionsOf(t, n)
        {
          SameVersions(batch, t, actor, generation, n, n', v);
        }
        assert VersionsOf(t', n') == VersionsOf(t, n);
      } else {
        forall v: nat
          ensures v !in VersionsOf(t', n')
        {
          if Key(n', v) in t'.rows {
            ArrivedFrom(batch, t.rows, actor, generation + 1, Key(n', v));
          }
        }
        assert VersionsOf(t', n') == {};
      }
    }
  }

  /** An accepted whole-name rotation keeps a table regular. */
  lemma RotatedRegular(batch: seq<RotatedVersion>, t: Table, actor: Actor, generation: nat, max: nat)
    requires TableOk(t, generation) && Complete(batch, t.rows) && Separated(batch) && WholeName(batch)
    requires Regular(t, max)
    ensures Regular(Rebuilt(batch, t.rows, actor, generation + 1), max)
  {
    hide Rebuilt, Complete, Separated, Apart, WholeName, RowsOk, HeadsOk, Gapless, Spaced, Bounded;
    CompleteMeans(batch, t, generation);
    SeparatedMeansApart(batch);
    RebuiltOk(batch, t.rows, actor, generation + 1);
    RotatedGapless(batch, t, actor, generation);
    RotatedSpaced(batch, t, actor, generation);
    RotatedBounded(batch, t, actor, generation, max);
  }

  /** Regularity depends on keys, heads and tombstones only, so a batch that leaves one table regular
  leaves every table it is replayed onto regular. */
  lemma ReplayedRegular(batch: seq<RotatedVersion>, rows: map<Key, VersionRow>, rows': map<Key, VersionRow>,
                        actor: Actor, actor': Actor, generation: nat, max: nat)
    requires Regular(Rebuilt(batch, rows, actor, generation), max)
    ensures Regular(Rebuilt(batch, rows', actor', generation), max)
  {
    hide Rebuilt;
    RebuiltIndependent(batch, rows, rows', actor, actor', generation);
    var t, u := Rebuilt(batch, rows, actor, generation), Rebuilt(batch, rows', actor', generation);
    forall n
      ensures VersionsOf(t, n) == VersionsOf(u, n)
    {
    }
    assert forall k :: k in u.rows ==> WriterErased(t.rows[k]).tombstone == u.rows[k].tombstone;
  }

  // ------------------------------------------------------------ runs

  /** Regular, and with no more names live than may be. */
  ghost predicate TableRegular(t: Table, kind: RecordKind, limits: Limits) {
    Regular(t, limits.Versions(kind)) && |LiveNames(t)| <= limits.MaxLive(kind)
  }

  ghost predicate VaultRegular(v: Vault, limits: Limits) {
    TableRegular(v.secrets, Secret, limits) && TableRegular(v.configs, Config, limits)
  }

  ghost predicate AllRegular(db: Db, limits: Limits) {
    forall pk :: pk in db.vaults ==> VaultRegular(db.vaults[pk], limits)
  }

  /** Every record write is held to `limits`, and every rotation renames whole names. */
  ghost predicate Disciplined(op: Op, limits: Limits) {
    match op
    case Put(_, _, _, _, _, _, l) => l == limits
    case Delete(_, _, _, _, _, _, l) => l == limits
    case Rotate(_, r, _, _) => WholeName(r.secrets) && WholeName(r.configs)
    case _ => true
  }

  lemma WithVaultRegular(db: Db, pk: nat, v: Vault, limits: Limits)
    requires AllRegular(db, limits) && VaultRegular(v, limits)
    ensures AllRegular(WithVault(db, pk, v), limits)
  {
    hide VaultRegular;
  }

  lemma AppendedRegular(db: Db, pk: nat, v: Vault, e: AuditEvent, now: int, limits: Limits)
    requires AllRegular(db, limits) && VaultRegular(v, limits)
    ensures AppendAudit(v, e, now).Ok? ==>
              AllRegular(WithVault(db, pk, AppendAudit(v, e, now).value), limits)
  {
    hide Regular, AllRegular, WithVault;
    if AppendAudit(v, e, now).Ok? {
      WithVaultRegular(db, pk, AppendAudit(v, e, now).value, limits);
    }
  }

  lemma RefuseRegular<T>(db: Db, pk: nat, e: AuditEvent, now: int, error: StoreError, limits: Limits)
    requires AllRegular(db, limits) && pk in db.vaults
    ensures var r: Result<Done<T>, StoreError> := Refuse(db, pk, db.vaults[pk], e, now, error);
            r.Ok? ==> AllRegular(r.value.tx, limits)
  {
    hide VaultRegular, AppendAudit, WithVault;
    AppendedRegular(db, pk, db.vaults[pk], e, now, limits);
  }

  lemma StoredRegular(v: Vault, kind: RecordKind, name: NameHmac, row: VersionRow, total: nat, limits: Limits)
    requires VaultOk(v) && VaultRegular(v, limits)
    requires row.tombstone ==> var h := v.HeadOf(kind, name); h.Some? && !h.value.tombstone
    requires name in LiveNames(v.Records(kind)) || |LiveNames(v.Records(kind))| < limits.MaxLive(kind)
    ensures var s := Stored(v, kind, name, NextVersion(v.Records(kind), name), row, limits.Versions(kind), total);
            s.Ok? ==> VaultRegular(s.value, limits)
  {
    hide Regular, Written, Prunable, RowsOk, HeadsOk, Chain, NextVersion, TotalBytes, LiveNames;
    var t := v.Records(kind);
    WrittenRegular(t, v.generation, name, row, limits.Versions(kind));
    WrittenLive(t, name, NextVersion(t, name), row, Prunable(t, name, limits.Versions(kind)));
  }

  /** A write makes its name live, or a deletion no longer so, and leaves the others. */
  lemma WrittenLive(t: Table, name: NameHmac, version: nat, row: VersionRow, pruned: seq<nat>)
    ensures var live := LiveNames(Written(t, name, version, row, pruned));
            && live == (if row.tombstone then LiveNames(t) - {name} else LiveNames(t) + {name})
            && |live| <= (if name in LiveNames(t) then |LiveNames(t)| else |LiveNames(t)| + 1)
  {
    var live, before := LiveNames(Written(t, name, version, row, pruned)), LiveNames(t);
    assert live == if row.tombstone then before - {name} else before + {name};
    if name in before {
      assert before + {name} == before;
    }
  }

  lemma LiveIsHead(v: Vault, kind: RecordKind, name: NameHmac)
    ensures name in LiveNames(v.Records(kind)) <==> var h := v.HeadOf(kind, name); h.Some? && !h.value.tombstone
  {
  }

  lemma PutRegular(db: Db, pk: nat, kind: RecordKind, name: NameHmac, pre: Precondition, w: RecordWrite,
                   ctx: Ctx, limits: Limits)
    requires Inv(db) && AllRegular(db, limits)
    ensures AllRegular(PutRecord(db, pk, kind, name, pre, w, ctx, limits).db, limits)
  {
    hide Inv, VaultOk, VaultRegular, AppendAudit, Stored, Assigned, LiveNames, FreedBy, Vault.Records, Vault.HeadOf,
         Refuse, WithVault, NextVersion;
    if pk in db.vaults && w.valueCt.Some? {
      var v := db.vaults[pk];
      VaultIsOk(db, pk);
      AssignedIsNext(pre, v, kind, name);
      forall error: StoreError {
        RefuseRegular<nat>(db, pk, Event(ctx.actor, PutAction(kind), Some(name), None, Refused), ctx.now, error,
            limits);
      }
      var row := WrittenRow(w, ctx.actor);
      var next := NextVersion(v.Records(kind), name);
      var total := v.bytesUsed + RowBytes(row) - FreedBy(v.Records(kind), name, limits.Versions(kind));
      LiveIsHead(v, kind, name);
      if total >= 0 && (name in LiveNames(v.Records(kind)) || |LiveNames(v.Records(kind))| < limits.MaxLive(kind)) {
        StoredRegular(v, kind, name, row, total, limits);
        var s := Stored(v, kind, name, next, row, limits.Versions(kind), total);
        if s.Ok? {
          AppendedRegular(db, pk, s.value,
            WriteEvent(ctx.actor, PutAction(kind), Some(name), next, Some(ValueHash(w.valueCt))), ctx.now, limits);
        }
      }
    }
  }

  lemma DeleteRegular(db: Db, pk: nat, kind: RecordKind, name: NameHmac, ifMatch: nat, w: RecordWrite,
                      ctx: Ctx, limits: Limits)
    requires Inv(db) && AllRegular(db, limits)
    ensures AllRegular(DeleteRecord(db, pk, kind, name, ifMatch, w, ctx, limits).db, limits)
  {
    hide Inv, VaultOk, VaultRegular, AppendAudit, Stored, FreedBy, Vault.Records, Refuse, WithVault;
    if pk in db.vaults {
      var v := db.vaults[pk];
      VaultIsOk(db, pk);
      forall error: StoreError {
        RefuseRegular<nat>(db, pk, Event(ctx.actor, DeleteAction(kind), Some(name), None, Refused), ctx.now, error,
            limits);
      }
      var head := v.HeadOf(kind, name);
      if head.Some? && !head.value.tombstone {
        var next: nat := head.value.version + 1;
        var spent, freed := v.bytesUsed + |w.nameCt|, FreedBy(v.Records(kind), name, limits.Versions(kind));
        var total := if spent < freed then 0 else spent - freed;
        LiveIsHead(v, kind, name);
        StoredRegular(v, kind, name, WrittenRow(w, ctx.actor), total, limits);
        var s := Stored(v, kind, name, next, WrittenRow(w, ctx.actor), limits.Versions(kind), total);
        if s.Ok? {
          AppendedRegular(db, pk, s.value,
            WriteEvent(ctx.actor, DeleteAction(kind), Some(name), next, None), ctx.now, limits);
        }
      }
    }
  }

  ghost predicate SameTables(v: Vault, u: Vault) {
    v.secrets == u.secrets && v.configs == u.configs
  }

  lemma {:induction false} AppendAllTables(v: Vault, events: seq<AuditEvent>, now: int)
    ensures AppendAll(v, events, now).Ok? ==> SameTables(AppendAll(v, events, now).value, v)
  {
    if events != [] {
      AppendAllTables(v, events[..|events| - 1], now);
    }
  }

  lemma RotateRegular(db: Db, pk: nat, r: RotationRequest, ctx: Ctx, hook: bool, limits: Limits)
    requires Inv(db) && AllRegular(db, limits)
    requires WholeName(r.secrets) && WholeName(r.configs)
    ensures AllRegular(ApplyRotation(db, pk, r, ctx, hook).db, limits)
  {
    hide Inv, WithVault, Regular, AppendAll, Complete, Separated, WholeName, Rebuilt, BatchBytes, Removed, Resealed,
         TokensOf, ResealedIds, RotationEvents, TableOk, Chain, TotalBytes, LiveNames, Renames;
    if pk in db.vaults && StrictlyAccepted(db, pk, db.vaults[pk], r) && Separated(r.secrets) && Separated(r.configs) {
      var v := db.vaults[pk];
      VaultIsOk(db, pk);
      RotatedRegular(r.secrets, v.secrets, ctx.actor, v.generation, limits.maxVersions);
      RotatedRegular(r.configs, v.configs, ctx.actor, v.generation, limits.maxConfigVersions);
      HeadsCarryOver(r.secrets, v.secrets, ctx.actor, v.generation);
      HeadsCarryOver(r.configs, v.configs, ctx.actor, v.generation);
      var v1, es := RotatedVault(v, r, ctx.actor), RotationEvents(r, Removed(db.tokens, pk, r.revoke), ctx.actor);
      AppendAllTables(v1, es, ctx.now);
      if AppendAll(v1, es, ctx.now).Ok? {
        WithVaultRegular(db, pk, AppendAll(v1, es, ctx.now).value, limits);
      }
    }
  }

  lemma RevokeRegular(db: Db, pk: nat, ids: seq<TokenId>, reported: bool, ctx: Ctx, hook: bool, limits: Limits)
    requires AllRegular(db, limits)
    ensures AllRegular(RevokeTokens(db, pk, ids, reported, ctx, hook).db, limits)
  {
    hide WithVault, Regular, AppendAll, Removed, RevokeEvents;
    if pk in db.vaults {
      var v := db.vaults[pk];
      var v1, es := v.(revision := v.revision + 1), RevokeEvents(Removed(db.tokens, pk, ids), ctx.actor, reported);
      AppendAllTables(v1, es, ctx.now);
      if AppendAll(v1, es, ctx.now).Ok? {
        WithVaultRegular(db, pk, AppendAll(v1, es, ctx.now).value, limits);
      }
    }
  }

  lemma CreateRegular(db: Db, v: NewVault, now: int, limits: Limits)
    requires AllRegular(db, limits)
    ensures AllRegular(CreateVault(db, v, now).db, limits)
  {
    hide AllRegular, Regular, NextPk, AppendAudit, WithVault, IdTaken;
    EmptyIsRegular(limits.maxVersions);
    EmptyIsRegular(limits.maxConfigVersions);
    assert LiveNames(EmptyTable) == {};
    AppendedRegular(db, NextPk(db), NewlyMade(v, now),
      WriteEvent(Owner, VaultCreate, None, 0, Some(Sha256(v.descriptor.descriptor))), now, limits);
  }

  lemma MintRegular(db: Db, pk: nat, t: NewToken, ctx: Ctx, l: Limits, limits: Limits)
    requires AllRegular(db, limits)
    ensures AllRegular(RegisterToken(db, pk, t, ctx, l).db, limits)
  {
    hide Regular, ActiveTokens, AppendAudit, Refuse;
    if pk in db.vaults {
      forall error: StoreError {
        RefuseRegular<TokenRow>(db, pk, Event(ctx.actor, TokenMint, None, Some(t.id), Refused), ctx.now, error, limits);
      }
      var v := db.vaults[pk];
      AppendedRegular(db, pk, v.(revision := v.revision + 1),
        Event(ctx.actor, TokenMint, None, Some(t.id), Success), ctx.now, limits);
    }
  }

  lemma ChildrenRegular(db: Db, pk: nat, pre: Precondition, blob: ChildrenBlob, ctx: Ctx, l: Limits, limits: Limits)
    requires AllRegular(db, limits)
    ensures AllRegular(PutChildren(db, pk, pre, blob, ctx, l).db, limits)
  {
    hide Regular, AssignedChildren, AppendAudit, Refuse, WithVault;
    if pk in db.vaults {
      forall error: StoreError {
        RefuseRegular<nat>(db, pk, Event(ctx.actor, ChildrenWrite, None, None, Refused), ctx.now, error, limits);
      }
      AppendedRegular(db, pk, db.vaults[pk].(children := Some(blob)),
        WriteEvent(ctx.actor, ChildrenWrite, None, blob.version, Some(Sha256(blob.ct))), ctx.now, limits);
    }
  }

  /** Calls that write no record leave every table as it is. */
  lemma OtherRegular(db: Db, op: Op, limits: Limits)
    requires AllRegular(db, limits)
    requires op.Create? || op.KeepAlive? || op.Mint? || op.WriteChildren? || op.Note? || op.Drop? || op.UseOnce?
    ensures AllRegular(Step(db, op).db, limits)
  {
    hide Regular, CreateVault, RegisterToken, PutChildren, AppendAudit;
    match op
    case Create(v, now) => CreateRegular(db, v, now, limits);
    case Mint(pk, t, ctx, l) => MintRegular(db, pk, t, ctx, l, limits);
    case WriteChildren(pk, pre, blob, ctx, l) => ChildrenRegular(db, pk, pre, blob, ctx, l, limits);
    case Note(pk, e, now) =>
      if pk in db.vaults {
        AppendedRegular(db, pk, db.vaults[pk], e, now, limits);
      }
    case _ =>
  }

  lemma EmptyIsRegular(max: nat)
    ensures Regular(EmptyTable, max)
  {
    assert forall n :: VersionsOf(EmptyTable, n) == {};
  }

  lemma StepRegular(db: Db, op: Op, limits: Limits)
    requires Inv(db) && AllRegular(db, limits) && Disciplined(op, limits)
    ensures AllRegular(Step(db, op).db, limits)
  {
    hide Inv, AllRegular, RevokeTokens, PutRecord, DeleteRecord, ApplyRotation, WholeName, CreateVault, Touch,
         RegisterToken, PutChildren, Record, DeleteVault, Spend;
    match op
    case Revoke(pk, ids, reported, ctx, hook) => RevokeRegular(db, pk, ids, reported, ctx, hook, limits);
    case Put(pk, kind, name, pre, w, ctx, _) => PutRegular(db, pk, kind, name, pre, w, ctx, limits);
    case Delete(pk, kind, name, x, w, ctx, _) => DeleteRegular(db, pk, kind, name, x, w, ctx, limits);
    case Rotate(pk, r, ctx, hook) => RotateRegular(db, pk, r, ctx, hook, limits);
    case _ => OtherRegular(db, op, limits);
  }

  /** In every run with fixed limits and whole-name renaming, every name's retained versions are a
  gapless interval of at most `max(1, max_versions)`, with no two adjacent tombstones, and of each kind no
  more names are live than the quota allows. */
  lemma {:induction false} EveryRunIsRegular(ops: seq<Op>, limits: Limits)
    requires forall i :: 0 <= i < |ops| ==> Disciplined(ops[i], limits)
    ensures AllRegular(Run(EmptyDb, ops), limits)
  {
    hide AllRegular, Step, Disciplined;
    if ops == [] {
      assert AllRegular(EmptyDb, limits) by { EmptyDbRegular(limits); }
    } else {
      var front := ops[..|ops| - 1];
      EveryRunIsRegular(front, limits);
      EveryRunIsSound(front);
      StepRegular(Run(EmptyDb, front), ops[|ops| - 1], limits);
    }
  }

  lemma EmptyDbRegular(limits: Limits)
    ensures AllRegular(EmptyDb, limits)
  {
  }

  // ------------------------------------------------------------ an accepted live rotation

  /** Entry `i` is the last for its token. */
  ghost predicate LastFor(list: seq<ResealedBundle>, i: nat) {
    i < |list| && forall j :: i < j < |list| ==> list[j].tokenId != list[i].tokenId
  }

  /** A token of the vault that is listed gets the bundle of its last entry. */
  lemma {:induction false} ResealedTo(tokens: map<TokenId, TokenRow>, pk: nat, generation: nat,
                                      list: seq<ResealedBundle>, i: nat)
    requires LastFor(list, i) && list[i].tokenId in tokens && tokens[list[i].tokenId].vaultPk == pk
    ensures var t := list[i].tokenId;
            var after := Resealed(tokens, pk, generation, list);
            t in after && after[t] == tokens[t].(bundle := list[i].bundle, generation := generation)
    decreases |list|
  {
    var front, last := list[..|list| - 1], list[|list| - 1];
    if i < |front| {
      assert front[i] == list[i];
      assert LastFor(front, i);
      ResealedTo(tokens, pk, generation, front, i);
    } else {
      ResealedAt(tokens, pk, generation, front, last.tokenId);
    }
  }

  /** As many ids as entries means that every entry is the last for its token. */
  lemma {:induction false} AllAreLast(list: seq<ResealedBundle>)
    ensures |ResealedIds(list)| <= |list|
    ensures |ResealedIds(list)| == |list| ==>
              forall i, j :: 0 <= i < j < |list| ==> list[i].tokenId != list[j].tokenId
    decreases |list|
  {
    if list == [] {
      assert ResealedIds(list) == {};
    } else {
      var front, last := list[..|list| - 1], list[|list| - 1];
      AllAreLast(front);
      assert list == front + [last];
      assert ResealedIds(list) == ResealedIds(front) + {last.tokenId};
      if exists i :: 0 <= i < |front| && front[i].tokenId == last.tokenId {
        assert last.tokenId in ResealedIds(front);
        assert ResealedIds(list) == ResealedIds(front);
      }
    }
  }

  /** The tokens a rotation leaves, in terms of what it asked for: those it does not revoke, each with the
  bundle resealed for it and the new generation, and otherwise as it was. */
  ghost predicate TokensRotated(tokens: map<TokenId, TokenRow>, tokens': map<TokenId, TokenRow>, pk: nat,
                                r: RotationRequest)
  {
    && (forall t :: t in tokens' <==> t in tokens && !(tokens[t].vaultPk == pk && t in r.revoke))
    && (forall t :: t in tokens' && tokens[t].vaultPk != pk ==> tokens'[t] == tokens[t])
    && (forall t :: t in tokens' && tokens[t].vaultPk == pk ==>
          tokens'[t] == tokens[t].(bundle := tokens'[t].bundle, generation := r.fromGeneration + 1))
    && (forall i: nat :: LastFor(r.tokens, i) && r.tokens[i].tokenId in tokens'
                         && tokens[r.tokens[i].tokenId].vaultPk == pk ==>
          tokens'[r.tokens[i].tokenId].bundle == r.tokens[i].bundle)
  }

  lemma RotatedTokens(db: Db, pk: nat, r: RotationRequest, ctx: Ctx)
    requires Inv(db) && Applicable(db, pk, r)
    requires Rotated(db, pk, db.vaults[pk], r, ctx).Ok?
    ensures TokensRotated(db.tokens, Rotated(db, pk, db.vaults[pk], r, ctx).value.tokens, pk, r)
  {
    hide Inv, AppendAll, Resealed, RotatedVault, RotationEvents, Separated, Positive;
    var left := Without(db.tokens, Removed(db.tokens, pk, r.revoke));
    forall t {
      ResealedAt(left, pk, r.fromGeneration + 1, r.tokens, t);
    }
    forall i: nat | LastFor(r.tokens, i) && r.tokens[i].tokenId in left && left[r.tokens[i].tokenId].vaultPk == pk
      ensures Resealed(left, pk, r.fromGeneration + 1, r.tokens)[r.tokens[i].tokenId].bundle == r.tokens[i].bundle
    {
      ResealedTo(left, pk, r.fromGeneration + 1, r.tokens, i);
    }
  }

  /** Replay reseals alike: of the vault's tokens every one that is left has the bundle of its last entry. */
  lemma ReplayedTokens(db: Db, record: JournalRecord, pk: nat)
    requires Inv(db) && Admissible(db, record) && record.op.Rotation? && Named(db, pk, record.op.vaultId)
    ensures TokensRotated(db.tokens, Replay(db, record).db.tokens, pk, record.op.request)
  {
    hide Inv, Replay, Admissible, Applicable, Rotated, TokensRotated;
    Restoration.ReplayedRotation(db, record, pk);
    RotatedTokens(db, pk, record.op.request, Ctx(record.op.actor, record.ts));
  }

  lemma RotatedContents(db: Db, pk: nat, r: RotationRequest, ctx: Ctx)
    requires pk in db.vaults
    ensures var o := Rotated(db, pk, db.vaults[pk], r, ctx);
            o.Ok? ==>
              && pk in o.value.vaults
              && o.value.vaults[pk].generation == r.fromGeneration + 1
              && SameTables(o.value.vaults[pk], RotatedVault(db.vaults[pk], r, ctx.actor))
  {
    hide AppendAll, Resealed, Rebuilt, BatchBytes, RotationEvents, Separated, Removed, Without;
    var v1 := RotatedVault(db.vaults[pk], r, ctx.actor);
    var es := RotationEvents(r, Removed(db.tokens, pk, r.revoke), ctx.actor);
    AppendAllTables(v1, es, ctx.now);
    AppendAllSameKeys(v1, es, ctx.now);
  }

  ghost predicate MovedWhole(batch: seq<RotatedVersion>, t: Table, t': Table) {
    Onto(batch, t, t') && PairedOff(batch) && Keeps(batch, t, t')
  }

  /** An accepted rotation raises the generation by one, maps every retained secret and config version
  one-to-one onto the new rows, and leaves the vault exactly its unrevoked tokens, each with the bundle the
  request reseals for it and the new generation, and otherwise as it was; other vaults' tokens are
  untouched. */
  lemma AcceptedRotation(db: Db, pk: nat, r: RotationRequest, ctx: Ctx, hook: bool)
    requires Inv(db) && ApplyRotation(db, pk, r, ctx, hook).answer.Ok?
    ensures var o := ApplyRotation(db, pk, r, ctx, hook);
            && pk in db.vaults && pk in o.db.vaults
            && var v, v' := db.vaults[pk], o.db.vaults[pk];
               && v'.generation == v.generation + 1 == o.answer.value
               && MovedWhole(r.secrets, v.secrets, v'.secrets)
               && MovedWhole(r.configs, v.configs, v'.configs)
    ensures var o := ApplyRotation(db, pk, r, ctx, hook);
            TokensResealed(db.tokens, o.db.tokens, pk, r, o.db.vaults[pk].generation)
  {
    hide Inv, Rotated, Applicable, Onto, PairedOff, Keeps, RotatedVault, Complete, TokensRotated,
         TokensResealed, TokensOf, ResealedIds;
    LoadVaultOk(db, pk);
    RotatedMeansSeparated(db, pk, r, ctx);
    StrictIsApplicable(db, pk, r);
    RotatedTokens(db, pk, r, ctx);
    RotatedContents(db, pk, r, ctx);
    TablesMove(db, pk, r, ctx.actor);
    AcceptedTokens(db, ApplyRotation(db, pk, r, ctx, hook).db.tokens, pk, r);
  }

  /** The vault's tokens are the old ones less the revoked, and for each of them the request has one entry,
  whose bundle it now carries. */
  ghost predicate TokensResealed(tokens: map<TokenId, TokenRow>, tokens': map<TokenId, TokenRow>, pk: nat,
                                 r: RotationRequest, generation: nat)
  {
    && (forall t :: t in tokens' <==> t in tokens && !(tokens[t].vaultPk == pk && t in r.revoke))
    && (forall t :: t in tokens' && tokens[t].vaultPk != pk ==> tokens'[t] == tokens[t])
    && (forall i :: 0 <= i < |r.tokens| ==>
          var e := r.tokens[i];
          && e.tokenId in tokens' && tokens[e.tokenId].vaultPk == pk
          && tokens'[e.tokenId] == tokens[e.tokenId].(bundle := e.bundle, generation := generation))
    && (forall t :: t in tokens' && tokens[t].vaultPk == pk ==> HasEntry(r.tokens, t))
  }

  ghost predicate HasEntry(list: seq<ResealedBundle>, t: TokenId) {
    exists i :: 0 <= i < |list| && list[i].tokenId == t
  }

  lemma AcceptedTokens(db: Db, tokens': map<TokenId, TokenRow>, pk: nat, r: RotationRequest)
    requires |ResealedIds(r.tokens)| == |r.tokens|
    requires ResealedIds(r.tokens) == TokensOf(db, pk) - (set t | t in r.revoke)
    requires TokensRotated(db.tokens, tokens', pk, r)
    ensures TokensResealed(db.tokens, tokens', pk, r, r.fromGeneration + 1)
  {
    AllAreLast(r.tokens);
    forall i: nat | i < |r.tokens|
      ensures r.tokens[i].tokenId in ResealedIds(r.tokens) && LastFor(r.tokens, i)
    {
      assert r.tokens[i] in r.tokens;
    }
    forall t | t in tokens' && db.tokens[t].vaultPk == pk
      ensures HasEntry(r.tokens, t)
    {
      assert t in ResealedIds(r.tokens);
      var e :| e in r.tokens && e.tokenId == t;
      var i :| 0 <= i < |r.tokens| && r.tokens[i] == e;
    }
  }

  lemma TablesMove(db: Db, pk: nat, r: RotationRequest, actor: Actor)
    requires Inv(db) && pk in db.vaults && StrictlyAccepted(db, pk, db.vaults[pk], r)
    requires Separated(r.secrets) && Separated(r.configs)
    ensures var v, v' := db.vaults[pk], RotatedVault(db.vaults[pk], r, actor);
            MovedWhole(r.secrets, v.secrets, v'.secrets) && MovedWhole(r.configs, v.configs, v'.configs)
  {
    hide Inv, Onto, PairedOff, Keeps, Rebuilt, Complete, Separated, BatchBytes, TotalBytes, RowsOk, HeadsOk, Chain;
    VaultIsOk(db, pk);
    var v := db.vaults[pk];
    RotationIsOneToOne(r.secrets, v.secrets, actor, v.generation);
    RotationIsOneToOne(r.configs, v.configs, actor, v.generation);
  }

  lemma {:induction false} AppendAllBytes(v: Vault, events: seq<AuditEvent>, now: int)
    ensures AppendAll(v, events, now).Ok? ==> AppendAll(v, events, now).value.bytesUsed == v.bytesUsed
  {
    if events != [] {
      AppendAllBytes(v, events[..|events| - 1], now);
    }
  }

  lemma RotatedBytes(db: Db, pk: nat, r: RotationRequest, ctx: Ctx)
    requires pk in db.vaults
    ensures var o := Rotated(db, pk, db.vaults[pk], r, ctx);
            o.Ok? ==>
              && pk in o.value.vaults
              && o.value.vaults[pk].bytesUsed == BatchBytes(r.secrets) + BatchBytes(r.configs)
  {
    hide AppendAll, Resealed, Rebuilt, BatchBytes, RotationEvents, Separated, Removed, Without;
    AppendAllBytes(RotatedVault(db.vaults[pk], r, ctx.actor),
        RotationEvents(r, Removed(db.tokens, pk, r.revoke), ctx.actor),
                   ctx.now);
  }

  /** Two vaults alike in generation, bytes, heads and rows, but for who is recorded as a row's writer. */
  ghost predicate AlikeButWriters(v: Vault, u: Vault) {
    && SameButWriters(v.secrets, u.secrets) && SameButWriters(v.configs, u.configs)
    && v.bytesUsed == u.bytesUsed && v.generation == u.generation
  }

  lemma RotatedAlike(a: Db, p: nat, b: Db, q: nat, r: RotationRequest, ctx: Ctx)
    requires p in a.vaults && q in b.vaults
    requires Rotated(a, p, a.vaults[p], r, ctx).Ok? && Rotated(b, q, b.vaults[q], r, ctx).Ok?
    ensures var a', b' := Rotated(a, p, a.vaults[p], r, ctx).value, Rotated(b, q, b.vaults[q], r, ctx).value;
            p in a'.vaults && q in b'.vaults && AlikeButWriters(a'.vaults[p], b'.vaults[q])
  {
    hide Rotated, Rebuilt, SameButWriters, BatchBytes;
    RotatedContents(a, p, r, ctx);
    RotatedContents(b, q, r, ctx);
    RotatedBytes(a, p, r, ctx);
    RotatedBytes(b, q, r, ctx);
    var v, u := a.vaults[p], b.vaults[q];
    RebuiltIndependent(r.secrets, v.secrets.rows, u.secrets.rows, ctx.actor, ctx.actor, r.fromGeneration + 1);
    RebuiltIndependent(r.configs, v.configs.rows, u.configs.rows, ctx.actor, ctx.actor, r.fromGeneration + 1);
  }

  /** A rotation replayed onto any two sound databases that admit it leaves the vault it names with the
  same rows, heads, bytes and generation in both, whatever either held; only who is recorded as a row's
  writer can differ. */
  lemma ReplayedRotationIsIndependent(a: Db, b: Db, record: JournalRecord, p: nat, q: nat)
    requires Inv(a) && Inv(b) && Admissible(a, record) && Admissible(b, record) && record.op.Rotation?
    requires Named(a, p, record.op.vaultId) && Named(b, q, record.op.vaultId)
    ensures var a', b' := Replay(a, record).db, Replay(b, record).db;
            && p in a'.vaults && q in b'.vaults && AlikeButWriters(a'.vaults[p], b'.vaults[q])
            && a'.vaults[p].generation == record.op.request.fromGeneration + 1
  {
    hide Inv, Replay, Admissible, Applicable, Rotated, AlikeButWriters, RotatedVault;
    var r, ctx := record.op.request, Ctx(record.op.actor, record.ts);
    Restoration.ReplayedRotation(a, record, p);
    Restoration.ReplayedRotation(b, record, q);
    RotatedAlike(a, p, b, q, r, ctx);
    RotatedContents(a, p, r, ctx);
  }

  /** So what replay leaves of a rotation the live path accepted is, writers apart, what the commit left. */
  lemma ReplayedAsCommitted(db: Db, pk: nat, r: RotationRequest, ctx: Ctx, hook: bool, b: Db, q: nat)
    requires Inv(db) && ApplyRotation(db, pk, r, ctx, hook).journaled != []
    requires Inv(b) && Admissible(b, ApplyRotation(db, pk, r, ctx, hook).journaled[0])
    requires pk in db.vaults && Named(b, q, db.vaults[pk].id)
    ensures var o := ApplyRotation(db, pk, r, ctx, hook);
            var b' := Replay(b, o.journaled[0]).db;
            pk in o.db.vaults && q in b'.vaults && AlikeButWriters(o.db.vaults[pk], b'.vaults[q])
  {
    hide Inv, Replay, Admissible, Rotated, AlikeButWriters, StrictlyAccepted;
    RotationIsExact(db, pk, r, ctx, hook);
    ReplayedRotationIsIndependent(db, b, ApplyRotation(db, pk, r, ctx, hook).journaled[0], pk, q);
  }
}
