/** Regular histories survive crashes and restores: what replay leaves is as regular as what was committed. */
module RegularHistories {
  import opened Types
  import opened Tables
  import opened Rotations
  import opened Database
  import opened Invariant
  import opened Recovery
  import opened Restoration
  import opened Regularity

  /** A batch that leaves a regular table. Which rows it lands on makes no difference (`ReplayedRegular`),
  so it is said of none. */
  ghost predicate BatchRegular(batch: seq<RotatedVersion>, generation: nat, kind: RecordKind, limits: Limits) {
    TableRegular(Rebuilt(batch, map[], Owner, generation), kind, limits)
  }

  lemma BatchAnywhere(batch: seq<RotatedVersion>, rows: map<Key, VersionRow>, rows': map<Key, VersionRow>, actor: Actor,
                      actor': Actor, generation: nat, kind: RecordKind, limits: Limits)
    requires TableRegular(Rebuilt(batch, rows, actor, generation), kind, limits)
    ensures TableRegular(Rebuilt(batch, rows', actor', generation), kind, limits)
  {
    hide Regular, Rebuilt;
    ReplayedRegular(batch, rows, rows', actor, actor', generation, limits.Versions(kind));
    RebuiltIndependent(batch, rows, rows', actor, actor', generation);
    assert LiveNames(Rebuilt(batch, rows', actor', generation)) == LiveNames(Rebuilt(batch, rows, actor, generation));
  }

  ghost predicate RequestRegular(r: RotationRequest, limits: Limits) {
    && BatchRegular(r.secrets, r.fromGeneration + 1, Secret, limits)
    && BatchRegular(r.configs, r.fromGeneration + 1, Config, limits)
  }

  ghost predicate RecordRegular(record: JournalRecord, limits: Limits) {
    record.op.Rotation? ==> RequestRegular(record.op.request, limits)
  }

  ghost predicate JournalRegular(journal: seq<JournalRecord>, limits: Limits) {
    forall k :: 0 <= k < |journal| ==> RecordRegular(journal[k], limits)
  }

  // ------------------------------------------------------------ replaying

  lemma RotatedIsRegular(db: Db, pk: nat, r: RotationRequest, ctx: Ctx, limits: Limits)
    requires AllRegular(db, limits) && pk in db.vaults && RequestRegular(r, limits)
    ensures var o := Rotated(db, pk, db.vaults[pk], r, ctx); o.Ok? ==> AllRegular(o.value, limits)
  {
    hide WithVault, TableRegular, AppendAll, Separated, Rebuilt, BatchBytes, Removed, Resealed, RotationEvents,
         Without;
    var v, g := db.vaults[pk], r.fromGeneration + 1;
    BatchAnywhere(r.secrets, map[], v.secrets.rows, Owner, ctx.actor, g, Secret, limits);
    BatchAnywhere(r.configs, map[], v.configs.rows, Owner, ctx.actor, g, Config, limits);
    var v1, es := RotatedVault(v, r, ctx.actor), RotationEvents(r, Removed(db.tokens, pk, r.revoke), ctx.actor);
    AppendAllTables(v1, es, ctx.now);
    if AppendAll(v1, es, ctx.now).Ok? {
      WithVaultRegular(db, pk, AppendAll(v1, es, ctx.now).value, limits);
    }
  }

  lemma RevokedIsRegular(db: Db, pk: nat, removed: seq<TokenId>, actor: Actor, reported: bool, now: int, limits: Limits)
    requires AllRegular(db, limits) && pk in db.vaults
    ensures var o := Revoked(db, pk, db.vaults[pk], removed, actor, reported, now); o.Ok? ==>
        AllRegular(o.value, limits)
  {
    hide WithVault, Regular, AppendAll, RevokeEvents, Without;
    var v := db.vaults[pk];
    var v1, es := v.(revision := v.revision + 1), RevokeEvents(removed, actor, reported);
    AppendAllTables(v1, es, now);
    if AppendAll(v1, es, now).Ok? {
      WithVaultRegular(db, pk, AppendAll(v1, es, now).value, limits);
    }
  }

  /** Replaying a record keeps every table regular. */
  lemma ReplayIsRegular(db: Db, record: JournalRecord, limits: Limits)
    requires AllRegular(db, limits) && RecordRegular(record, limits)
    ensures AllRegular(Replay(db, record).db, limits)
  {
    hide Revoked, Rotated, VaultRegular, RequestRegular, Removed;
    match record.op {
      case Revocation(id, ids, actor, reported) =>
        var found := LoadById(db, id);
        if found.Some? {
          RevokedIsRegular(db, found.value, Removed(db.tokens, found.value, ids), actor, reported, record.ts, limits);
        }
      case Rotation(id, actor, request) =>
        var found := LoadById(db, id);
        if found.Some? {
          RotatedIsRegular(db, found.value, request, Ctx(actor, record.ts), limits);
        }
      case Deletion(_) =>
    }
  }

  lemma {:induction false} ReplayAllIsRegular(db: Db, journal: seq<JournalRecord>, limits: Limits)
    requires AllRegular(db, limits) && JournalRegular(journal, limits)
    ensures ReplayAll(db, journal).Ok? ==> AllRegular(ReplayAll(db, journal).value, limits)
    decreases |journal|
  {
    hide AllRegular, Replay, RecordRegular;
    if journal != [] {
      var front, last := journal[..|journal| - 1], journal[|journal| - 1];
      assert JournalRegular(front, limits);
      ReplayAllIsRegular(db, front, limits);
      assert RecordRegular(journal[|journal| - 1], limits);
      if ReplayAll(db, front).Ok? {
        ReplayIsRegular(ReplayAll(db, front).value, last, limits);
      }
    }
  }

  lemma RecoveredIsRegular(db: Db, journal: seq<JournalRecord>, limits: Limits)
    requires AllRegular(db, limits) && JournalRegular(journal, limits)
    ensures AllRegular(Recovered(db, journal), limits)
  {
    hide AllRegular, JournalRegular, ReplayAll;
    ReplayAllIsRegular(db, journal, limits);
  }

  // ------------------------------------------------------------ what is journaled

  lemma AcceptedIsRegular(db: Db, pk: nat, r: RotationRequest, ctx: Ctx, hook: bool, limits: Limits)
    requires Inv(db) && AllRegular(db, limits) && WholeName(r.secrets) && WholeName(r.configs)
    requires ApplyRotation(db, pk, r, ctx, hook).journaled != []
    ensures RequestRegular(r, limits)
  {
    hide Inv, Regular, AppendAll, Complete, Separated, WholeName, Rebuilt, BatchBytes, Removed, Resealed, TokensOf,
         ResealedIds, RotationEvents, TableOk, Chain, TotalBytes, Without, WithVault, LiveNames, Renames;
    var v := db.vaults[pk];
    VaultIsOk(db, pk);
    RotatedRegular(r.secrets, v.secrets, ctx.actor, v.generation, limits.maxVersions);
    RotatedRegular(r.configs, v.configs, ctx.actor, v.generation, limits.maxConfigVersions);
    HeadsCarryOver(r.secrets, v.secrets, ctx.actor, v.generation);
    HeadsCarryOver(r.configs, v.configs, ctx.actor, v.generation);
    BatchAnywhere(r.secrets, v.secrets.rows, map[], ctx.actor, Owner, v.generation + 1, Secret, limits);
    BatchAnywhere(r.configs, v.configs.rows, map[], ctx.actor, Owner, v.generation + 1, Config, limits);
  }

  /** What a disciplined call journals on a regular database leaves any database regular. */
  lemma JournaledIsRegular(db: Db, op: Op, limits: Limits)
    requires Inv(db) && AllRegular(db, limits) && Disciplined(op, limits)
    ensures JournalRegular(Step(db, op).journaled, limits)
  {
    hide Inv, AllRegular, WholeName, RequestRegular, Rotated, Revoked, StrictlyAccepted, Removed, WithoutVault,
         LoadVault;
    if op.Rotate? && Step(db, op).journaled != [] {
      AcceptedIsRegular(db, op.pk, op.request, op.ctx, op.hook, limits);
    }
  }

  // ------------------------------------------------------------ whole histories

  /** Every call of the history, committed or cut off, is held to the limits and renames whole names. */
  ghost predicate DisciplinedAll(actions: seq<Action>, limits: Limits) {
    forall i :: 0 <= i < |actions| && !actions[i].Restore? ==> Disciplined(actions[i].op, limits)
  }

  ghost predicate WorldRegular(w: World, limits: Limits) {
    && JournalRegular(w.journal, limits)
    && forall i :: 0 <= i < |w.snapshots| ==> AllRegular(w.snapshots[i], limits)
  }

  lemma ActIsRegular(w: World, a: Action, limits: Limits)
    requires Possible(w, a) && WorldRegular(w, limits) && Inv(Live(w))
    requires !a.Restore? ==> Disciplined(a.op, limits)
    ensures WorldRegular(Act(w, a), limits)
  {
    hide Inv, AllRegular, Step, Disciplined, Recovered, RecordRegular;
    match a {
      case Do(op) =>
        StepRegular(Live(w), op, limits);
        JournaledIsRegular(Live(w), op, limits);
      case Crash(op) =>
        JournaledIsRegular(Live(w), op, limits);
        RecoveredIsRegular(Live(w), w.journal + Step(Live(w), op).journaled, limits);
      case Restore(i) =>
        RecoveredIsRegular(w.snapshots[i], w.journal, limits);
    }
  }

  lemma LiveIsInv(w: World)
    requires WorldOk(w)
    ensures w.snapshots != [] && Inv(Live(w))
  {
    hide Inv, Stepwise, ReplayAll, Recovered, Ordered;
    assert Replays(w.snapshots[|w.snapshots| - 1], w.journal);
  }

  lemma StartIsRegular(limits: Limits)
    ensures WorldRegular(World([EmptyDb], []), limits)
  {
    hide AllRegular;
    EmptyDbRegular(limits);
  }

  lemma {:induction false} WorldsAreRegular(actions: seq<Action>, limits: Limits)
    requires Feasible(actions) && DisciplinedAll(actions, limits)
    ensures WorldRegular(History(actions), limits)
    decreases |actions|
  {
    hide WorldRegular, WorldOk, Act, Inv, Disciplined;
    if actions == [] {
      StartIsRegular(limits);
    } else {
      var front, last := actions[..|actions| - 1], actions[|actions| - 1];
      WorldsAreRegular(front, limits);
      EveryHistoryIsSound(front);
      LiveIsInv(History(front));
      ActIsRegular(History(front), last, limits);
    }
  }

  /** In every history of calls, crashes and restores with fixed limits and whole-name renaming: in every
  committed state, and in whatever replaying the journal onto any of them gives, each name's retained
  versions are a gapless interval of at most `max(1, max_versions)` with no two adjacent tombstones, and of
  each kind no more names are live than the quota allows. */
  lemma EveryHistoryIsRegular(actions: seq<Action>, limits: Limits, i: nat)
    requires Feasible(actions) && DisciplinedAll(actions, limits) && i < |History(actions).snapshots|
    ensures var w := History(actions);
            AllRegular(w.snapshots[i], limits) && AllRegular(Recovered(w.snapshots[i], w.journal), limits)
  {
    hide AllRegular, Recovered, JournalRegular, History, Feasible, DisciplinedAll;
    WorldsAreRegular(actions, limits);
    var w := History(actions);
    RecoveredIsRegular(w.snapshots[i], w.journal, limits);
  }
}
