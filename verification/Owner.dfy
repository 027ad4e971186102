/** The rekey as the owner runs it: phase after phase, each a loop over the planned nodes from the last to
the first. `budget` is how many requests and saves happen before an interruption, so a contract for every
budget speaks of every moment of the run. */
module Owners {
  import opened Types
  import opened Subtree
  import opened Rekey
  import opened Histories

  /** How a phase or a run stopped: at its end, cut off, or on an error. */
  datatype End = Finished | Interrupted | Failed

  lemma {:induction false} StepsLast(c: Move, w: World, k: nat)
    requires Shape(c, w)
    ensures Steps(c, w, k + 1) == Go(c, Steps(c, w, k))
    decreases k
  {
    hide Go;
    if k > 0 {
      StepsLast(c, Go(c, w), k - 1);
    }
  }

  lemma {:induction false} StepsJoin(c: Move, w: World, a: nat, b: nat)
    requires Shape(c, w)
    ensures Steps(c, w, a + b) == Steps(c, Steps(c, w, a), b)
    decreases a
  {
    hide Go;
    if a > 0 {
      StepsJoin(c, Go(c, w), a - 1, b);
    }
  }

  /** What a node needs for its migration: its old key, its old vault, a new vault to copy into, and that no
  entry still to copy is refused. */
  ghost predicate CanMigrate(c: Move, w: World, i: nat)
    requires Shape(c, w) && w.pc.Migrating? && i < |c.nodes|
  {
    && w.pc.keys[i] && c.ids[i] in w.olds
    && w.vaults[i].Present? && Prefixes(w.vaults[i].copied, c.goals[i]) && Unrefused(c, i, w.vaults[i].copied)
  }

  lemma CanMigrateStill(c: Move, w: World, w': World, i: nat)
    requires Shape(c, w) && Shape(c, w') && w.pc.Migrating? && w'.pc.Migrating? && i < |c.nodes|
    requires w'.pc.keys == w.pc.keys && w'.olds == w.olds && w'.vaults[i] == w.vaults[i]
    ensures CanMigrate(c, w', i) == CanMigrate(c, w, i)
  {
    hide Unrefused;
  }

  /** A node that can be migrated is copied into, and still can be. */
  lemma CanMigrateOn(c: Move, w: World, i: nat)
    requires Shape(c, w) && w.pc.Migrating? && i + 1 == w.pc.left && CanMigrate(c, w, i)
    ensures NextName(w.vaults[i].copied, c.goals[i], 0) < |c.goals[i]| ==> !c.refuses(i, w.vaults[i].copied)
    ensures Go(c, w).pc.Migrating? && CanMigrate(c, Go(c, w), i)
  {
    hide Unrefused, NextName, OneMore, DirectChildren;
    var v := w.vaults[i];
    NoneMissing(v.copied, c.goals[i]);
    OneMoreKeeps(v.copied, c.goals[i]);
    if v.copied != c.goals[i] {
      UnrefusedStep(c, i, v.copied);
    }
  }

  /** Every node has it, on the walk's own plan. */
  ghost predicate Migratable(c: Move, w: World)
    requires Shape(c, w) && w.pc.Migrating?
  {
    Plan(c.root, c.nodes, c.ids) && forall i :: 0 <= i < |c.nodes| ==> CanMigrate(c, w, i)
  }

  lemma GoodIsMigratable(c: Move, w: World)
    requires MoveOk(c) && Good(c, w) && w.pc.Migrating? && PresentFrom(w, 0)
    requires forall i :: 0 <= i < |c.nodes| ==> Passable(c, w, i)
    ensures Migratable(c, w)
  {
    hide Plan, Complete, Segments, Unrefused;
    forall i | 0 <= i < |c.nodes|
      ensures CanMigrate(c, w, i)
    {
      assert Passable(c, w, i);
      assert Partial(c, i, w.vaults[i]);
    }
  }

  /** Once ended, a rekey stays so. */
  lemma EndedStays(c: Move, w: World, k: nat, n: nat)
    requires Shape(c, w) && k <= n
    ensures Ended(c, Steps(c, w, k)) ==> Steps(c, w, n).saved.None?
  {
    hide Steps;
    StepsJoin(c, w, k, n - k);
    if Ended(c, Steps(c, w, k)) {
      IdleStays(c, Steps(c, w, k), n - k);
    }
  }

  lemma GoAtMigrated(c: Move, w: World)
    requires Shape(c, w) && w.pc.Migrating? && w.pc.left == 0 && w.saved == Some(Saved(Created, false))
    ensures Go(c, w) == Advance(c, w, Saved(Migrated, false))
  {
    hide Enter;
  }

  class Owner {
    const move: Move
    var olds: set<VaultId>
    var vaults: seq<Replacement>
    var link: Link
    var saved: Option<Saved>

    /** What is on the server and on record, with no process running. */
    ghost function State(): World
      reads this
    {
      World(olds, vaults, link, saved, Idle)
    }

    /** The state is `w`'s, whatever its process is doing. */
    ghost predicate Is(w: World)
      reads this
    {
      Shape(move, w) && State() == w.(pc := Idle)
    }

    constructor (move: Move)
      requires |move.nodes| == |move.ids| == |move.goals|
      ensures this.move == move && State() == Start(move) && Shape(move, State())
    {
      this.move := move;
      this.olds := set id | id in move.ids;
      this.vaults := seq(|move.nodes|, _ => Absent);
      this.link := Original;
      this.saved := Some(Saved(Planned, false));
      new;
      assert olds == First(move.ids, |move.ids|);
    }

    /** Record a completed step. */
    method Advance(s: Saved, ghost w: World) returns (ghost w': World)
      requires Is(w)
      modifies this
      ensures Is(w') && w' == Rekey.Advance(move, w, s)
    {
      saved := Some(s);
      w' := Rekey.Advance(move, w, s);
    }

    method CreateAll(ghost w: World, budget: nat) returns (rest: nat, end: End, ghost w': World)
      requires Is(w) && w.pc == Creating(|move.nodes|) && saved == Some(Saved(Planned, false))
      modifies this
      ensures Is(w') && rest <= budget && w' == Steps(move, w, budget - rest)
      ensures end == Interrupted ==> rest == 0
      ensures end != Failed
      ensures end == Interrupted ==> saved.Some?
      ensures end == Finished ==>
          saved == Some(Saved(Created, false)) && w' == Enter(move, w'.(pc := Idle)) && PresentFrom(w', 0)
      ensures forall j :: 0 <= j < |move.nodes| ==> CopiedAt(move, w', j) == CopiedAt(move, w, j)
    {
      hide Steps, KeysSeen;
      StepsZero(move, w);
      rest, w' := budget, w;
      var i: nat := |move.nodes|;
      while i > 0
        invariant i <= |move.nodes| && rest <= budget
        invariant Is(w') && w' == Steps(move, w, budget - rest)
        invariant w'.pc == Creating(i) && saved == Some(Saved(Planned, false)) && PresentFrom(w', i)
        invariant forall j :: 0 <= j < |move.nodes| ==> CopiedAt(move, w', j) == CopiedAt(move, w, j)
      {
        if rest == 0 {
          return rest, Interrupted, w';
        }
        StepsLast(move, w, budget - rest);
        i, rest := i - 1, rest - 1;
        w' := Go(move, w');
        if vaults[i].Absent? {
          vaults := vaults[i := Present(Blank(move.goals[i]), {})];
        }
      }
      if rest == 0 {
        return rest, Interrupted, w';
      }
      StepsLast(move, w, budget - rest);
      rest := rest - 1;
      w' := Advance(Saved(Created, false), w');
      end := Finished;
    }

    /** Copy one node's records and children record. */
    method MigrateNode(i: nat, hasKey: bool, ghost w: World, budget: nat) returns (rest: nat, end: End, ghost w': World)
      requires i < |move.nodes| && Is(w) && w.pc.Migrating? && w.pc.left == i + 1 && w.pc.keys[i] == hasKey
      modifies this
      ensures Is(w') && rest <= budget && w' == Steps(move, w, budget - rest) && saved == old(saved)
      ensures end == Interrupted ==> rest == 0
      ensures end == Failed ==> !CanMigrate(move, w, i)
      ensures olds == old(olds) && |vaults| == |old(vaults)|
      ensures forall j :: 0 <= j < |vaults| && j != i ==> vaults[j] == old(vaults)[j]
      ensures end == Finished ==> w'.pc == Migrating(i, w.pc.keys)
    {
      hide Steps, KeysSeen, DirectChildren, NextName, OneMore, CanMigrate;
      StepsZero(move, w);
      rest, w' := budget, w;
      while true
        invariant rest <= budget && saved == old(saved)
        invariant olds == old(olds) && |vaults| == |old(vaults)|
        invariant forall j :: 0 <= j < |vaults| && j != i ==> vaults[j] == old(vaults)[j]
        invariant Is(w') && w' == Steps(move, w, budget - rest) && w'.pc == w.pc
        invariant CanMigrate(move, w, i) ==> CanMigrate(move, w', i)
        decreases rest
      {
        if rest == 0 {
          return rest, Interrupted, w';
        }
        StepsLast(move, w, budget - rest);
        rest := rest - 1;
        if CanMigrate(move, w, i) {
          CanMigrateOn(move, w', i);
        }
        w' := Go(move, w');
        if !hasKey || move.ids[i] !in olds || vaults[i].Absent? || |vaults[i].copied| != |move.goals[i]| {
          return rest, Failed, w';
        }
        var needed := DirectChildren(move.nodes, i);
        if NextName(vaults[i].copied, move.goals[i], 0) < |move.goals[i]| {
          if move.refuses(i, vaults[i].copied) {
            return rest, Failed, w';
          }
          vaults := vaults[i := vaults[i].(copied := OneMore(vaults[i].copied, move.goals[i]))];
        } else if !(needed <= vaults[i].kids) {
          vaults := vaults[i := vaults[i].(kids := vaults[i].kids + needed)];
        } else {
          return rest, Finished, w';
        }
      }
    }

    /** Open the old keys and copy every node, last first. */
    method MigrateAll(ghost w: World, budget: nat) returns (rest: nat, end: End, ghost w': World)
      requires Is(w) && w.pc == Migrating(|move.nodes|, KeysSeen(move, w.olds)) && saved == Some(Saved(Created, false))
      modifies this
      ensures Is(w') && rest <= budget && w' == Steps(move, w, budget - rest)
      ensures end == Interrupted ==> rest == 0 && saved.Some?
      ensures end == Failed ==> !Migratable(move, w)
      ensures end == Finished ==> saved == Some(Saved(Migrated, false)) && w' == Enter(move, w'.(pc := Idle))
    {
      hide Steps, KeyFor, Plan, Go;
      StepsZero(move, w);
      rest, w' := budget, w;
      var keys := OldKeys(move.root, olds, move.nodes, move.ids);
      if keys.Err? {
        return rest, Failed, w';
      }
      var i: nat := |move.nodes|;
      while i > 0
        invariant i <= |move.nodes| && rest <= budget
        invariant Is(w') && w' == Steps(move, w, budget - rest)
        invariant w'.pc == Migrating(i, w.pc.keys) && saved == Some(Saved(Created, false))
        invariant w'.olds == w.olds && forall j :: 0 <= j < i ==> w'.vaults[j] == w.vaults[j]
      {
        ghost var used := budget - rest;
        CanMigrateStill(move, w, w', i - 1);
        var r, e, w1 := MigrateNode(i - 1, keys.value[i - 1].Some?, w', rest);
        StepsJoin(move, w, used, rest - r);
        rest, w' := r, w1;
        if e != Finished {
          return rest, e, w';
        }
        i := i - 1;
      }
      if rest == 0 {
        return rest, Interrupted, w';
      }
      StepsLast(move, w, budget - rest);
      rest := rest - 1;
      GoAtMigrated(move, w');
      w' := Advance(Saved(Migrated, false), w');
      end := Finished;
    }

    /** Point the parent's record at the new key, if the parent's key is held, then record it. */
    method LinkParent(ghost w: World, budget: nat) returns (rest: nat, end: End, ghost w': World)
      requires Is(w) && w.pc == Linking && saved == Some(Saved(Migrated, false))
      modifies this
      ensures Is(w') && rest <= budget && w' == Steps(move, w, budget - rest)
      ensures end == Interrupted ==> rest == 0
      ensures end != Failed
      ensures end == Interrupted ==> saved.Some?
      ensures end == Finished ==> saved == Some(Saved(Linked, move.held)) && w' == Enter(move, w'.(pc := Idle))
    {
      hide Steps, KeysSeen;
      StepsZero(move, w);
      rest, w' := budget, w;
      if rest == 0 {
        return rest, Interrupted, w';
      }
      StepsLast(move, w, 0);
      rest := rest - 1;
      w' := Go(move, w');
      var linked := saved.value.linked;
      if move.held {
        link, linked := Relinked, true;
      }
      if rest == 0 {
        return rest, Interrupted, w';
      }
      StepsLast(move, w, 1);
      rest := rest - 1;
      w' := Advance(Saved(Linked, linked), w');
      end := Finished;
    }

    /** Delete the old vaults, last first. */
    method RetireAll(ghost w: World, budget: nat) returns (rest: nat, end: End, ghost w': World)
      requires Is(w) && w.pc == Retiring(|move.nodes|, KeysSeen(move, w.olds))
          && saved == Some(Saved(Linked, move.held))
      modifies this
      ensures Is(w') && rest <= budget && w' == Steps(move, w, budget - rest)
      ensures end == Interrupted ==> rest == 0 && saved.Some?
      ensures end == Failed ==> !Plan(move.root, move.nodes, move.ids)
      ensures end == Finished ==> saved == Some(Saved(Retired, move.held)) && w' == Enter(move, w'.(pc := Idle))
    {
      hide Steps, KeyFor, Plan;
      StepsZero(move, w);
      rest, w' := budget, w;
      var keys := OldKeys(move.root, olds, move.nodes, move.ids);
      if keys.Err? {
        return rest, Failed, w';
      }
      var i: nat := |move.nodes|;
      while i > 0
        invariant i <= |move.nodes| && rest <= budget
        invariant Is(w') && w' == Steps(move, w, budget - rest)
        invariant w'.pc == Retiring(i, w.pc.keys) && saved == Some(Saved(Linked, move.held))
      {
        if rest == 0 {
          return rest, Interrupted, w';
        }
        StepsLast(move, w, budget - rest);
        i, rest := i - 1, rest - 1;
        w' := Go(move, w');
        if keys.value[i].Some? {
          olds := olds - {move.ids[i]};
        }
      }
      if rest == 0 {
        return rest, Interrupted, w';
      }
      StepsLast(move, w, budget - rest);
      rest := rest - 1;
      w' := Advance(Saved(Retired, move.held), w');
      end := Finished;
    }

    method FinishRekey(ghost w: World, budget: nat) returns (rest: nat, end: End, ghost w': World)
      requires Is(w) && w.pc == Finishing && saved.Some?
      modifies this
      ensures Is(w') && rest <= budget && w' == Steps(move, w, budget - rest)
      ensures end == Interrupted ==> rest == 0 && saved.Some?
      ensures end != Failed
      ensures end == Finished ==> rest == budget - 1 && w' == w.(saved := None, pc := Idle)
    {
      hide Steps;
      StepsZero(move, w);
      if budget == 0 {
        return 0, Interrupted, w;
      }
      StepsLast(move, w, 0);
      saved := None;
      return budget - 1, Finished, Go(move, w);
    }

    /** Create, migrate and link, as far as the plan on record leaves them to do. */
    method RunUntilLinked(ghost w: World, budget: nat) returns (rest: nat, end: End, ghost w': World)
      requires Is(w) && saved.Some? && w == Enter(move, w.(pc := Idle)) && Rank(saved.value.step) < Rank(Linked)
      requires !saved.value.linked
      modifies this
      ensures Is(w') && rest <= budget && w' == Steps(move, w, budget - rest)
      ensures end == Interrupted ==> rest == 0 && saved.Some?
      ensures end == Failed ==> old(saved).value.step != Migrated
      ensures end == Failed ==>
                !(MoveOk(move) && Good(move, w) && CanEnd(move, w))
      ensures end == Finished ==> saved == Some(Saved(Linked, move.held)) && w' == Enter(move, w'.(pc := Idle))
    {
      hide Steps, KeysSeen, Migratable, MoveOk, AllPartial, Underway;
      StepsZero(move, w);
      rest, end, w' := budget, Finished, w;
      if Rank(saved.value.step) < Rank(Created) {
        rest, end, w' := CreateAll(w, budget);
        if MoveOk(move) && Good(move, w) {
          StepsAreGood(move, w, budget - rest);
        }
      }
      if end == Finished && Rank(saved.value.step) < Rank(Migrated) && MoveOk(move) && Good(move, w)
          && CanEnd(move, w) {
        StillPassable(move, w, w');
        GoodIsMigratable(move, w');
      }
      if end == Finished && Rank(saved.value.step) < Rank(Migrated) {
        ghost var used := budget - rest;
        ghost var r := rest;
        rest, end, w' := MigrateAll(w', rest);
        StepsJoin(move, w, used, r - rest);
      }
      if end == Finished {
        ghost var used := budget - rest;
        ghost var r := rest;
        rest, end, w' := LinkParent(w', rest);
        StepsJoin(move, w, used, r - rest);
      }
    }

    /** Retire the old vaults, unless that is on record as done, and close the plan. */
    method RetireAndFinish(ghost w: World, budget: nat) returns (rest: nat, end: End, ghost w': World)
      requires Is(w) && saved.Some? && w == Enter(move, w.(pc := Idle)) && Rank(saved.value.step) >= Rank(Linked)
      requires saved.value.linked == move.held
      modifies this
      ensures Is(w') && rest <= budget && w' == Steps(move, w, budget - rest)
      ensures end == Interrupted ==> rest == 0 && saved.Some?
      ensures end == Failed ==> !Plan(move.root, move.nodes, move.ids)
      ensures end == Finished ==> rest < budget && Steps(move, w, budget - rest - 1).pc == Finishing
      ensures end == Finished ==> saved.None?
    {
      hide Steps, KeysSeen;
      StepsZero(move, w);
      rest, end, w' := budget, Finished, w;
      if Rank(saved.value.step) < Rank(Retired) {
        rest, end, w' := RetireAll(w, budget);
      }
      if end == Finished {
        ghost var used := budget - rest;
        ghost var r := rest;
        rest, end, w' := FinishRekey(w', rest);
        StepsJoin(move, w, used, r - rest);
      }
    }

    /** Run the phases that the plan on record leaves to do. Whatever the budget, what is left behind is
    what so many steps leave, and every environment is still whole; a run that finishes has moved them all.
    Only resuming from Migrated after an abort began is excepted. It fails only where there is no plan, or
    before Migrated where a copy will be refused or an abort has taken a new vault away; and a budget that
    reaches the end is enough. */
    method RunRekey(budget: nat) returns (rest: nat, end: End)
      requires MoveOk(move) && Good(move, State())
      modifies this
      ensures rest <= budget && (end == Interrupted ==> rest == 0)
      ensures old(saved).None? ==> end == Failed && State() == old(State())
      ensures end == Failed && old(saved).Some? ==>
          Rank(old(saved).value.step) < Rank(Migrated) && !old(CanEnd(move, State()))
      ensures end == Finished ==> saved.None?
      ensures forall k: nat ::
                old(saved).Some? && k <= budget && Ended(move, Steps(move, Enter(move, old(State())), k)) ==>
                  end != Interrupted
      ensures old(saved).Some? ==> State() == Steps(move, Enter(move, old(State())), budget - rest).(pc := Idle)
      ensures old(Heeds(State(), Resume)) ==> Good(move, State())
      ensures old(Heeds(State(), Resume)) && end == Finished ==> Ended(move, State())
    {
      hide Steps, MoveOk, AllPartial, Underway, KeysSeen, Heeds, Ended, Plan, CanEnd, Undone, Moved;
      rest := budget;
      if saved.None? {
        end := Failed;
        return;
      }
      ghost var start := State();
      LinkedFlag(move, start);
      assert Plan(move.root, move.nodes, move.ids) by { PlanHolds(move); }
      ghost var w := Enter(move, start);
      ghost var w' := w;
      StepsZero(move, w);
      end := Finished;
      if Rank(saved.value.step) < Rank(Linked) {
        if start.saved.value.step != Migrated {
          EnterIsGood(move, start);
          CanEndEntered(move, start);
        }
        rest, end, w' := RunUntilLinked(w, budget);
      }
      if end == Finished {
        ghost var used := budget - rest;
        ghost var r := rest;
        rest, end, w' := RetireAndFinish(w', rest);
        StepsJoin(move, w, used, r - rest);
        if end == Finished {
          StepsJoin(move, w, used, r - rest - 1);
        }
      }
      if end == Interrupted {
        forall k: nat | k <= budget
          ensures !Ended(move, Steps(move, w, k))
        {
          EndedStays(move, w, k, budget);
        }
      }
      if Heeds(start, Resume) {
        RunIsGood(move, start, budget - rest);
        if end == Finished {
          RunIsGood(move, start, budget - rest - 1);
          FinishedIsEnded(move, start, budget - rest - 1);
        }
      }
    }

    /** Undo a rekey, as long as nothing leads to the new subtree. */
    method AbortRekey(budget: nat) returns (rest: nat, end: End)
      requires MoveOk(move) && Good(move, State())
      modifies this
      ensures rest <= budget && (end == Interrupted ==> rest == 0)
      ensures State() == Steps(move, Step(move, old(State()), Abort), budget - rest).(pc := Idle)
      ensures Good(move, State())
      ensures end == Failed <==>
          old(saved).None? || old(link) == Relinked || Rank(old(saved).value.step) >= Rank(Linked)
      ensures end == Failed ==> State() == old(State())
      ensures end == Finished ==> State() == Cleared(move, old(State()))
    {
      hide Steps, MoveOk, AllPartial, Underway, First;
      ghost var start := State();
      if saved.Some? {
        AbortRefused(move, start);
      }
      ghost var w := Step(move, start, Abort);
      ghost var w' := w;
      rest := budget;
      StepsZero(move, w);
      if saved.None? || saved.value.linked || Rank(saved.value.step) >= Rank(Linked) || (move.held
          && link == Relinked) {
        end := Failed;
        return;
      }
      rest, end, w' := DeleteNew(w, budget);
      AbortIsGood(move, start, budget - rest);
      if end == Finished {
        AbortCompletes(move, start);
      }
    }

    /** Delete the new vaults, last first, and forget the plan. */
    method DeleteNew(ghost w: World, budget: nat) returns (rest: nat, end: End, ghost w': World)
      requires Is(w) && w.pc == Aborting(|move.nodes|)
      modifies this
      ensures Is(w') && rest <= budget && w' == Steps(move, w, budget - rest)
      ensures end == Interrupted ==> rest == 0
      ensures end != Failed
      ensures end == Finished ==> budget - rest == |move.nodes| + 1
    {
      hide Steps;
      rest, w' := budget, w;
      StepsZero(move, w);
      var i: nat := |move.nodes|;
      while i > 0
        invariant i <= |move.nodes| && rest <= budget && budget - rest == |move.nodes| - i
        invariant Is(w') && w' == Steps(move, w, budget - rest)
        invariant w'.pc == Aborting(i)
      {
        if rest == 0 {
          return rest, Interrupted, w';
        }
        StepsLast(move, w, budget - rest);
        i, rest := i - 1, rest - 1;
        w' := Go(move, w');
        if vaults[i].Present? {
          vaults := vaults[i := Absent];
        }
      }
      if rest == 0 {
        return rest, Interrupted, w';
      }
      StepsLast(move, w, budget - rest);
      rest := rest - 1;
      w' := Go(move, w');
      saved := None;
      end := Finished;
    }
  }

  lemma CanEndEntered(c: Move, w: World)
    requires Shape(c, w) && w.saved.Some?
    ensures Enter(c, w).saved == w.saved && (CanEnd(c, Enter(c, w)) <==> CanEnd(c, w))
  {
    hide KeysSeen, Unrefused;
    var w' := Enter(c, w);
    forall j | 0 <= j < |c.nodes|
      ensures Passable(c, w', j) == Passable(c, w, j)
    {
      assert CopiedAt(c, w', j) == CopiedAt(c, w, j);
    }
  }

  lemma StillPassable(c: Move, w: World, w': World)
    requires Shape(c, w) && Shape(c, w') && w.saved.Some? && Rank(w.saved.value.step) < Rank(Migrated) && CanEnd(c, w)
    requires forall j :: 0 <= j < |c.nodes| ==> CopiedAt(c, w', j) == CopiedAt(c, w, j)
    ensures forall j :: 0 <= j < |c.nodes| ==> Passable(c, w', j)
  {
    hide Unrefused, CopiedAt;
    forall j | 0 <= j < |c.nodes|
      ensures Passable(c, w', j)
    {
      assert Passable(c, w, j);
    }
  }

  lemma PlanHolds(c: Move)
    requires MoveOk(c)
    ensures Plan(c.root, c.nodes, c.ids)
  {
  }

  lemma LinkedFlag(c: Move, w: World)
    requires Good(c, w) && w.saved.Some?
    ensures w.saved.value.linked == (c.held && Rank(w.saved.value.step) >= Rank(Linked))
  {
    hide AllPartial, PcOk, CompleteFrom, CompleteOrAbsent;
  }

  /** However many steps a resumed run gets, what it leaves is good. */
  lemma RunIsGood(c: Move, w: World, k: nat)
    requires MoveOk(c) && Good(c, w) && w.pc == Idle && Heeds(w, Resume)
    ensures Good(c, Steps(c, Enter(c, w), k)) && Good(c, Steps(c, Enter(c, w), k).(pc := Idle))
  {
    hide MoveOk, AllPartial, Underway, Steps, Enter;
    StepIsGood(c, w, Resume);
    StepsAreGood(c, Enter(c, w), k);
    StepIsGood(c, Steps(c, Enter(c, w), k), Crash);
  }

  lemma AbortIsGood(c: Move, w: World, k: nat)
    requires MoveOk(c) && Good(c, w)
    ensures Good(c, Steps(c, Step(c, w, Abort), k).(pc := Idle))
  {
    hide MoveOk, AllPartial, Underway, Steps;
    StepIsGood(c, w, Abort);
    StepsAreGood(c, Step(c, w, Abort), k);
    StepIsGood(c, Steps(c, Step(c, w, Abort), k), Crash);
  }

  lemma FinishedIsEnded(c: Move, w: World, k: nat)
    requires Shape(c, w) && Good(c, Steps(c, Enter(c, w), k)) && Steps(c, Enter(c, w), k).pc == Finishing
    ensures Ended(c, Steps(c, Enter(c, w), k + 1)) && Steps(c, Enter(c, w), k + 1).pc == Idle
  {
    hide Steps, Enter, Complete, AllPartial;
    StepsLast(c, Enter(c, w), k);
  }
}
