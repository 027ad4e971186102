/** Re-rooting a subtree: fresh vaults are created, filled and linked, and only then are the old ones
deleted. One step of the machine is one request to the server or one durable save, and a crash may come
between any two. */
module Rekey {
  import opened Types
  import opened Subtree
  import opened Histories
  import Copying
  import Database
  import Invariant
  import Transfer

  /** What a rekey moves, fixed while it runs: the old tree, the walk's list of it, the histories each
  node's copy must hold (one per name, in the order they are copied), whether this machine holds a key for
  the parent, and whether the server refuses the next entry of node `i` once so much of it is copied. */
  datatype Move = Move(
    root: Tree, nodes: seq<Path>, ids: seq<VaultId>, goals: seq<seq<History>>, held: bool,
    refuses: (nat, seq<History>) -> bool)

  datatype Phase = Planned | Created | Migrated | Linked | Retired

  function Rank(p: Phase): nat {
    match p case Planned => 0 case Created => 1 case Migrated => 2 case Linked => 3 case Retired => 4
  }

  /** The durable plan: the last step completed, and whether the parent's record was relinked. */
  datatype Saved = Saved(step: Phase, linked: bool)

  datatype Replacement = Absent | Present(copied: seq<History>, kids: set<string>)

  /** What the parent's children record names. */
  datatype Link = Original | Relinked

  /** Where the running process is; `Idle` when none is. Counters run down: nodes are handled last first. */
  datatype Pc =
    | Idle
    | Creating(left: nat)
    | Migrating(left: nat, keys: seq<bool>)
    | Linking
    | LinkDone
    | Retiring(left: nat, keys: seq<bool>)
    | Finishing
    | Aborting(left: nat)

  datatype World = World(olds: set<VaultId>, vaults: seq<Replacement>, link: Link, saved: Option<Saved>, pc: Pc)

  ghost predicate MoveOk(c: Move) {
    && Plan(c.root, c.nodes, c.ids) && |c.goals| == |c.nodes|
    && forall i, j :: 0 <= i < j < |c.ids| ==> c.ids[i] != c.ids[j]
  }

  predicate Shape(c: Move, w: World) {
    && |c.nodes| == |c.ids| == |c.goals| == |w.vaults|
    && (w.pc.Creating? || w.pc.Migrating? || w.pc.Retiring? || w.pc.Aborting? ==> w.pc.left <= |c.nodes|)
    && (w.pc.Migrating? || w.pc.Retiring? ==> |w.pc.keys| == |c.nodes|)
  }

  // ------------------------------------------------------------ the steps

  /** Which nodes' old keys can be opened while only the vaults in `alive` exist. */
  function KeysSeen(c: Move, alive: set<VaultId>): (keys: seq<bool>)
    ensures |keys| == |c.nodes|
  {
    seq(|c.nodes|, i requires 0 <= i < |c.nodes| => KeyFor(c.root, alive, c.nodes[i]).Some?)
  }

  /** The segments of the listed nodes directly below node `i`. */
  function DirectChildren(nodes: seq<Path>, i: nat): set<string>
    requires i < |nodes|
  {
    set p | p in nodes && p != [] && ParentOf(p) == nodes[i] :: p[|p| - 1]
  }

  /** Nothing of any name. */
  function Blank(goal: seq<History>): (copied: seq<History>)
    ensures |copied| == |goal|
  {
    seq(|goal|, _ => [])
  }

  /** Enter the first phase the saved step leaves to do. */
  function Enter(c: Move, w: World): (w': World)
    requires Shape(c, w)
    ensures Shape(c, w')
  {
    match w.saved
    case None => w.(pc := Idle)
    case Some(s) =>
      match s.step
      case Planned => w.(pc := Creating(|c.nodes|))
      case Created => w.(pc := Migrating(|c.nodes|, KeysSeen(c, w.olds)))
      case Migrated => w.(pc := Linking)
      case Linked => w.(pc := Retiring(|c.nodes|, KeysSeen(c, w.olds)))
      case Retired => w.(pc := Finishing)
  }

  /** Save a completed step and go on to the next phase. */
  function Advance(c: Move, w: World, s: Saved): (w': World)
    requires Shape(c, w)
    ensures Shape(c, w')
  {
    Enter(c, w.(saved := Some(s)))
  }

  function GoCreating(c: Move, w: World): (w': World)
    requires Shape(c, w) && w.pc.Creating?
    ensures Shape(c, w')
  {
    if w.pc.left == 0 then Advance(c, w, Saved(Created, w.saved.Some? && w.saved.value.linked)) else
      var i := w.pc.left - 1;
      var made := if w.vaults[i].Present? then w.vaults[i] else Present(Blank(c.goals[i]), {});
      w.(vaults := w.vaults[i := made], pc := Creating(i))
  }

  function GoMigrating(c: Move, w: World): (w': World)
    requires Shape(c, w) && w.pc.Migrating?
    ensures Shape(c, w')
  {
    if w.pc.left == 0 then Advance(c, w, Saved(Migrated, w.saved.Some? && w.saved.value.linked)) else
      var i := w.pc.left - 1;
      var v := w.vaults[i];
      if !w.pc.keys[i] || c.ids[i] !in w.olds || v.Absent? || |v.copied| != |c.goals[i]| then w.(pc := Idle)
      else if NextName(v.copied, c.goals[i], 0) < |c.goals[i]| then
        if c.refuses(i, v.copied) then w.(pc := Idle)
        else w.(vaults := w.vaults[i := v.(copied := OneMore(v.copied, c.goals[i]))])
      else if !(DirectChildren(c.nodes, i) <= v.kids) then
        w.(vaults := w.vaults[i := v.(kids := v.kids + DirectChildren(c.nodes, i))])
      else w.(pc := Migrating(i, w.pc.keys))
  }

  function GoRetiring(c: Move, w: World): (w': World)
    requires Shape(c, w) && w.pc.Retiring?
    ensures Shape(c, w')
  {
    if w.pc.left == 0 then Advance(c, w, Saved(Retired, w.saved.Some? && w.saved.value.linked)) else
      var i := w.pc.left - 1;
      w.(olds := if w.pc.keys[i] then w.olds - {c.ids[i]} else w.olds, pc := Retiring(i, w.pc.keys))
  }

  /** The running process's next request or save. */
  function Go(c: Move, w: World): (w': World)
    requires Shape(c, w)
    ensures Shape(c, w')
  {
    match w.pc
    case Idle => w
    case Creating(_) => GoCreating(c, w)
    case Migrating(_, _) => GoMigrating(c, w)
    case Linking => w.(link := if c.held then Relinked else w.link, pc := LinkDone)
    case LinkDone => Advance(c, w, Saved(Linked, c.held || (w.saved.Some? && w.saved.value.linked)))
    case Retiring(_, _) => GoRetiring(c, w)
    case Finishing => w.(saved := None, pc := Idle)
    case Aborting(left) =>
      if left == 0 then w.(saved := None, pc := Idle)
      else w.(vaults := w.vaults[left - 1 := Absent], pc := Aborting(left - 1))
  }

  /** An abort is refused once the parent points at the new key, recorded or not. */
  predicate ForwardOnly(c: Move, w: World) {
    || (w.saved.Some? && (w.saved.value.linked || Rank(w.saved.value.step) >= Rank(Linked)))
    || (c.held && w.link == Relinked)
  }

  datatype Event = Resume | Abort | Request | Crash

  function Step(c: Move, w: World, e: Event): (w': World)
    requires Shape(c, w)
    ensures Shape(c, w')
  {
    match e
    case Resume => if w.pc == Idle then Enter(c, w) else w
    case Abort => if w.pc == Idle && w.saved.Some? && !ForwardOnly(c, w) then w.(pc := Aborting(|c.nodes|)) else w
    case Request => Go(c, w)
    case Crash => w.(pc := Idle)
  }

  function Run(c: Move, w: World, es: seq<Event>): (w': World)
    requires Shape(c, w)
    ensures Shape(c, w')
    decreases |es|
  {
    if es == [] then w else Run(c, Step(c, w, es[0]), es[1..])
  }

  /** `k` requests in a row. */
  function Steps(c: Move, w: World, k: nat): (w': World)
    requires Shape(c, w)
    ensures Shape(c, w')
    decreases k
  {
    if k == 0 then w else Steps(c, Go(c, w), k - 1)
  }

  /** A plan on record, and the server as it was before. */
  function Start(c: Move): World {
    World(First(c.ids, |c.ids|), seq(|c.nodes|, _ => Absent), Original, Some(Saved(Planned, false)), Idle)
  }

  // ------------------------------------------------------------ what a world must keep

  function First(ids: seq<VaultId>, m: nat): set<VaultId>
    requires m <= |ids|
  {
    set i | 0 <= i < m :: ids[i]
  }

  /** The segments the old children record of node `i` lists. */
  ghost function Segments(c: Move, i: nat): set<string>
    requires i < |c.nodes|
  {
    match Lookup(c.root, c.nodes[i])
    case None => {}
    case Some(t) => set k | 0 <= k < |t.children| :: t.children[k].seg
  }

  ghost predicate Partial(c: Move, i: nat, v: Replacement)
    requires i < |c.nodes| == |c.goals|
  {
    v.Present? ==> Prefixes(v.copied, c.goals[i]) && v.kids <= Segments(c, i)
  }

  /** The vault holds the node's whole history and its whole child list. */
  ghost predicate Complete(c: Move, i: nat, v: Replacement)
    requires i < |c.nodes| == |c.goals|
  {
    v.Present? && v.copied == c.goals[i] && v.kids == Segments(c, i)
  }

  ghost predicate AllPartial(c: Move, w: World)
    requires Shape(c, w)
  {
    forall i :: 0 <= i < |w.vaults| ==> Partial(c, i, w.vaults[i])
  }

  ghost predicate CompleteFrom(c: Move, w: World, left: nat)
    requires Shape(c, w)
  {
    forall i :: left <= i < |w.vaults| ==> Complete(c, i, w.vaults[i])
  }

  ghost predicate PresentFrom(w: World, left: nat) {
    forall i :: left <= i < |w.vaults| ==> w.vaults[i].Present?
  }

  ghost predicate AbsentFrom(w: World, left: nat) {
    forall i :: left <= i < |w.vaults| ==> w.vaults[i].Absent?
  }

  ghost predicate CompleteOrAbsent(c: Move, w: World)
    requires Shape(c, w)
  {
    forall i :: 0 <= i < |w.vaults| ==> w.vaults[i].Absent? || Complete(c, i, w.vaults[i])
  }

  ghost predicate AllOld(c: Move, w: World) {
    w.olds == First(c.ids, |c.ids|)
  }

  /** The surviving old vaults are the first `m` of the plan. */
  ghost predicate Survivors(c: Move, w: World, m: nat) {
    m <= |c.ids| && w.olds == First(c.ids, m)
  }

  ghost predicate AllKeys(keys: seq<bool>, m: nat) {
    forall i :: 0 <= i < m && i < |keys| ==> keys[i]
  }

  ghost predicate RetiringOk(c: Move, w: World)
    requires w.pc.Retiring?
  {
    exists m: nat :: m <= w.pc.left && Survivors(c, w, m) && AllKeys(w.pc.keys, m)
  }

  ghost predicate PcOk(c: Move, w: World, s: Saved)
    requires Shape(c, w)
  {
    match w.pc
    case Idle => true
    case Creating(left) => s.step == Planned && PresentFrom(w, left)
    case Migrating(left, keys) => s.step == Created && AllKeys(keys, |keys|) && CompleteFrom(c, w, left)
    case Linking => s.step == Migrated && CompleteFrom(c, w, 0)
    case LinkDone => s.step == Migrated && CompleteFrom(c, w, 0) && (w.link == Relinked <==> c.held)
    case Retiring(_, _) => s.step == Linked && RetiringOk(c, w)
    case Finishing => s.step == Retired
    case Aborting(left) => Rank(s.step) < Rank(Linked) && w.link == Original && AbsentFrom(w, left)
  }

  ghost predicate Underway(c: Move, w: World, s: Saved)
    requires Shape(c, w)
  {
    && PcOk(c, w, s)
    && (if Rank(s.step) < Rank(Linked) then
          && AllOld(c, w) && !s.linked
          && (s.step == Migrated ==> CompleteOrAbsent(c, w))
          && (w.link == Relinked ==> c.held && s.step == Migrated && CompleteFrom(c, w, 0))
        else
          && CompleteFrom(c, w, 0) && s.linked == c.held && (w.link == Relinked <==> c.held)
          && (exists m: nat :: Survivors(c, w, m))
          && (s.step == Retired ==> w.olds == {}))
  }

  /** The rekey ended: undone, or done. */
  ghost predicate Undone(c: Move, w: World) {
    AllOld(c, w) && AbsentFrom(w, 0) && w.link == Original
  }

  ghost predicate Moved(c: Move, w: World)
    requires Shape(c, w)
  {
    w.olds == {} && CompleteFrom(c, w, 0) && (w.link == Relinked <==> c.held)
  }

  ghost predicate Good(c: Move, w: World) {
    && Shape(c, w) && AllPartial(c, w)
    && match w.saved
       case None => w.pc == Idle && (Undone(c, w) || Moved(c, w))
       case Some(s) => Underway(c, w, s)
  }

  // ------------------------------------------------------------ every step keeps it

  lemma StartIsGood(c: Move)
    requires MoveOk(c)
    ensures Good(c, Start(c))
  {
    hide Plan;
    assert |c.nodes| == |c.ids| by { PlanSizes(c); }
  }

  lemma PlanSizes(c: Move)
    requires Plan(c.root, c.nodes, c.ids)
    ensures |c.nodes| == |c.ids| > 0
  {
  }

  /** While the first `m` old vaults stand, each one's key can be opened. */
  lemma KeysOfSurvivors(c: Move, w: World, m: nat)
    requires MoveOk(c) && Shape(c, w) && Survivors(c, w, m)
    ensures AllKeys(KeysSeen(c, w.olds), m)
  {
    hide Plan, Lookup, KeyFor;
    forall i | 0 <= i < m
      ensures KeysSeen(c, w.olds)[i]
    {
      SurvivorsHaveKeys(c.root, w.olds, c.nodes, c.ids, m, i);
    }
  }

  /** The planned children of a node are the ones its old children record lists. */
  lemma ChildrenAreListed(c: Move, i: nat)
    requires MoveOk(c) && i < |c.nodes|
    ensures DirectChildren(c.nodes, i) == Segments(c, i)
  {
    hide Plan, Lookup;
    PlanAt(c.root, c.nodes, c.ids, i);
    var t := Lookup(c.root, c.nodes[i]).value;
    forall seg | seg in DirectChildren(c.nodes, i)
      ensures seg in Segments(c, i)
    {
      var p :| p in c.nodes && p != [] && ParentOf(p) == c.nodes[i] && p[|p| - 1] == seg;
      assert p == c.nodes[i] + [seg];
      LookupBelow(c.root, c.nodes[i], seg);
      PlannedIffThere(c, p);
      var k := FoundIn(t.children, seg);
    }
    forall seg | seg in Segments(c, i)
      ensures seg in DirectChildren(c.nodes, i)
    {
      var k :| 0 <= k < |t.children| && t.children[k].seg == seg;
      var p := c.nodes[i] + [seg];
      LookupBelow(c.root, c.nodes[i], seg);
      Listed(t.children, k);
      PlannedIffThere(c, p);
      assert ParentOf(p) == c.nodes[i];
    }
  }

  lemma PlannedIffThere(c: Move, p: Path)
    requires Plan(c.root, c.nodes, c.ids)
    ensures p in c.nodes <==> Lookup(c.root, p).Some?
  {
  }

  lemma {:induction false} Listed(children: seq<Child>, k: nat)
    requires k < |children|
    ensures Find(children, children[k].seg).Some?
  {
    if k > 0 {
      Listed(children[1..], k - 1);
    }
  }

  lemma EnterIsGood(c: Move, w: World)
    requires MoveOk(c) && Good(c, w) && w.pc == Idle
    requires w.saved.Some? && w.saved.value.step == Migrated ==> CompleteFrom(c, w, 0)
    ensures Good(c, Enter(c, w))
  {
    hide MoveOk, Partial, Complete, KeysSeen;
    if w.saved.Some? {
      var s := w.saved.value;
      var w' := Enter(c, w);
      assert AllPartial(c, w');
      if s.step == Created {
        assert Survivors(c, w, |c.ids|);
        KeysOfSurvivors(c, w, |c.ids|);
        assert PcOk(c, w', s);
      } else if s.step == Linked {
        var m: nat :| Survivors(c, w, m);
        KeysOfSurvivors(c, w, m);
        assert Survivors(c, w', m);
        assert RetiringOk(c, w');
        assert PcOk(c, w', s);
      } else if s.step == Retired {
        var m: nat :| Survivors(c, w, m);
        assert Survivors(c, w', m);
      }
    }
  }

  /** Saving a step whose work is done keeps the world good. */
  lemma AdvanceIsGood(c: Move, w: World, s: Saved)
    requires MoveOk(c) && Shape(c, w) && Good(c, w.(saved := Some(s), pc := Idle))
    requires s.step == Migrated ==> CompleteFrom(c, w, 0)
    ensures Good(c, Advance(c, w, s))
  {
    hide MoveOk, AllPartial, Underway;
    var rest := w.(saved := Some(s), pc := Idle);
    EnterIsGood(c, rest);
    assert Advance(c, w, s) == Enter(c, rest);
  }

  lemma CreatingIsGood(c: Move, w: World)
    requires MoveOk(c) && Good(c, w) && w.pc.Creating?
    ensures Good(c, Go(c, w))
  {
    hide MoveOk, Complete, Segments, KeysSeen, Enter;
    if w.pc.left == 0 {
      AdvanceIsGood(c, w, Saved(Created, false));
    } else {
      var i := w.pc.left - 1;
      assert Partial(c, i, Go(c, w).vaults[i]);
    }
  }

  lemma CompletedNode(c: Move, i: nat, v: Replacement)
    requires MoveOk(c) && i < |c.nodes| && v.Present? && Partial(c, i, v)
    requires NextName(v.copied, c.goals[i], 0) == |c.goals[i]| && DirectChildren(c.nodes, i) <= v.kids
    ensures Complete(c, i, v)
  {
    hide Plan, DirectChildren, Segments, NextName;
    ChildrenAreListed(c, i);
    NoneMissing(v.copied, c.goals[i]);
  }

  lemma MigratedOne(c: Move, w: World)
    requires MoveOk(c) && Good(c, w) && w.pc.Migrating? && w.pc.left > 0
    ensures var i := w.pc.left - 1; Partial(c, i, GoMigrating(c, w).vaults[i])
    ensures var i := w.pc.left - 1; forall j :: 0 <= j < |w.vaults| && j != i ==>
        GoMigrating(c, w).vaults[j] == w.vaults[j]
    ensures GoMigrating(c, w).pc.Migrating? && GoMigrating(c, w).pc.left < w.pc.left ==>
              Complete(c, w.pc.left - 1, w.vaults[w.pc.left - 1]) && GoMigrating(c, w).vaults == w.vaults
  {
    hide MoveOk, KeysSeen, Segments, DirectChildren, NextName, OneMore, PcOk, Underway;
    var i := w.pc.left - 1;
    ChildrenAreListed(c, i);
    assert Partial(c, i, w.vaults[i]);
    if w.vaults[i].Present? {
      OneMoreKeeps(w.vaults[i].copied, c.goals[i]);
    }
    if w.vaults[i].Present? && NextName(w.vaults[i].copied, c.goals[i], 0) == |c.goals[i]|
       && DirectChildren(c.nodes, i) <= w.vaults[i].kids {
      CompletedNode(c, i, w.vaults[i]);
    }
  }

  lemma MigratingIsGood(c: Move, w: World)
    requires MoveOk(c) && Good(c, w) && w.pc.Migrating?
    ensures Good(c, Go(c, w))
  {
    hide MoveOk, Partial, Complete, Segments, KeysSeen, DirectChildren, NextName, OneMore, Enter;
    if w.pc.left == 0 {
      AdvanceIsGood(c, w, Saved(Migrated, false));
    } else {
      MigratedOne(c, w);
    }
  }

  lemma LinkingIsGood(c: Move, w: World)
    requires MoveOk(c) && Good(c, w) && (w.pc.Linking? || w.pc.LinkDone? || w.pc.Finishing?)
    ensures Good(c, Go(c, w))
  {
    hide MoveOk, Partial, Complete, Enter;
    if w.pc.LinkDone? {
      assert Survivors(c, w, |c.ids|);
      assert Survivors(c, w.(saved := Some(Saved(Linked, c.held)), pc := Idle), |c.ids|);
      AdvanceIsGood(c, w, Saved(Linked, c.held));
    }
  }

  /** Deleting the last survivor leaves the ones before it. */
  lemma FirstLess(ids: seq<VaultId>, m: nat)
    requires 0 < m <= |ids| && forall i, j :: 0 <= i < j < |ids| ==> ids[i] != ids[j]
    ensures First(ids, m) - {ids[m - 1]} == First(ids, m - 1)
  {
  }

  lemma NotAmongFirst(ids: seq<VaultId>, m: nat, i: nat)
    requires m <= i < |ids| && forall i, j :: 0 <= i < j < |ids| ==> ids[i] != ids[j]
    ensures ids[i] !in First(ids, m)
  {
  }

  /** One deletion leaves the survivors a prefix of the plan. */
  lemma RetiredOne(c: Move, w: World)
    requires MoveOk(c) && Shape(c, w) && w.pc.Retiring? && w.pc.left > 0 && RetiringOk(c, w)
    ensures RetiringOk(c, Go(c, w))
  {
    hide Plan, First, Enter;
    var m: nat :| m <= w.pc.left && Survivors(c, w, m) && AllKeys(w.pc.keys, m);
    var i := w.pc.left - 1;
    if m == w.pc.left {
      FirstLess(c.ids, m);
      assert Survivors(c, Go(c, w), m - 1);
    } else {
      NotAmongFirst(c.ids, m, i);
      assert Survivors(c, Go(c, w), m);
    }
  }

  lemma NoSurvivors(c: Move, w: World)
    requires RetiringDone(c, w)
    ensures w.olds == {}
  {
  }

  ghost predicate RetiringDone(c: Move, w: World) {
    w.pc.Retiring? && w.pc.left == 0 && RetiringOk(c, w)
  }

  lemma RetiringIsGood(c: Move, w: World)
    requires MoveOk(c) && Good(c, w) && w.pc.Retiring?
    ensures Good(c, Go(c, w))
  {
    hide MoveOk, Partial, Complete, Enter, RetiringOk, First;
    if w.pc.left == 0 {
      NoSurvivors(c, w);
      var m: nat :| Survivors(c, w, m);
      assert Survivors(c, w.(saved := Some(Saved(Retired, c.held)), pc := Idle), m);
      AdvanceIsGood(c, w, Saved(Retired, c.held));
    } else {
      RetiredOne(c, w);
      SomeSurvive(c, Go(c, w));
    }
  }

  lemma SomeSurvive(c: Move, w: World)
    requires w.pc.Retiring? && RetiringOk(c, w)
    ensures exists m: nat :: Survivors(c, w, m)
  {
  }

  lemma AbortingIsGood(c: Move, w: World)
    requires MoveOk(c) && Good(c, w) && w.pc.Aborting?
    ensures Good(c, Go(c, w))
  {
    hide MoveOk, Complete, Segments;
  }

  /** The one thing a caller must not do: resume from Migrated once an abort has begun to delete. */
  ghost predicate Heeds(w: World, e: Event) {
    e == Resume && w.pc == Idle && w.saved.Some? && w.saved.value.step == Migrated ==> PresentFrom(w, 0)
  }

  lemma StepIsGood(c: Move, w: World, e: Event)
    requires MoveOk(c) && Good(c, w) && Heeds(w, e)
    ensures Good(c, Step(c, w, e))
  {
    hide MoveOk, AllPartial, Underway, Enter, Go, Undone, Moved;
    match e {
      case Resume =>
        if w.pc == Idle {
          ResumeHeeded(c, w);
          EnterIsGood(c, w);
        }
      case Abort => AbortIsStarted(c, w);
      case Crash => CrashIsGood(c, w);
      case Request =>
        match w.pc {
          case Idle => GoIdle(c, w);
          case Creating(_) => CreatingIsGood(c, w);
          case Migrating(_, _) => MigratingIsGood(c, w);
          case Linking => LinkingIsGood(c, w);
          case LinkDone => LinkingIsGood(c, w);
          case Retiring(_, _) => RetiringIsGood(c, w);
          case Finishing => LinkingIsGood(c, w);
          case Aborting(_) => AbortingIsGood(c, w);
        }
    }
  }

  lemma ResumeHeeded(c: Move, w: World)
    requires Good(c, w) && w.pc == Idle && Heeds(w, Resume)
    ensures w.saved.Some? && w.saved.value.step == Migrated ==> CompleteFrom(c, w, 0)
  {
    hide Partial, Complete, First;
  }

  lemma AbortIsStarted(c: Move, w: World)
    requires Good(c, w)
    ensures Good(c, Step(c, w, Abort))
  {
    hide Partial, Complete, First;
  }

  lemma CrashIsGood(c: Move, w: World)
    requires Good(c, w)
    ensures Good(c, Step(c, w, Crash))
  {
    hide Partial, Complete, First;
    if w.saved.Some? && Rank(w.saved.value.step) >= Rank(Linked) {
      var m: nat :| Survivors(c, w, m);
      assert Survivors(c, Step(c, w, Crash), m);
    }
  }

  lemma GoIdle(c: Move, w: World)
    requires Shape(c, w) && w.pc == Idle
    ensures Go(c, w) == w
  {
  }

  // ------------------------------------------------------------ every run

  ghost predicate Heeded(c: Move, w: World, es: seq<Event>)
    requires Shape(c, w)
    decreases |es|
  {
    es == [] || (Heeds(w, es[0]) && Heeded(c, Step(c, w, es[0]), es[1..]))
  }

  lemma {:induction false} EveryRunIsGood(c: Move, w: World, es: seq<Event>)
    requires MoveOk(c) && Good(c, w) && Heeded(c, w, es)
    ensures Good(c, Run(c, w, es))
    decreases |es|
  {
    hide MoveOk, AllPartial, Underway, Step;
    if es != [] {
      StepIsGood(c, w, es[0]);
      EveryRunIsGood(c, Step(c, w, es[0]), es[1..]);
    }
  }

  /** The environment is complete in its old vault or in its new one. */
  ghost predicate Whole(c: Move, w: World, i: nat)
    requires Shape(c, w) && i < |c.nodes|
  {
    c.ids[i] in w.olds || Complete(c, i, w.vaults[i])
  }

  lemma GoodIsWhole(c: Move, w: World, i: nat)
    requires Good(c, w) && i < |c.nodes|
    ensures Whole(c, w, i)
  {
    hide Complete, Partial, PcOk;
  }

  /** An old vault is deleted only with Linked on record, and then every new vault is complete. */
  lemma DeletionNeedsLinked(c: Move, w: World, e: Event)
    requires Good(c, w)
    ensures Step(c, w, e).olds != w.olds ==>
              && w.saved.Some? && w.saved.value.step == Linked && CompleteFrom(c, w, 0)
              && exists i :: 0 <= i < |c.ids| && Step(c, w, e).olds == w.olds - {c.ids[i]}
  {
    hide Complete, Partial, KeysSeen, First;
  }

  /** Whatever is interrupted and resumed or aborted, as long as nothing is resumed from Migrated once an
  abort has begun to delete: at every moment every environment is complete in its old or its new vault, no
  old vault goes before Linked is on record, and the parent never points at a subtree that is not whole. */
  lemma RekeySafety(c: Move, es: seq<Event>, e: Event, i: nat)
    requires MoveOk(c) && i < |c.nodes|
    requires Shape(c, Start(c)) && Heeded(c, Start(c), es)
    ensures var w := Run(c, Start(c), es);
            && Whole(c, w, i)
            && (w.link == Relinked ==> c.held && CompleteFrom(c, w, 0))
            && (Step(c, w, e).olds != w.olds ==>
                  w.saved.Some? && w.saved.value.step == Linked && CompleteFrom(c, w, 0))
  {
    hide MoveOk, Step, Run, PcOk, AllPartial, Complete, Partial, First;
    StartIsGood(c);
    EveryRunIsGood(c, Start(c), es);
    var w := Run(c, Start(c), es);
    GoodIsWhole(c, w, i);
    DeletionNeedsLinked(c, w, e);
  }

  /** "Once an abort starts, only abort is retried", as a rule a caller can follow from what it has asked
  for. `half`: an abort has started, and the plan is still on record. */
  ghost predicate Obeys(c: Move, w: World, es: seq<Event>, half: bool)
    requires Shape(c, w)
    decreases |es|
  {
    es == [] ||
      var w' := Step(c, w, es[0]);
      && (es[0] == Resume ==> !half)
      && Obeys(c, w', es[1..], w'.pc.Aborting? || (half && w'.saved.Some?))
  }

  ghost predicate Tracked(c: Move, w: World, half: bool)
    requires Shape(c, w)
  {
    && (w.pc.Aborting? ==> half)
    && (!half && w.saved.Some? && w.saved.value.step == Migrated ==> CompleteFrom(c, w, 0))
  }

  lemma StepTracks(c: Move, w: World, e: Event, half: bool)
    requires MoveOk(c) && Good(c, w) && Tracked(c, w, half) && (e == Resume ==> !half)
    ensures Heeds(w, e)
    ensures var w' := Step(c, w, e); Tracked(c, w', w'.pc.Aborting? || (half && w'.saved.Some?))
  {
    hide MoveOk, Partial, KeysSeen, First, NextName, OneMore, DirectChildren, Segments, RetiringOk;
  }

  /** Following that rule is enough. */
  lemma {:induction false} ObedienceIsHeed(c: Move, w: World, es: seq<Event>, half: bool)
    requires MoveOk(c) && Good(c, w) && Tracked(c, w, half) && Obeys(c, w, es, half)
    ensures Heeded(c, w, es)
    decreases |es|
  {
    hide MoveOk, AllPartial, Underway, Step, Tracked, Heeds;
    if es != [] {
      StepTracks(c, w, es[0], half);
      StepIsGood(c, w, es[0]);
      var w' := Step(c, w, es[0]);
      ObedienceIsHeed(c, w', es[1..], w'.pc.Aborting? || (half && w'.saved.Some?));
    }
  }

  // ------------------------------------------------------------ resuming finishes

  lemma StepsStep(c: Move, w: World, k: nat)
    requires Shape(c, w)
    ensures Steps(c, w, k + 1) == Steps(c, Go(c, w), k)
  {
    hide Go;
  }

  /** From any surviving prefix, retiring deletes every old vault and closes the plan. */
  lemma {:induction false} RetiringFinishes(c: Move, w: World) returns (k: nat)
    requires MoveOk(c) && Shape(c, w) && w.pc.Retiring? && RetiringOk(c, w)
    ensures Steps(c, w, k) == w.(olds := {}, saved := None, pc := Idle)
    decreases w.pc.left
  {
    hide MoveOk, RetiringOk, Steps;
    if w.pc.left == 0 {
      NoSurvivors(c, w);
      var w1 := Go(c, w);
      var w2 := Go(c, w1);
      assert Steps(c, w2, 0) == w2 by { StepsZero(c, w2); }
      StepsStep(c, w1, 0);
      StepsStep(c, w, 1);
      k := 2;
    } else {
      RetiredOne(c, w);
      var j := RetiringFinishes(c, Go(c, w));
      StepsStep(c, w, j);
      k := j + 1;
    }
  }

  lemma StepsZero(c: Move, w: World)
    requires Shape(c, w)
    ensures Steps(c, w, 0) == w
  {
  }

  /** From Migrated, whatever state the new vaults are in. */
  lemma LinkingFinishes(c: Move, w: World) returns (k: nat)
    requires MoveOk(c) && Shape(c, w) && w.pc.Linking? && AllOld(c, w)
    ensures Steps(c, w, k) ==
            w.(olds := {}, link := if c.held then Relinked else w.link, saved := None, pc := Idle)
  {
    hide MoveOk, Steps, KeysSeen, First;
    var w1 := Go(c, w);
    var w2 := Go(c, w1);
    assert Survivors(c, w2, |c.ids|);
    KeysOfSurvivors(c, w2, |c.ids|);
    assert RetiringOk(c, w2);
    var j := RetiringFinishes(c, w2);
    StepsStep(c, w1, j);
    StepsStep(c, w, j + 1);
    k := j + 2;
  }

  /** None of the entries of node `i` still to copy is refused, when so much of it is copied. */
  ghost predicate Unrefused(c: Move, i: nat, copied: seq<History>)
    requires i < |c.goals| && |copied| == |c.goals[i]|
  {
    forall b: nat :: b < AllMissing(copied, c.goals[i]) ==> !c.refuses(i, More(copied, c.goals[i], b))
  }

  lemma UnrefusedStep(c: Move, i: nat, copied: seq<History>)
    requires i < |c.goals| && Prefixes(copied, c.goals[i]) && copied != c.goals[i]
    ensures Unrefused(c, i, copied) <==> !c.refuses(i, copied) && Unrefused(c, i, OneMore(copied, c.goals[i]))
  {
    hide OneMore, AllMissing;
    var goal := c.goals[i];
    OneMoreKeeps(copied, goal);
    var next := OneMore(copied, goal);
    assert More(copied, goal, 0) == copied;
    assert forall b: nat :: More(copied, goal, b + 1) == More(next, goal, b);
    if Unrefused(c, i, copied) {
      assert !c.refuses(i, More(copied, goal, 0));
      forall b: nat | b < AllMissing(next, goal)
        ensures !c.refuses(i, More(next, goal, b))
      {
        assert !c.refuses(i, More(copied, goal, b + 1));
      }
    }
    if !c.refuses(i, copied) && Unrefused(c, i, next) {
      forall b: nat | b < AllMissing(copied, goal)
        ensures !c.refuses(i, More(copied, goal, b))
      {
        assert b > 0 ==> More(copied, goal, b) == More(next, goal, b - 1);
      }
    }
  }

  lemma UnrefusedWhenDone(c: Move, i: nat, copied: seq<History>)
    requires i < |c.goals| && copied == c.goals[i]
    ensures Unrefused(c, i, copied)
  {
    hide AllMissing, More;
    NoneMissing(copied, copied);
  }

  /** What node `i`'s new vault holds, or will once it is made. */
  function CopiedAt(c: Move, w: World, i: nat): seq<History>
    requires Shape(c, w) && i < |c.nodes|
  {
    if w.vaults[i].Present? then w.vaults[i].copied else Blank(c.goals[i])
  }

  /** Node `i`'s copy can be carried through. */
  ghost predicate Passable(c: Move, w: World, i: nat)
    requires Shape(c, w) && i < |c.nodes|
  {
    |CopiedAt(c, w, i)| == |c.goals[i]| && Unrefused(c, i, CopiedAt(c, w, i))
  }

  lemma CopiedIsPrefix(c: Move, w: World, i: nat)
    requires Shape(c, w) && AllPartial(c, w) && i < |c.nodes|
    ensures Prefixes(CopiedAt(c, w, i), c.goals[i])
  {
    hide Segments;
    assert Partial(c, i, w.vaults[i]);
  }

  /** Making vaults changes nothing of what is copied or refused. */
  lemma CreatingKeeps(c: Move, w: World, i: nat)
    requires Shape(c, w) && w.pc.Creating? && i < |c.nodes|
    ensures CopiedAt(c, Go(c, w), i) == CopiedAt(c, w, i)
  {
    hide KeysSeen;
  }

  /** What is left to do on the node being migrated. */
  ghost function Work(c: Move, w: World): nat
    requires Shape(c, w) && w.pc.Migrating?
  {
    if w.pc.left == 0 then 0 else
      var i := w.pc.left - 1;
      var v := w.vaults[i];
      if v.Absent? || |v.copied| != |c.goals[i]| then 0 else
        AllMissing(v.copied, c.goals[i]) + if DirectChildren(c.nodes, i) <= v.kids then 0 else 1
  }

  /** A step of migrating concerns the one node, and either copies one entry more of it or leaves what is
  copied of it alone. */
  lemma MigratingKeeps(c: Move, w: World, i: nat)
    requires Good(c, w) && w.pc.Migrating? && i < |c.nodes|
    ensures CopiedAt(c, Go(c, w), i) ==
            if i == w.pc.left - 1 && w.vaults[i].Present? && w.pc.keys[i] && c.ids[i] in w.olds
               && w.vaults[i].copied != c.goals[i] && !c.refuses(i, w.vaults[i].copied)
            then OneMore(w.vaults[i].copied, c.goals[i]) else CopiedAt(c, w, i)
    ensures Go(c, w).vaults[i].Present? == w.vaults[i].Present?
  {
    hide KeysSeen, NextName, OneMore, DirectChildren, Segments, Underway, Blank;
    CopiedIsPrefix(c, w, i);
    NoneMissing(CopiedAt(c, w, i), c.goals[i]);
  }

  lemma MigratingProgress(c: Move, w: World)
    requires MoveOk(c) && Good(c, w) && w.pc.Migrating? && w.pc.left > 0 && PresentFrom(w, 0)
    requires Passable(c, w, w.pc.left - 1)
    ensures Go(c, w).pc.Migrating? && PresentFrom(Go(c, w), 0)
    ensures Go(c, w).pc.left < w.pc.left || (Go(c, w).pc.left == w.pc.left && Work(c, Go(c, w)) < Work(c, w))
    ensures Passable(c, Go(c, w), w.pc.left - 1)
  {
    hide MoveOk, DirectChildren, NextName, OneMore, AllMissing, Segments, AllPartial, CompleteFrom, CompleteOrAbsent,
         Unrefused;
    var i := w.pc.left - 1;
    var v := w.vaults[i];
    CopiedIsPrefix(c, w, i);
    NoneMissing(v.copied, c.goals[i]);
    OneMoreKeeps(v.copied, c.goals[i]);
    assert c.ids[i] in w.olds;
    if v.copied != c.goals[i] {
      UnrefusedStep(c, i, v.copied);
      assert !c.refuses(i, v.copied);
    }
  }

  ghost predicate Ended(c: Move, w: World) {
    Shape(c, w) && w.saved.None? && w.pc == Idle && Moved(c, w)
  }

  lemma {:induction false} MigratingFinishes(c: Move, w: World) returns (k: nat)
    requires MoveOk(c) && Good(c, w) && w.pc.Migrating? && PresentFrom(w, 0)
    requires forall i :: 0 <= i < w.pc.left ==> Passable(c, w, i)
    ensures Ended(c, Steps(c, w, k))
    decreases w.pc.left, Work(c, w)
  {
    hide MoveOk, Steps, KeysSeen, First, Work, AllPartial, Complete, Unrefused, NextName, OneMore;
    var j: nat;
    MigratingIsGood(c, w);
    if w.pc.left == 0 {
      j := LinkingFinishes(c, Go(c, w));
    } else {
      MigratingProgress(c, w);
      forall i | 0 <= i < w.pc.left - 1
        ensures Passable(c, Go(c, w), i)
      {
        assert Passable(c, w, i);
        MigratingKeeps(c, w, i);
      }
      j := MigratingFinishes(c, Go(c, w));
    }
    StepsStep(c, w, j);
    k := j + 1;
  }

  lemma {:induction false} CreatingFinishes(c: Move, w: World) returns (k: nat)
    requires MoveOk(c) && Good(c, w) && w.pc.Creating?
    requires forall i :: 0 <= i < |c.nodes| ==> Passable(c, w, i)
    ensures Ended(c, Steps(c, w, k))
    decreases w.pc.left
  {
    hide MoveOk, Steps, KeysSeen, First, AllPartial, Complete, Ended, Moved, Unrefused;
    var j: nat;
    CreatingIsGood(c, w);
    forall i | 0 <= i < |c.nodes|
      ensures Passable(c, Go(c, w), i)
    {
      assert Passable(c, w, i);
      CreatingKeeps(c, w, i);
    }
    if w.pc.left == 0 {
      j := MigratingFinishes(c, Go(c, w));
    } else {
      j := CreatingFinishes(c, Go(c, w));
    }
    StepsStep(c, w, j);
    k := j + 1;
  }

  /** Nothing stands in the way of the end: before Migrated no copy that is still to make is refused, and
  from Created on, until the parent is relinked, no new vault has been taken away by an abort. */
  ghost predicate CanEnd(c: Move, w: World)
    requires Shape(c, w) && w.saved.Some?
  {
    match w.saved.value.step
    case Planned => forall i :: 0 <= i < |c.nodes| ==> Passable(c, w, i)
    case Created => PresentFrom(w, 0) && forall i :: 0 <= i < |c.nodes| ==> Passable(c, w, i)
    case Migrated => PresentFrom(w, 0)
    case Linked => true
    case Retired => true
  }

  /** A resume that is not interrupted then ends the rekey, wherever the last run stopped: no old vault is
  left, every new one is complete, and the parent is relinked if its key is held. */
  lemma ResumeFinishes(c: Move, w: World) returns (k: nat)
    requires MoveOk(c) && Good(c, w) && w.pc == Idle && w.saved.Some? && CanEnd(c, w)
    ensures Ended(c, Steps(c, Step(c, w, Resume), k))
  {
    hide MoveOk, Steps, KeysSeen, First, AllPartial, Complete, Unrefused;
    StepIsGood(c, w, Resume);
    var w' := Step(c, w, Resume);
    forall i | 0 <= i < |c.nodes|
      ensures Passable(c, w', i) == Passable(c, w, i)
    {
      assert CopiedAt(c, w', i) == CopiedAt(c, w, i);
    }
    match w.saved.value.step {
      case Planned => k := CreatingFinishes(c, w');
      case Created => k := MigratingFinishes(c, w');
      case Migrated => k := LinkingFinishes(c, w');
      case Linked => k := RetiringFinishes(c, w');
      case Retired =>
        k := 1;
        StepsStep(c, w', 0);
        StepsZero(c, Go(c, w'));
    }
  }

  // ------------------------------------------------------------ and otherwise does not

  /** A copy of node `i` that is still to come will be refused, or has nowhere to go. */
  ghost predicate Blocked(c: Move, w: World, i: nat)
    requires Shape(c, w) && i < |c.nodes|
  {
    && w.saved.Some?
    && match w.saved.value.step
       case Planned => (w.pc.Creating? || w.pc == Idle) && !Passable(c, w, i)
       case Created =>
         && ((w.pc.Migrating? && i < w.pc.left) || w.pc == Idle)
         && (w.vaults[i].Absent? || !Passable(c, w, i))
       case _ => false
  }

  lemma CreatingStaysBlocked(c: Move, w: World, i: nat)
    requires MoveOk(c) && Good(c, w) && i < |c.nodes| && Blocked(c, w, i) && w.pc.Creating?
    ensures Blocked(c, Go(c, w), i)
  {
    hide MoveOk, KeysSeen, Unrefused, AllPartial, First;
    CreatingKeeps(c, w, i);
  }

  lemma MigratingStaysBlocked(c: Move, w: World, i: nat)
    requires MoveOk(c) && Good(c, w) && i < |c.nodes| && Blocked(c, w, i) && w.pc.Migrating?
    ensures Blocked(c, Go(c, w), i)
  {
    hide MoveOk, KeysSeen, Unrefused, First, DirectChildren, NextName, OneMore, Blank, Complete, Partial;
    MigratingKeeps(c, w, i);
    CopiedIsPrefix(c, w, i);
    var copied := CopiedAt(c, w, i);
    NoneMissing(copied, c.goals[i]);
    OneMoreKeeps(copied, c.goals[i]);
    if copied != c.goals[i] {
      UnrefusedStep(c, i, copied);
    } else {
      UnrefusedWhenDone(c, i, copied);
    }
  }

  lemma {:induction false} BlockedStays(c: Move, w: World, i: nat, k: nat)
    requires MoveOk(c) && Good(c, w) && i < |c.nodes| && Blocked(c, w, i)
    ensures Blocked(c, Steps(c, w, k), i)
    decreases k
  {
    hide MoveOk, Go, AllPartial, Underway, Passable;
    if k > 0 {
      StepIsGood(c, w, Request);
      if w.pc.Creating? {
        CreatingStaysBlocked(c, w, i);
      } else if w.pc.Migrating? {
        MigratingStaysBlocked(c, w, i);
      } else {
        GoIdle(c, w);
      }
      BlockedStays(c, Go(c, w), i, k - 1);
    }
  }

  /** Past Migrated nothing makes a vault. */
  ghost predicate Late(w: World) {
    w.pc.Linking? || w.pc.LinkDone? || w.pc.Retiring? || w.pc.Finishing? || w.pc == Idle
  }

  lemma {:induction false} AbsentStays(c: Move, w: World, i: nat, k: nat)
    requires Shape(c, w) && i < |c.nodes| && w.vaults[i].Absent? && Late(w)
    ensures Steps(c, w, k).vaults[i].Absent?
    decreases k
  {
    hide KeysSeen;
    if k > 0 {
      AbsentStays(c, Go(c, w), i, k - 1);
    }
  }

  ghost predicate Ends(c: Move, w: World)
    requires Shape(c, w)
  {
    exists k: nat :: Ended(c, Steps(c, w, k))
  }

  /** Exactly when an uninterrupted resume ends the rekey. */
  lemma ResumeEndsExactly(c: Move, w: World)
    requires MoveOk(c) && Good(c, w) && w.pc == Idle && w.saved.Some?
    ensures Ends(c, Step(c, w, Resume)) <==> CanEnd(c, w)
  {
    hide MoveOk, Steps, KeysSeen, AllPartial, Unrefused, First;
    var w' := Step(c, w, Resume);
    if CanEnd(c, w) {
      var k := ResumeFinishes(c, w);
    } else if w.saved.value.step == Migrated {
      var i :| 0 <= i < |w.vaults| && w.vaults[i].Absent?;
      forall k: nat
        ensures !Ended(c, Steps(c, w', k))
      {
        AbsentStays(c, w', i, k);
        AbsentIsNotEnded(c, Steps(c, w', k), i);
      }
    } else {
      var i :| 0 <= i < |c.nodes| && (w.vaults[i].Absent? || !Passable(c, w, i)) && Blocked(c, w', i);
      StepIsGood(c, w, Resume);
      forall k: nat
        ensures !Ended(c, Steps(c, w', k))
      {
        BlockedStays(c, w', i, k);
      }
    }
  }

  lemma AbsentIsNotEnded(c: Move, w: World, i: nat)
    requires Shape(c, w) && i < |c.nodes| && w.vaults[i].Absent?
    ensures !Ended(c, w)
  {
  }

  /** A copy that the server refuses keeps the rekey from ever ending, whatever is resumed, though nothing
  was aborted: it can only be aborted, and then all is as it was. */
  lemma RefusedNeverEnds(id: VaultId, e: Entry)
    ensures var c := Lone(id, e).(refuses := (i: nat, copied: seq<History>) => true);
            && MoveOk(c) && Good(c, Start(c))
            && !Ends(c, Step(c, Start(c), Resume))
            && Steps(c, Step(c, Start(c), Abort), |c.nodes| + 1) == Cleared(c, Start(c))
  {
    hide Steps, Ends, Good;
    var c := Lone(id, e).(refuses := (i: nat, copied: seq<History>) => true);
    LoneIsOk(id, e);
    assert MoveOk(c);
    StartIsGood(c);
    ResumeEndsExactly(c, Start(c));
    var copied := Blank(c.goals[0]);
    assert copied == [[]] && c.goals[0] == [[e]];
    assert Missing(copied, c.goals[0], 1) == 0;
    assert AllMissing(copied, c.goals[0]) == 1;
    assert !Unrefused(c, 0, copied) by {
      assert c.refuses(0, More(copied, c.goals[0], 0));
    }
    assert !Passable(c, Start(c), 0);
    AbortCompletes(c, Start(c));
  }

  // ------------------------------------------------------------ the copy behind it

  /** A vault being copied into, as the rekey sees it. */
  ghost function ReplacementOf(target: Database.Vault, ring: Copying.Ring, names: seq<Transfer.Name>,
                        kids: set<string>): Replacement {
    Present(Transfer.SeenAll(target, ring, names), kids)
  }

  lemma ReplacementIs(target: Database.Vault, ring: Copying.Ring, names: seq<Transfer.Name>, kids: set<string>)
    ensures ReplacementOf(target, ring, names, kids) == Present(Transfer.SeenAll(target, ring, names), kids)
  {
  }

  /** So many steps copy so many entries, as long as none is refused. */
  lemma {:induction false} StepsCopy(c: Move, w: World, n: nat)
    requires Shape(c, w) && w.pc.Migrating? && w.pc.left > 0
    requires var i := w.pc.left - 1;
             && w.pc.keys[i] && c.ids[i] in w.olds && w.vaults[i].Present?
             && Prefixes(w.vaults[i].copied, c.goals[i]) && n <= AllMissing(w.vaults[i].copied, c.goals[i])
             && forall b: nat :: b < n ==> !c.refuses(i, More(w.vaults[i].copied, c.goals[i], b))
    ensures var i := w.pc.left - 1;
            Steps(c, w, n) ==
            w.(vaults := w.vaults[i := w.vaults[i].(copied := More(w.vaults[i].copied, c.goals[i], n))])
    decreases n
  {
    hide NextName, OneMore, AllMissing, Prefixes;
    var i := w.pc.left - 1;
    var copied, goal := w.vaults[i].copied, c.goals[i];
    WidthOf(copied, goal);
    if n == 0 {
      assert w.vaults[i := w.vaults[i]] == w.vaults;
    } else {
      assert !c.refuses(i, More(copied, goal, 0));
      NoneMissing(copied, goal);
      OneMoreKeeps(copied, goal);
      WidthOf(OneMore(copied, goal), goal);
      assert forall b: nat :: More(OneMore(copied, goal), goal, b) == More(copied, goal, b + 1);
      StepsCopy(c, Go(c, w), n - 1);
    }
  }

  lemma WidthOf(copied: seq<History>, goal: seq<History>)
    requires Prefixes(copied, goal)
    ensures |copied| == |goal|
  {
  }

  /** A run of the copy against the store that makes `n` writes is `n` copying steps of the rekey. */
  lemma TransferIsSteps(c: Move, w: World, source: Database.Vault, target: Database.Vault, target': Database.Vault,
                        from: Copying.Ring, to: Copying.Ring, names: seq<Transfer.Name>, kids: set<string>, n: nat)
    requires Shape(c, w) && w.pc.Migrating? && w.pc.left > 0
    requires var i := w.pc.left - 1;
             && w.pc.keys[i] && c.ids[i] in w.olds && w.vaults[i].Present? && |w.vaults[i].copied| == |c.goals[i]|
             && forall b: nat :: b < n ==> !c.refuses(i, More(w.vaults[i].copied, c.goals[i], b))
    requires var i := w.pc.left - 1;
             c.goals[i] == Transfer.GoalsFor(source, from, names)
                 && w.vaults[i] == ReplacementOf(target, to, names, kids)
    requires Transfer.Further(source, target, target', from, to, names, n)
    requires Invariant.VaultOk(target) && Copying.PartlyCopied(source, target, from, to)
    ensures Steps(c, w, n) == w.(vaults := w.vaults[w.pc.left - 1 := ReplacementOf(target', to, names, kids)])
  {
    hide *;
    Transfer.PartlySeen(source, target, from, to, names);
    Transfer.FurtherMeans(source, target, target', from, to, names, n);
    ReplacementIs(target, to, names, kids);
    ReplacementIs(target', to, names, kids);
    StepsCopy(c, w, n);
  }

  // ------------------------------------------------------------ resuming after half an abort

  lemma {:induction false} StepsAreGood(c: Move, w: World, k: nat)
    requires MoveOk(c) && Good(c, w)
    ensures Good(c, Steps(c, w, k))
    decreases k
  {
    hide MoveOk, AllPartial, Underway, Go;
    if k > 0 {
      StepIsGood(c, w, Request);
      StepsAreGood(c, Go(c, w), k - 1);
    }
  }

  ghost predicate AlwaysWhole(c: Move, w: World)
    requires Shape(c, w)
  {
    forall k: nat, i: nat :: i < |c.nodes| ==> Whole(c, Steps(c, w, k), i)
  }

  /** Exactly when resuming from Migrated keeps every environment: when every new vault still exists. */
  lemma ResumeFromMigrated(c: Move, w: World)
    requires MoveOk(c) && Good(c, w) && w.pc == Idle && w.saved.Some? && w.saved.value.step == Migrated
    ensures AlwaysWhole(c, Step(c, w, Resume)) <==> PresentFrom(w, 0)
  {
    hide MoveOk, Steps, First, AllPartial, PcOk, Complete;
    var w' := Step(c, w, Resume);
    if PresentFrom(w, 0) {
      StepIsGood(c, w, Resume);
      forall k: nat, i: nat | i < |c.nodes|
        ensures Whole(c, Steps(c, w', k), i)
      {
        StepsAreGood(c, w', k);
        GoodIsWhole(c, Steps(c, w', k), i);
      }
    } else {
      var i: nat :| i < |w.vaults| && w.vaults[i].Absent?;
      var k := LinkingFinishes(c, w');
      assert !Whole(c, Steps(c, w', k), i) by { AbsentIsNotWhole(c, Steps(c, w', k), i); }
    }
  }

  lemma AbsentIsNotWhole(c: Move, w: World, i: nat)
    requires Shape(c, w) && i < |c.nodes| && w.olds == {} && w.vaults[i].Absent?
    ensures !Whole(c, w, i)
  {
  }

  // ------------------------------------------------------------ aborting

  function Cleared(c: Move, w: World): World {
    World(w.olds, seq(|c.nodes|, _ => Absent), w.link, None, Idle)
  }

  lemma {:induction false} AbortingFinishes(c: Move, w: World)
    requires Shape(c, w) && w.pc.Aborting? && AbsentFrom(w, w.pc.left)
    ensures Steps(c, w, w.pc.left + 1) == Cleared(c, w)
    decreases w.pc.left
  {
    hide Steps;
    StepsStep(c, w, w.pc.left);
    if w.pc.left == 0 {
      StepsZero(c, Go(c, w));
      assert w.vaults == Cleared(c, w).vaults;
    } else {
      AbortingFinishes(c, Go(c, w));
    }
  }

  /** A completed abort deletes every new vault and forgets the plan; the old vaults and the parent's
  record are as they were before the rekey. */
  lemma AbortCompletes(c: Move, w: World)
    requires MoveOk(c) && Good(c, w) && w.pc == Idle && w.saved.Some? && !ForwardOnly(c, w)
    ensures var w' := Steps(c, Step(c, w, Abort), |c.nodes| + 1);
            w' == Cleared(c, w) && AllOld(c, w') && w'.link == Original
  {
    hide MoveOk, Steps, First, AllPartial;
    AbortingFinishes(c, Step(c, w, Abort));
  }

  ghost predicate MidAbort(c: Move, w: World, w': World) {
    && w'.olds == w.olds && w'.link == w.link && |w'.vaults| == |w.vaults|
    && (w'.pc == Idle || (w'.pc.Aborting? && w'.pc.left <= |c.nodes| && AbsentFrom(w', w'.pc.left)))
    && (w'.saved == w.saved || w' == Cleared(c, w))
  }

  lemma StepMidAbort(c: Move, w: World, w': World, e: Event)
    requires Shape(c, w) && Shape(c, w') && w.saved.Some? && MidAbort(c, w, w') && e != Resume
    ensures MidAbort(c, w, Step(c, w', e))
  {
    if e == Request && w'.pc.Aborting? && w'.pc.left == 0 {
      assert w'.vaults == Cleared(c, w).vaults;
    }
  }

  lemma {:induction false} RunMidAbort(c: Move, w: World, w': World, es: seq<Event>)
    requires Shape(c, w) && Shape(c, w') && w.saved.Some? && MidAbort(c, w, w') && Resume !in es
    ensures MidAbort(c, w, Run(c, w', es))
    decreases |es|
  {
    hide Step, MidAbort;
    if es != [] {
      StepMidAbort(c, w, w', es[0]);
      RunMidAbort(c, w, Step(c, w', es[0]), es[1..]);
    }
  }

  /** However often an abort is interrupted, once one runs to its end the state is the one an
  uninterrupted abort leaves. */
  lemma AbortRetried(c: Move, w: World, es: seq<Event>)
    requires MoveOk(c) && Good(c, w) && w.pc == Idle && w.saved.Some? && !ForwardOnly(c, w) && Resume !in es
    ensures var stopped := Step(c, Run(c, w, es), Crash);
            Steps(c, Step(c, stopped, Abort), |c.nodes| + 1) == Cleared(c, w)
  {
    hide MoveOk, Steps, Run, First, AllPartial, Underway;
    RunMidAbort(c, w, w, es);
    var stopped := Step(c, Run(c, w, es), Crash);
    if stopped.saved.Some? {
      AbortingFinishes(c, Step(c, stopped, Abort));
    } else {
      IdleStays(c, stopped, |c.nodes| + 1);
    }
  }

  lemma {:induction false} IdleStays(c: Move, w: World, k: nat)
    requires Shape(c, w) && w.pc == Idle
    ensures Steps(c, w, k) == w
    decreases k
  {
    if k > 0 {
      IdleStays(c, w, k - 1);
    }
  }

  /** An abort is refused exactly when Linked is on record or the parent's record already seals the new
  key, whether or not that was ever recorded. */
  lemma AbortRefused(c: Move, w: World)
    requires MoveOk(c) && Good(c, w) && w.pc == Idle && w.saved.Some?
    ensures Step(c, w, Abort) == w <==> w.link == Relinked || Rank(w.saved.value.step) >= Rank(Linked)
  {
    hide MoveOk, First, AllPartial, PcOk, Complete;
  }

  /** A crash between relinking the parent and recording it: the plan still says Migrated, not linked, yet
  no abort is possible any more and a resume finishes. */
  lemma UnrecordedLink(c: Move, w: World) returns (k: nat)
    requires MoveOk(c) && Good(c, w) && w.pc.Linking? && c.held
    ensures var cut := Step(c, Step(c, w, Request), Crash);
            && cut.saved == w.saved == Some(Saved(Migrated, false)) && cut.link == Relinked
            && Step(c, cut, Abort) == cut
            && Ended(c, Steps(c, Step(c, cut, Resume), k))
  {
    hide MoveOk, First, AllPartial, Segments, Steps, Ended;
    StepIsGood(c, w, Request);
    var cut := Step(c, Step(c, w, Request), Crash);
    StepIsGood(c, Step(c, w, Request), Crash);
    k := ResumeFinishes(c, cut);
  }

  // ------------------------------------------------------------ the rule is needed

  /** One environment holding one secret, re-rooted without a parent. */
  function Lone(id: VaultId, e: Entry): Move {
    Move(Node(id, []), [[]], [id], [[[e]]], false, (i: nat, copied: seq<History>) => false)
  }

  lemma LoneIsOk(id: VaultId, e: Entry)
    ensures MoveOk(Lone(id, e))
  {
    var c := Lone(id, e);
    forall p
      ensures p in c.nodes <==> Lookup(c.root, p).Some?
    {
      LoneLookup(c.root, p);
    }
  }

  lemma {:induction false} LoneLookup(root: Tree, p: Path)
    requires root.children == []
    ensures Lookup(root, p).Some? <==> p == []
    decreases |p|
  {
    if p != [] {
      LoneLookup(root, ParentOf(p));
    }
  }

  /** Runs up to Migrated, is interrupted there, aborts, and is interrupted again after one deletion. */
  function HalfAborted(): seq<Event> {
    [Resume, Request, Request, Request, Request, Request, Crash, Abort, Request, Crash]
  }

  function LoneStage(id: VaultId, e: Entry, j: nat): World {
    var planned, created, migrated := Some(Saved(Planned, false)), Some(Saved(Created, false)),
        Some(Saved(Migrated, false));
    var none, empty, full := [Absent], [Present([[]], {})], [Present([[e]], {})];
    match j
    case 0 => World({id}, none, Original, planned, Idle)
    case 1 => World({id}, none, Original, planned, Creating(1))
    case 2 => World({id}, empty, Original, planned, Creating(0))
    case 3 => World({id}, empty, Original, created, Migrating(1, [true]))
    case 4 => World({id}, full, Original, created, Migrating(1, [true]))
    case 5 => World({id}, full, Original, created, Migrating(0, [true]))
    case 6 => World({id}, full, Original, migrated, Linking)
    case 7 => World({id}, full, Original, migrated, Idle)
    case 8 => World({id}, full, Original, migrated, Aborting(1))
    case 9 => World({id}, none, Original, migrated, Aborting(0))
    case _ => World({id}, none, Original, migrated, Idle)
  }

  lemma LoneStep(id: VaultId, e: Entry, j: nat)
    requires j < |HalfAborted()|
    ensures var c, w := Lone(id, e), LoneStage(id, e, j);
            && Shape(c, w) && Step(c, w, HalfAborted()[j]) == LoneStage(id, e, j + 1) && Heeds(w, HalfAborted()[j])
  {
    hide KeysSeen, DirectChildren, NextName;
    var c := Lone(id, e);
    var w := LoneStage(id, e, j);
    match j {
      case 1 =>
        var blank: seq<History> := seq(|c.goals[0]|, _ => []);
        assert blank == [[]];
      case 2 => LoneKeys(id, e);
      case 3 =>
        LoneNext(id, e);
        var one: History := [] + [c.goals[0][0][0]];
        assert one == [e];
        var copied: seq<History> := [[]];
        assert copied[0 := one] == [[e]];
      case 4 => LoneNext(id, e);
      case _ =>
    }
  }

  lemma LoneKeys(id: VaultId, e: Entry)
    ensures KeysSeen(Lone(id, e), {id}) == [true]
  {
  }

  lemma LoneNext(id: VaultId, e: Entry)
    ensures NextName([[]], [[e]], 0) == 0 && NextName([[e]], [[e]], 0) == 1
    ensures DirectChildren(Lone(id, e).nodes, 0) == {}
  {
  }

  lemma {:induction false} LoneRun(id: VaultId, e: Entry, j: nat)
    requires j <= |HalfAborted()|
    ensures var c, w, es := Lone(id, e), LoneStage(id, e, j), HalfAborted()[j..];
            Shape(c, w) && Run(c, w, es) == LoneStage(id, e, |HalfAborted()|) && Heeded(c, w, es)
    decreases |HalfAborted()| - j
  {
    hide Step, LoneStage, Lone, HalfAborted, Heeds;
    var c, w, es := Lone(id, e), LoneStage(id, e, j), HalfAborted()[j..];
    if j < |HalfAborted()| {
      LoneStep(id, e, j);
      LoneRun(id, e, j + 1);
      assert es[1..] == HalfAborted()[j + 1..];
    } else {
      LoneEnd(id, e);
    }
  }

  lemma LoneEnd(id: VaultId, e: Entry)
    ensures Shape(Lone(id, e), LoneStage(id, e, |HalfAborted()|))
  {
  }

  lemma LoneStart(id: VaultId, e: Entry)
    ensures Start(Lone(id, e)) == LoneStage(id, e, 0)
  {
    var none: seq<Replacement> := seq(1, _ => Absent);
    assert none == [Absent];
    assert First([id], 1) == {[id][0]};
  }

  /** Half an abort leaves Migrated on record, and resuming then loses the environment: its old vault is
  deleted and it has no new one. */
  lemma HalfAbortThenResumeLoses(id: VaultId, e: Entry) returns (k: nat)
    ensures var c := Lone(id, e); MoveOk(c) && Shape(c, Start(c))
    ensures var c := Lone(id, e);
            var w := Run(c, Start(c), HalfAborted());
            && Heeded(c, Start(c), HalfAborted())
            && w.saved == Some(Saved(Migrated, false)) && !Heeds(w, Resume)
            && !Whole(c, Steps(c, Step(c, w, Resume), k), 0)
  {
    hide Steps, Run, Heeded, MoveOk, Step, Whole, AllPartial, Underway, Start;
    LoneIsOk(id, e);
    var c := Lone(id, e);
    LoneStart(id, e);
    StartIsGood(c);
    LoneRun(id, e, 0);
    assert HalfAborted()[0..] == HalfAborted();
    EveryRunIsGood(c, Start(c), HalfAborted());
    var w := Run(c, Start(c), HalfAborted());
    ResumeFromMigrated(c, w);
    assert w.vaults[0].Absent?;
    var n: nat, i: nat :| i < |c.nodes| && !Whole(c, Steps(c, Step(c, w, Resume), n), i);
    k := n;
  }
}
