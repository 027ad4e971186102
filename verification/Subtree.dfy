/** The subtree a re-root moves: the walk that lists it, and how the old keys are seen again from it. */
module Subtree {
  import opened Types

  type Path = seq<string>

  /** What a node's key opens: its vault, and its children record with each child's own key. */
  datatype Tree = Node(id: VaultId, children: seq<Child>)
  datatype Child = Child(seg: string, tree: Tree)

  function Find(children: seq<Child>, seg: string): Option<Tree> {
    if children == [] then None
    else if children[0].seg == seg then Some(children[0].tree)
    else Find(children[1..], seg)
  }

  /** The node at `p` below `t`. */
  function Lookup(t: Tree, p: Path): Option<Tree>
    decreases |p|
  {
    if p == [] then Some(t) else
      match Lookup(t, p[..|p| - 1])
      case None => None
      case Some(parent) => Find(parent.children, p[|p| - 1])
  }

  function ParentOf(p: Path): Path
    requires p != []
  {
    p[..|p| - 1]
  }

  /** No node lists a segment twice: a children record refuses duplicates. */
  ghost predicate Distinct(children: seq<Child>) {
    forall i, j :: 0 <= i < j < |children| ==> children[i].seg != children[j].seg
  }

  ghost predicate WellFormed(root: Tree) {
    forall p :: Lookup(root, p).Some? ==> Distinct(Lookup(root, p).value.children)
  }

  lemma {:induction false} FindIs(children: seq<Child>, i: nat)
    requires Distinct(children) && i < |children|
    ensures Find(children, children[i].seg) == Some(children[i].tree)
  {
    if i > 0 {
      FindIs(children[1..], i - 1);
    }
  }

  lemma {:induction false} FoundIn(children: seq<Child>, seg: string) returns (i: nat)
    requires Find(children, seg).Some?
    ensures i < |children| && children[i].seg == seg && Find(children, seg) == Some(children[i].tree)
  {
    if children[0].seg == seg {
      i := 0;
    } else {
      i := FoundIn(children[1..], seg);
      i := i + 1;
    }
  }

  // ------------------------------------------------------------ sizes, for termination

  function Size(t: Tree): nat
    decreases t, 0
  {
    1 + Sizes(t.children)
  }

  function Sizes(children: seq<Child>): nat
    decreases children, 1
  {
    if children == [] then 0 else Size(children[0].tree) + Sizes(children[1..])
  }

  datatype Item = Item(rel: Path, tree: Tree)

  function QueueSize(queue: seq<Item>): nat {
    if queue == [] then 0 else Size(queue[0].tree) + QueueSize(queue[1..])
  }

  lemma {:induction false} QueueSizeAppend(queue: seq<Item>, item: Item)
    ensures QueueSize(queue + [item]) == QueueSize(queue) + Size(item.tree)
  {
    if queue == [] {
      assert queue + [item] == [item];
    } else {
      QueueSizeAppend(queue[1..], item);
      assert (queue + [item])[1..] == queue[1..] + [item];
    }
  }

  lemma {:induction false} SizesAppend(children: seq<Child>, c: Child)
    ensures Sizes(children + [c]) == Sizes(children) + Size(c.tree)
  {
    if children == [] {
      assert children + [c] == [c];
    } else {
      SizesAppend(children[1..], c);
      assert (children + [c])[1..] == children[1..] + [c];
    }
  }

  // ------------------------------------------------------------ the walk

  ghost predicate Lists(listed: seq<Item>, p: Path, before: nat) {
    exists i :: 0 <= i < before && i < |listed| && listed[i].rel == p
  }

  /** Everything listed is in the tree where it says, once. */
  ghost predicate Genuine(root: Tree, listed: seq<Item>) {
    && (forall i :: 0 <= i < |listed| ==> Lookup(root, listed[i].rel) == Some(listed[i].tree))
    && (forall i, j :: 0 <= i < j < |listed| ==> listed[i].rel != listed[j].rel)
  }

  /** The root is first, and everything else is below something opened before it. */
  ghost predicate ParentsFirst(listed: seq<Item>, seen: nat) {
    && listed != [] && listed[0].rel == []
    && (forall i :: 0 < i < |listed| ==>
          listed[i].rel != [] && Lists(listed, ParentOf(listed[i].rel), if i < seen then i else seen))
  }

  /** Every child of an opened node is listed. */
  ghost predicate ChildrenListed(listed: seq<Item>, seen: nat) {
    forall j, k :: 0 <= j < seen && j < |listed| && 0 <= k < |listed[j].tree.children| ==>
      Lists(listed, listed[j].rel + [listed[j].tree.children[k].seg], |listed|)
  }

  ghost predicate Listing(root: Tree, listed: seq<Item>, seen: nat) {
    seen <= |listed| && Genuine(root, listed) && ParentsFirst(listed, seen) && ChildrenListed(listed, seen)
  }

  function ChildItems(item: Item): (items: seq<Item>)
    ensures |items| == |item.tree.children|
    ensures forall k :: 0 <= k < |items| ==>
              items[k] == Item(item.rel + [item.tree.children[k].seg], item.tree.children[k].tree)
  {
    seq(|item.tree.children|, k requires 0 <= k < |item.tree.children| =>
      Item(item.rel + [item.tree.children[k].seg], item.tree.children[k].tree))
  }

  lemma LookupBelow(root: Tree, p: Path, seg: string)
    requires Lookup(root, p).Some?
    ensures Lookup(root, p + [seg]) == Find(Lookup(root, p).value.children, seg)
  {
    assert (p + [seg])[..|p|] == p;
  }

  lemma ChildIsGenuine(root: Tree, item: Item, k: nat)
    requires WellFormed(root) && Lookup(root, item.rel) == Some(item.tree) && k < |item.tree.children|
    ensures Lookup(root, ChildItems(item)[k].rel) == Some(ChildItems(item)[k].tree)
  {
    LookupBelow(root, item.rel, item.tree.children[k].seg);
    assert Distinct(item.tree.children);
    FindIs(item.tree.children, k);
  }

  /** A child of a node not yet opened has not been listed. */
  lemma ChildIsNew(root: Tree, listed: seq<Item>, seen: nat, i: nat, seg: string)
    requires Listing(root, listed, seen) && seen < |listed| && i < |listed|
    ensures listed[i].rel != listed[seen].rel + [seg]
  {
    hide ChildrenListed, Lookup;
    if i > 0 {
      var j :| 0 <= j < seen && j < |listed| && listed[j].rel == ParentOf(listed[i].rel);
      assert listed[j].rel != listed[seen].rel;
      assert ParentOf(listed[seen].rel + [seg]) == listed[seen].rel;
    }
  }

  lemma OpenedAreApart(root: Tree, listed: seq<Item>, seen: nat, i: nat, j: nat)
    requires WellFormed(root) && Listing(root, listed, seen) && seen < |listed|
    requires i < j < |listed| + |listed[seen].tree.children|
    ensures var more := listed + ChildItems(listed[seen]); more[i].rel != more[j].rel
  {
    hide WellFormed, ParentsFirst, ChildrenListed, Lookup;
    var item := listed[seen];
    if j >= |listed| {
      if i < |listed| {
        ChildIsNew(root, listed, seen, i, item.tree.children[j - |listed|].seg);
      } else {
        ChildrenDiffer(root, item, i - |listed|, j - |listed|);
      }
    }
  }

  lemma OpenedIsGenuine(root: Tree, listed: seq<Item>, seen: nat)
    requires WellFormed(root) && Listing(root, listed, seen) && seen < |listed|
    ensures Genuine(root, listed + ChildItems(listed[seen]))
  {
    hide WellFormed, ParentsFirst, ChildrenListed, Lookup;
    var item := listed[seen];
    var more := listed + ChildItems(item);
    forall i | 0 <= i < |more|
      ensures Lookup(root, more[i].rel) == Some(more[i].tree)
    {
      if i >= |listed| {
        ChildIsGenuine(root, item, i - |listed|);
      }
    }
    forall i, j | 0 <= i < j < |more|
      ensures more[i].rel != more[j].rel
    {
      OpenedAreApart(root, listed, seen, i, j);
    }
  }

  lemma ChildrenDiffer(root: Tree, item: Item, i: nat, j: nat)
    requires WellFormed(root) && Lookup(root, item.rel) == Some(item.tree) && i < j < |item.tree.children|
    ensures ChildItems(item)[i].rel != ChildItems(item)[j].rel
  {
    assert Distinct(item.tree.children);
    var a, b := item.tree.children[i].seg, item.tree.children[j].seg;
    assert (item.rel + [a])[|item.rel|] == a && (item.rel + [b])[|item.rel|] == b;
  }

  lemma ListsMore(listed: seq<Item>, extra: seq<Item>, p: Path, before: nat, before': nat)
    requires Lists(listed, p, before) && before <= before'
    ensures Lists(listed + extra, p, before')
  {
    var i :| 0 <= i < before && i < |listed| && listed[i].rel == p;
    assert (listed + extra)[i].rel == p;
  }

  /** Opening the next node and listing its children keeps the listing. */
  lemma OpenNext(root: Tree, listed: seq<Item>, seen: nat)
    requires WellFormed(root) && Listing(root, listed, seen) && seen < |listed|
    ensures Listing(root, listed + ChildItems(listed[seen]), seen + 1)
  {
    hide WellFormed, Lists;
    var item := listed[seen];
    var extra := ChildItems(item);
    var more := listed + extra;
    OpenedIsGenuine(root, listed, seen);
    hide Genuine;
    forall i | 0 < i < |more|
      ensures more[i].rel != [] && Lists(more, ParentOf(more[i].rel), if i < seen + 1 then i else seen + 1)
    {
      if i < |listed| {
        ListsMore(listed, extra, ParentOf(listed[i].rel), if i < seen then i else seen,
            if i < seen + 1 then i else seen + 1);
      } else {
        assert ParentOf(more[i].rel) == item.rel;
        ListedAt(more, seen, seen + 1);
      }
    }
    forall j, k | 0 <= j < seen + 1 && 0 <= k < |more[j].tree.children|
      ensures Lists(more, more[j].rel + [more[j].tree.children[k].seg], |more|)
    {
      if j < seen {
        assert more[j] == listed[j];
        ListsMore(listed, extra, listed[j].rel + [listed[j].tree.children[k].seg], |listed|, |more|);
      } else {
        assert more[|listed| + k].rel == item.rel + [item.tree.children[k].seg];
        ListedAt(more, |listed| + k, |more|);
      }
    }
  }

  lemma ListedAt(listed: seq<Item>, i: nat, before: nat)
    requires i < before && i < |listed|
    ensures Lists(listed, listed[i].rel, before)
  {
  }

  lemma ChildIsListed(root: Tree, listed: seq<Item>, p: Path)
    requires Listing(root, listed, |listed|) && p != [] && Lookup(root, p).Some?
    requires Lists(listed, ParentOf(p), |listed|)
    ensures Lists(listed, p, |listed|)
  {
    hide ParentsFirst;
    var j :| 0 <= j < |listed| && listed[j].rel == ParentOf(p);
    var tree := listed[j].tree;
    assert Lookup(root, ParentOf(p)) == Some(tree);
    var k := FoundIn(tree.children, p[|p| - 1]);
    assert p == listed[j].rel + [tree.children[k].seg];
  }

  /** When every listed node has been opened, everything in the tree is listed. */
  lemma {:induction false} AllListed(root: Tree, listed: seq<Item>, p: Path)
    requires Listing(root, listed, |listed|) && Lookup(root, p).Some?
    ensures Lists(listed, p, |listed|)
    decreases |p|
  {
    hide Genuine, ChildrenListed, Lists;
    if p == [] {
      ListedAt(listed, 0, |listed|);
    } else {
      AllListed(root, listed, ParentOf(p));
      ChildIsListed(root, listed, p);
    }
  }

  /** What a plan's node list promises: the whole subtree, each node once, every node after its parent. */
  ghost predicate Plan(root: Tree, nodes: seq<Path>, ids: seq<VaultId>) {
    && |nodes| == |ids| && nodes != [] && nodes[0] == []
    && (forall p :: p in nodes <==> Lookup(root, p).Some?)
    && (forall i, j :: 0 <= i < j < |nodes| ==> nodes[i] != nodes[j])
    && (forall i :: 0 < i < |nodes| ==> nodes[i] != [] && ParentOf(nodes[i]) in nodes[..i])
    && (forall i :: 0 <= i < |nodes| ==> Lookup(root, nodes[i]).Some? && Lookup(root, nodes[i]).value.id == ids[i])
  }

  /** Put a node's children at the end of the queue. */
  method Enqueue(rest: seq<Item>, item: Item) returns (queue: seq<Item>)
    ensures queue == rest + ChildItems(item)
    ensures QueueSize(queue) == QueueSize(rest) + Sizes(item.tree.children)
  {
    hide QueueSize, Sizes;
    queue := rest;
    assert item.tree.children[..0] == [];
    assert Sizes([]) == 0 by { SizesNone(); }
    for k := 0 to |item.tree.children|
      invariant queue == rest + ChildItems(item)[..k]
      invariant QueueSize(queue) == QueueSize(rest) + Sizes(item.tree.children[..k])
    {
      var c := item.tree.children[k];
      var below := Item(item.rel + [c.seg], c.tree);
      QueueSizeAppend(queue, below);
      SizesAppend(item.tree.children[..k], c);
      assert item.tree.children[..k + 1] == item.tree.children[..k] + [c];
      assert ChildItems(item)[..k + 1] == ChildItems(item)[..k] + [below];
      queue := queue + [below];
    }
    assert item.tree.children[..|item.tree.children|] == item.tree.children;
    assert ChildItems(item)[..|item.tree.children|] == ChildItems(item);
  }

  lemma SizesNone()
    ensures Sizes([]) == 0
  {
  }

  /** The breadth-first walk of the old subtree. */
  method Walk(root: Tree) returns (nodes: seq<Path>, ids: seq<VaultId>)
    requires WellFormed(root)
    ensures Plan(root, nodes, ids)
  {
    hide Genuine, ParentsFirst, ChildrenListed, WellFormed, Lookup, Plan;
    nodes, ids := [], [];
    var queue := [Item([], root)];
    ghost var listed := queue;
    assert Listing(root, listed, 0) by { StartListing(root); }
    while queue != []
      invariant |nodes| == |ids| <= |listed| && Listing(root, listed, |nodes|)
      invariant queue == listed[|nodes|..]
      invariant forall i :: 0 <= i < |nodes| ==> nodes[i] == listed[i].rel && ids[i] == listed[i].tree.id
      decreases QueueSize(queue)
    {
      var item := queue[0];
      assert item == listed[|nodes|];
      OpenNext(root, listed, |nodes|);
      assert (listed + ChildItems(item))[|nodes| + 1..] == queue[1..] + ChildItems(item);
      queue := Enqueue(queue[1..], item);
      listed := listed + ChildItems(item);
      nodes, ids := nodes + [item.rel], ids + [item.tree.id];
    }
    ListingIsPlan(root, listed, nodes, ids);
  }

  lemma StartListing(root: Tree)
    ensures Listing(root, [Item([], root)], 0)
  {
  }

  lemma ListedNodes(root: Tree, listed: seq<Item>, nodes: seq<Path>, p: Path)
    requires Listing(root, listed, |listed|)
    requires |nodes| == |listed| && forall i :: 0 <= i < |nodes| ==> nodes[i] == listed[i].rel
    ensures p in nodes <==> Lookup(root, p).Some?
  {
    hide ParentsFirst, ChildrenListed;
    if Lookup(root, p).Some? {
      AllListed(root, listed, p);
      var i :| 0 <= i < |listed| && listed[i].rel == p;
      assert nodes[i] == p;
    }
  }

  lemma ListedAfterParent(root: Tree, listed: seq<Item>, nodes: seq<Path>, i: nat)
    requires ParentsFirst(listed, |listed|) && 0 < i < |listed|
    requires |nodes| == |listed| && forall i :: 0 <= i < |nodes| ==> nodes[i] == listed[i].rel
    ensures nodes[i] != [] && ParentOf(nodes[i]) in nodes[..i]
  {
    var j :| 0 <= j < i && listed[j].rel == ParentOf(listed[i].rel);
    assert nodes[..i][j] == listed[j].rel;
  }

  lemma ListingIsPlan(root: Tree, listed: seq<Item>, nodes: seq<Path>, ids: seq<VaultId>)
    requires Listing(root, listed, |listed|)
    requires |nodes| == |ids| == |listed|
    requires forall i :: 0 <= i < |nodes| ==> nodes[i] == listed[i].rel && ids[i] == listed[i].tree.id
    ensures Plan(root, nodes, ids)
  {
    hide ChildrenListed, Lookup, Lists;
    forall p
      ensures p in nodes <==> Lookup(root, p).Some?
    {
      ListedNodes(root, listed, nodes, p);
    }
    forall i | 0 < i < |nodes|
      ensures nodes[i] != [] && ParentOf(nodes[i]) in nodes[..i]
    {
      ListedAfterParent(root, listed, nodes, i);
    }
  }

  // ------------------------------------------------------------ opening the old keys again

  /** The old key at `p`, opened from the root's down through the children records of vaults that still
  exist; none where an ancestor's vault is gone. A key is the tree it opens. */
  function KeyFor(root: Tree, alive: set<VaultId>, p: Path): Option<Tree>
    decreases |p|
  {
    if p == [] then Some(root) else
      match KeyFor(root, alive, ParentOf(p))
      case None => None
      case Some(parent) => if parent.id in alive then Find(parent.children, p[|p| - 1]) else None
  }

  datatype KeyError = Damaged | NoLongerListed | ChangedSincePlanned

  method Position(nodes: seq<Path>, p: Path) returns (at: Option<nat>)
    ensures at.Some? ==> at.value < |nodes| && nodes[at.value] == p
    ensures at.None? ==> p !in nodes
  {
    for i := 0 to |nodes|
      invariant p !in nodes[..i]
    {
      if nodes[i] == p {
        return Some(i);
      }
      assert nodes[..i + 1] == nodes[..i] + [nodes[i]];
    }
    assert nodes[..|nodes|] == nodes;
    return None;
  }

  lemma PlanAt(root: Tree, nodes: seq<Path>, ids: seq<VaultId>, i: nat)
    requires Plan(root, nodes, ids) && i < |nodes|
    ensures |nodes| == |ids|
    ensures nodes[i] != [] ==> ParentOf(nodes[i]) in nodes[..i]
    ensures Lookup(root, nodes[i]).Some? && Lookup(root, nodes[i]).value.id == ids[i]
  {
    hide Lookup;
  }

  /** The node can be found again: its planned parent comes before it, and still lists it. */
  ghost predicate Findable(root: Tree, before: seq<Path>, p: Path) {
    (p != [] ==> ParentOf(p) in before) && Lookup(root, p).Some?
  }

  /** One node's key, from the keys found for the nodes before it. */
  method OpenKey(root: Tree, alive: set<VaultId>, before: seq<Path>, found: seq<Option<Tree>>, p: Path)
    returns (key: Result<Option<Tree>, KeyError>)
    requires |before| == |found| && forall j :: 0 <= j < |before| ==> found[j] == KeyFor(root, alive, before[j])
    ensures key.Ok? ==> key.value == KeyFor(root, alive, p)
    ensures Findable(root, before, p) ==> key.Ok?
  {
    hide Lookup, KeyFor;
    KeyForStep(root, alive, p);
    if p == [] {
      return Ok(Some(root));
    }
    var at := Position(before, ParentOf(p));
    if at.None? {
      return Err(Damaged);
    }
    var parent := found[at.value];
    if parent.None? || parent.value.id !in alive {
      return Ok(None);
    }
    PlannedIsListed(root, alive, p, parent.value);
    var entry := Find(parent.value.children, p[|p| - 1]);
    if entry.None? {
      return Err(NoLongerListed);
    }
    return Ok(entry);
  }

  /** Each node's old key, or none where an ancestor is gone; every key found is for the vault planned.
  On the plan the walk made, while the surviving vaults' children records are as they were, it never
  fails. */
  method OldKeys(root: Tree, alive: set<VaultId>, nodes: seq<Path>, ids: seq<VaultId>)
    returns (keys: Result<seq<Option<Tree>>, KeyError>)
    ensures keys.Ok? ==> |keys.value| == |nodes|
    ensures keys.Ok? ==> forall i :: 0 <= i < |nodes| ==>
              && keys.value[i] == KeyFor(root, alive, nodes[i])
              && (keys.value[i].Some? ==> i < |ids| && keys.value[i].value.id == ids[i])
    ensures Plan(root, nodes, ids) ==> keys.Ok?
  {
    hide Lookup, KeyFor, Plan, Findable;
    var found: seq<Option<Tree>> := [];
    for i := 0 to |nodes|
      invariant |found| == i
      invariant forall j :: 0 <= j < i ==>
                  && found[j] == KeyFor(root, alive, nodes[j])
                  && (found[j].Some? ==> j < |ids| && found[j].value.id == ids[j])
    {
      KeyIsPlanned(root, alive, nodes, ids, i);
      var key := OpenKey(root, alive, nodes[..i], found, nodes[i]);
      if key.Err? {
        return Err(key.error);
      }
      if key.value.Some? && (i >= |ids| || key.value.value.id != ids[i]) {
        return Err(ChangedSincePlanned);
      }
      found := found + [key.value];
    }
    return Ok(found);
  }

  lemma KeyIsPlanned(root: Tree, alive: set<VaultId>, nodes: seq<Path>, ids: seq<VaultId>, i: nat)
    requires i < |nodes|
    ensures Plan(root, nodes, ids) ==>
              && |nodes| == |ids| && Findable(root, nodes[..i], nodes[i])
              && (KeyFor(root, alive, nodes[i]).Some? ==> KeyFor(root, alive, nodes[i]).value.id == ids[i])
  {
    hide KeyFor, Lookup, Plan;
    if Plan(root, nodes, ids) {
      PlanAt(root, nodes, ids, i);
      KeyIsNode(root, alive, nodes[i]);
    }
  }

  lemma KeyForStep(root: Tree, alive: set<VaultId>, p: Path)
    ensures KeyFor(root, alive, p) ==
            if p == [] then Some(root) else
              match KeyFor(root, alive, ParentOf(p))
              case None => None
              case Some(parent) => if parent.id in alive then Find(parent.children, p[|p| - 1]) else None
  {
  }

  /** A key that is found is the node's own. */
  lemma {:induction false} KeyIsNode(root: Tree, alive: set<VaultId>, p: Path)
    ensures KeyFor(root, alive, p).Some? ==> KeyFor(root, alive, p) == Lookup(root, p)
    decreases |p|
  {
    if p != [] {
      KeyIsNode(root, alive, ParentOf(p));
    }
  }

  lemma PlannedIsListed(root: Tree, alive: set<VaultId>, p: Path, parent: Tree)
    requires p != [] && KeyFor(root, alive, ParentOf(p)) == Some(parent)
    ensures Lookup(root, p).Some? ==> Find(parent.children, p[|p| - 1]).Some?
  {
    KeyIsNode(root, alive, ParentOf(p));
  }

  /** Deleting from the end leaves the first nodes of the plan. From any such prefix, every survivor's
  key can be opened again. */
  lemma {:induction false} SurvivorsHaveKeys(root: Tree, alive: set<VaultId>, nodes: seq<Path>, ids: seq<VaultId>,
                        n: nat, i: nat)
    requires Plan(root, nodes, ids) && i < n <= |nodes|
    requires forall j :: 0 <= j < n ==> ids[j] in alive
    ensures KeyFor(root, alive, nodes[i]) == Lookup(root, nodes[i]) && Lookup(root, nodes[i]).Some?
    decreases i
  {
    if i > 0 {
      var j :| 0 <= j < i && nodes[..i][j] == ParentOf(nodes[i]);
      SurvivorsHaveKeys(root, alive, nodes, ids, n, j);
    }
  }
}
