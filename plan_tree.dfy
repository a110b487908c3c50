/**
 * The agent's plan tree (`PlanTreeNode`): goal nodes linked by parent and child
 * references, searched and traversed in pre-order.  Nodes live in an arena and
 * are referred to by their position in it; a node's `id` is the plan number the
 * model writes in `branch [id] [...]` and `prune [id] [...]`, which is a
 * different number.
 */
module PlanTrees {
  import opened Wrappers
  import opened Text

  /** What a `PlanTreeNode` stores besides its parent and child links. */
  datatype PlanNode = PlanNode(
    id: nat, text: string, level: nat, url: string, step: nat, visible: bool,
    notes: seq<string>, hints: seq<string>, resumeReasons: seq<string>, stepsTaken: seq<nat>)

  /** A node as the constructor creates it: visible, with no notes, hints or steps. */
  function NewNode(id: nat, text: string, level: nat, url: string, step: nat): PlanNode {
    PlanNode(id, text, level, url, step, true, [], [], [], [])
  }

  /** The node after `reset`: visible again, notes, hints and steps dropped. */
  function Cleared(n: PlanNode): PlanNode {
    n.(visible := true, notes := [], hints := [], stepsTaken := [])
  }

  /** Every child comes after its parent in the arena. */
  predicate Ordered(children: seq<seq<nat>>) {
    forall k, m :: 0 <= k < |children| && 0 <= m < |children[k]| ==> k < children[k][m] < |children|
  }

  /**
   * The parent and child links agree: position 0 is the root, every other node
   * has an earlier parent that lists it once among its children.
   */
  predicate Linked(children: seq<seq<nat>>, parent: seq<int>) {
    && |children| == |parent|
    && |parent| > 0
    && parent[0] == -1
    && Ordered(children)
    && (forall j :: 0 < j < |parent| ==> 0 <= parent[j] < j && j in children[parent[j]])
    && (forall k, m :: 0 <= k < |children| && 0 <= m < |children[k]| ==> parent[children[k][m]] == k)
    && (forall k, m1, m2 :: 0 <= k < |children| && 0 <= m1 < m2 < |children[k]| ==>
          children[k][m1] != children[k][m2])
  }

  /** The nodes of the subtree rooted at i, in the order `traverse` visits them. */
  function PreOrder(children: seq<seq<nat>>, i: nat): (r: seq<nat>)
    requires Ordered(children) && i < |children|
    ensures |r| > 0 && r[0] == i
    ensures forall k :: 0 <= k < |r| ==> i <= r[k] < |children|
    decreases |children| - i, 1
  {
    [i] + Forest(children, children[i], i)
  }

  /** The pre-order of the subtrees rooted at cs, one after the other. */
  function Forest(children: seq<seq<nat>>, cs: seq<nat>, lo: nat): (r: seq<nat>)
    requires Ordered(children) && forall k :: 0 <= k < |cs| ==> lo < cs[k] < |children|
    ensures forall k :: 0 <= k < |r| ==> lo < r[k] < |children|
    decreases |children| - lo, 0, |cs|
  {
    if cs == [] then [] else PreOrder(children, cs[0]) + Forest(children, cs[1..], lo)
  }

  lemma {:induction false} ForestAppend(children: seq<seq<nat>>, a: seq<nat>, b: seq<nat>, lo: nat)
    requires Ordered(children)
    requires forall k :: 0 <= k < |a| ==> lo < a[k] < |children|
    requires forall k :: 0 <= k < |b| ==> lo < b[k] < |children|
    ensures Forest(children, a + b, lo) == Forest(children, a, lo) + Forest(children, b, lo)
    decreases |a|
  {
    if a != [] {
      ForestAppend(children, a[1..], b, lo);
      ForestAppendHead(children, a, b, lo);
    } else {
      assert a + b == b;
    }
  }

  lemma ForestAppendHead(children: seq<seq<nat>>, a: seq<nat>, b: seq<nat>, lo: nat)
    requires Ordered(children) && a != []
    requires forall k :: 0 <= k < |a| ==> lo < a[k] < |children|
    requires forall k :: 0 <= k < |b| ==> lo < b[k] < |children|
    ensures Forest(children, a + b, lo) == PreOrder(children, a[0]) + Forest(children, a[1..] + b, lo)
  {
    assert (a + b)[0] == a[0] && (a + b)[1..] == a[1..] + b;
  }

  /** Adding one more root to a forest appends that root's subtree. */
  lemma ForestSnoc(children: seq<seq<nat>>, cs: seq<nat>, k: nat, lo: nat)
    requires Ordered(children) && k < |cs|
    requires forall m :: 0 <= m < |cs| ==> lo < cs[m] < |children|
    ensures Forest(children, cs[..k + 1], lo) == Forest(children, cs[..k], lo) + PreOrder(children, cs[k])
  {
    assert cs[..k + 1] == cs[..k] + [cs[k]];
    ForestAppend(children, cs[..k], [cs[k]], lo);
    assert Forest(children, [cs[k]], lo) == PreOrder(children, cs[k]) + Forest(children, [], lo);
  }

  /** A node is in a forest exactly when it is in the subtree of one of its roots. */
  lemma {:induction false} InForest(children: seq<seq<nat>>, cs: seq<nat>, lo: nat, x: nat)
    requires Ordered(children) && forall k :: 0 <= k < |cs| ==> lo < cs[k] < |children|
    ensures x in Forest(children, cs, lo) <==> exists k :: 0 <= k < |cs| && x in PreOrder(children, cs[k])
    decreases |cs|
  {
    if cs != [] {
      InForest(children, cs[1..], lo, x);
      if x in Forest(children, cs, lo) && x !in PreOrder(children, cs[0]) {
        var k :| 0 <= k < |cs[1..]| && x in PreOrder(children, cs[1..][k]);
        assert cs[1..][k] == cs[k + 1];
      }
      if exists k :: 0 <= k < |cs| && x in PreOrder(children, cs[k]) {
        var k :| 0 <= k < |cs| && x in PreOrder(children, cs[k]);
        if k > 0 {
          assert cs[1..][k - 1] == cs[k];
        }
      }
    }
  }

  /** The subtree of a child lies inside the subtree of its parent. */
  lemma ChildSubtree(children: seq<seq<nat>>, i: nat, m: nat, x: nat)
    requires Ordered(children) && i < |children| && m < |children[i]|
    requires x in PreOrder(children, children[i][m])
    ensures x in PreOrder(children, i)
  {
    InForest(children, children[i], i, x);
  }

  /** Subtrees nest: a node below p, where p is below i, is below i. */
  lemma {:induction false} SubtreeTransitive(children: seq<seq<nat>>, i: nat, p: nat, x: nat)
    requires Ordered(children) && i < |children|
    requires p in PreOrder(children, i) && x in PreOrder(children, p)
    ensures x in PreOrder(children, i)
    decreases |children| - i
  {
    if p != i {
      InForest(children, children[i], i, p);
      var m :| 0 <= m < |children[i]| && p in PreOrder(children, children[i][m]);
      SubtreeTransitive(children, children[i][m], p, x);
      ChildSubtree(children, i, m, x);
    }
  }

  /** Every node of a subtree other than its root has its parent in the same subtree. */
  lemma {:induction false} ParentInSubtree(children: seq<seq<nat>>, parent: seq<int>, i: nat, j: nat)
    requires Linked(children, parent) && i < |children|
    requires j in PreOrder(children, i) && j != i
    ensures 0 < j && 0 <= parent[j] && parent[j] in PreOrder(children, i)
    decreases |children| - i
  {
    InForest(children, children[i], i, j);
    var m :| 0 <= m < |children[i]| && j in PreOrder(children, children[i][m]);
    var c := children[i][m];
    if j != c {
      ParentInSubtree(children, parent, c, j);
      ChildSubtree(children, i, m, parent[j]);
    }
  }

  /**
   * The subtree of i, described by parent links alone: j is below i exactly
   * when j is i or the parent of j is below i.
   */
  lemma SubtreeByParent(children: seq<seq<nat>>, parent: seq<int>, i: nat, j: nat)
    requires Linked(children, parent) && i < |children| && j < |children|
    ensures j in PreOrder(children, i) <==>
      j == i || (0 < j && parent[j] in PreOrder(children, i))
  {
    if j != i && 0 < j && parent[j] in PreOrder(children, i) {
      var p := parent[j];
      var m :| 0 <= m < |children[p]| && children[p][m] == j;
      ChildSubtree(children, p, m, j);
      SubtreeTransitive(children, i, p, j);
    }
    if j in PreOrder(children, i) && j != i {
      ParentInSubtree(children, parent, i, j);
    }
  }

  /** Every node of the arena is reachable from the root. */
  lemma {:induction false} Reachable(children: seq<seq<nat>>, parent: seq<int>, j: nat)
    requires Linked(children, parent) && j < |children|
    ensures j in PreOrder(children, 0)
  {
    if j > 0 {
      Reachable(children, parent, parent[j] as nat);
      SubtreeByParent(children, parent, 0, j);
    }
  }

  /** A sibling of i is never inside the subtree of i. */
  lemma SiblingOutsideSubtree(children: seq<seq<nat>>, parent: seq<int>, i: nat, m: nat)
    requires Linked(children, parent) && 0 < i < |children|
    requires m < |children[parent[i]]| && children[parent[i]][m] != i
    ensures children[parent[i]][m] !in PreOrder(children, i)
  {
    var s := children[parent[i]][m];
    if s in PreOrder(children, i) {
      ParentInSubtree(children, parent, i, s);
    }
  }

  /** Whether node j is visible and carries plan number `target`. */
  predicate Matches(nodes: seq<PlanNode>, j: nat, target: nat)
    requires j < |nodes|
  {
    nodes[j].visible && nodes[j].id == target
  }

  /** The first node of `order` that is visible with plan number `target`. */
  function FirstMatch(nodes: seq<PlanNode>, order: seq<nat>, target: nat): (r: Option<nat>)
    requires forall k :: 0 <= k < |order| ==> order[k] < |nodes|
    ensures r.Some? ==> r.value in order && r.value < |nodes| && Matches(nodes, r.value, target)
    ensures r.None? ==> forall k :: 0 <= k < |order| ==> !Matches(nodes, order[k], target)
  {
    if order == [] then None
    else if Matches(nodes, order[0], target) then Some(order[0])
    else FirstMatch(nodes, order[1..], target)
  }

  lemma {:induction false} FirstMatchAppend(nodes: seq<PlanNode>, a: seq<nat>, b: seq<nat>, target: nat)
    requires forall k :: 0 <= k < |a| ==> a[k] < |nodes|
    requires forall k :: 0 <= k < |b| ==> b[k] < |nodes|
    ensures FirstMatch(nodes, a + b, target) ==
      if FirstMatch(nodes, a, target).Some? then FirstMatch(nodes, a, target) else FirstMatch(nodes, b, target)
    decreases |a|
  {
    if a != [] {
      assert (a + b)[1..] == a[1..] + b;
      FirstMatchAppend(nodes, a[1..], b, target);
    } else {
      assert a + b == b;
    }
  }

  /** `search_node_by_id` on the subtree of i: the node itself, else each child's subtree in turn. */
  function Find(nodes: seq<PlanNode>, children: seq<seq<nat>>, i: nat, target: nat): (r: Option<nat>)
    requires Ordered(children) && |nodes| == |children| && i < |children|
    ensures r.Some? ==> r.value < |nodes| && Matches(nodes, r.value, target)
    decreases |children| - i, 1
  {
    if Matches(nodes, i, target) then Some(i) else FindIn(nodes, children, children[i], i, target)
  }

  function FindIn(nodes: seq<PlanNode>, children: seq<seq<nat>>, cs: seq<nat>, lo: nat, target: nat): (r: Option<nat>)
    requires Ordered(children) && |nodes| == |children|
    requires forall k :: 0 <= k < |cs| ==> lo < cs[k] < |children|
    ensures r.Some? ==> r.value < |nodes| && Matches(nodes, r.value, target)
    decreases |children| - lo, 0, |cs|
  {
    if cs == [] then None
    else match Find(nodes, children, cs[0], target)
      case Some(r) => Some(r)
      case None => FindIn(nodes, children, cs[1..], lo, target)
  }

  /** The recursive search finds the first matching node of the pre-order walk. */
  lemma {:induction false} FindIsFirstMatch(nodes: seq<PlanNode>, children: seq<seq<nat>>, i: nat, target: nat)
    requires Ordered(children) && |nodes| == |children| && i < |children|
    ensures Find(nodes, children, i, target) == FirstMatch(nodes, PreOrder(children, i), target)
    decreases |children| - i, 1
  {
    FindInIsFirstMatch(nodes, children, children[i], i, target);
    FirstMatchAppend(nodes, [i], Forest(children, children[i], i), target);
  }

  lemma {:induction false} FindInIsFirstMatch(nodes: seq<PlanNode>, children: seq<seq<nat>>, cs: seq<nat>, lo: nat, target: nat)
    requires Ordered(children) && |nodes| == |children|
    requires forall k :: 0 <= k < |cs| ==> lo < cs[k] < |children|
    ensures FindIn(nodes, children, cs, lo, target) == FirstMatch(nodes, Forest(children, cs, lo), target)
    decreases |children| - lo, 0, |cs|
  {
    if cs != [] {
      FindIsFirstMatch(nodes, children, cs[0], target);
      FindInIsFirstMatch(nodes, children, cs[1..], lo, target);
      FirstMatchAppend(nodes, PreOrder(children, cs[0]), Forest(children, cs[1..], lo), target);
    }
  }

  /** The steps `traverse(return_steps_taken)` gathers: each node's own step, then the steps it records. */
  function StepsAlong(nodes: seq<PlanNode>, order: seq<nat>): seq<nat>
    requires forall k :: 0 <= k < |order| ==> order[k] < |nodes|
  {
    if order == [] then []
    else [nodes[order[0]].step] + nodes[order[0]].stepsTaken + StepsAlong(nodes, order[1..])
  }

  /** A step is gathered exactly when some visited node started at it or recorded it. */
  lemma {:induction false} StepsAlongElements(nodes: seq<PlanNode>, order: seq<nat>, x: nat)
    requires forall k :: 0 <= k < |order| ==> order[k] < |nodes|
    ensures x in StepsAlong(nodes, order) <==>
      exists k :: 0 <= k < |order| && (x == nodes[order[k]].step || x in nodes[order[k]].stepsTaken)
  {
    if order != [] {
      StepsAlongElements(nodes, order[1..], x);
      if x in StepsAlong(nodes, order[1..]) {
        var k :| 0 <= k < |order[1..]| && (x == nodes[order[1..][k]].step || x in nodes[order[1..][k]].stepsTaken);
        assert order[1..][k] == order[k + 1];
      }
      if exists k :: 0 <= k < |order| && (x == nodes[order[k]].step || x in nodes[order[k]].stepsTaken) {
        var k :| 0 <= k < |order| && (x == nodes[order[k]].step || x in nodes[order[k]].stepsTaken);
        if k > 0 {
          assert order[1..][k - 1] == order[k];
        }
      }
    }
  }

  /** Gathering steps looks at nothing but the steps. */
  lemma {:induction false} StepsAlongSameSteps(a: seq<PlanNode>, b: seq<PlanNode>, order: seq<nat>)
    requires |a| == |b|
    requires forall j :: 0 <= j < |a| ==> a[j].step == b[j].step && a[j].stepsTaken == b[j].stepsTaken
    requires forall k :: 0 <= k < |order| ==> order[k] < |a|
    ensures StepsAlong(a, order) == StepsAlong(b, order)
  {
    if order != [] {
      StepsAlongSameSteps(a, b, order[1..]);
    }
  }

  predicate Increasing(s: seq<nat>) {
    forall a, b :: 0 <= a < b < |s| ==> s[a] < s[b]
  }

  function Insert(s: seq<nat>, x: nat): (r: seq<nat>)
    requires Increasing(s)
    ensures Increasing(r)
    ensures forall y :: y in r <==> y in s || y == x
  {
    if s == [] then [x]
    else if x < s[0] then [x] + s
    else if x == s[0] then s
    else
      var t := Insert(s[1..], x);
      assert forall b :: 0 <= b < |t| ==> t[b] in t;
      [s[0]] + t
  }

  /** Python's `sorted(list(set(xs)))`: the distinct values of xs in ascending order. */
  function SortedSet(xs: seq<nat>): (r: seq<nat>)
    ensures Increasing(r)
    ensures forall y :: y in r <==> y in xs
  {
    if xs == [] then []
    else
      var init := xs[..|xs| - 1];
      assert xs == init + [xs[|xs| - 1]];
      Insert(SortedSet(init), xs[|xs| - 1])
  }

  /** Two ascending lists with the same values are the same list. */
  lemma {:induction false} IncreasingUnique(a: seq<nat>, b: seq<nat>)
    requires Increasing(a) && Increasing(b)
    requires forall y :: y in a <==> y in b
    ensures a == b
    decreases |a|
  {
    if a != [] { assert a[0] in a; }
    if b != [] { assert b[0] in b; }
    if a != [] {
      HeadsEqual(a, b);
      forall y
        ensures y in a[1..] <==> y in b[1..]
      {
        TailMember(a, y);
        TailMember(b, y);
      }
      IncreasingUnique(a[1..], b[1..]);
      assert a == [a[0]] + a[1..];
      assert b == [b[0]] + b[1..];
    }
  }

  lemma HeadsEqual(a: seq<nat>, b: seq<nat>)
    requires Increasing(a) && Increasing(b) && a != [] && b != []
    requires forall y :: y in a <==> y in b
    ensures a[0] == b[0]
  {
    assert a[0] in b && b[0] in a;
    var i :| 0 <= i < |b| && b[i] == a[0];
    var j :| 0 <= j < |a| && a[j] == b[0];
    assert b[0] <= b[i] && a[0] <= a[j];
  }

  /** In an ascending list, the values after the head are the values other than the head. */
  lemma TailMember(a: seq<nat>, y: nat)
    requires Increasing(a) && a != []
    ensures y in a[1..] <==> y in a && y != a[0]
  {
    if y in a && y != a[0] {
      var i :| 0 <= i < |a| && a[i] == y;
      assert a[1..][i - 1] == y;
    }
    if y in a[1..] {
      var i :| 0 <= i < |a[1..]| && a[1..][i] == y;
      assert a[i + 1] == y;
    }
  }

  /** The siblings that come after node i in its parent's child list; the root has none. */
  function LaterSiblings(children: seq<seq<nat>>, parent: seq<int>, i: nat): seq<nat>
    requires Linked(children, parent) && i < |children|
  {
    if i == 0 then []
    else
      var cs := children[parent[i]];
      cs[IndexOf(cs, i) + 1..]
  }

  /** Node i is not among its own later siblings, and none of them is inside its subtree. */
  lemma LaterSiblingsOutside(children: seq<seq<nat>>, parent: seq<int>, i: nat, j: nat)
    requires Linked(children, parent) && i < |children|
    requires j in LaterSiblings(children, parent, i)
    ensures j != i && j !in PreOrder(children, i)
  {
    var cs := children[parent[i]];
    var x := IndexOf(cs, i);
    var m :| x + 1 <= m < |cs| && cs[m] == j;
    SiblingOutsideSubtree(children, parent, i, m);
  }

  /**
   * The state `prune_planning` leaves behind (AgentOccam/AgentOccam.py:653-675):
   * the later siblings and the subtree hidden, every other node untouched, and
   * the target reset, visible, with its step list rebuilt from the subtree and
   * the reason appended.
   */
  ghost predicate Pruned(before: seq<PlanNode>, children: seq<seq<nat>>, parent: seq<int>, i: nat, reason: string, after: seq<PlanNode>)
    requires Linked(children, parent) && |before| == |children| && i < |children|
  {
    && |after| == |before|
    && (forall j :: 0 <= j < |before| && j != i ==>
          after[j] == before[j].(visible := before[j].visible && j !in PreOrder(children, i)
                                             && j !in LaterSiblings(children, parent, i)))
    && after[i] == Cleared(before[i]).(
         stepsTaken := SortedSet(StepsAlong(before[i := Cleared(before[i])], PreOrder(children, i))),
         resumeReasons := before[i].resumeReasons + [reason])
  }

  /**
   * Prune acts only within its scope: the target is visible with no notes or
   * hints, its proper descendants and later siblings are hidden, its earlier
   * siblings and every node outside subtree and later siblings are unchanged.
   */
  lemma PruneScope(before: seq<PlanNode>, children: seq<seq<nat>>, parent: seq<int>, i: nat, reason: string, after: seq<PlanNode>)
    requires Linked(children, parent) && |before| == |children| && i < |children|
    requires Pruned(before, children, parent, i, reason, after)
    ensures after[i].visible && after[i].notes == [] && after[i].hints == []
    ensures forall j :: j in PreOrder(children, i) && j != i ==> !after[j].visible
    ensures forall j :: j in LaterSiblings(children, parent, i) ==> !after[j].visible
    ensures forall j :: 0 <= j < |before| && j !in PreOrder(children, i) && j !in LaterSiblings(children, parent, i) ==>
      after[j] == before[j]
    ensures 0 < i ==> forall m :: 0 <= m < IndexOf(children[parent[i]], i) ==>
      after[children[parent[i]][m]] == before[children[parent[i]][m]]
  {
    forall j | j in LaterSiblings(children, parent, i)
      ensures !after[j].visible
    {
      LaterSiblingsOutside(children, parent, i, j);
    }
    if 0 < i {
      var cs := children[parent[i]];
      var x := IndexOf(cs, i);
      forall m | 0 <= m < x
        ensures after[cs[m]] == before[cs[m]]
      {
        assert cs[m] != i;
        SiblingOutsideSubtree(children, parent, i, m);
        assert cs[m] !in cs[x + 1..];
      }
    }
  }

  /**
   * After a prune the target's step list is ascending without repeats and
   * holds exactly the target's own step and the steps of its descendants:
   * each one's step and the steps it recorded. The target's earlier list is gone.
   */
  lemma PruneSteps(before: seq<PlanNode>, children: seq<seq<nat>>, parent: seq<int>, i: nat, reason: string, after: seq<PlanNode>)
    requires Linked(children, parent) && |before| == |children| && i < |children|
    requires Pruned(before, children, parent, i, reason, after)
    ensures Increasing(after[i].stepsTaken)
    ensures after[i].resumeReasons == before[i].resumeReasons + [reason]
    ensures forall s :: s in after[i].stepsTaken <==>
      s == before[i].step
      || exists j :: j in PreOrder(children, i) && j != i && (s == before[j].step || s in before[j].stepsTaken)
  {
    forall s
      ensures s in after[i].stepsTaken <==>
        s == before[i].step
        || exists j :: j in PreOrder(children, i) && j != i && (s == before[j].step || s in before[j].stepsTaken)
    {
      StepGathered(before, children, i, s);
    }
  }

  /**
   * Once i's own list is dropped, a step is gathered over the subtree of i
   * exactly when it is i's step or the step or a recorded step of a proper descendant.
   */
  lemma StepGathered(before: seq<PlanNode>, children: seq<seq<nat>>, i: nat, s: nat)
    requires Ordered(children) && |before| == |children| && i < |children|
    ensures var order := PreOrder(children, i);
      s in StepsAlong(before[i := Cleared(before[i])], order) <==>
        s == before[i].step
        || exists j :: j in order && j != i && (s == before[j].step || s in before[j].stepsTaken)
  {
    var cleared := before[i := Cleared(before[i])];
    var order := PreOrder(children, i);
    StepsAlongElements(cleared, order, s);
    if exists j :: j in order && j != i && (s == before[j].step || s in before[j].stepsTaken) {
      var j :| j in order && j != i && (s == before[j].step || s in before[j].stepsTaken);
      var k :| 0 <= k < |order| && order[k] == j;
      assert s == cleared[order[k]].step || s in cleared[order[k]].stepsTaken;
    }
    if s in StepsAlong(cleared, order) && s != before[i].step {
      var k :| 0 <= k < |order| && (s == cleared[order[k]].step || s in cleared[order[k]].stepsTaken);
      assert order[k] != i;
      assert order[k] in order;
    }
    if s == before[i].step {
      assert s == cleared[order[0]].step;
    }
  }

  /** The three stages of `prune_planning` together give the state `Pruned` describes. */
  lemma PrunedStages(before: seq<PlanNode>, children: seq<seq<nat>>, parent: seq<int>, i: nat, reason: string,
                     s1: seq<PlanNode>, after: seq<PlanNode>)
    requires Linked(children, parent) && |before| == |children| && i < |children|
    requires |s1| == |before| && |after| == |before|
    requires forall j :: 0 <= j < |s1| ==>
      s1[j] == if j in LaterSiblings(children, parent, i) then before[j].(visible := false) else before[j]
    requires forall j :: 0 <= j < |after| && j != i ==>
      after[j] == if j in PreOrder(children, i) then s1[j].(visible := false) else s1[j]
    requires after[i] == Cleared(s1[i]).(
         stepsTaken := SortedSet(StepsAlong(s1[i := Cleared(s1[i])], PreOrder(children, i))),
         resumeReasons := s1[i].resumeReasons + [reason])
    ensures Pruned(before, children, parent, i, reason, after)
  {
    var c1 := s1[i := Cleared(s1[i])];
    var c0 := before[i := Cleared(before[i])];
    forall j | 0 <= j < |c1|
      ensures c1[j].step == c0[j].step && c1[j].stepsTaken == c0[j].stepsTaken
    {
      if j != i {
        assert s1[j].step == before[j].step && s1[j].stepsTaken == before[j].stepsTaken;
      }
    }
    StepsAlongSameSteps(c1, c0, PreOrder(children, i));
    assert after[i] == Cleared(before[i]).(stepsTaken := SortedSet(StepsAlong(c0, PreOrder(children, i))),
                                           resumeReasons := before[i].resumeReasons + [reason]) by {
      assert Cleared(s1[i]) == Cleared(before[i]);
      assert s1[i].resumeReasons == before[i].resumeReasons;
    }
    forall j | 0 <= j < |before| && j != i
      ensures after[j] == before[j].(visible := before[j].visible && j !in PreOrder(children, i)
                                                && j !in LaterSiblings(children, parent, i))
    {
    }
  }

  /** Plan numbers and levels, the only node fields the tree invariant speaks of. */
  predicate SameShape(a: seq<PlanNode>, b: seq<PlanNode>) {
    |a| == |b| && forall j :: 0 <= j < |a| ==> a[j].id == b[j].id && a[j].level == b[j].level
  }

  lemma PrunedShape(before: seq<PlanNode>, children: seq<seq<nat>>, parent: seq<int>, i: nat, reason: string, after: seq<PlanNode>)
    requires Linked(children, parent) && |before| == |children| && i < |children|
    requires Pruned(before, children, parent, i, reason, after)
    ensures SameShape(before, after)
  {
  }

  /** `after` is `before` with exactly the nodes in `hidden` made invisible. */
  ghost predicate Hides(before: seq<PlanNode>, after: seq<PlanNode>, hidden: seq<nat>) {
    |after| == |before| && forall j :: 0 <= j < |before| ==>
      after[j] == if j in hidden then before[j].(visible := false) else before[j]
  }

  /** Hiding one set of nodes and then another hides both. */
  lemma HidesCompose(a: seq<PlanNode>, b: seq<PlanNode>, c: seq<PlanNode>, h1: seq<nat>, h2: seq<nat>)
    requires Hides(a, b, h1) && Hides(b, c, h2)
    ensures Hides(a, c, h1 + h2)
  {
    forall j | 0 <= j < |a|
      ensures c[j] == if j in h1 + h2 then a[j].(visible := false) else a[j]
    {
      assert j in h1 + h2 <==> j in h1 || j in h2;
    }
  }

  /** One more child's subtree hidden extends the hidden part of the walk over the children of i. */
  lemma HidesStep(children: seq<seq<nat>>, i: nat, k: nat, before: seq<PlanNode>, mid: seq<PlanNode>, after: seq<PlanNode>)
    requires Ordered(children) && i < |children| && k < |children[i]|
    requires Hides(before, mid, Forest(children, children[i][..k], i))
    requires Hides(mid, after, PreOrder(children, children[i][k]))
    ensures Hides(before, after, Forest(children, children[i][..k + 1], i))
  {
    var cs := children[i];
    HidesCompose(before, mid, after, Forest(children, cs[..k], i), PreOrder(children, cs[k]));
    ForestSnoc(children, cs, k, i);
  }

  /** A new last child of p, at the end of the arena, keeps the links consistent. */
  lemma LinkedAddChild(children: seq<seq<nat>>, parent: seq<int>, p: nat)
    requires Linked(children, parent) && p < |children|
    ensures Linked(children[p := children[p] + [|children|]] + [[]], parent + [p])
  {
    var c := |children|;
    var ch := children[p := children[p] + [c]] + [[]];
    var pa := parent + [p];
    assert Ordered(ch) by {
      forall k, m | 0 <= k < |ch| && 0 <= m < |ch[k]|
        ensures k < ch[k][m] < |ch|
      {
        if k == p && m == |children[p]| {
        } else {
          assert ch[k][m] == children[k][m];
        }
      }
    }
    forall j | 0 < j < |pa|
      ensures 0 <= pa[j] < j && j in ch[pa[j]]
    {
      if j < c {
        assert j in children[parent[j]];
      } else {
        assert ch[p][|ch[p]| - 1] == c;
      }
    }
    forall k, m | 0 <= k < |ch| && 0 <= m < |ch[k]|
      ensures pa[ch[k][m]] == k
    {
      if k == p && m == |children[p]| {
      } else {
        assert ch[k][m] == children[k][m];
      }
    }
    forall k, m1, m2 | 0 <= k < |ch| && 0 <= m1 < m2 < |ch[k]|
      ensures ch[k][m1] != ch[k][m2]
    {
      if k == p && m2 == |children[p]| {
        assert ch[k][m1] == children[k][m1];
      } else {
        assert ch[k][m1] == children[k][m1] && ch[k][m2] == children[k][m2];
      }
    }
  }

  /**
   * The plan tree: the arena of nodes with their child lists (in insertion order)
   * and parent positions (-1 for the root).
   */
  class PlanTree {
    var nodes: seq<PlanNode>
    var children: seq<seq<nat>>
    var parent: seq<int>

    ghost predicate Valid()
      reads this
    {
      |nodes| == |children| && Linked(children, parent)
    }

    /** A tree holding only its root. */
    constructor(root: PlanNode)
      ensures Valid()
      ensures nodes == [root] && children == [[]] && parent == [-1]
    {
      nodes := [root];
      children := [[]];
      parent := [-1];
    }

    /** `add_child`: a new node becomes the last child of p. */
    method AddChild(p: nat, node: PlanNode) returns (c: nat)
      requires Valid() && p < |nodes|
      modifies this
      ensures Valid()
      ensures c == old(|nodes|)
      ensures nodes == old(nodes) + [node]
      ensures children == old(children)[p := old(children)[p] + [c]] + [[]]
      ensures parent == old(parent) + [p]
    {
      c := |nodes|;
      LinkedAddChild(children, parent, p);
      nodes := nodes + [node];
      children := children[p := children[p] + [c]] + [[]];
      parent := parent + [p];
    }

    /** `reset`: node i is visible again and forgets its notes, hints and steps. */
    method Reset(i: nat)
      requires Valid() && i < |nodes|
      modifies this
      ensures Valid() && children == old(children) && parent == old(parent)
      ensures nodes == old(nodes)[i := Cleared(old(nodes)[i])]
    {
      nodes := nodes[i := Cleared(nodes[i])];
    }

    /**
     * `search_node_by_id` from the root: the first visible node of the pre-order
     * walk that carries plan number `target`, and none when no visible node does.
     */
    function SearchNodeById(target: nat): (r: Option<nat>)
      reads this
      requires Valid()
      ensures r == FirstMatch(nodes, PreOrder(children, 0), target)
      ensures r.Some? ==> r.value < |nodes| && Matches(nodes, r.value, target)
      ensures r.None? ==> forall j :: 0 <= j < |nodes| ==> !Matches(nodes, j, target)
    {
      FindIsFirstMatch(nodes, children, 0, target);
      var r := Find(nodes, children, 0, target);
      assert r.None? ==> forall j :: 0 <= j < |nodes| ==> !Matches(nodes, j, target) by {
        if r.None? {
          forall j | 0 <= j < |nodes|
            ensures !Matches(nodes, j, target)
          {
            Reachable(children, parent, j);
          }
        }
      }
      r
    }

    /**
     * The sibling step of `prune_planning` for a node other than the root: the
     * siblings after node i in its parent's child list are hidden.
     */
    method HideLaterSiblings(i: nat)
      requires Valid() && 0 < i < |nodes|
      modifies this
      ensures Valid() && children == old(children) && parent == old(parent)
      ensures Hides(old(nodes), nodes, LaterSiblings(children, parent, i))
    {
      var cs := children[parent[i]];
      HideAfter(cs, i);
    }

    /** One node marked invisible, nothing else touched. */
    method HideOne(j: nat)
      requires j < |nodes|
      modifies this
      ensures children == old(children) && parent == old(parent)
      ensures Hides(old(nodes), nodes, [j])
    {
      nodes := nodes[j := nodes[j].(visible := false)];
    }

    /**
     * The sibling loop of `prune_planning` over the child list cs, which holds
     * node i once: every node after i in cs is hidden.
     */
    method HideAfter(cs: seq<nat>, i: nat)
      requires i in cs && forall m :: 0 <= m < |cs| ==> cs[m] < |nodes|
      requires forall m :: 0 <= m < |cs| && cs[m] == i ==> m == IndexOf(cs, i)
      modifies this
      ensures children == old(children) && parent == old(parent)
      ensures Hides(old(nodes), nodes, cs[IndexOf(cs, i) + 1..])
    {
      ghost var x := IndexOf(cs, i);
      var after := false;
      ghost var hidden: seq<nat> := [];
      for k := 0 to |cs|
        invariant children == old(children) && parent == old(parent) && |nodes| == |old(nodes)|
        invariant after <==> k > x
        invariant hidden == if after then cs[x + 1..k] else []
        invariant Hides(old(nodes), nodes, hidden)
      {
        if cs[k] == i {
          after := true;
          hidden := cs[x + 1..k + 1];
        } else if after {
          ghost var mid := nodes;
          HideOne(cs[k]);
          HidesCompose(old(nodes), mid, nodes, hidden, [cs[k]]);
          assert cs[x + 1..k + 1] == hidden + [cs[k]];
          hidden := hidden + [cs[k]];
        } else {
          assert k != x;
        }
      }
      assert cs[x + 1..|cs|] == cs[x + 1..];
    }

    /**
     * The rest of `prune_planning` on the tree: the subtree of i is hidden, i is
     * reset, its step list is rebuilt from the steps gathered over its subtree
     * (its own earlier list already dropped by the reset), and the reason is
     * appended to its resume reasons.
     */
    method Restart(i: nat, reason: string)
      requires Valid() && i < |nodes|
      modifies this
      ensures Valid() && children == old(children) && parent == old(parent)
      ensures |nodes| == old(|nodes|)
      ensures forall j :: 0 <= j < |nodes| && j != i ==>
        nodes[j] == if j in PreOrder(children, i) then old(nodes[j]).(visible := false) else old(nodes[j])
      ensures nodes[i] == Cleared(old(nodes[i])).(
        stepsTaken := SortedSet(StepsAlong(old(nodes)[i := Cleared(old(nodes[i]))], PreOrder(children, i))),
        resumeReasons := old(nodes[i].resumeReasons) + [reason])
    {
      HideSubtree(i);
      Reset(i);
      var steps := StepsAlong(nodes, PreOrder(children, i));
      StepsAlongSameSteps(nodes, old(nodes)[i := Cleared(old(nodes[i]))], PreOrder(children, i));
      nodes := nodes[i := nodes[i].(stepsTaken := SortedSet(steps), resumeReasons := nodes[i].resumeReasons + [reason])];
    }

    /**
     * `prune_planning` on the tree (AgentOccam/AgentOccam.py:653-672): for a
     * node with a positive plan number the later siblings are hidden, then the
     * subtree is hidden and node i restarted. The root alone carries plan number 0.
     */
    method Prune(i: nat, reason: string)
      requires Valid() && i < |nodes|
      requires (nodes[i].id == 0) == (i == 0)
      modifies this
      ensures Valid() && children == old(children) && parent == old(parent)
      ensures Pruned(old(nodes), children, parent, i, reason, nodes)
      ensures SameShape(old(nodes), nodes) && nodes[i].url == old(nodes[i].url)
    {
      ghost var before := nodes;
      if nodes[i].id > 0 {
        HideLaterSiblings(i);
      } else {
        assert LaterSiblings(children, parent, i) == [];
      }
      ghost var s1 := nodes;
      Restart(i, reason);
      PrunedStages(before, children, parent, i, reason, s1, nodes);
      PrunedShape(before, children, parent, i, reason, nodes);
    }

    /** `traverse(set_invisible)` from node i: every node of its subtree is hidden. */
    method HideSubtree(i: nat)
      requires |nodes| == |children| && Ordered(children) && i < |nodes|
      modifies this
      ensures children == old(children) && parent == old(parent)
      ensures Hides(old(nodes), nodes, PreOrder(children, i))
      decreases |children| - i, 1
    {
      nodes := nodes[i := nodes[i].(visible := false)];
      HideChildren(i);
      HidesCompose(old(nodes), old(nodes)[i := old(nodes)[i].(visible := false)], nodes, [i],
                   Forest(children, children[i], i));
    }

    /** The loop of `traverse` over the children of node i: each child's subtree is hidden in turn. */
    method HideChildren(i: nat)
      requires |nodes| == |children| && Ordered(children) && i < |nodes|
      modifies this
      ensures children == old(children) && parent == old(parent)
      ensures Hides(old(nodes), nodes, Forest(children, children[i], i))
      decreases |children| - i, 0
    {
      for k := 0 to |children[i]|
        invariant children == old(children) && parent == old(parent) && |nodes| == |children|
        invariant Hides(old(nodes), nodes, Forest(children, children[i][..k], i))
      {
        ghost var mid := nodes;
        HideSubtree(children[i][k]);
        HidesStep(children, i, k, old(nodes), mid, nodes);
      }
      assert children[i][..|children[i]|] == children[i];
    }
  }
}
