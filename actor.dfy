/**
 * The acting agent (`Actor`): it owns the plan tree and the interaction
 * history, carries out the planning commands `branch` and `prune` the model
 * writes, records notes, and turns `go_home` into a `goto` directive.
 * The current page URL is passed in where the source reads its online state.
 */
module Actors {
  import opened Wrappers
  import opened Text
  import opened ActionGrammar
  import opened PlanTrees
  import opened HistoryStore

  /** Nodes are numbered: the root carries plan number 0, every other node a positive one. */
  predicate Numbered(nodes: seq<PlanNode>) {
    |nodes| > 0 && nodes[0].id == 0 && forall j :: 0 < j < |nodes| ==> nodes[j].id > 0
  }

  /** The root is at level 0 and every other node one level below its parent. */
  predicate Levelled(nodes: seq<PlanNode>, parent: seq<int>)
    requires |nodes| == |parent|
  {
    && |nodes| > 0
    && nodes[0].level == 0
    && forall j :: 0 < j < |nodes| ==> 0 <= parent[j] < |nodes| && nodes[j].level == nodes[parent[j]].level + 1
  }

  /** The directive that sends the browser back to a page. */
  function Goto(url: string): string {
    "goto [" + url + "] [1]"
  }

  /** A `goto` directive is a command the validator always accepts. */
  lemma GotoIsValid(url: string, observation: string)
    ensures CommandWord(Goto(url)) == Some("goto")
    ensures IsValidAction(Goto(url), observation)
  {
    assert Goto(url)[..6] == "goto [";
    CommandWordOfBracketed(Goto(url), "goto");
  }

  /** The note left on the active node when a planning command cannot be carried out. */
  function InvalidPlanNote(action: string): string {
    InvalidPlanHead + action + InvalidPlanTail
  }

  const InvalidPlanHead: string := "You previously generate plan \""
  const InvalidPlanTail: string := "\", which has INVALID syntax. "
    + "User planning command like `branch [parent_plan_id] [new_subplan_intent]` or `prune [resume_plan_id] [reason]`."

  /** What `planning` does with an action. */
  datatype PlanOutcome =
    | NotPlanning
    | Invalid
    | PruneAt(node: nat, reason: string)
    | BranchAt(node: nat, content: string)

  /**
   * The branch `planning` takes (AgentOccam/AgentOccam.py:682-702): the action
   * is not a planning command, or it fails to parse, names no visible node or
   * has another kind (all caught and reported), or it prunes or branches at the
   * node `search_node_by_id` finds.
   */
  function PlanningOutcome(action: string, cmds: seq<string>, nodes: seq<PlanNode>, children: seq<seq<nat>>): (o: PlanOutcome)
    requires Ordered(children) && |nodes| == |children| > 0
    ensures (o.PruneAt? || o.BranchAt?) ==> o.node < |nodes| && nodes[o.node].visible
  {
    if action == [] || IsPlanning(action, cmds).None? then NotPlanning
    else match ParsePlan(action, cmds)
      case None => Invalid
      case Some(p) =>
        match Find(nodes, children, 0, p.nodeId)
        case None => Invalid
        case Some(i) =>
          if p.kind == "prune" then PruneAt(i, p.content)
          else if p.kind == "branch" then BranchAt(i, p.content)
          else Invalid
  }

  /**
   * The cases of `planning`, both ways: an action is rejected exactly when it
   * starts with a planning command but does not parse, names no visible node,
   * or is neither `prune` nor `branch`; a prune or branch acts on the first
   * visible node of the pre-order walk with the parsed plan number.
   */
  lemma PlanningCases(action: string, cmds: seq<string>, nodes: seq<PlanNode>, children: seq<seq<nat>>, parent: seq<int>)
    requires Linked(children, parent) && |nodes| == |children|
    ensures PlanningOutcome(action, cmds, nodes, children).NotPlanning? <==>
      (action == [] || forall c :: c in cmds ==> !StartsWith(action, c))
    ensures PlanningOutcome(action, cmds, nodes, children).Invalid? <==>
      action != [] && IsPlanning(action, cmds).Some? &&
      (ParsePlan(action, cmds).None?
       || (forall j :: 0 <= j < |nodes| ==> !Matches(nodes, j, ParsePlan(action, cmds).value.nodeId))
       || ParsePlan(action, cmds).value.kind !in {"prune", "branch"})
    ensures (PlanningOutcome(action, cmds, nodes, children).PruneAt? || PlanningOutcome(action, cmds, nodes, children).BranchAt?) ==>
      var i := PlanningOutcome(action, cmds, nodes, children).node;
      var p := ParsePlan(action, cmds).value;
      && Some(i) == FirstMatch(nodes, PreOrder(children, 0), p.nodeId)
      && (PlanningOutcome(action, cmds, nodes, children).PruneAt? <==> p.kind == "prune")
  {
    if action != [] && IsPlanning(action, cmds).Some? && ParsePlan(action, cmds).Some? {
      var id := ParsePlan(action, cmds).value.nodeId;
      FindIsFirstMatch(nodes, children, 0, id);
      if Find(nodes, children, 0, id).None? {
        forall j | 0 <= j < |nodes|
          ensures !Matches(nodes, j, id)
        {
          Reachable(children, parent, j);
        }
      }
    }
  }

  /** A well-formed `prune [d] [reason]` naming a visible node prunes there with that reason. */
  lemma PruneCommandOutcome(d: string, reason: string, cmds: seq<string>, nodes: seq<PlanNode>, children: seq<seq<nat>>, parent: seq<int>, j: nat)
    requires Linked(children, parent) && |nodes| == |children|
    requires d != [] && AllDigits(d) && reason != []
    requires IsPlanning("prune [" + d + "] [" + reason + "]", cmds) == Some("prune")
    requires j < |nodes| && Matches(nodes, j, DigitsValue(d))
    ensures PlanningOutcome("prune [" + d + "] [" + reason + "]", cmds, nodes, children).PruneAt?
    ensures PlanningOutcome("prune [" + d + "] [" + reason + "]", cmds, nodes, children).reason == reason
  {
    var a := "prune [" + d + "] [" + reason + "]";
    assert a == "prune" + " [" + d + "] [" + reason + "]";
    ParsePlanRoundTrip("prune", d, reason, cmds);
    PlanningCases(a, cmds, nodes, children, parent);
  }

  lemma ShapeKeepsInvariants(a: seq<PlanNode>, b: seq<PlanNode>, parent: seq<int>)
    requires SameShape(a, b) && |a| == |parent|
    requires Numbered(a) && Levelled(a, parent)
    ensures Numbered(b) && Levelled(b, parent)
  {
  }

  /**
   * The state `planning` leaves behind, for each outcome: the step recorded or
   * the corrective note added on the active node with nothing else changed, the
   * prune carried out, or the new node added as the last child and made active.
   */
  ghost predicate PlanningEffect(o: PlanOutcome, action: string, url: string, step: nat,
                                 active0: nat, nodes0: seq<PlanNode>, children0: seq<seq<nat>>, parent0: seq<int>,
                                 active1: nat, nodes1: seq<PlanNode>, children1: seq<seq<nat>>, parent1: seq<int>,
                                 nav: Option<string>)
    requires Linked(children0, parent0) && |nodes0| == |children0| && active0 < |nodes0|
    requires (o.PruneAt? || o.BranchAt?) ==> o.node < |nodes0|
  {
    match o
    case NotPlanning =>
      && nav.None? && active1 == active0 && children1 == children0 && parent1 == parent0
      && nodes1 == nodes0[active0 := nodes0[active0].(stepsTaken := nodes0[active0].stepsTaken + [step])]
    case Invalid =>
      && nav.None? && active1 == active0 && children1 == children0 && parent1 == parent0
      && nodes1 == nodes0[active0 := nodes0[active0].(notes := nodes0[active0].notes + [InvalidPlanNote(action)])]
    case PruneAt(i, reason) =>
      && nav == Some(Goto(nodes0[i].url)) && active1 == i && children1 == children0 && parent1 == parent0
      && Pruned(nodes0, children0, parent0, i, reason, nodes1)
    case BranchAt(p, content) =>
      && nav.None? && active1 == |nodes0|
      && nodes1 == nodes0 + [NewNode(nodes0[active0].id + 1, content, nodes0[p].level + 1, url, step)]
      && children1 == children0[p := children0[p] + [|nodes0|]] + [[]]
      && parent1 == parent0 + [p]
  }

  /** The directive `planning` returns: only a prune yields one. */
  function PlanningDirective(o: PlanOutcome, nodes: seq<PlanNode>): Option<string>
    requires o.PruneAt? ==> o.node < |nodes|
  {
    if o.PruneAt? then Some(Goto(nodes[o.node].url)) else None
  }

  /** One entry of a node's notes, as `take_note` writes it: `STEP <n>: <note>`. */
  function NoteEntry(step: nat, note: string): string {
    "STEP " + NatToString(step) + ": " + note
  }

  /** A piece of an action that records a note. */
  predicate IsNotePiece(piece: string) {
    Contains(piece, "note [")
  }

  /** The note entries the pieces of an action add, in order. */
  function NoteEntries(ps: seq<string>, step: nat): seq<string> {
    if ps == [] then []
    else
      var last := ps[|ps| - 1];
      NoteEntries(ps[..|ps| - 1], step) + if IsNotePiece(last) then [NoteEntry(step, NoteText(last))] else []
  }

  /** The pieces that are not notes, in order. */
  function OtherPieces(ps: seq<string>): seq<string> {
    if ps == [] then []
    else
      var last := ps[|ps| - 1];
      OtherPieces(ps[..|ps| - 1]) + if IsNotePiece(last) then [] else [last]
  }

  /** The note buffer after the pieces: the text of the last note, or what it held before. */
  function LastNote(ps: seq<string>, previous: string): string {
    if ps == [] then previous
    else
      var last := ps[|ps| - 1];
      if IsNotePiece(last) then NoteText(last) else LastNote(ps[..|ps| - 1], previous)
  }

  /** How the note entries, the other pieces and the note buffer grow by one piece. */
  lemma NotesStep(ps: seq<string>, k: nat, step: nat, previous: string)
    requires k < |ps|
    ensures NoteEntries(ps[..k + 1], step) ==
      NoteEntries(ps[..k], step) + if IsNotePiece(ps[k]) then [NoteEntry(step, NoteText(ps[k]))] else []
    ensures OtherPieces(ps[..k + 1]) == OtherPieces(ps[..k]) + if IsNotePiece(ps[k]) then [] else [ps[k]]
    ensures LastNote(ps[..k + 1], previous) == if IsNotePiece(ps[k]) then NoteText(ps[k]) else LastNote(ps[..k], previous)
  {
    assert ps[..k + 1][..k] == ps[..k];
  }

  /**
   * The pieces are split between notes and other actions: one entry per note
   * piece, and the other pieces are exactly those without `note [`.
   */
  lemma {:induction false} NotesPartition(ps: seq<string>, step: nat)
    ensures |NoteEntries(ps, step)| + |OtherPieces(ps)| == |ps|
    ensures forall p :: p in OtherPieces(ps) <==> p in ps && !IsNotePiece(p)
  {
    if ps != [] {
      var init := ps[..|ps| - 1];
      var last := ps[|ps| - 1];
      NotesPartition(init, step);
      assert ps == init + [last];
      assert OtherPieces(ps) == OtherPieces(init) + if IsNotePiece(last) then [] else [last];
      forall p
        ensures p in OtherPieces(ps) <==> p in ps && !IsNotePiece(p)
      {
        assert p in ps <==> p in init || p == last;
      }
    }
  }

  /** A lone `note [x]` records `STEP <n>: x` and leaves x in the note buffer. */
  lemma SingleNote(x: string, step: nat, previous: string)
    ensures NoteEntries(["note [" + x + "]"], step) == [NoteEntry(step, x)]
    ensures LastNote(["note [" + x + "]"], previous) == x
    ensures OtherPieces(["note [" + x + "]"]) == []
  {
    NoteTextRoundTrip(x);
    assert ["note [" + x + "]"][..0] == [];
  }

  /**
   * The actor's planning state: the plan tree, the active node, the last note
   * and the history; the configured planning and navigation commands.
   */
  class Actor<V> {
    const tree: PlanTree
    const history: History<V>
    const planning: seq<string>
    const navigation: seq<string>
    var active: nat
    var noteBuffer: string

    ghost predicate Valid()
      reads this, tree, history
    {
      && tree.Valid() && history.Valid()
      && active < |tree.nodes|
      && Numbered(tree.nodes)
      && Levelled(tree.nodes, tree.parent)
      && WellFormedKeywords(planning) && WellFormedKeywords(navigation)
    }

    /** The keywords `take_note` splits an action on. */
    function Keywords(): seq<string> {
      planning + navigation + ["goto"]
    }

    lemma KeywordsWellFormed()
      requires WellFormedKeywords(planning) && WellFormedKeywords(navigation)
      ensures WellFormedKeywords(Keywords())
    {
      assert Trimmed("goto");
      forall k | 0 <= k < |Keywords()|
        ensures |Keywords()[k]| > 0 && Trimmed(Keywords()[k])
      {
        if k < |planning| {
          assert Keywords()[k] == planning[k];
        } else if k < |planning| + |navigation| {
          assert Keywords()[k] == navigation[k - |planning|];
        }
      }
    }

    /**
     * `init_actor` (AgentOccam/AgentOccam.py:1322-1334) with `Agent.__init__`:
     * the root goal `Find the solution to "<objective>"` at level 0, step 0,
     * active, and an empty list per documented field.
     */
    constructor(objective: string, url: string, planning: seq<string>, navigation: seq<string>, documented: set<string>)
      requires WellFormedKeywords(planning) && WellFormedKeywords(navigation)
      ensures Valid() && fresh(tree) && fresh(history)
      ensures tree.nodes == [NewNode(0, "Find the solution to \"" + objective + "\"", 0, url, 0)]
      ensures tree.children == [[]] && tree.parent == [-1]
      ensures active == 0 && noteBuffer == ""
      ensures history.fields.Keys == DefaultFields + documented && history.GetStep() == 0
      ensures forall k :: k in history.fields ==> history.fields[k] == []
      ensures EqualLengths(history.fields)
      ensures this.planning == planning && this.navigation == navigation
    {
      tree := new PlanTree(NewNode(0, "Find the solution to \"" + objective + "\"", 0, url, 0));
      history := new History(documented);
      this.planning := planning;
      this.navigation := navigation;
      active := 0;
      noteBuffer := "";
    }

    /** `prune_planning(node, reason)` with node i. */
    method Prune(i: nat, reason: string) returns (nav: string)
      requires Valid() && i < |tree.nodes|
      modifies this, tree
      ensures Valid()
      ensures tree.children == old(tree.children) && tree.parent == old(tree.parent)
      ensures Pruned(old(tree.nodes), tree.children, tree.parent, i, reason, tree.nodes)
      ensures active == i && noteBuffer == old(noteBuffer)
      ensures nav == Goto(old(tree.nodes[i].url))
    {
      ghost var before := tree.nodes;
      tree.Prune(i, reason);
      ShapeKeepsInvariants(before, tree.nodes, tree.parent);
      active := i;
      nav := Goto(tree.nodes[i].url);
    }

    /** `branch_planning(node, content)` with node p: a new active node as the last child of p. */
    method Branch(p: nat, content: string, url: string)
      requires Valid() && p < |tree.nodes|
      modifies this, tree
      ensures Valid()
      ensures tree.nodes == old(tree.nodes) +
        [NewNode(old(tree.nodes[active].id) + 1, content, old(tree.nodes[p].level) + 1, url, history.GetStep())]
      ensures tree.children == old(tree.children)[p := old(tree.children[p]) + [|old(tree.nodes)|]] + [[]]
      ensures tree.parent == old(tree.parent) + [p]
      ensures active == |old(tree.nodes)| && noteBuffer == old(noteBuffer)
    {
      var node := NewNode(tree.nodes[active].id + 1, content, tree.nodes[p].level + 1, url, history.GetStep());
      var c := tree.AddChild(p, node);
      active := c;
    }

    /**
     * `planning(action)`: carries out a `prune` or `branch` command, reports a
     * bad one with a note on the active node, and otherwise records the current
     * step on the active node. Only a prune yields a navigation directive.
     */
    method Planning(action: string, url: string) returns (nav: Option<string>)
      requires Valid()
      modifies this, tree
      ensures Valid()
      ensures noteBuffer == old(noteBuffer)
      ensures nav == PlanningDirective(PlanningOutcome(action, planning, old(tree.nodes), old(tree.children)), old(tree.nodes))
      ensures PlanningEffect(PlanningOutcome(action, planning, old(tree.nodes), old(tree.children)), action, url,
        history.GetStep(), old(active), old(tree.nodes), old(tree.children), old(tree.parent),
        active, tree.nodes, tree.children, tree.parent, nav)
    {
      var o := PlanningOutcome(action, planning, tree.nodes, tree.children);
      match o
      case NotPlanning =>
        RecordStep();
        return None;
      case Invalid =>
        AddNote(InvalidPlanNote(action));
        return None;
      case PruneAt(i, reason) =>
        var directive := Prune(i, reason);
        return Some(directive);
      case BranchAt(p, content) =>
        Branch(p, content, url);
        return None;
    }

    /**
     * `take_note(action, note_as_action)` (AgentOccam/AgentOccam.py:834-853):
     * for an action mentioning `note [`, each note piece is recorded on the
     * active node and kept in the note buffer; the result is the action itself,
     * or the other pieces joined by newlines. Any other action is returned as is.
     */
    method TakeNote(action: string, noteAsAction: bool) returns (r: string)
      requires Valid()
      modifies this, tree
      ensures Valid()
      ensures active == old(active)
      ensures noteAsAction ==> r == action
      ensures tree.children == old(tree.children) && tree.parent == old(tree.parent)
      ensures !IsNotePiece(action) ==>
        r == action && tree.nodes == old(tree.nodes) && noteBuffer == old(noteBuffer)
      ensures IsNotePiece(action) ==>
        var ps := ActionPieces(action, Keywords());
        && tree.nodes == old(tree.nodes)[active := old(tree.nodes[active]).(
             notes := old(tree.nodes[active].notes) + NoteEntries(ps, history.GetStep()))]
        && noteBuffer == LastNote(ps, old(noteBuffer))
        && r == if noteAsAction then action else Join(OtherPieces(ps), "\n")
    {
      if action != [] && IsNotePiece(action) {
        KeywordsWellFormed();
        var ps := ParseStrToActionList(action, Keywords());
        var others := RecordNotes(ps);
        if noteAsAction {
          return action;
        }
        return Join(others, "\n");
      }
      return action;
    }

    /** The loop of `take_note`: notes go to the active node and the buffer, other pieces are kept. */
    method RecordNotes(ps: seq<string>) returns (others: seq<string>)
      requires Valid()
      modifies this, tree
      ensures Valid()
      ensures active == old(active)
      ensures tree.children == old(tree.children) && tree.parent == old(tree.parent)
      ensures tree.nodes == old(tree.nodes)[active := old(tree.nodes[active]).(
        notes := old(tree.nodes[active].notes) + NoteEntries(ps, history.GetStep()))]
      ensures noteBuffer == LastNote(ps, old(noteBuffer))
      ensures others == OtherPieces(ps)
    {
      others := [];
      ghost var before := tree.nodes;
      ghost var step := history.GetStep();
      assert NoteEntries(ps[..0], step) == [];
      assert before[active].(notes := before[active].notes + []) == before[active];
      for k := 0 to |ps|
        invariant Valid() && active == old(active) && history.GetStep() == step
        invariant tree.children == old(tree.children) && tree.parent == old(tree.parent)
        invariant tree.nodes == before[active := before[active].(
          notes := before[active].notes + NoteEntries(ps[..k], step))]
        invariant noteBuffer == LastNote(ps[..k], old(noteBuffer))
        invariant others == OtherPieces(ps[..k])
      {
        NotesStep(ps, k, step, old(noteBuffer));
        if IsNotePiece(ps[k]) {
          var note := NoteText(ps[k]);
          ghost var mid := tree.nodes;
          AddNote(NoteEntry(history.GetStep(), note));
          ghost var notes := before[active].notes + NoteEntries(ps[..k + 1], step);
          assert mid[active].notes + [NoteEntry(step, note)] == notes;
          assert tree.nodes == mid[active := mid[active].(notes := notes)];
          assert mid[active].(notes := notes) == before[active].(notes := notes);
          noteBuffer := note;
        } else {
          assert NoteEntries(ps[..k + 1], step) == NoteEntries(ps[..k], step);
          others := others + [ps[k]];
        }
      }
      assert ps[..|ps|] == ps;
    }

    /** A note appended to the active node, as `take_note` and `planning` write them. */
    method AddNote(entry: string)
      requires Valid()
      modifies tree
      ensures Valid()
      ensures tree.children == old(tree.children) && tree.parent == old(tree.parent)
      ensures tree.nodes == old(tree.nodes)[active := old(tree.nodes[active]).(notes := old(tree.nodes[active].notes) + [entry])]
    {
      ghost var before := tree.nodes;
      tree.nodes := tree.nodes[active := tree.nodes[active].(notes := tree.nodes[active].notes + [entry])];
      ShapeKeepsInvariants(before, tree.nodes, tree.parent);
    }

    /**
     * `finalize_action` (AgentOccam/AgentOccam.py:1002-1013) without the
     * observation highlight: planning, then note taking (which keeps the action),
     * then `go_home`, whose directive wins over the one from a prune.
     */
    method FinalizeAction(action: string, url: string) returns (finalAction: string, navigation: Option<string>)
      requires Valid()
      modifies this, tree
      ensures Valid()
      ensures finalAction == action
      ensures navigation == if GoHome(action).Some? then GoHome(action)
        else PlanningDirective(PlanningOutcome(action, planning, old(tree.nodes), old(tree.children)), old(tree.nodes))
      ensures navigation.Some? ==> CommandWord(navigation.value) == Some("goto")
    {
      ghost var o := PlanningOutcome(action, planning, tree.nodes, tree.children);
      ghost var nodes0 := tree.nodes;
      navigation := Planning(action, url);
      finalAction := TakeNote(action, true);
      var home := GoHome(finalAction);
      if home.Some? {
        navigation := home;
        GoHomeIsValidGoto(finalAction, "");
      } else if navigation.Some? {
        GotoIsValid(nodes0[o.node].url, "");
      }
    }

    /** The non-planning path of `planning`: the current step is recorded on the active node. */
    method RecordStep()
      requires Valid()
      modifies tree
      ensures Valid()
      ensures tree.children == old(tree.children) && tree.parent == old(tree.parent)
      ensures tree.nodes == old(tree.nodes)[active := old(tree.nodes[active]).(
        stepsTaken := old(tree.nodes[active].stepsTaken) + [history.GetStep()])]
    {
      ghost var before := tree.nodes;
      tree.nodes := tree.nodes[active := tree.nodes[active].(stepsTaken := tree.nodes[active].stepsTaken + [history.GetStep()])];
      ShapeKeepsInvariants(before, tree.nodes, tree.parent);
    }
  }
}
