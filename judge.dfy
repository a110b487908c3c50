/**
 * The judge (`Judge.flatten_action_element_list` and `Judge.judge`): the
 * proposals of several actor runs are flattened into one candidate list and
 * one candidate is chosen, by unanimity, by the stop majority, by the notes
 * when nothing else survives deduplication, or by the model's numbered verdict.
 * The random shuffle is a permutation supplied by the caller and the model's
 * verdict is its response text.
 */
module Judges {
  import opened Wrappers
  import opened Text
  import opened ActionGrammar
  import opened Fields

  /** One entry of an `action candidates` list. */
  datatype Candidate = Candidate(action: string, reason: string)

  /** The elements of one proposal; `candidates` is present when the actor listed several actions. */
  datatype ActionElements = ActionElements(action: string, reason: string, candidates: Option<seq<Candidate>>)

  /** What one proposal contributes to the flattened list. */
  function Expand(e: ActionElements): seq<ActionElements> {
    match e.candidates
    case None => [e]
    case Some(cs) => seq(|cs|, k requires 0 <= k < |cs| => e.(action := cs[k].action, reason := cs[k].reason))
  }

  /** The flattened list before the shuffle. */
  function Flattened(list: seq<ActionElements>): seq<ActionElements> {
    if list == [] then [] else Flattened(list[..|list| - 1]) + Expand(list[|list| - 1])
  }

  /** Every flattened entry comes from one proposal, and every expansion of every proposal is there. */
  lemma {:induction false} FlattenedMembers(list: seq<ActionElements>, x: ActionElements)
    ensures x in Flattened(list) <==> exists e :: e in list && x in Expand(e)
  {
    if list != [] {
      var init := list[..|list| - 1];
      FlattenedMembers(init, x);
      assert list == init + [list[|list| - 1]];
      if x in Flattened(list) && x !in Flattened(init) {
        assert x in Expand(list[|list| - 1]);
      }
    }
  }

  function Range(n: nat): seq<nat> {
    seq(n, k requires 0 <= k < n => k)
  }

  /** A shuffle of n entries, given as the list of original positions. */
  predicate IsPermutation(perm: seq<nat>, n: nat) {
    multiset(perm) == multiset(Range(n))
  }

  /** The entries of s at the positions idx, in that order. */
  function Pick<T>(s: seq<T>, idx: seq<nat>): seq<T>
    requires forall k :: 0 <= k < |idx| ==> idx[k] < |s|
  {
    seq(|idx|, k requires 0 <= k < |idx| => s[idx[k]])
  }

  lemma PermutationIndices(perm: seq<nat>, n: nat)
    requires IsPermutation(perm, n)
    ensures |perm| == n && forall k :: 0 <= k < |perm| ==> perm[k] < n
  {
    assert |perm| == |multiset(perm)| == |multiset(Range(n))| == n;
    forall k | 0 <= k < |perm|
      ensures perm[k] < n
    {
      assert perm[k] in multiset(Range(n));
    }
  }

  lemma PickConcat<T>(s: seq<T>, a: seq<nat>, b: seq<nat>)
    requires forall k :: 0 <= k < |a| ==> a[k] < |s|
    requires forall k :: 0 <= k < |b| ==> b[k] < |s|
    ensures Pick(s, a + b) == Pick(s, a) + Pick(s, b)
  {
  }

  function Drop(ys: seq<nat>, j: nat): seq<nat>
    requires j < |ys|
  {
    ys[..j] + ys[j + 1..]
  }

  /** Dropping one position from an index list drops its entry from the picked entries. */
  lemma PickRemove<T>(s: seq<T>, ys: seq<nat>, j: nat)
    requires forall k :: 0 <= k < |ys| ==> ys[k] < |s|
    requires j < |ys|
    ensures forall k :: 0 <= k < |Drop(ys, j)| ==> Drop(ys, j)[k] < |s|
    ensures multiset(Drop(ys, j)) == multiset(ys) - multiset{ys[j]}
    ensures multiset(Pick(s, ys)) == multiset(Pick(s, Drop(ys, j))) + multiset{s[ys[j]]}
  {
    assert ys == ys[..j] + [ys[j]] + ys[j + 1..];
    PickConcat(s, ys[..j], [ys[j]]);
    PickConcat(s, ys[..j] + [ys[j]], ys[j + 1..]);
    PickConcat(s, ys[..j], ys[j + 1..]);
    assert Pick(s, [ys[j]]) == [s[ys[j]]];
  }

  /** Picking along two index lists that hold the same positions yields the same entries. */
  lemma {:induction false} PickSameMultiset<T>(s: seq<T>, xs: seq<nat>, ys: seq<nat>)
    requires forall k :: 0 <= k < |xs| ==> xs[k] < |s|
    requires forall k :: 0 <= k < |ys| ==> ys[k] < |s|
    requires multiset(xs) == multiset(ys)
    ensures multiset(Pick(s, xs)) == multiset(Pick(s, ys))
    decreases |xs|
  {
    if xs == [] {
      assert |ys| == |multiset(ys)| == 0;
    } else {
      var x := xs[0];
      assert x in multiset(ys);
      var j :| 0 <= j < |ys| && ys[j] == x;
      PickRemove(s, ys, j);
      PickRemove(s, xs, 0);
      assert Drop(xs, 0) == xs[1..];
      PickSameMultiset(s, xs[1..], Drop(ys, j));
    }
  }

  /** A shuffle rearranges the entries: nothing is lost, duplicated or invented. */
  lemma ShufflePermutes<T>(s: seq<T>, perm: seq<nat>)
    requires IsPermutation(perm, |s|)
    ensures |perm| == |s| && forall k :: 0 <= k < |perm| ==> perm[k] < |s|
    ensures multiset(Pick(s, perm)) == multiset(s)
  {
    PermutationIndices(perm, |s|);
    PickSameMultiset(s, perm, Range(|s|));
    assert Pick(s, Range(|s|)) == s;
  }

  /** `flatten_action_element_list` (AgentOccam/AgentOccam.py:1191-1205), with the shuffle as `perm`. */
  method FlattenActionElementList(list: seq<ActionElements>, perm: seq<nat>) returns (r: seq<ActionElements>)
    requires IsPermutation(perm, |Flattened(list)|)
    ensures |perm| == |Flattened(list)| && forall k :: 0 <= k < |perm| ==> perm[k] < |Flattened(list)|
    ensures r == Pick(Flattened(list), perm)
    ensures multiset(r) == multiset(Flattened(list))
  {
    var flat: seq<ActionElements> := [];
    for i := 0 to |list|
      invariant flat == Flattened(list[..i])
    {
      assert list[..i + 1][..i] == list[..i];
      var e := list[i];
      match e.candidates {
        case None =>
          flat := flat + [e];
        case Some(cs) =>
          flat := AppendCandidates(flat, e, cs);
      }
    }
    assert list[..|list|] == list;
    ShufflePermutes(flat, perm);
    r := Pick(flat, perm);
  }

  /** The inner loop of the flattening: one entry per candidate of e, in order. */
  method AppendCandidates(flat: seq<ActionElements>, e: ActionElements, cs: seq<Candidate>) returns (r: seq<ActionElements>)
    requires e.candidates == Some(cs)
    ensures r == flat + Expand(e)
  {
    r := flat;
    for k := 0 to |cs|
      invariant r == flat + Expand(e)[..k]
    {
      assert Expand(e)[..k + 1] == Expand(e)[..k] + [e.(action := cs[k].action, reason := cs[k].reason)];
      r := r + [e.(action := cs[k].action, reason := cs[k].reason)];
    }
    assert Expand(e)[..|cs|] == Expand(e);
  }

  /** The set of actions of a list of proposals. */
  function ActionsOf(d: seq<ActionElements>): set<string> {
    if d == [] then {} else ActionsOf(d[..|d| - 1]) + {d[|d| - 1].action}
  }

  lemma {:induction false} ActionsOfMembers(d: seq<ActionElements>, a: string)
    ensures a in ActionsOf(d) <==> exists k :: 0 <= k < |d| && d[k].action == a
  {
    if d != [] {
      ActionsOfMembers(d[..|d| - 1], a);
      if a in ActionsOf(d[..|d| - 1]) {
        var k :| 0 <= k < |d| - 1 && d[..|d| - 1][k].action == a;
        assert d[k].action == a;
      }
    }
  }

  /** The first proposal of each non-empty action, in order. */
  function Dedup(xs: seq<ActionElements>): seq<ActionElements> {
    if xs == [] then []
    else
      var d := Dedup(xs[..|xs| - 1]);
      var e := xs[|xs| - 1];
      if e.action != "" && e.action !in ActionsOf(d) then d + [e] else d
  }

  /** One more proposal is kept exactly when its action is non-empty and new. */
  lemma DedupSnoc(xs: seq<ActionElements>, e: ActionElements)
    ensures Dedup(xs + [e]) == if e.action != "" && e.action !in ActionsOf(Dedup(xs)) then Dedup(xs) + [e] else Dedup(xs)
  {
    assert (xs + [e])[..|xs|] == xs;
  }

  /**
   * Deduplication keeps proposals of the list, with distinct non-empty actions,
   * and every non-empty action of the list is kept.
   */
  lemma {:induction false} DedupProperties(xs: seq<ActionElements>)
    ensures forall k :: 0 <= k < |Dedup(xs)| ==> Dedup(xs)[k] in xs && Dedup(xs)[k].action != ""
    ensures forall a, b :: 0 <= a < b < |Dedup(xs)| ==> Dedup(xs)[a].action != Dedup(xs)[b].action
    ensures forall k :: 0 <= k < |xs| && xs[k].action != "" ==> xs[k].action in ActionsOf(Dedup(xs))
  {
    if xs != [] {
      var init := xs[..|xs| - 1];
      var d := Dedup(init);
      var e := xs[|xs| - 1];
      DedupProperties(init);
      assert xs == init + [e];
      if e.action != "" && e.action !in ActionsOf(d) {
        forall a | 0 <= a < |d|
          ensures d[a].action != e.action
        {
          ActionsOfMembers(d, d[a].action);
        }
      }
      assert forall k :: 0 <= k < |init| ==> init[k] == xs[k];
    }
  }

  /** A list without a non-empty action deduplicates to nothing. */
  lemma {:induction false} DedupEmpty(xs: seq<ActionElements>)
    requires forall k :: 0 <= k < |xs| ==> xs[k].action == ""
    ensures Dedup(xs) == []
  {
    if xs != [] {
      DedupEmpty(xs[..|xs| - 1]);
    }
  }

  /** Deduplicating a deduplicated list changes nothing. */
  lemma {:induction false} DedupIdempotent(xs: seq<ActionElements>)
    ensures Dedup(Dedup(xs)) == Dedup(xs)
    ensures ActionsOf(Dedup(Dedup(xs))) == ActionsOf(Dedup(xs))
  {
    if xs != [] {
      var d := Dedup(xs[..|xs| - 1]);
      var e := xs[|xs| - 1];
      DedupIdempotent(xs[..|xs| - 1]);
      if e.action != "" && e.action !in ActionsOf(d) {
        assert (d + [e])[..|d + [e]| - 1] == d;
      }
    }
  }

  /** `deduplicate_action_element_list` (AgentOccam/AgentOccam.py:1239-1248). */
  method DeduplicateActionElementList(xs: seq<ActionElements>) returns (d: seq<ActionElements>)
    ensures d == Dedup(xs)
  {
    var seen: set<string> := {};
    d := [];
    for i := 0 to |xs|
      invariant d == Dedup(xs[..i]) && seen == ActionsOf(d)
    {
      assert xs[..i + 1][..i] == xs[..i];
      if xs[i].action != "" && xs[i].action !in seen {
        seen := seen + {xs[i].action};
        assert (d + [xs[i]])[..|d|] == d;
        d := d + [xs[i]];
      }
    }
    assert xs[..|xs|] == xs;
  }

  /** The pieces of one candidate action, sorted as the strict deduplication sorts them. */
  datatype Sorted = Sorted(stops: seq<string>, notes: seq<string>, rest: seq<string>)

  function SortPieces(ps: seq<string>): (r: Sorted)
    ensures forall k :: 0 <= k < |r.stops| ==> StartsWith(r.stops[k], "stop [")
    ensures forall k :: 0 <= k < |r.notes| ==> StartsWith(r.notes[k], "note [")
    ensures forall k :: 0 <= k < |r.rest| ==> !StartsWith(r.rest[k], "stop [") && !StartsWith(r.rest[k], "note [")
  {
    if ps == [] then Sorted([], [], [])
    else
      var s := SortPieces(ps[..|ps| - 1]);
      var p := ps[|ps| - 1];
      if StartsWith(p, "stop [") then s.(stops := s.stops + [p])
      else if StartsWith(p, "note [") then s.(notes := s.notes + [p])
      else s.(rest := s.rest + [p])
  }

  /** Sorting loses and invents no piece: the three lists together are the pieces. */
  lemma {:induction false} SortPiecesPartition(ps: seq<string>)
    ensures var r := SortPieces(ps);
      multiset(r.stops) + multiset(r.notes) + multiset(r.rest) == multiset(ps)
  {
    if ps != [] {
      var init := ps[..|ps| - 1];
      var p := ps[|ps| - 1];
      var s := SortPieces(init);
      SortPiecesPartition(init);
      assert multiset(ps) == multiset(init) + multiset{p} by {
        assert ps == init + [p];
      }
      if StartsWith(p, "stop [") {
        assert multiset(s.stops + [p]) == multiset(s.stops) + multiset{p};
      } else if StartsWith(p, "note [") {
        assert multiset(s.notes + [p]) == multiset(s.notes) + multiset{p};
      } else {
        assert multiset(s.rest + [p]) == multiset(s.rest) + multiset{p};
      }
    }
  }

  /** The sorted pieces of one candidate's action under the judge's keywords. */
  function PiecesOf(e: ActionElements, kws: seq<string>): Sorted
    requires WellFormedKeywords(kws)
  {
    SortPieces(ActionPieces(e.action, kws))
  }

  function Tagged(xs: seq<string>, i: nat): seq<(string, nat)> {
    seq(|xs|, k requires 0 <= k < |xs| => (xs[k], i))
  }

  /** `note_list`: each candidate's note commands joined by newlines, with its position. */
  function NoteList(flat: seq<ActionElements>, kws: seq<string>): seq<(string, nat)>
    requires WellFormedKeywords(kws)
  {
    seq(|flat|, i requires 0 <= i < |flat| => (Join(PiecesOf(flat[i], kws).notes, "\n"), i))
  }

  /** `stop_list`: every stop command of every candidate, with the candidate's position. */
  function StopList(flat: seq<ActionElements>, kws: seq<string>): seq<(string, nat)>
    requires WellFormedKeywords(kws)
  {
    if flat == [] then []
    else StopList(flat[..|flat| - 1], kws) + Tagged(PiecesOf(flat[|flat| - 1], kws).stops, |flat| - 1)
  }

  /** A pair is in the stop list exactly when it is a stop command of the candidate at that position. */
  lemma {:induction false} StopListMembers(flat: seq<ActionElements>, kws: seq<string>, p: string, i: nat)
    requires WellFormedKeywords(kws)
    ensures (p, i) in StopList(flat, kws) <==> i < |flat| && p in PiecesOf(flat[i], kws).stops
  {
    if flat != [] {
      var init := flat[..|flat| - 1];
      var last := |flat| - 1;
      StopListMembers(init, kws, p, i);
      var t := Tagged(PiecesOf(flat[last], kws).stops, last);
      if (p, i) in t {
        var k :| 0 <= k < |t| && t[k] == (p, i);
        assert PiecesOf(flat[last], kws).stops[k] == p;
      }
      if i == last && p in PiecesOf(flat[last], kws).stops {
        var k :| 0 <= k < |PiecesOf(flat[last], kws).stops| && PiecesOf(flat[last], kws).stops[k] == p;
        assert t[k] == (p, i);
      }
      if i < last {
        assert init[i] == flat[i];
      }
    }
  }

  /** Each candidate with its note and stop commands removed from its action. */
  function StripAll(flat: seq<ActionElements>, kws: seq<string>): seq<ActionElements>
    requires WellFormedKeywords(kws)
  {
    seq(|flat|, i requires 0 <= i < |flat| => flat[i].(action := Join(PiecesOf(flat[i], kws).rest, "\n")))
  }

  /** The inner loop of `deduplicate_action_element_list_strict` (AgentOccam/AgentOccam.py:1225-1231). */
  method SortCommands(ps: seq<string>) returns (r: Sorted)
    ensures r == SortPieces(ps)
  {
    r := Sorted([], [], []);
    for k := 0 to |ps|
      invariant r == SortPieces(ps[..k])
    {
      assert ps[..k + 1][..k] == ps[..k];
      if StartsWith(ps[k], "stop [") {
        r := r.(stops := r.stops + [ps[k]]);
      } else if StartsWith(ps[k], "note [") {
        r := r.(notes := r.notes + [ps[k]]);
      } else {
        r := r.(rest := r.rest + [ps[k]]);
      }
    }
    assert ps[..|ps|] == ps;
  }

  /** How the note list grows by one candidate. */
  lemma NoteListStep(flat: seq<ActionElements>, kws: seq<string>, i: nat)
    requires WellFormedKeywords(kws) && i < |flat|
    ensures NoteList(flat[..i + 1], kws) == NoteList(flat[..i], kws) + [(Join(PiecesOf(flat[i], kws).notes, "\n"), i)]
  {
    assert forall k :: 0 <= k < i ==> flat[..i][k] == flat[k] && flat[..i + 1][k] == flat[k];
  }

  /** How the stop list grows by one candidate. */
  lemma StopListStep(flat: seq<ActionElements>, kws: seq<string>, i: nat)
    requires WellFormedKeywords(kws) && i < |flat|
    ensures StopList(flat[..i + 1], kws) == StopList(flat[..i], kws) + Tagged(PiecesOf(flat[i], kws).stops, i)
  {
    assert flat[..i + 1][..i] == flat[..i];
  }

  /** How the stripped list grows by one candidate. */
  lemma StripAllStep(flat: seq<ActionElements>, kws: seq<string>, i: nat)
    requires WellFormedKeywords(kws) && i < |flat|
    ensures StripAll(flat[..i + 1], kws) == StripAll(flat[..i], kws) + [flat[i].(action := Join(PiecesOf(flat[i], kws).rest, "\n"))]
  {
    assert forall k :: 0 <= k < i ==> flat[..i][k] == flat[k] && flat[..i + 1][k] == flat[k];
  }

  /** How the deduplicated stripped list grows by one candidate, with the actions seen so far. */
  lemma DedupStrictStep(flat: seq<ActionElements>, kws: seq<string>, i: nat, d: seq<ActionElements>, item: ActionElements)
    requires WellFormedKeywords(kws) && i < |flat|
    requires d == Dedup(StripAll(flat[..i], kws))
    requires item == flat[i].(action := Join(PiecesOf(flat[i], kws).rest, "\n"))
    ensures Dedup(StripAll(flat[..i + 1], kws)) ==
      if item.action != "" && item.action !in ActionsOf(d) then d + [item] else d
    ensures ActionsOf(d + [item]) == ActionsOf(d) + {item.action}
  {
    StripAllStep(flat, kws, i);
    DedupSnoc(StripAll(flat[..i], kws), item);
    assert (d + [item])[..|d|] == d;
  }

  /**
   * The body of the outer loop of `deduplicate_action_element_list_strict` for
   * candidate i: its note entry, its tagged stop commands, and the candidate
   * with only its other commands left.
   */
  method SplitCandidate(e: ActionElements, i: nat, kws: seq<string>)
      returns (note: (string, nat), stops: seq<(string, nat)>, item: ActionElements)
    requires WellFormedKeywords(kws)
    ensures note == (Join(PiecesOf(e, kws).notes, "\n"), i)
    ensures stops == Tagged(PiecesOf(e, kws).stops, i)
    ensures item == e.(action := Join(PiecesOf(e, kws).rest, "\n"))
  {
    var ps := ParseStrToActionList(e.action, kws);
    var sorted := SortCommands(ps);
    stops := Tagged(sorted.stops, i);
    note := (Join(sorted.notes, "\n"), i);
    item := e.(action := Join(sorted.rest, "\n"));
  }

  /** `deduplicate_action_element_list_strict` (AgentOccam/AgentOccam.py:1214-1237). */
  method DeduplicateStrict(flat: seq<ActionElements>, kws: seq<string>)
      returns (notes: seq<(string, nat)>, stops: seq<(string, nat)>, d: seq<ActionElements>)
    requires WellFormedKeywords(kws)
    ensures notes == NoteList(flat, kws)
    ensures stops == StopList(flat, kws)
    ensures d == Dedup(StripAll(flat, kws))
  {
    var seen: set<string> := {};
    notes, stops, d := [], [], [];
    for i := 0 to |flat|
      invariant notes == NoteList(flat[..i], kws)
      invariant stops == StopList(flat[..i], kws)
      invariant d == Dedup(StripAll(flat[..i], kws)) && seen == ActionsOf(d)
    {
      var note, tagged, item := SplitCandidate(flat[i], i, kws);
      NoteListStep(flat, kws, i);
      StopListStep(flat, kws, i);
      DedupStrictStep(flat, kws, i, d, item);
      notes := notes + [note];
      stops := stops + tagged;
      if item.action != "" && item.action !in seen {
        seen := seen + {item.action};
        d := d + [item];
      }
    }
    assert flat[..|flat|] == flat;
  }

  /** The texts of a list of (text, position) pairs. */
  function Texts(pairs: seq<(string, nat)>): seq<string> {
    seq(|pairs|, k requires 0 <= k < |pairs| => pairs[k].0)
  }

  /** `max(xs, key=len)`: the position of the first of the longest strings. */
  function Longest(xs: seq<string>): (k: nat)
    requires xs != []
    ensures k < |xs|
    ensures forall j :: 0 <= j < |xs| ==> |xs[j]| <= |xs[k]|
    ensures forall j :: 0 <= j < k ==> |xs[j]| < |xs[k]|
  {
    if |xs| == 1 then 0
    else
      var k := Longest(xs[..|xs| - 1]);
      if |xs[|xs| - 1]| > |xs[k]| then |xs| - 1 else k
  }

  /**
   * `[s[1] for s in pairs if s[0] == choice][0]` where `choice` is the longest
   * text: the position attached to the longest text.
   */
  function ChosenId(pairs: seq<(string, nat)>): (r: nat)
    requires pairs != []
  {
    var texts := Texts(pairs);
    pairs[IndexOf(texts, texts[Longest(texts)])].1
  }

  /** The first pair whose text equals the longest text is the first longest pair itself. */
  lemma ChosenIsLongest(pairs: seq<(string, nat)>)
    requires pairs != []
    ensures ChosenId(pairs) == pairs[Longest(Texts(pairs))].1
  {
  }

  datatype JudgeConfig = JudgeConfig(mode: bool, debug: int, strict: bool)

  /** The chosen proposal, and whether the model was asked for a verdict. */
  datatype Judged = Judged(selected: ActionElements, consulted: bool)

  /** `int(re.search(r'\d+', judgement_elements["action selection"]).group())`, None where that raises. */
  function ActionSelection(response: string, outputKeys: set<string>): (r: Option<nat>)
    ensures r.Some? ==> "action selection" in outputKeys
  {
    if "action selection" in outputKeys then FirstInt(ParseElements(response, outputKeys)["action selection"]) else None
  }

  predicate AllSame(flat: seq<ActionElements>) {
    forall k :: 0 <= k < |flat| ==> flat[k].action == flat[0].action
  }

  /** `note_action_choice`: the longest joined notes. */
  function NoteChoice(flat: seq<ActionElements>, kws: seq<string>): string
    requires WellFormedKeywords(kws) && flat != []
  {
    var texts := Texts(NoteList(flat, kws));
    texts[Longest(texts)]
  }

  /** Prefixes an action with the chosen notes. */
  function WithNotes(e: ActionElements, note: string): ActionElements {
    e.(action := note + "\n" + e.action)
  }

  /**
   * `judge` on the shuffled list `flat`: None where the source raises (an
   * empty list), otherwise the chosen proposal.  The stop rule's
   * `len(stop_list) >= 0.6 * len(flat)` is written in integers.
   */
  function Judge(flat: seq<ActionElements>, cfg: JudgeConfig, kws: seq<string>, selection: Option<nat>): Option<Judged>
    requires WellFormedKeywords(kws)
  {
    if flat == [] then None
    else if !cfg.mode || cfg.debug > 1 || AllSame(flat) then Some(Judged(flat[0], false))
    else if cfg.strict then
      var stops := StopList(flat, kws);
      var d := Dedup(StripAll(flat, kws));
      var note := NoteChoice(flat, kws);
      if 5 * |stops| >= 3 * |flat| then
        StopIdBound(flat, kws);
        Some(Judged(flat[ChosenId(stops)], false))
      else if d == [] then
        Some(Judged(flat[ChosenId(NoteList(flat, kws))].(action := note), false))
      else if |d| == 1 then
        Some(Judged(WithNotes(d[0], note), false))
      else if selection.Some? && selection.value < |d| then
        var e := d[selection.value];
        Some(Judged(if note != "" then WithNotes(e, note) else e, true))
      else Some(Judged(flat[0], true))
    else
      var d := Dedup(flat);
      if selection.Some? && selection.value < |d| then Some(Judged(d[selection.value], true))
      else Some(Judged(flat[0], true))
  }

  lemma StopIdBound(flat: seq<ActionElements>, kws: seq<string>)
    requires WellFormedKeywords(kws) && StopList(flat, kws) != []
    ensures ChosenId(StopList(flat, kws)) < |flat|
    ensures StartsWith(StopList(flat, kws)[Longest(Texts(StopList(flat, kws)))].0, "stop [")
  {
    var stops := StopList(flat, kws);
    var k := Longest(Texts(stops));
    ChosenIsLongest(stops);
    assert stops[k] in stops;
    StopListMembers(flat, kws, stops[k].0, stops[k].1);
  }

  /**
   * `judge` (AgentOccam/AgentOccam.py:1207-1293) with the shuffle `perm` and
   * the model's response text. kws are the keywords of the strict split at
   * AgentOccam/AgentOccam.py:1222: the configured planning commands followed
   * by the navigation commands, without the `goto` that the actor's own split
   * adds.
   */
  method JudgeActions(list: seq<ActionElements>, perm: seq<nat>, cfg: JudgeConfig, kws: seq<string>,
                      response: string, outputKeys: set<string>) returns (r: Option<Judged>)
    requires WellFormedKeywords(kws)
    requires IsPermutation(perm, |Flattened(list)|)
    ensures |perm| == |Flattened(list)| && forall k :: 0 <= k < |perm| ==> perm[k] < |Flattened(list)|
    ensures r == Judge(Pick(Flattened(list), perm), cfg, kws, ActionSelection(response, outputKeys))
  {
    var flat := FlattenActionElementList(list, perm);
    var selection := ActionSelection(response, outputKeys);
    if flat == [] {
      return None;
    }
    if !cfg.mode || cfg.debug > 1 || AllSame(flat) {
      return Some(Judged(flat[0], false));
    }
    if cfg.strict {
      var notes, stops, d := DeduplicateStrict(flat, kws);
      if 5 * |stops| >= 3 * |flat| {
        StopIdBound(flat, kws);
        return Some(Judged(flat[ChosenId(stops)], false));
      }
      var texts := Texts(notes);
      var note := texts[Longest(texts)];
      if d == [] {
        return Some(Judged(flat[ChosenId(notes)].(action := note), false));
      } else if |d| == 1 {
        return Some(Judged(WithNotes(d[0], note), false));
      }
      if selection.Some? && selection.value < |d| {
        var e := d[selection.value];
        if note != "" {
          e := WithNotes(e, note);
        }
        return Some(Judged(e, true));
      }
      return Some(Judged(flat[0], true));
    } else {
      var d := DeduplicateActionElementList(flat);
      if selection.Some? && selection.value < |d| {
        return Some(Judged(d[selection.value], true));
      }
      return Some(Judged(flat[0], true));
    }
  }

  /** The texts a pair list carries are exactly the texts of its pairs. */
  lemma TextsMember(pairs: seq<(string, nat)>, q: string, j: nat)
    requires (q, j) in pairs
    ensures exists m :: 0 <= m < |pairs| && Texts(pairs)[m] == q
  {
    var m :| 0 <= m < |pairs| && pairs[m] == (q, j);
    assert Texts(pairs)[m] == q;
  }

  /** Settings under which the judge goes past the unanimity check. */
  predicate Contested(flat: seq<ActionElements>, cfg: JudgeConfig) {
    flat != [] && cfg.mode && cfg.debug <= 1 && !AllSame(flat)
  }

  /**
   * Stop majority: when the number of stop commands is at least three fifths
   * of the number of candidates, the candidate holding the longest stop
   * command is returned unchanged, without asking the model.
   */
  lemma JudgeStopMajority(flat: seq<ActionElements>, cfg: JudgeConfig, kws: seq<string>, selection: Option<nat>)
    requires WellFormedKeywords(kws) && Contested(flat, cfg) && cfg.strict
    requires 5 * |StopList(flat, kws)| >= 3 * |flat|
    ensures exists i, p :: (0 <= i < |flat| && p in PiecesOf(flat[i], kws).stops &&
      StartsWith(p, "stop [") &&
      (forall j, q :: 0 <= j < |flat| && q in PiecesOf(flat[j], kws).stops ==> |q| <= |p|) &&
      Judge(flat, cfg, kws, selection) == Some(Judged(flat[i], false)))
  {
    var stops := StopList(flat, kws);
    StopIdBound(flat, kws);
    assert Judge(flat, cfg, kws, selection) == Some(Judged(flat[ChosenId(stops)], false));
    var k := Longest(Texts(stops));
    ChosenIsLongest(stops);
    var p, i := stops[k].0, stops[k].1;
    assert stops[k] in stops;
    StopListMembers(flat, kws, p, i);
    forall j, q | 0 <= j < |flat| && q in PiecesOf(flat[j], kws).stops
      ensures |q| <= |p|
    {
      StopListMembers(flat, kws, q, j);
      TextsMember(stops, q, j);
    }
    assert Texts(stops)[k] == p;
  }

  /** The chosen notes are the longest joined notes of some candidate, and no candidate has longer ones. */
  lemma NoteChoiceLongest(flat: seq<ActionElements>, kws: seq<string>)
    requires WellFormedKeywords(kws) && flat != []
    ensures ChosenId(NoteList(flat, kws)) < |flat|
    ensures NoteChoice(flat, kws) == Join(PiecesOf(flat[ChosenId(NoteList(flat, kws))], kws).notes, "\n")
    ensures forall j :: 0 <= j < |flat| ==> |Join(PiecesOf(flat[j], kws).notes, "\n")| <= |NoteChoice(flat, kws)|
  {
    var notes := NoteList(flat, kws);
    ChosenIsLongest(notes);
    var k := Longest(Texts(notes));
    assert notes[k].1 == k;
    forall j | 0 <= j < |flat|
      ensures |Join(PiecesOf(flat[j], kws).notes, "\n")| <= |NoteChoice(flat, kws)|
    {
      assert Texts(notes)[j] == Join(PiecesOf(flat[j], kws).notes, "\n");
    }
  }

  /**
   * Nothing but notes and stops: when no candidate keeps any other command,
   * the candidate with the longest notes is returned with those notes as its action.
   */
  lemma JudgeOnlyNotes(flat: seq<ActionElements>, cfg: JudgeConfig, kws: seq<string>, selection: Option<nat>)
    requires WellFormedKeywords(kws) && Contested(flat, cfg) && cfg.strict
    requires 5 * |StopList(flat, kws)| < 3 * |flat|
    requires forall i :: 0 <= i < |flat| ==> PiecesOf(flat[i], kws).rest == []
    ensures exists i :: (0 <= i < |flat| &&
      (forall j :: 0 <= j < |flat| ==>
        |Join(PiecesOf(flat[j], kws).notes, "\n")| <= |Join(PiecesOf(flat[i], kws).notes, "\n")|) &&
      Judge(flat, cfg, kws, selection) ==
        Some(Judged(flat[i].(action := Join(PiecesOf(flat[i], kws).notes, "\n")), false)))
  {
    var stripped := StripAll(flat, kws);
    assert forall k :: 0 <= k < |stripped| ==> stripped[k].action == Join([], "\n") == "";
    DedupEmpty(stripped);
    NoteChoiceLongest(flat, kws);
    var i := ChosenId(NoteList(flat, kws));
    assert Judge(flat, cfg, kws, selection) == Some(Judged(flat[i].(action := NoteChoice(flat, kws)), false));
  }

  /**
   * A single surviving command list: when every candidate that keeps commands
   * besides notes and stops keeps the same ones, the first such candidate is
   * returned with the longest notes in front of them, without asking the model.
   */
  lemma JudgeSingleSurvivor(flat: seq<ActionElements>, cfg: JudgeConfig, kws: seq<string>, selection: Option<nat>, i: nat)
    requires WellFormedKeywords(kws) && Contested(flat, cfg) && cfg.strict
    requires 5 * |StopList(flat, kws)| < 3 * |flat|
    requires i < |flat| && StripAll(flat, kws)[i].action != ""
    requires forall j :: 0 <= j < |flat| && StripAll(flat, kws)[j].action != "" ==>
      StripAll(flat, kws)[j].action == StripAll(flat, kws)[i].action
    ensures Judge(flat, cfg, kws, selection).Some?
    ensures var r := Judge(flat, cfg, kws, selection).value;
      !r.consulted && r.selected.action == NoteChoice(flat, kws) + "\n" + StripAll(flat, kws)[i].action &&
      exists j :: 0 <= j < |flat| && r.selected == WithNotes(StripAll(flat, kws)[j], NoteChoice(flat, kws))
  {
    var stripped := StripAll(flat, kws);
    var d := Dedup(stripped);
    DedupProperties(stripped);
    ActionsOfMembers(d, stripped[i].action);
    var k :| 0 <= k < |d| && d[k].action == stripped[i].action;
    if |d| > 1 {
      assert false;
    }
    var m :| 0 <= m < |stripped| && stripped[m] == d[0];
  }

  /**
   * The model's verdict: once the model is asked, a number in range picks
   * that entry of the deduplicated list, which is a candidate with a non-empty
   * action; anything else falls back to the first candidate.
   */
  lemma JudgeModelVerdict(flat: seq<ActionElements>, cfg: JudgeConfig, kws: seq<string>, selection: Option<nat>)
    requires WellFormedKeywords(kws) && Contested(flat, cfg) && !cfg.strict
    ensures Judge(flat, cfg, kws, selection).Some? && Judge(flat, cfg, kws, selection).value.consulted
    ensures var r := Judge(flat, cfg, kws, selection).value.selected;
      if selection.Some? && selection.value < |Dedup(flat)| then r == Dedup(flat)[selection.value] && r in flat && r.action != ""
      else r == flat[0]
  {
    DedupProperties(flat);
  }

  /** Unanimity: when every candidate proposes the same action, the first candidate is returned without asking the model. */
  lemma JudgeUnanimous(flat: seq<ActionElements>, cfg: JudgeConfig, kws: seq<string>, selection: Option<nat>, a: string)
    requires WellFormedKeywords(kws) && flat != []
    requires forall k :: 0 <= k < |flat| ==> flat[k].action == a
    ensures Judge(flat, cfg, kws, selection) == Some(Judged(flat[0], false))
    ensures Judge(flat, cfg, kws, selection).value.selected.action == a
  {
  }

  /**
   * The model's verdict in strict mode: with several surviving command lists,
   * a number in range picks that entry of the deduplicated stripped list, a
   * candidate with a non-empty action, prefixed by the longest notes when there
   * are any; anything else falls back to the first candidate.
   */
  lemma JudgeStrictVerdict(flat: seq<ActionElements>, cfg: JudgeConfig, kws: seq<string>, selection: Option<nat>)
    requires WellFormedKeywords(kws) && Contested(flat, cfg) && cfg.strict
    requires 5 * |StopList(flat, kws)| < 3 * |flat|
    requires |Dedup(StripAll(flat, kws))| > 1
    ensures Judge(flat, cfg, kws, selection).Some? && Judge(flat, cfg, kws, selection).value.consulted
    ensures var d := Dedup(StripAll(flat, kws));
      var note := NoteChoice(flat, kws);
      var r := Judge(flat, cfg, kws, selection).value.selected;
      if selection.Some? && selection.value < |d| then
        && d[selection.value] in StripAll(flat, kws) && d[selection.value].action != ""
        && r == if note != "" then WithNotes(d[selection.value], note) else d[selection.value]
      else r == flat[0]
  {
    DedupProperties(StripAll(flat, kws));
  }
}
