/**
 * The action grammar of the agent (AgentOccam/AgentOccam.py): splitting a
 * model's action text into one command per line-start keyword, checking each
 * command against the current observation, recognising planning commands,
 * extracting notes, and finding the element id an action refers to.
 *
 * Every regular expression of the source is written out as a function over
 * positions: a `search` is the leftmost start at which the whole pattern
 * matches, a lazy `(.*?)` ends at the first position where the lookahead
 * holds, a greedy `(.*)` at the last, and `$` (no MULTILINE flag) holds at the
 * end of the text and just before a newline that ends it.
 */
module ActionGrammar {
  import opened Wrappers
  import opened Text

  /** Configured command keywords: non-empty and without surrounding whitespace. */
  predicate WellFormedKeywords(kws: seq<string>) {
    forall k :: 0 <= k < |kws| ==> |kws[k]| > 0 && Trimmed(kws[k])
  }

  /** Some keyword occurs at index i. */
  predicate KeywordAt(s: string, i: int, kws: seq<string>) {
    exists k :: 0 <= k < |kws| && StartsAt(s, i, kws[k])
  }

  predicate StartsWithKeyword(s: string, kws: seq<string>) {
    KeywordAt(s, 0, kws)
  }

  /**
   * The lookahead `(?=\n(?:kw1|kw2|...)|$)`: a newline followed by a keyword,
   * the end of the text, or a newline that ends the text.
   */
  predicate PieceBoundary(s: string, e: int, kws: seq<string>) {
    || e == |s|
    || (0 <= e && e == |s| - 1 && s[e] == '\n')
    || (0 <= e < |s| && s[e] == '\n' && KeywordAt(s, e + 1, kws))
  }

  /** Where the lazy `(.*?)` that starts at a stops: the first boundary at or after a. */
  function PieceEnd(s: string, a: nat, kws: seq<string>): (e: nat)
    requires a <= |s|
    decreases |s| - a
    ensures a <= e <= |s| && PieceBoundary(s, e, kws)
    ensures forall m :: a <= m < e ==> !PieceBoundary(s, m, kws)
  {
    if PieceBoundary(s, a, kws) then a else PieceEnd(s, a + 1, kws)
  }

  /**
   * End of the match of `({kw}\s*(.*?))(?=\n(?:kw1|...)|$)` that starts at i:
   * the greedy `\s*` takes every whitespace character after the keyword, then
   * the lazy group runs to the first boundary.
   */
  function MatchEnd(s: string, i: nat, kw: string, kws: seq<string>): (e: nat)
    requires StartsAt(s, i, kw)
    ensures i + |kw| <= e <= |s|
  {
    var a := i + |kw| + SpaceRun(s, i + |kw|);
    PieceEnd(s, a, kws)
  }

  /**
   * One round of the inner `for action in actions` loop of
   * `parse_str_to_action_list`, from keyword j on: every keyword that the
   * remaining text starts with consumes one piece, and the rest is stripped.
   * Later keywords are tried against the text left by earlier ones.
   */
  function Pass(remain: string, kws: seq<string>, j: nat): (r: (seq<string>, string))
    requires j <= |kws| && WellFormedKeywords(kws)
    decreases |kws| - j
    ensures |r.1| <= |remain|
    ensures r.0 == [] ==> r.1 == remain
    ensures r.0 != [] ==> |r.1| < |remain|
    ensures forall k :: 0 <= k < |r.0| ==> StartsWithKeyword(r.0[k], kws)
  {
    if j == |kws| then ([], remain)
    else if StartsWith(remain, kws[j]) then
      var piece := remain[..MatchEnd(remain, 0, kws[j], kws)];
      assert piece[..|kws[j]|] == kws[j];
      var rest := Strip(remain[|piece|..]);
      var next := Pass(rest, kws, j + 1);
      ([piece] + next.0, next.1)
    else Pass(remain, kws, j + 1)
  }

  /** The list `parse_str_to_action_list(text, kws)` returns. */
  function ActionPieces(text: string, kws: seq<string>): (r: seq<string>)
    requires WellFormedKeywords(kws)
    decreases |text|
    ensures forall k :: 0 <= k < |r| ==> StartsWithKeyword(r[k], kws)
  {
    if text == [] then []
    else
      var p := Pass(text, kws, 0);
      if p.0 == [] then [] else p.0 + ActionPieces(p.1, kws)
  }

  /** A round finds nothing exactly when no keyword from j on is a prefix of the text. */
  lemma {:induction false} PassEmpty(remain: string, kws: seq<string>, j: nat)
    requires j <= |kws| && WellFormedKeywords(kws)
    ensures Pass(remain, kws, j).0 == [] <==> forall k :: j <= k < |kws| ==> !StartsWith(remain, kws[k])
    decreases |kws| - j
  {
    if j < |kws| && !StartsWith(remain, kws[j]) {
      PassEmpty(remain, kws, j + 1);
    }
  }

  /** The split yields no piece exactly when the text does not start with a keyword. */
  lemma ActionPiecesEmpty(text: string, kws: seq<string>)
    requires WellFormedKeywords(kws)
    ensures ActionPieces(text, kws) == [] <==> !StartsWithKeyword(text, kws)
  {
    PassEmpty(text, kws, 0);
    if text == [] {
      assert !StartsWithKeyword(text, kws);
    }
  }

  /** The inner `for action in actions` loop of `parse_str_to_action_list` (AgentOccam/AgentOccam.py:145-151). */
  method KeywordPass(text: string, kws: seq<string>) returns (found: seq<string>, remain: string)
    requires WellFormedKeywords(kws)
    ensures (found, remain) == Pass(text, kws, 0)
  {
    found := [];
    remain := text;
    for j := 0 to |kws|
      invariant found + Pass(remain, kws, j).0 == Pass(text, kws, 0).0
      invariant Pass(remain, kws, j).1 == Pass(text, kws, 0).1
    {
      if StartsWith(remain, kws[j]) {
        var e := MatchEnd(remain, 0, kws[j], kws);
        ghost var next := Pass(Strip(remain[e..]), kws, j + 1);
        assert Pass(remain, kws, j) == ([remain[..e]] + next.0, next.1);
        assert found + ([remain[..e]] + next.0) == (found + [remain[..e]]) + next.0;
        found := found + [remain[..e]];
        remain := Strip(remain[e..]);
      }
    }
    assert found + [] == found;
  }

  /** `parse_str_to_action_list` (AgentOccam/AgentOccam.py:141-154): consumes the text piece by piece. */
  method ParseStrToActionList(text: string, kws: seq<string>) returns (pieces: seq<string>)
    requires WellFormedKeywords(kws)
    ensures pieces == ActionPieces(text, kws)
  {
    var remain := text;
    pieces := [];
    while remain != []
      invariant pieces + ActionPieces(remain, kws) == ActionPieces(text, kws)
      decreases |remain|
    {
      var found, rest := KeywordPass(remain, kws);
      if found == [] {
        break;
      }
      assert ActionPieces(remain, kws) == found + ActionPieces(rest, kws);
      assert pieces + (found + ActionPieces(rest, kws)) == (pieces + found) + ActionPieces(rest, kws);
      pieces := pieces + found;
      remain := rest;
    }
  }

  /**
   * `re.findall(rf'({kw}\s*(.*?))(?=\n(?:kw1|...)|$)', s, re.DOTALL)` from index i,
   * each match stripped: `parse_stipulated_action_list`. Unlike the split above,
   * a match may start anywhere, not only at the start of a line.
   */
  function Stipulated(s: string, i: nat, kw: string, kws: seq<string>): (r: seq<string>)
    requires i <= |s| && |kw| > 0 && Trimmed(kw)
    decreases |s| - i
    ensures forall k :: 0 <= k < |r| ==> StartsWith(r[k], kw)
  {
    if i == |s| then []
    else if StartsAt(s, i, kw) then
      var e := MatchEnd(s, i, kw, kws);
      StripKeepsKeyword(s[i..e], kw);
      [Strip(s[i..e])] + Stipulated(s, e, kw, kws)
    else Stipulated(s, i + 1, kw, kws)
  }

  /** The search finds nothing exactly when kw does not occur from i on. */
  lemma {:induction false} StipulatedEmpty(s: string, i: nat, kw: string, kws: seq<string>)
    requires i <= |s| && |kw| > 0 && Trimmed(kw)
    decreases |s| - i
    ensures Stipulated(s, i, kw, kws) == [] <==> forall k :: i <= k ==> !StartsAt(s, k, kw)
  {
    if i < |s| && !StartsAt(s, i, kw) {
      StipulatedEmpty(s, i + 1, kw, kws);
    }
  }

  /** Stripping a text that starts with a trimmed keyword keeps the keyword. */
  lemma StripKeepsKeyword(t: string, kw: string)
    requires |kw| > 0 && Trimmed(kw) && StartsWith(t, kw)
    ensures StartsWith(Strip(t), kw)
  {
    assert t[0] == kw[0];
    assert SpaceRun(t, 0) == 0;
  }

  /** `parse_stipulated_action_list(text, action, actions)` (AgentOccam/AgentOccam.py:137-139). */
  function ParseStipulatedActionList(text: string, kw: string, kws: seq<string>): seq<string>
    requires |kw| > 0 && Trimmed(kw)
  {
    Stipulated(text, 0, kw, kws)
  }

  /** Keywords that hold no newline, so none can straddle two lines. */
  predicate LineKeywords(kws: seq<string>) {
    WellFormedKeywords(kws) && forall k :: 0 <= k < |kws| ==> NoNewline(kws[k], 0, |kws[k]|)
  }

  /**
   * Pieces that come back out of their newline-joined text unchanged: each is
   * stripped and starts with a keyword, no newline inside a piece is followed
   * by a keyword, and every piece but the last is longer than any keyword it
   * starts with (the `\s*` after a bare keyword would run on into the next line).
   */
  predicate SplitPieces(ps: seq<string>, kws: seq<string>) {
    ps == [] || (SplitPiece(ps[0], kws, |ps| == 1) && SplitPieces(ps[1..], kws))
  }

  /** One piece of SplitPieces; last tells whether it ends the text. */
  predicate SplitPiece(p: string, kws: seq<string>, last: bool) {
    && Trimmed(p) && StartsWithKeyword(p, kws)
    && (forall m :: 0 <= m < |p| && p[m] == '\n' ==> !KeywordAt(p, m + 1, kws))
    && (!last ==> forall k :: 0 <= k < |kws| && StartsWith(p, kws[k]) ==> |kws[k]| < |p|)
  }

  /** The pieces that start with kw, in order. */
  function StartingWith(ps: seq<string>, kw: string): (r: seq<string>)
    ensures |r| <= |ps|
  {
    if ps == [] then []
    else (if StartsWith(ps[0], kw) then [ps[0]] else []) + StartingWith(ps[1..], kw)
  }

  /**
   * Splitting the newline-joined pieces gives the pieces back: the split of
   * `parse_str_to_action_list` (AgentOccam/AgentOccam.py:141-154) inverts
   * joining one command per line.
   */
  lemma {:induction false} ActionPiecesRoundTrip(ps: seq<string>, kws: seq<string>)
    requires LineKeywords(kws) && SplitPieces(ps, kws)
    ensures ActionPieces(Join(ps, "\n"), kws) == ps
    decreases |ps|
  {
    if ps != [] {
      var s := Join(ps, "\n");
      assert StartsWithKeyword(ps[0], kws);
      var k :| 0 <= k < |kws| && StartsAt(ps[0], 0, kws[k]);
      assert KeywordFrom(ps[0], kws, 0);
      JointAt(s, 0, ps);
      var n := PassJoin(ps, kws, 0);
      ActionPiecesStep(s, kws, ps[..n], Join(ps[n..], "\n"));
      SplitPiecesSuffix(ps, kws, n);
      ActionPiecesRoundTrip(ps[n..], kws);
      assert ps[..n] + ps[n..] == ps;
    }
  }

  /** A round that takes some pieces is followed by the rounds on what it leaves. */
  lemma ActionPiecesStep(s: string, kws: seq<string>, taken: seq<string>, rest: string)
    requires WellFormedKeywords(kws) && s != [] && taken != [] && Pass(s, kws, 0) == (taken, rest)
    ensures ActionPieces(s, kws) == taken + ActionPieces(rest, kws)
  {
  }

  /**
   * `parse_stipulated_action_list` on newline-joined pieces finds exactly the
   * pieces that start with kw, when kw occurs nowhere else in them.
   */
  lemma StipulatedRoundTrip(ps: seq<string>, kws: seq<string>, j: nat)
    requires LineKeywords(kws) && SplitPieces(ps, kws) && j < |kws|
    requires forall t :: 0 <= t < |ps| ==> OnlyAtStart(ps[t], kws[j])
    ensures ParseStipulatedActionList(Join(ps, "\n"), kws[j], kws) == StartingWith(ps, kws[j])
  {
    var s := Join(ps, "\n");
    assert s[0..] == s;
    StipulatedJoin(s, 0, ps, kws, j);
  }

  /** kw occurs in p at most at its start. */
  ghost predicate OnlyAtStart(p: string, kw: string) {
    forall m :: 0 < m ==> !StartsAt(p, m, kw)
  }

  lemma {:induction false} StipulatedJoin(s: string, i: nat, ps: seq<string>, kws: seq<string>, j: nat)
    requires LineKeywords(kws) && SplitPieces(ps, kws) && j < |kws|
    requires forall t :: 0 <= t < |ps| ==> OnlyAtStart(ps[t], kws[j])
    requires i <= |s| && s[i..] == Join(ps, "\n")
    ensures Stipulated(s, i, kws[j], kws) == StartingWith(ps, kws[j])
    decreases |ps|
  {
    if ps == [] {
      assert |s| == i;
    } else {
      var next := StipulatedFirstPiece(s, i, ps, kws, j);
      if |ps| > 1 {
        JointAt(s, i, ps);
        SplitPiecesSuffix(ps, kws, 1);
        assert forall t :: 0 <= t < |ps| - 1 ==> ps[1..][t] == ps[t + 1];
        StipulatedJoin(s, next, ps[1..], kws, j);
      } else {
        assert ps[1..] == [];
      }
    }
  }

  /** The search over the first piece of the joined text yields that piece when it starts with kw, and nothing otherwise. */
  lemma StipulatedFirstPiece(s: string, i: nat, ps: seq<string>, kws: seq<string>, j: nat) returns (next: nat)
    requires LineKeywords(kws) && SplitPieces(ps, kws) && j < |kws| && ps != [] && OnlyAtStart(ps[0], kws[j])
    requires i <= |s| && s[i..] == Join(ps, "\n")
    ensures next == (if |ps| == 1 then |s| else i + |ps[0]| + 1) && next <= |s|
    ensures Stipulated(s, i, kws[j], kws) == (if StartsWith(ps[0], kws[j]) then [ps[0]] else []) + Stipulated(s, next, kws[j], kws)
  {
    JointAt(s, i, ps);
    next := if |ps| == 1 then |s| else i + |ps[0]| + 1;
    if StartsWith(ps[0], kws[j]) {
      StipulatedMatchedPiece(s, i, ps, kws, j, next);
    } else {
      StipulatedUnmatchedPiece(s, i, ps, kws, j, next);
      assert [] + Stipulated(s, next, kws[j], kws) == Stipulated(s, next, kws[j], kws);
    }
  }

  /** A first piece that starts with kw is found whole, and the search resumes after its newline. */
  lemma StipulatedMatchedPiece(s: string, i: nat, ps: seq<string>, kws: seq<string>, j: nat, next: nat)
    requires LineKeywords(kws) && SplitPieces(ps, kws) && j < |kws| && ps != [] && StartsWith(ps[0], kws[j])
    requires i <= |s| && s[i..] == Join(ps, "\n")
    requires next == (if |ps| == 1 then |s| else i + |ps[0]| + 1)
    ensures next <= |s| && Stipulated(s, i, kws[j], kws) == [ps[0]] + Stipulated(s, next, kws[j], kws)
  {
    MatchedPieceFacts(s, i, ps, kws, j);
    StipulatedTakes(s, i, i + |ps[0]|, next, kws[j], kws);
    assert s[i..i + |ps[0]|] == ps[0];
  }

  /** What the search needs about a first piece that starts with kw: where its match ends, and that it is stripped. */
  lemma MatchedPieceFacts(s: string, i: nat, ps: seq<string>, kws: seq<string>, j: nat)
    requires LineKeywords(kws) && SplitPieces(ps, kws) && j < |kws| && ps != [] && StartsWith(ps[0], kws[j])
    requires i <= |s| && s[i..] == Join(ps, "\n")
    ensures StartsAt(s, i, kws[j]) && MatchEnd(s, i, kws[j], kws) == i + |ps[0]|
    ensures i + |ps[0]| <= |s| && s[i..i + |ps[0]|] == ps[0] && Trimmed(s[i..i + |ps[0]|])
    ensures |ps| == 1 ==> |s| == i + |ps[0]|
    ensures |ps| > 1 ==> i + |ps[0]| < |s| && !StartsAt(s, i + |ps[0]|, kws[j])
  {
    JointAt(s, i, ps);
    PieceEndsAtJoint(s, i, ps, kws, j);
    if |ps| > 1 {
      NotAtNewline(s, i + |ps[0]|, kws, j);
    }
  }

  /** A first piece that does not start with kw, and holds it nowhere else, is passed over. */
  lemma StipulatedUnmatchedPiece(s: string, i: nat, ps: seq<string>, kws: seq<string>, j: nat, next: nat)
    requires LineKeywords(kws) && j < |kws| && ps != [] && !StartsWith(ps[0], kws[j]) && OnlyAtStart(ps[0], kws[j])
    requires i <= |s| && s[i..] == Join(ps, "\n")
    requires next == (if |ps| == 1 then |s| else i + |ps[0]| + 1)
    ensures next <= |s| && Stipulated(s, i, kws[j], kws) == Stipulated(s, next, kws[j], kws)
  {
    var p, kw := ps[0], kws[j];
    JointAt(s, i, ps);
    forall m | i <= m < next
      ensures !StartsAt(s, m, kw)
    {
      if m < i + |p| {
        InPieceOccurrence(s, i, ps, kws, j, m);
      } else {
        NotAtNewline(s, m, kws, j);
      }
    }
    StipulatedSkip(s, i, next, kw, kws);
  }

  /**
   * A match of kw that ends at e, where the text up to e is already stripped,
   * is found whole; the search goes on at next, which is e or one position
   * past it where kw does not occur.
   */
  lemma StipulatedTakes(s: string, i: nat, e: nat, next: nat, kw: string, kws: seq<string>)
    requires |kw| > 0 && Trimmed(kw) && StartsAt(s, i, kw)
    requires MatchEnd(s, i, kw, kws) == e && Trimmed(s[i..e])
    requires next == e || (next == e + 1 <= |s| && !StartsAt(s, e, kw))
    ensures Stipulated(s, i, kw, kws) == [s[i..e]] + Stipulated(s, next, kw, kws)
  {
    StripTrimmed(s[i..e]);
    StipulatedAt(s, i, kw, kws, e, s[i..e]);
    if next > e {
      StipulatedSkipOne(s, e, kw, kws);
    }
  }

  /** The search moves past one position where kw does not occur. */
  lemma StipulatedSkipOne(s: string, i: nat, kw: string, kws: seq<string>)
    requires i < |s| && |kw| > 0 && Trimmed(kw) && !StartsAt(s, i, kw)
    ensures Stipulated(s, i, kw, kws) == Stipulated(s, i + 1, kw, kws)
  {
  }

  /** A match that ends at e and strips to p is found as p. */
  lemma StipulatedAt(s: string, i: nat, kw: string, kws: seq<string>, e: nat, p: string)
    requires |kw| > 0 && Trimmed(kw) && StartsAt(s, i, kw)
    requires MatchEnd(s, i, kw, kws) == e && Strip(s[i..e]) == p
    ensures Stipulated(s, i, kw, kws) == [p] + Stipulated(s, e, kw, kws)
  {
  }

  /** A keyword does not occur at a newline. */
  lemma NotAtNewline(s: string, m: nat, kws: seq<string>, j: nat)
    requires WellFormedKeywords(kws) && j < |kws| && m < |s| && s[m] == '\n'
    ensures !StartsAt(s, m, kws[j])
  {
    StartsAtCharIf(s, m, kws[j], 0);
  }

  /** The search moves past positions where kw does not occur. */
  lemma {:induction false} StipulatedSkip(s: string, i: nat, e: nat, kw: string, kws: seq<string>)
    requires i <= e <= |s| && |kw| > 0 && Trimmed(kw)
    requires forall m :: i <= m < e ==> !StartsAt(s, m, kw)
    ensures Stipulated(s, i, kw, kws) == Stipulated(s, e, kw, kws)
    decreases e - i
  {
    if i < e {
      StipulatedSkip(s, i + 1, e, kw, kws);
    }
  }

  /**
   * One round of the split over newline-joined pieces consumes whole pieces:
   * each keyword from j on that the remaining text starts with takes exactly
   * the next piece.
   */
  lemma {:induction false} PassJoin(ps: seq<string>, kws: seq<string>, j: nat) returns (n: nat)
    requires LineKeywords(kws) && SplitPieces(ps, kws) && j <= |kws|
    ensures n <= |ps| && Pass(Join(ps, "\n"), kws, j) == (ps[..n], Join(ps[n..], "\n"))
    ensures ps != [] && KeywordFrom(ps[0], kws, j) ==> n > 0
    decreases |kws| - j, 1
  {
    if j == |kws| {
      n := 0;
      assert ps[0..] == ps;
    } else if ps != [] && StartsWith(ps[0], kws[j]) {
      n := PassJoinTake(ps, kws, j);
    } else {
      n := PassJoinSkip(ps, kws, j);
    }
  }

  /** PassJoin when the first piece starts with keyword j. */
  lemma {:induction false} PassJoinTake(ps: seq<string>, kws: seq<string>, j: nat) returns (n: nat)
    requires LineKeywords(kws) && SplitPieces(ps, kws) && j < |kws| && ps != [] && StartsWith(ps[0], kws[j])
    ensures 0 < n <= |ps| && Pass(Join(ps, "\n"), kws, j) == (ps[..n], Join(ps[n..], "\n"))
    decreases |kws| - j, 0
  {
    var m := PassJoin(ps[1..], kws, j + 1);
    PassTakeStep(ps, kws, j, m);
    n := m + 1;
  }

  /** PassJoin when the first piece, if any, does not start with keyword j. */
  lemma {:induction false} PassJoinSkip(ps: seq<string>, kws: seq<string>, j: nat) returns (n: nat)
    requires LineKeywords(kws) && SplitPieces(ps, kws) && j < |kws| && (ps != [] ==> !StartsWith(ps[0], kws[j]))
    ensures n <= |ps| && Pass(Join(ps, "\n"), kws, j) == (ps[..n], Join(ps[n..], "\n"))
    ensures ps != [] && KeywordFrom(ps[0], kws, j) ==> n > 0
    decreases |kws| - j, 0
  {
    PassSkips(ps, kws, j);
    n := PassJoin(ps, kws, j + 1);
    if ps != [] {
      KeywordFromNext(ps[0], kws, j);
    }
  }

  /** Some keyword from j on is a prefix of p. */
  predicate KeywordFrom(p: string, kws: seq<string>, j: nat) {
    exists k :: j <= k < |kws| && StartsWith(p, kws[k])
  }

  lemma KeywordFromNext(p: string, kws: seq<string>, j: nat)
    requires j < |kws| && !StartsWith(p, kws[j])
    ensures KeywordFrom(p, kws, j) ==> KeywordFrom(p, kws, j + 1)
  {
    if KeywordFrom(p, kws, j) {
      var k :| j <= k < |kws| && StartsWith(p, kws[k]);
      assert k != j;
    }
  }

  /** Taking the first piece, then m more in the later rounds, takes m + 1 pieces. */
  lemma PassTakeStep(ps: seq<string>, kws: seq<string>, j: nat, m: nat)
    requires LineKeywords(kws) && SplitPieces(ps, kws) && j < |kws| && ps != [] && StartsWith(ps[0], kws[j])
    requires m < |ps| && Pass(Join(ps[1..], "\n"), kws, j + 1) == (ps[1..][..m], Join(ps[1..][m..], "\n"))
    ensures Pass(Join(ps, "\n"), kws, j) == (ps[..m + 1], Join(ps[m + 1..], "\n"))
  {
    PassTakesPiece(ps, kws, j);
    assert [ps[0]] + ps[1..][..m] == ps[..m + 1];
    assert ps[1..][m..] == ps[m + 1..];
  }

  /** A keyword that the first piece starts with takes exactly that piece. */
  lemma PassTakesPiece(ps: seq<string>, kws: seq<string>, j: nat)
    requires LineKeywords(kws) && SplitPieces(ps, kws) && j < |kws| && ps != [] && StartsWith(ps[0], kws[j])
    ensures var next := Pass(Join(ps[1..], "\n"), kws, j + 1);
      Pass(Join(ps, "\n"), kws, j) == ([ps[0]] + next.0, next.1)
  {
    var s := Join(ps, "\n");
    assert s[0..] == s;
    PieceEndsAtJoint(s, 0, ps, kws, j);
    JointAt(s, 0, ps);
    assert s[..|ps[0]|] == ps[0];
    RestAfterPiece(ps, kws);
    PassTakesAt(s, kws, j, |ps[0]|, Join(ps[1..], "\n"));
  }

  /** A keyword the text starts with takes the match and hands the stripped rest to the later keywords. */
  lemma PassTakesAt(s: string, kws: seq<string>, j: nat, e: nat, rest: string)
    requires WellFormedKeywords(kws) && j < |kws| && StartsWith(s, kws[j])
    requires MatchEnd(s, 0, kws[j], kws) == e && Strip(s[e..]) == rest
    ensures Pass(s, kws, j) == ([s[..e]] + Pass(rest, kws, j + 1).0, Pass(rest, kws, j + 1).1)
  {
  }

  /** A keyword that the first piece does not start with is skipped. */
  lemma PassSkips(ps: seq<string>, kws: seq<string>, j: nat)
    requires LineKeywords(kws) && SplitPieces(ps, kws) && j < |kws|
    requires ps != [] ==> !StartsWith(ps[0], kws[j])
    ensures Pass(Join(ps, "\n"), kws, j) == Pass(Join(ps, "\n"), kws, j + 1)
  {
    if ps != [] {
      InPieceOccurrenceAtStart(Join(ps, "\n"), ps, kws, j);
    }
  }

  /** The text starts with a keyword exactly when its first piece does. */
  lemma InPieceOccurrenceAtStart(s: string, ps: seq<string>, kws: seq<string>, j: nat)
    requires LineKeywords(kws) && SplitPieces(ps, kws) && j < |kws| && ps != []
    requires s == Join(ps, "\n")
    ensures StartsWith(s, kws[j]) <==> StartsWith(ps[0], kws[j])
  {
    assert s[0..] == s;
    JointAt(s, 0, ps);
    InPieceOccurrence(s, 0, ps, kws, j, 0);
  }

  /** What follows the first piece, stripped, is the join of the other pieces. */
  lemma RestAfterPiece(ps: seq<string>, kws: seq<string>)
    requires LineKeywords(kws) && SplitPieces(ps, kws) && ps != []
    ensures Strip(Join(ps, "\n")[|ps[0]|..]) == Join(ps[1..], "\n")
  {
    var s := Join(ps, "\n");
    assert s[0..] == s;
    JointAt(s, 0, ps);
    if |ps| > 1 {
      SplitPiecesSuffix(ps, kws, 1);
      JoinTrimmed(ps[1..], kws);
      StripAtNewline(s, |ps[0]|, Join(ps[1..], "\n"));
    }
  }

  /** `strip` of a newline followed by a stripped, non-empty text gives that text. */
  lemma StripAtNewline(s: string, a: nat, rest: string)
    requires a < |s| && s[a] == '\n' && s[a + 1..] == rest && rest != [] && Trimmed(rest)
    ensures Strip(s[a..]) == rest
  {
    assert s[a..] == "\n" + rest;
    StripAfterNewline(rest);
  }

  /** `strip` drops a newline in front of a stripped, non-empty text. */
  lemma StripAfterNewline(t: string)
    requires t != [] && Trimmed(t)
    ensures Strip("\n" + t) == t
  {
    var u := "\n" + t;
    assert u[1] == t[0];
    assert SpaceRun(u, 1) == 0;
    assert SpaceRun(u, 0) == 1;
    assert u[1..] == t;
    TrimEndKeepsTrimmed(t);
  }

  /** Joined pieces that are stripped and start with a keyword form a stripped, non-empty text. */
  lemma {:induction false} JoinTrimmed(ps: seq<string>, kws: seq<string>)
    requires WellFormedKeywords(kws) && SplitPieces(ps, kws) && ps != []
    ensures Join(ps, "\n") != [] && Trimmed(Join(ps, "\n"))
    decreases |ps|
  {
    assert StartsWithKeyword(ps[0], kws);
    var k :| 0 <= k < |kws| && StartsAt(ps[0], 0, kws[k]);
    assert ps[0] != [];
    if |ps| > 1 {
      SplitPiecesSuffix(ps, kws, 1);
      JoinTrimmed(ps[1..], kws);
      var rest := Join(ps[1..], "\n");
      assert Join(ps, "\n") == ps[0] + "\n" + rest;
      assert Join(ps, "\n")[|Join(ps, "\n")| - 1] == rest[|rest| - 1];
    }
  }

  /** A suffix of split pieces is split pieces. */
  lemma {:induction false} SplitPiecesSuffix(ps: seq<string>, kws: seq<string>, n: nat)
    requires SplitPieces(ps, kws) && n <= |ps|
    ensures SplitPieces(ps[n..], kws)
  {
    if n > 0 {
      SplitPiecesSuffix(ps[1..], kws, n - 1);
      assert ps[1..][n - 1..] == ps[n..];
    }
  }

  /**
   * Where the first piece sits in a text whose tail from i is the joined
   * pieces: the piece, then a newline and the rest, or the end of the text.
   */
  lemma JointAt(s: string, i: nat, ps: seq<string>)
    requires ps != [] && i <= |s| && s[i..] == Join(ps, "\n")
    ensures i + |ps[0]| <= |s| && s[i..i + |ps[0]|] == ps[0]
    ensures |ps| == 1 ==> |s| == i + |ps[0]|
    ensures |ps| > 1 ==> i + |ps[0]| < |s| && s[i + |ps[0]|] == '\n'
    ensures |ps| > 1 ==> s[i + |ps[0]| + 1..] == Join(ps[1..], "\n")
  {
    var p := ps[0];
    if |ps| > 1 {
      var rest := Join(ps[1..], "\n");
      assert s[i..] == p + "\n" + rest;
      assert s[i..i + |p|] == s[i..][..|p|];
      assert s[i + |p|] == s[i..][|p|];
      assert s[i + |p| + 1..] == s[i..][|p| + 1..];
    } else {
      assert s[i..i + |p|] == s[i..][..|p|];
    }
  }

  /**
   * An occurrence of a keyword that starts inside the first piece lies wholly
   * inside it: it cannot run over the newline after the piece.
   */
  lemma InPieceOccurrence(s: string, i: nat, ps: seq<string>, kws: seq<string>, j: nat, m: nat)
    requires LineKeywords(kws) && j < |kws| && ps != []
    requires i <= m < i + |ps[0]| && i <= |s| && s[i..] == Join(ps, "\n")
    ensures StartsAt(s, m, kws[j]) <==> StartsAt(ps[0], m - i, kws[j])
  {
    var p, w := ps[0], kws[j];
    JointAt(s, i, ps);
    if m + |w| <= i + |p| {
      assert s[m..m + |w|] == s[i..i + |p|][m - i..m - i + |w|];
    } else if m + |w| <= |s| {
      assert |ps| > 1;
      var c := i + |p| - m;
      assert s[m..m + |w|][c] == '\n';
      assert w[c] != '\n';
    }
  }

  /** No occurrence of a keyword follows a newline inside the first piece. */
  lemma NoKeywordAfterInnerNewline(s: string, i: nat, ps: seq<string>, kws: seq<string>, m: nat)
    requires LineKeywords(kws) && ps != [] && SplitPiece(ps[0], kws, |ps| == 1)
    requires i <= m < i + |ps[0]| && i <= |s| && s[i..] == Join(ps, "\n") && s[m] == '\n'
    ensures !KeywordAt(s, m + 1, kws)
  {
    var p := ps[0];
    JointAt(s, i, ps);
    assert p[m - i] == s[i..i + |p|][m - i];
    InnerNewline(p, kws, |ps| == 1, m - i);
    NoKeywordInside(s, i, ps, kws, m + 1);
  }

  /** A newline inside a split piece is not its last character and no keyword follows it. */
  lemma InnerNewline(p: string, kws: seq<string>, last: bool, q: nat)
    requires SplitPiece(p, kws, last) && q < |p| && p[q] == '\n'
    ensures q + 1 < |p| && !KeywordAt(p, q + 1, kws)
  {
    assert q != |p| - 1;
  }

  /** Where the first piece holds no keyword, neither does the text. */
  lemma NoKeywordInside(s: string, i: nat, ps: seq<string>, kws: seq<string>, m: nat)
    requires LineKeywords(kws) && ps != [] && i <= m < i + |ps[0]| && i <= |s| && s[i..] == Join(ps, "\n")
    requires !KeywordAt(ps[0], m - i, kws)
    ensures !KeywordAt(s, m, kws)
  {
    forall k | 0 <= k < |kws|
      ensures !StartsAt(s, m, kws[k])
    {
      InPieceOccurrence(s, i, ps, kws, k, m);
    }
  }

  /** A piece of the joined text ends where the next one starts, or at the end of the text. */
  lemma PieceEndsAtJoint(s: string, i: nat, ps: seq<string>, kws: seq<string>, j: nat)
    requires LineKeywords(kws) && SplitPieces(ps, kws) && ps != [] && j < |kws|
    requires i <= |s| && s[i..] == Join(ps, "\n") && StartsWith(ps[0], kws[j])
    ensures StartsAt(s, i, kws[j]) && MatchEnd(s, i, kws[j], kws) == i + |ps[0]|
  {
    var e := i + |ps[0]|;
    JointAt(s, i, ps);
    InPieceOccurrence(s, i, ps, kws, j, i);
    var a := KeywordSpaceEnd(s, i, ps, kws, j);
    BoundaryAtJoint(s, i, ps, kws);
    NoBoundaryInPieceFrom(s, i, ps, kws, a);
    PieceEndAt(s, a, e, kws);
  }

  /** No boundary holds anywhere inside the first piece. */
  lemma NoBoundaryInPieceFrom(s: string, i: nat, ps: seq<string>, kws: seq<string>, a: nat)
    requires LineKeywords(kws) && SplitPieces(ps, kws) && ps != []
    requires i <= a && i <= |s| && s[i..] == Join(ps, "\n")
    ensures forall m :: a <= m < i + |ps[0]| ==> !PieceBoundary(s, m, kws)
  {
    forall m | a <= m < i + |ps[0]|
      ensures !PieceBoundary(s, m, kws)
    {
      NoBoundaryInPiece(s, i, ps, kws, m);
    }
  }

  /** The keyword and the whitespace after it stay inside the first piece. */
  lemma KeywordSpaceEnd(s: string, i: nat, ps: seq<string>, kws: seq<string>, j: nat) returns (a: nat)
    requires LineKeywords(kws) && SplitPieces(ps, kws) && ps != [] && j < |kws|
    requires i <= |s| && s[i..] == Join(ps, "\n") && StartsWith(ps[0], kws[j]) && StartsAt(s, i, kws[j])
    ensures a == i + |kws[j]| + SpaceRun(s, i + |kws[j]|) && a <= i + |ps[0]|
  {
    var p, kw := ps[0], kws[j];
    JointAt(s, i, ps);
    a := i + |kw| + SpaceRun(s, i + |kw|);
    assert |kw| <= |p|;
    if |kw| < |p| {
      assert s[i + |p| - 1] == s[i..i + |p|][|p| - 1];
    } else {
      assert |ps| == 1;
    }
  }

  /** The end of the first piece is a boundary: the end of the text, or a newline before the next keyword. */
  lemma BoundaryAtJoint(s: string, i: nat, ps: seq<string>, kws: seq<string>)
    requires SplitPieces(ps, kws) && ps != []
    requires i <= |s| && s[i..] == Join(ps, "\n")
    ensures PieceBoundary(s, i + |ps[0]|, kws)
  {
    JointAt(s, i, ps);
    if |ps| > 1 {
      assert StartsWithKeyword(ps[1..][0], kws);
      KeywordAtPieceStart(s, i + |ps[0]| + 1, ps[1..], kws);
    }
  }

  /** A piece that starts with a keyword puts that keyword where the piece starts in the text. */
  lemma KeywordAtPieceStart(s: string, i: nat, ps: seq<string>, kws: seq<string>)
    requires ps != [] && StartsWithKeyword(ps[0], kws)
    requires i <= |s| && s[i..] == Join(ps, "\n")
    ensures KeywordAt(s, i, kws)
  {
    var k :| 0 <= k < |kws| && StartsAt(ps[0], 0, kws[k]);
    JointAt(s, i, ps);
    assert s[i..i + |kws[k]|] == s[i..i + |ps[0]|][..|kws[k]|];
    assert StartsAt(s, i, kws[k]);
  }

  /** Inside the first piece no boundary holds. */
  lemma NoBoundaryInPiece(s: string, i: nat, ps: seq<string>, kws: seq<string>, m: nat)
    requires LineKeywords(kws) && SplitPieces(ps, kws) && ps != []
    requires i <= m < i + |ps[0]| && i <= |s| && s[i..] == Join(ps, "\n")
    ensures !PieceBoundary(s, m, kws)
  {
    var p := ps[0];
    JointAt(s, i, ps);
    assert s[m] == s[i..i + |p|][m - i];
    if s[m] == '\n' {
      NoKeywordAfterInnerNewline(s, i, ps, kws, m);
      assert m - i != |p| - 1;
    }
  }

  /** The lazy group stops at a boundary when there is none before it. */
  lemma PieceEndAt(s: string, a: nat, e: nat, kws: seq<string>)
    requires a <= e <= |s| && PieceBoundary(s, e, kws)
    requires forall m :: a <= m < e ==> !PieceBoundary(s, m, kws)
    ensures PieceEnd(s, a, kws) == e
  {
  }

  /**
   * The command word of an action: the stripped text before the first `[`, or,
   * when there is no `[`, the first whitespace-separated word. None stands for
   * the IndexError Python raises on a blank action without `[`.
   */
  function CommandWord(s: string): Option<string>
  {
    match FindFirst(s, "[")
    case Some(k) => Some(Strip(s[..k]))
    case None =>
      var a := SpaceRun(s, 0);
      if a == |s| then None else Some(s[a..a + Run(s, a, NotSpace)])
  }

  predicate NotSpace(c: char) { !IsSpace(c) }

  /** Every piece of the split has a command word. */
  lemma KeywordHasCommandWord(s: string, kws: seq<string>)
    requires WellFormedKeywords(kws) && StartsWithKeyword(s, kws)
    ensures CommandWord(s).Some?
  {
    var k :| 0 <= k < |kws| && StartsAt(s, 0, kws[k]);
    assert s[0] == kws[k][0];
  }

  /** ` ?\[` matched at p: the index of the bracket (the optional space is greedy and is never a bracket). */
  function OptSpaceBracket(s: string, p: int): (r: Option<nat>)
    ensures r.Some? ==> r.value < |s| && s[r.value] == '['
  {
    var b := if 0 <= p < |s| && s[p] == ' ' then p + 1 else p;
    if 0 <= b < |s| && s[b] == '[' then Some(b) else None
  }

  /** `{w} ?\[(\d+)\]` matched at i: the digit group and the end of the match. */
  function BracketedIdAt(s: string, i: int, w: string): (r: Option<(string, nat)>)
    ensures r.Some? ==> r.value.0 != [] && AllDigits(r.value.0) && i + |w| < r.value.1 <= |s|
  {
    if !StartsAt(s, i, w) then None
    else match OptSpaceBracket(s, i + |w|)
      case None => None
      case Some(b) =>
        var d := DigitRun(s, b + 1);
        if d > 0 && b + 1 + d < |s| && s[b + 1 + d] == ']' then Some((s[b + 1..b + 1 + d], b + 2 + d))
        else None
  }

  /** `re.search(rf"{w} ?\[(\d+)\]", s)` from index i: the leftmost match. */
  function SearchBracketedId(s: string, w: string, i: nat): (r: Option<(string, nat)>)
    decreases |s| + 1 - i
    ensures r.Some? ==> exists k :: i <= k && BracketedIdAt(s, k, w) == r
    ensures r.None? ==> forall k :: i <= k ==> BracketedIdAt(s, k, w).None?
  {
    if i > |s| then None
    else if BracketedIdAt(s, i, w).Some? then BracketedIdAt(s, i, w)
    else SearchBracketedId(s, w, i + 1)
  }

  /** A bracketed id that is written out is found by the search. */
  lemma {:induction false} BracketedIdFound(s: string, w: string, d: string, j: nat, i: nat)
    requires d != [] && AllDigits(d) && i <= j
    requires StartsAt(s, j, w + " [" + d + "]")
    ensures SearchBracketedId(s, w, i).Some?
    decreases j - i
  {
    BracketedIdWritten(s, w, d, j);
    if i < j && BracketedIdAt(s, i, w).None? {
      BracketedIdFound(s, w, d, j, i + 1);
    }
  }

  /** `{w} [digits]` written out at j matches there, with exactly those digits. */
  lemma BracketedIdWritten(s: string, w: string, d: string, j: nat)
    requires d != [] && AllDigits(d)
    requires StartsAt(s, j, w + " [" + d + "]")
    ensures BracketedIdAt(s, j, w) == Some((d, j + |w| + 3 + |d|))
  {
    var p := j + |w|;
    var W := w + " [" + d + "]";
    assert W[..|w|] == w && W[|w|] == ' ' && W[|w| + 1] == '[' && W[|w| + 2 + |d|] == ']';
    assert W[|w| + 2..|w| + 2 + |d|] == d;
    StartsAtSlice(s, j, W, 0, |w|);
    StartsAtSlice(s, j, W, |w| + 2, |w| + 2 + |d|);
    StartsAtChar(s, j, W, |w|);
    StartsAtChar(s, j, W, |w| + 1);
    StartsAtChar(s, j, W, |w| + 2 + |d|);
    BracketedIdFrom(s, w, d, j);
  }

  /** The pattern matches at j when w, a space, `[`, the digits and `]` follow one another there. */
  lemma BracketedIdFrom(s: string, w: string, d: string, j: nat)
    requires d != [] && AllDigits(d)
    requires j + |w| + 2 + |d| < |s| && s[j..j + |w|] == w
    requires s[j + |w|] == ' ' && s[j + |w| + 1] == '['
    requires s[j + |w| + 2..j + |w| + 2 + |d|] == d && s[j + |w| + 2 + |d|] == ']'
    ensures BracketedIdAt(s, j, w) == Some((d, j + |w| + 3 + |d|))
  {
    var p := j + |w|;
    assert OptSpaceBracket(s, p) == Some(p + 1);
    DigitRunAt(s, p + 2, d);
  }

  /** `type [..] [..] [..]` as matched: element id, text and enter flag. */
  datatype TypeCommand = TypeCommand(id: string, text: string, flag: string)

  /**
   * Where the text group of the `type` pattern ends: the largest j at or below
   * hi from which `\] ?\[(\d+)\]` matches. Without DOTALL the group is `(.+)`
   * over characters other than a newline; with DOTALL it is `(.*)`.
   */
  function TypeTextEnd(s: string, c: nat, hi: int, dotall: bool): (r: Option<nat>)
    requires c <= |s| && hi <= |s|
    decreases hi - c
    ensures r.Some? ==> c <= r.value <= hi && BracketedIdAt(s, r.value, "]").Some?
  {
    if hi < c + (if dotall then 0 else 1) then None
    else if BracketedIdAt(s, hi, "]").Some? && (dotall || NoNewline(s, c, hi)) then Some(hi)
    else TypeTextEnd(s, c, hi - 1, dotall)
  }

  /** No newline between c and hi: what `.` matches without DOTALL. */
  predicate NoNewline(s: string, c: int, hi: int)
    requires 0 <= c && hi <= |s|
  {
    forall k :: c <= k < hi ==> s[k] != '\n'
  }

  /** `type ?\[(\d+)\] ?\[(.*)\] ?\[(\d+)\]` matched at i. */
  function TypeAt(s: string, i: int, dotall: bool): (r: Option<TypeCommand>)
    ensures r.Some? ==> r.value.id != [] && AllDigits(r.value.id)
  {
    match BracketedIdAt(s, i, "type")
    case None => None
    case Some((id, e)) => TypeAfterId(s, id, e, dotall)
  }

  /** The rest of the `type` pattern, after `type [id]` has matched up to e. */
  function TypeAfterId(s: string, id: string, e: nat, dotall: bool): (r: Option<TypeCommand>)
    ensures r.Some? ==> r.value.id == id
  {
    match OptSpaceBracket(s, e)
    case None => None
    case Some(b) =>
      match TypeTextEnd(s, b + 1, |s|, dotall)
      case None => None
      case Some(j) => Some(TypeCommand(id, s[b + 1..j], BracketedIdAt(s, j, "]").value.0))
  }

  /** `re.search` of the `type` pattern from index i: the leftmost match. */
  function SearchType(s: string, dotall: bool, i: nat): (r: Option<TypeCommand>)
    decreases |s| + 1 - i
    ensures r.Some? ==> r.value.id != [] && AllDigits(r.value.id)
    ensures r.Some? ==> exists k :: i <= k <= |s| && TypeAt(s, k, dotall) == r
    ensures r.None? ==> forall k :: i <= k ==> TypeAt(s, k, dotall).None?
  {
    if i > |s| then None
    else if TypeAt(s, i, dotall).Some? then TypeAt(s, i, dotall)
    else SearchType(s, dotall, i + 1)
  }

  /** A `type` action without a trailing `[0]` or `[1]` gets ` [1]` appended (press enter). */
  function TypeDefaulted(s: string): (r: string)
    ensures EndsWith(r, "[0]") || EndsWith(r, "[1]")
    ensures StartsWith(r, s)
  {
    if EndsWith(s, "[0]") || EndsWith(s, "[1]") then s else s + " [1]"
  }

  /** The text a `type` command sends: a newline is appended when the enter flag is "1". */
  function TypedText(t: TypeCommand): string {
    if t.flag == "1" then t.text + "\n" else t.text
  }

  /** Command words `is_valid_action` accepts without looking at the observation. */
  const AlwaysValid: seq<string> := ["go_back", "go_home", "note", "stop", "branch", "prune", "goto", "scroll"]

  /**
   * `is_valid_action(action_str)` (AgentOccam/AgentOccam.py:369-418) against
   * the observation text: `click` and `type` need their element id to occur in
   * the observation; a fixed set of commands is always accepted; every other
   * command word, `hover`, `new_tab` and `go_forward` included, is rejected.
   */
  function IsValidAction(s: string, observation: string): bool
    requires CommandWord(s).Some?
  {
    var cmd := CommandWord(s).value;
    if cmd == "click" then
      match SearchBracketedId(s, "click", 0)
      case None => false
      case Some((id, _)) => Contains(observation, id)
    else if cmd == "type" then
      match SearchType(TypeDefaulted(s), true, 0)
      case None => false
      case Some(t) => Contains(observation, t.id)
    else cmd in AlwaysValid
  }

  /** One piece of an action text passes `is_valid_action`. */
  predicate PieceValid(piece: string, observation: string) {
    CommandWord(piece).Some? && IsValidAction(piece, observation)
  }

  /** What `are_valid_actions` decides: at least one piece, and every piece valid. */
  predicate ValidActionText(actions: string, observation: string, kws: seq<string>)
    requires WellFormedKeywords(kws)
  {
    AllValid(ActionPieces(actions, kws), observation)
  }

  predicate AllValid(ps: seq<string>, observation: string) {
    ps != [] && forall k :: 0 <= k < |ps| ==> PieceValid(ps[k], observation)
  }

  /** `are_valid_actions` (AgentOccam/AgentOccam.py:420-427). */
  method AreValidActions(actions: string, observation: string, kws: seq<string>) returns (ok: bool)
    requires WellFormedKeywords(kws)
    ensures ok == ValidActionText(actions, observation, kws)
  {
    var ps := ParseStrToActionList(actions, kws);
    ok := AllPiecesValid(ps, observation);
  }

  /** One `is_valid_action` call inside the loop of `are_valid_actions`. */
  method CheckPiece(piece: string, observation: string) returns (valid: bool)
    ensures valid == PieceValid(piece, observation)
  {
    valid := CommandWord(piece).Some? && IsValidAction(piece, observation);
  }

  /** The loop of `are_valid_actions` over the pieces: stops at the first invalid one. */
  method AllPiecesValid(ps: seq<string>, observation: string) returns (ok: bool)
    ensures ok == AllValid(ps, observation)
  {
    if ps == [] {
      return false;
    }
    for k := 0 to |ps|
      invariant forall m :: 0 <= m < k ==> PieceValid(ps[m], observation)
    {
      var valid := CheckPiece(ps[k], observation);
      if !valid {
        return false;
      }
      ValidPrefixStep(ps, k, observation);
    }
    return true;
  }

  lemma ValidPrefixStep(ps: seq<string>, k: nat, observation: string)
    requires k < |ps| && PieceValid(ps[k], observation)
    requires forall m :: 0 <= m < k ==> PieceValid(ps[m], observation)
    ensures forall m :: 0 <= m < k + 1 ==> PieceValid(ps[m], observation)
  {
  }

  /** `is_planning(action)` (AgentOccam/AgentOccam.py:356-360): the first planning command the action starts with. */
  function IsPlanning(action: string, cmds: seq<string>): (r: Option<string>)
    ensures r.Some? ==> r.value in cmds && StartsWith(action, r.value)
    ensures r.Some? && cmds != [] && r.value != cmds[0] ==> !StartsWith(action, cmds[0])
    ensures r.None? <==> forall c :: c in cmds ==> !StartsWith(action, c)
  {
    if cmds == [] then None
    else if StartsWith(action, cmds[0]) then Some(cmds[0])
    else IsPlanning(action, cmds[1..])
  }

  /** A parsed `branch [id] [content]` or `prune [id] [content]`. */
  datatype PlanCommand = PlanCommand(kind: string, nodeId: nat, content: string)

  /** The last `]` at an index in [lo, hi): where the greedy `(.+)\]` ends. */
  function LastClose(s: string, lo: nat, hi: int): (r: Option<nat>)
    requires hi <= |s|
    decreases hi - lo
    ensures r.Some? ==> lo <= r.value < hi && s[r.value] == ']'
    ensures r.Some? ==> forall k :: r.value < k < hi ==> s[k] != ']'
    ensures r.None? ==> forall k :: lo <= k < hi ==> s[k] != ']'
  {
    if hi <= lo then None
    else if s[hi - 1] == ']' then Some(hi - 1)
    else LastClose(s, lo, hi - 1)
  }

  /** `{kind} ?\[(\d+)\] ?\[(.+)\]` (DOTALL) matched at i: the id digits and the content. */
  function PlanAt(s: string, i: int, kind: string): (r: Option<(string, string)>)
    ensures r.Some? ==> r.value.0 != [] && AllDigits(r.value.0)
  {
    match BracketedIdAt(s, i, kind)
    case None => None
    case Some((d, e)) =>
      match OptSpaceBracket(s, e)
      case None => None
      case Some(b) =>
        match LastClose(s, b + 2, |s|)
        case None => None
        case Some(j) => Some((d, s[b + 1..j]))
  }

  function SearchPlan(s: string, kind: string, i: nat): (r: Option<(string, string)>)
    decreases |s| + 1 - i
    ensures r.Some? ==> r.value.0 != [] && AllDigits(r.value.0)
  {
    if i > |s| then None
    else if PlanAt(s, i, kind).Some? then PlanAt(s, i, kind)
    else SearchPlan(s, kind, i + 1)
  }

  /**
   * `parse_plan` (AgentOccam/AgentOccam.py:640-651), called only on actions
   * that start with a planning command; None stands for its ValueError.
   */
  function ParsePlan(s: string, cmds: seq<string>): Option<PlanCommand>
    requires IsPlanning(s, cmds).Some?
  {
    var kind := IsPlanning(s, cmds).value;
    match SearchPlan(s, kind, 0)
    case None => None
    case Some((d, content)) => Some(PlanCommand(kind, DigitsValue(d), content))
  }

  /** A planning action without any `[` has no plan number: `parse_plan` raises. */
  lemma ParsePlanNoBracket(s: string, cmds: seq<string>)
    requires IsPlanning(s, cmds).Some? && forall k :: 0 <= k < |s| ==> s[k] != '['
    ensures ParsePlan(s, cmds) == None
  {
    SearchPlanNoBracket(s, IsPlanning(s, cmds).value, 0);
  }

  lemma {:induction false} SearchPlanNoBracket(s: string, kind: string, i: nat)
    requires forall k :: 0 <= k < |s| ==> s[k] != '['
    ensures SearchPlan(s, kind, i) == None
    decreases |s| + 1 - i
  {
    if i <= |s| {
      NoBracketNoPlan(s, kind, i);
      SearchPlanNoBracket(s, kind, i + 1);
    }
  }

  lemma NoBracketNoPlan(s: string, kind: string, i: nat)
    requires forall k :: 0 <= k < |s| ==> s[k] != '['
    ensures PlanAt(s, i, kind) == None
  {
    assert OptSpaceBracket(s, i + |kind|) == None;
  }

  /** A planning command written as `kind [digits] [content]` parses back to its parts. */
  lemma ParsePlanRoundTrip(kind: string, d: string, content: string, cmds: seq<string>)
    requires d != [] && AllDigits(d) && content != []
    requires IsPlanning(kind + " [" + d + "] [" + content + "]", cmds) == Some(kind)
    ensures ParsePlan(kind + " [" + d + "] [" + content + "]", cmds) == Some(PlanCommand(kind, DigitsValue(d), content))
  {
    var s := kind + " [" + d + "] [" + content + "]";
    var e := |kind| + 3 + |d|;
    PlanLayout(kind, d, content);
    BracketedIdWritten(s, kind, d, 0);
    PlanWritten(s, kind, d, content, e);
  }

  /** Where the pieces of `kind [d] [content]` sit. */
  lemma PlanLayout(kind: string, d: string, content: string)
    ensures var s := kind + " [" + d + "] [" + content + "]"; var e := |kind| + 3 + |d|;
      && StartsAt(s, 0, kind + " [" + d + "]") && |s| == e + 3 + |content|
      && s[e] == ' ' && s[e + 1] == '[' && s[|s| - 1] == ']' && s[e + 2..|s| - 1] == content
  {
    var head := kind + " [" + d + "]";
    var tail := " [" + content + "]";
    var s := head + tail;
    assert s == kind + " [" + d + "] [" + content + "]";
    var e := |head|;
    AppendParts(head, tail);
    assert tail[0] == ' ' && tail[1] == '[' && tail[|tail| - 1] == ']' && tail[2..|tail| - 1] == content;
    StartsAtChar(s, e, tail, 0);
    StartsAtChar(s, e, tail, 1);
    StartsAtChar(s, e, tail, |tail| - 1);
    StartsAtSlice(s, e, tail, 2, |tail| - 1);
  }

  /** The plan pattern at 0, once its pieces are known to sit where they belong. */
  lemma PlanWritten(s: string, kind: string, d: string, content: string, e: nat)
    requires BracketedIdAt(s, 0, kind) == Some((d, e))
    requires content != [] && |s| == e + 3 + |content|
    requires s[e] == ' ' && s[e + 1] == '[' && s[|s| - 1] == ']' && s[e + 2..|s| - 1] == content
    ensures PlanAt(s, 0, kind) == Some((d, content))
  {
    assert OptSpaceBracket(s, e) == Some(e + 1);
    assert LastClose(s, e + 3, |s|) == Some(|s| - 1);
  }

  /** The command word of `w [...` is w, for a trimmed word without brackets. */
  lemma CommandWordOfBracketed(s: string, w: string)
    requires w != [] && Trimmed(w) && forall k :: 0 <= k < |w| ==> w[k] != '['
    requires StartsWith(s, w + " [")
    ensures CommandWord(s) == Some(w)
  {
    var t := s[..|w| + 2];
    assert t == w + " [";
    assert s[..|w|] == t[..|w|] == w;
    assert StartsAt(s, |w| + 1, "[") by {
      assert s[|w| + 1..|w| + 2] == [t[|w| + 1]];
    }
    forall k | 0 <= k < |w| + 1
      ensures !StartsAt(s, k, "[")
    {
      assert s[k..k + 1] == [t[k]];
    }
    assert FindFirst(s, "[") == Some(|w| + 1);
    assert s[..|w| + 1] == w + " ";
    assert SpaceRun(w + " ", 0) == 0 by {
      assert (w + " ")[0] == w[0];
    }
    assert (w + " ")[..|w|] == w;
    assert TrimEnd(w + " ") == TrimEnd(w) == w;
  }

  /**
   * A command other than `click` and `type` is accepted exactly when it is one
   * of the fixed commands, whatever the observation holds.
   */
  lemma FixedCommandValidity(s: string, observation: string, other: string)
    requires CommandWord(s).Some? && CommandWord(s).value != "click" && CommandWord(s).value != "type"
    ensures IsValidAction(s, observation) <==> CommandWord(s).value in AlwaysValid
    ensures IsValidAction(s, observation) == IsValidAction(s, other)
  {
  }

  /**
   * `click [d]` is accepted exactly when the id d occurs in the observation,
   * whatever follows the bracket.
   */
  lemma ClickValidity(d: string, rest: string, observation: string)
    requires d != [] && AllDigits(d)
    ensures CommandWord("click [" + d + "]" + rest) == Some("click")
    ensures IsValidAction("click [" + d + "]" + rest, observation) <==> Contains(observation, d)
  {
    var s := "click [" + d + "]" + rest;
    assert s[..7] == "click [";
    CommandWordOfBracketed(s, "click");
    assert s[..|"click" + " [" + d + "]"|] == "click" + " [" + d + "]";
    BracketedIdWritten(s, "click", d, 0);
  }

  /**
   * `type [d] [x]` gets the enter flag appended and types x followed by a
   * newline into element d. An action that already ends in `[0]` or `[1]` is
   * left alone.
   */
  lemma TypeParsed(d: string, x: string)
    requires d != [] && AllDigits(d)
    requires var s := "type [" + d + "] [" + x + "]"; !EndsWith(s, "[0]") && !EndsWith(s, "[1]")
    ensures var s := "type [" + d + "] [" + x + "]";
      && SearchType(TypeDefaulted(s), true, 0) == Some(TypeCommand(d, x, "1"))
      && TypedText(TypeCommand(d, x, "1")) == x + "\n"
  {
    var s := "type [" + d + "] [" + x + "]";
    var t := s + " [1]";
    assert TypeDefaulted(s) == t;
    assert t == "type [" + d + "]" + (" [" + x + "] [1]");
    TypeWithFlag(t, d, x);
  }

  /** The `type` pattern on `type [d] [x] [1]` yields its three parts. */
  lemma TypeWithFlag(t: string, d: string, x: string)
    requires d != [] && AllDigits(d)
    requires t == "type [" + d + "]" + (" [" + x + "] [1]")
    ensures TypeAt(t, 0, true) == Some(TypeCommand(d, x, "1"))
  {
    TypeFlagLayout(t, d, x);
    TypeWritten(t, d, x, |d| + 7);
  }

  /** Where the parts of `type [d] [x] [1]` sit. */
  lemma TypeFlagLayout(t: string, d: string, x: string)
    requires d != [] && AllDigits(d)
    requires t == "type [" + d + "]" + (" [" + x + "] [1]")
    ensures BracketedIdAt(t, 0, "type") == Some((d, |d| + 7))
    ensures |t| == |d| + 14 + |x| && t[|d| + 7] == ' ' && t[|d| + 8] == '['
    ensures t[|d| + 9..|d| + 9 + |x|] == x && t[|t| - 5..] == "] [1]"
  {
    var head := "type [" + d + "]";
    AppendParts(head, " [" + x + "] [1]");
    assert head == "type" + " [" + d + "]";
    BracketedIdWritten(t, "type", d, 0);
    FlagTailAt(t, x, |head|);
  }

  lemma FlagTailLayout(x: string)
    ensures var tail := " [" + x + "] [1]";
      && |tail| == |x| + 7 && tail[0] == ' ' && tail[1] == '['
      && tail[2..2 + |x|] == x && tail[|tail| - 5..] == "] [1]"
  {
  }

  /** Where the text and the flag of ` [x] [1]` sit once it occurs at e. */
  lemma FlagTailAt(t: string, x: string, e: nat)
    requires StartsAt(t, e, " [" + x + "] [1]") && |t| == e + 7 + |x|
    ensures t[e] == ' ' && t[e + 1] == '[' && t[e + 2..e + 2 + |x|] == x && t[|t| - 5..] == "] [1]"
  {
    var tail := " [" + x + "] [1]";
    FlagTailLayout(x);
    StartsAtChar(t, e, tail, 0);
    StartsAtChar(t, e, tail, 1);
    StartsAtSlice(t, e, tail, 2, 2 + |x|);
    StartsAtSlice(t, e, tail, |tail| - 5, |tail|);
  }

  /** The `type` pattern at 0, once its pieces are known to sit where they belong. */
  lemma TypeWritten(t: string, d: string, x: string, e: nat)
    requires BracketedIdAt(t, 0, "type") == Some((d, e))
    requires |t| == e + 7 + |x| && t[e] == ' ' && t[e + 1] == '['
    requires t[e + 2..e + 2 + |x|] == x && t[|t| - 5..] == "] [1]"
    ensures TypeAt(t, 0, true) == Some(TypeCommand(d, x, "1"))
  {
    var b, j := e + 1, |t| - 5;
    assert OptSpaceBracket(t, e) == Some(b);
    EnterFlagTail(t, b + 1);
    assert t[b + 1..j] == x;
    TypeAtParts(t, d, e, b, j, x, "1");
  }

  /** The rest of the `type` pattern assembled from its matched parts. */
  lemma TypeAtParts(t: string, d: string, e: nat, b: nat, j: nat, x: string, flag: string)
    requires OptSpaceBracket(t, e) == Some(b)
    requires TypeTextEnd(t, b + 1, |t|, true) == Some(j) && BracketedIdAt(t, j, "]").Some?
    requires BracketedIdAt(t, j, "]").value.0 == flag && b + 1 <= j <= |t| && t[b + 1..j] == x
    ensures TypeAfterId(t, d, e, true) == Some(TypeCommand(d, x, flag))
  {
  }

  /** `type [d] [x]` is accepted exactly when d occurs in the observation. */
  lemma TypeValidity(d: string, x: string, observation: string)
    requires d != [] && AllDigits(d)
    requires var s := "type [" + d + "] [" + x + "]"; !EndsWith(s, "[0]") && !EndsWith(s, "[1]")
    ensures CommandWord("type [" + d + "] [" + x + "]") == Some("type")
    ensures IsValidAction("type [" + d + "] [" + x + "]", observation) <==> Contains(observation, d)
  {
    var s := "type [" + d + "] [" + x + "]";
    assert s[..6] == "type [";
    CommandWordOfBracketed(s, "type");
    TypeParsed(d, x);
  }

  /** The greedy text group of a `type` command ends at the appended ` [1]` flag. */
  lemma EnterFlagTail(t: string, c: nat)
    requires c + 5 <= |t| && t[|t| - 5..] == "] [1]"
    ensures TypeTextEnd(t, c, |t|, true) == Some(|t| - 5)
    ensures BracketedIdAt(t, |t| - 5, "]") == Some(("1", |t|))
  {
    var j := |t| - 5;
    assert t[j..j + |"]" + " [" + "1" + "]"|] == "]" + " [" + "1" + "]";
    BracketedIdWritten(t, "]", "1", j);
    assert BracketedIdAt(t, |t|, "]").None?;
    assert OptSpaceBracket(t, |t|).None?;
    assert BracketedIdAt(t, |t| - 1, "]").None?;
    forall k | |t| - 4 <= k <= |t| - 2
      ensures BracketedIdAt(t, k, "]").None?
    {
      assert t[k] == t[j..][k - j];
      assert t[k..k + 1] == [t[k]];
    }
    assert TypeTextEnd(t, c, |t| - 4, true) == Some(j);
    assert TypeTextEnd(t, c, |t| - 3, true) == Some(j);
    assert TypeTextEnd(t, c, |t| - 2, true) == Some(j);
  }

  /** The homepage of a multi-site task (AgentOccam/utils.py:10). */
  const HomepageUrl: string := "localhost:4399"

  /** `go_home` (AgentOccam/AgentOccam.py:704-707): a `goto` directive when the action mentions `go_home`. */
  function GoHome(action: string): Option<string>
  {
    if Contains(action, "go_home") then Some("goto [" + HomepageUrl + "] [1]") else None
  }

  /** The directive `go_home` produces is itself a valid `goto` command. */
  lemma GoHomeIsValidGoto(action: string, observation: string)
    ensures GoHome(action).Some? <==> Contains(action, "go_home")
    ensures GoHome(action).Some? ==> CommandWord(GoHome(action).value) == Some("goto")
    ensures GoHome(action).Some? ==> IsValidAction(GoHome(action).value, observation)
  {
    var g := "goto [" + HomepageUrl + "] [1]";
    assert StartsAt(g, 5, "[");
    assert FindFirst(g, "[") == Some(5) by {
      forall k | 0 <= k < 5
        ensures !StartsAt(g, k, "[")
      {
        assert g[k..k + 1] == [g[k]];
      }
    }
    assert g[..5] == "goto ";
    assert SpaceRun("goto ", 0) == 0;
    assert TrimEnd("goto ") == "goto" by {
      assert "goto "[..4] == "goto";
    }
  }

  /**
   * `note ?\[?(.+)` (DOTALL) matched at i: the group. The optional space and
   * bracket are greedy and are given back when `(.+)` would otherwise be empty.
   */
  function NoteAt(s: string, i: int): Option<string>
  {
    if !StartsAt(s, i, "note") then None
    else
      var p := i + 4;
      var sp := if p < |s| && s[p] == ' ' then 1 else 0;
      var br := if p + sp < |s| && s[p + sp] == '[' then 1 else 0;
      if p + sp + br < |s| then Some(s[p + sp + br..])
      else if br == 1 then Some(s[p + sp..])
      else if sp == 1 then Some(s[p..])
      else None
  }

  function SearchNote(s: string, i: nat): (r: Option<string>)
    decreases |s| + 1 - i
    ensures r.Some? ==> exists k :: i <= k && NoteAt(s, k) == r
    ensures r.None? ==> forall k :: i <= k ==> NoteAt(s, k).None?
  {
    if i > |s| then None
    else if NoteAt(s, i).Some? then NoteAt(s, i)
    else SearchNote(s, i + 1)
  }

  /** An action containing `note [` always yields a note. */
  lemma NoteFound(a: string)
    requires Contains(a, "note [")
    ensures SearchNote(a, 0).Some?
  {
    var j := FindFirst(a, "note [").value;
    assert a[j..j + 4] == a[j..j + 6][..4] == "note";
    assert NoteAt(a, j).Some?;
  }

  /** The note text `take_note` records: the group, without one trailing `]`. */
  function NoteText(a: string): string
    requires Contains(a, "note [")
  {
    NoteFound(a);
    var n := SearchNote(a, 0).value;
    if EndsWith(n, "]") then n[..|n| - 1] else n
  }

  /** `note [x]` records exactly x. */
  lemma NoteTextRoundTrip(x: string)
    ensures Contains("note [" + x + "]", "note [")
    ensures NoteText("note [" + x + "]") == x
  {
    var s := "note [" + x + "]";
    assert StartsAt(s, 0, "note [");
    assert s[..4] == "note";
    assert NoteAt(s, 0) == Some(x + "]") by {
      assert s[6..] == x + "]";
    }
    assert SearchNote(s, 0) == Some(x + "]");
    assert (x + "]")[..|x|] == x;
  }

  /**
   * What one piece contributes to `parse_actions_to_element_ids`
   * (AgentOccam/AgentOccam.py:774-830): None when handling it raises (blank,
   * no `click`/`hover`/`type` match) and the loop moves on; otherwise the ids
   * that are returned at once.
   */
  function PieceIds(piece: string): (r: Option<seq<nat>>)
    ensures r.Some? ==> |r.value| <= 1
  {
    var s := Strip(piece);
    match CommandWord(s)
    case None => None
    case Some(cmd) =>
      if cmd == "click" || cmd == "hover" then
        match SearchBracketedId(s, cmd, 0)
        case None => None
        case Some((d, _)) => Some([DigitsValue(d)])
      else if cmd == "type" then
        match SearchType(TypeDefaulted(s), false, 0)
        case None => None
        case Some(t) => Some([DigitsValue(t.id)])
      else Some([])
  }

  /** The navigation pieces, keyword by keyword, in the order the source collects them. */
  function AllStipulated(actions: string, nav: seq<string>, kws: seq<string>): seq<string>
    requires WellFormedKeywords(nav)
  {
    if nav == [] then []
    else AllStipulated(actions, nav[..|nav| - 1], kws) + ParseStipulatedActionList(actions, nav[|nav| - 1], kws)
  }

  /** The ids of the first piece whose handling does not raise; none when every piece raises. */
  function FirstIds(ps: seq<string>): (r: seq<nat>)
    ensures |r| <= 1
    ensures (forall k :: 0 <= k < |ps| ==> PieceIds(ps[k]).None?) ==> r == []
  {
    if ps == [] then []
    else match PieceIds(ps[0])
      case Some(ids) => ids
      case None => FirstIds(ps[1..])
  }

  /**
   * A `click [d]` or `hover [d]` piece yields the id d, whatever follows the
   * bracket and whatever whitespace surrounds the piece.
   */
  lemma PieceIdsBracketed(piece: string, w: string, d: string)
    requires w == "click" || w == "hover"
    requires d != [] && AllDigits(d)
    requires StartsWith(Strip(piece), w + " [" + d + "]")
    ensures PieceIds(piece) == Some([DigitsValue(d)])
  {
    var s := Strip(piece);
    assert s[..|w| + 2] == (w + " [" + d + "]")[..|w| + 2] == w + " [";
    CommandWordOfBracketed(s, w);
    BracketedIdWritten(s, w, d, 0);
  }

  /**
   * A piece led by any other bracketed command word, such as `scroll [down]`
   * or `stop [done]`, yields no ids: it is returned as it is and ends the search.
   */
  lemma PieceIdsOtherCommand(piece: string, w: string)
    requires w != [] && Trimmed(w) && forall k :: 0 <= k < |w| ==> w[k] != '['
    requires w != "click" && w != "hover" && w != "type"
    requires StartsWith(Strip(piece), w + " [")
    ensures PieceIds(piece) == Some([])
  {
    CommandWordOfBracketed(Strip(piece), w);
  }

  /**
   * Without DOTALL, a single-line `type [d] [x]` yields the id d once the
   * enter flag is appended.
   */
  lemma PieceIdsType(d: string, x: string)
    requires d != [] && AllDigits(d) && x != [] && NoNewline(x, 0, |x|)
    requires var s := "type [" + d + "] [" + x + "]"; !EndsWith(s, "[0]") && !EndsWith(s, "[1]")
    ensures PieceIds("type [" + d + "] [" + x + "]") == Some([DigitsValue(d)])
  {
    var s := "type [" + d + "] [" + x + "]";
    var t := s + " [1]";
    TypePieceHead(d, x);
    assert TypeDefaulted(s) == t;
    SingleLineTypeFound(s, t, d, x);
    PieceIdsOfType(s, SearchType(t, false, 0));
  }

  /** Without DOTALL, the search finds the `type` pattern at the start of a single-line `type [d] [x] [1]`. */
  lemma SingleLineTypeFound(s: string, t: string, d: string, x: string)
    requires d != [] && AllDigits(d) && x != [] && NoNewline(x, 0, |x|)
    requires s == "type [" + d + "] [" + x + "]" && t == s + " [1]"
    ensures SearchType(t, false, 0) == Some(TypeCommand(d, x, "1"))
  {
    assert t == "type [" + d + "]" + (" [" + x + "] [1]");
    TypeWithFlag(t, d, x);
    SingleLineLayout(t, d, x);
    TypeAtSingleLine(t, d, |d| + 7);
    SearchTypeHit(t, false, 0);
  }

  /** In a single-line `type [d] [x] [1]`, `type [d]` matches at the start and no newline follows. */
  lemma SingleLineLayout(t: string, d: string, x: string)
    requires d != [] && AllDigits(d) && NoNewline(x, 0, |x|)
    requires t == "type [" + d + "]" + (" [" + x + "] [1]")
    ensures BracketedIdAt(t, 0, "type") == Some((d, |d| + 7)) && NoNewline(t, |d| + 7, |t|)
  {
    var head := "type [" + d + "]";
    AppendParts(head, " [" + x + "] [1]");
    FlagTailAt(t, x, |head|);
    SingleLineFlagTail(t, x, |head|);
    assert head == "type" + " [" + d + "]";
    BracketedIdWritten(t, "type", d, 0);
  }

  /**
   * Without DOTALL, the `type` pattern matches at the start as it does with
   * DOTALL when no newline follows `type [d]` and the typed text is not empty.
   */
  lemma TypeAtSingleLine(t: string, d: string, e: nat)
    requires BracketedIdAt(t, 0, "type") == Some((d, e)) && NoNewline(t, e, |t|)
    requires TypeAt(t, 0, true).Some? && TypeAt(t, 0, true).value.text != []
    ensures TypeAt(t, 0, false) == TypeAt(t, 0, true)
  {
    TypeAfterIdSingleLine(t, d, e);
  }

  /** ` [x] [1]` holds no newline when x holds none. */
  lemma SingleLineFlagTail(t: string, x: string, e: nat)
    requires NoNewline(x, 0, |x|) && |t| == e + 7 + |x|
    requires t[e] == ' ' && t[e + 1] == '[' && t[e + 2..e + 2 + |x|] == x && t[|t| - 5..] == "] [1]"
    ensures NoNewline(t, e, |t|)
  {
    forall k | e <= k < |t|
      ensures t[k] != '\n'
    {
      if e + 2 <= k < e + 2 + |x| {
        assert t[k] == t[e + 2..e + 2 + |x|][k - e - 2];
      } else if k >= |t| - 5 {
        assert t[k] == t[|t| - 5..][k - |t| + 5];
      }
    }
  }

  /**
   * Without DOTALL, the rest of the `type` pattern matches as it does with
   * DOTALL when no newline follows and the typed text is not empty.
   */
  lemma TypeAfterIdSingleLine(s: string, id: string, e: nat)
    requires TypeAfterId(s, id, e, true).Some? && TypeAfterId(s, id, e, true).value.text != []
    requires e <= |s| && NoNewline(s, e, |s|)
    ensures TypeAfterId(s, id, e, false) == TypeAfterId(s, id, e, true)
  {
    var b := OptSpaceBracket(s, e).value;
    NoNewlineWithin(s, e, |s|, b + 1);
    TextEndSingleLine(s, b + 1, |s|);
    TypeAfterIdSameEnd(s, id, e, b);
  }

  lemma NoNewlineWithin(s: string, c: nat, hi: int, c2: nat)
    requires c <= c2 && hi <= |s| && NoNewline(s, c, hi)
    ensures NoNewline(s, c2, hi)
  {
  }

  /** The rest of the `type` pattern depends on DOTALL only through where the text group ends. */
  lemma TypeAfterIdSameEnd(s: string, id: string, e: nat, b: nat)
    requires OptSpaceBracket(s, e) == Some(b) && b < |s|
    requires TypeTextEnd(s, b + 1, |s|, false) == TypeTextEnd(s, b + 1, |s|, true)
    ensures TypeAfterId(s, id, e, false) == TypeAfterId(s, id, e, true)
  {
    var r := TypeTextEnd(s, b + 1, |s|, true);
    assert TypeAfterId(s, id, e, false) == (if r.None? then None else Some(TypeCommand(id, s[b + 1..r.value], BracketedIdAt(s, r.value, "]").value.0)));
  }

  /** On a single line, the text group ends at the same place with and without DOTALL, unless it is empty. */
  lemma {:induction false} TextEndSingleLine(s: string, c: nat, hi: int)
    requires c <= |s| && hi <= |s| && NoNewline(s, c, hi)
    requires TypeTextEnd(s, c, hi, true).Some? && TypeTextEnd(s, c, hi, true).value > c
    ensures TypeTextEnd(s, c, hi, false) == TypeTextEnd(s, c, hi, true)
    decreases hi - c
  {
    if BracketedIdAt(s, hi, "]").None? {
      TextEndSingleLine(s, c, hi - 1);
    }
  }

  /** A search that starts where the `type` pattern matches returns that match. */
  lemma SearchTypeHit(s: string, dotall: bool, i: nat)
    requires i <= |s| && TypeAt(s, i, dotall).Some?
    ensures SearchType(s, dotall, i) == TypeAt(s, i, dotall)
  {
  }

  /** `type [d] [x]` is already stripped and its command word is `type`. */
  lemma TypePieceHead(d: string, x: string)
    ensures var s := "type [" + d + "] [" + x + "]";
      Strip(s) == s && CommandWord(s) == Some("type")
  {
    var s := "type [" + d + "] [" + x + "]";
    assert s[..6] == "type [";
    StripTrimmed(s);
    CommandWordOfBracketed(s, "type");
  }

  /** What a stripped `type` piece yields, given the search on its defaulted form. */
  lemma PieceIdsOfType(s: string, found: Option<TypeCommand>)
    requires Strip(s) == s && CommandWord(s) == Some("type")
    requires SearchType(TypeDefaulted(s), false, 0) == found
    ensures found.None? ==> PieceIds(s).None?
    ensures found.Some? ==> PieceIds(s) == Some([DigitsValue(found.value.id)])
  {
  }

  /**
   * Without DOTALL, a `type [d] [x]` whose text spans lines yields None (the
   * search raises and the piece is skipped), although `is_valid_action`, which
   * uses DOTALL, accepts it. The text holds no brackets here, so no later part
   * of the piece can match either.
   */
  lemma PieceIdsMultiLineType(d: string, x: string)
    requires d != [] && AllDigits(d) && Contains(x, "\n")
    requires forall k :: 0 <= k < |x| ==> x[k] != '[' && x[k] != ']'
    ensures PieceIds("type [" + d + "] [" + x + "]") == None
  {
    var s := "type [" + d + "] [" + x + "]";
    var t := s + " [1]";
    TypePieceHead(d, x);
    var p := FindFirst(x, "\n").value;
    assert x[p] == x[p..p + 1][0] == '\n';
    assert !EndsWith(s, "[0]") && !EndsWith(s, "[1]") by {
      if |x| == 1 {
        assert s[|s| - 2] == x[0];
      } else {
        assert s[|s| - 3] == x[|x| - 2];
      }
    }
    assert TypeDefaulted(s) == t;
    MultiLineTypeMissed(t, d, x, p);
    PieceIdsOfType(s, SearchType(t, false, 0));
  }

  /** Without DOTALL, the search finds no `type` pattern in `type [d] [x] [1]` when x spans lines and holds no brackets. */
  lemma MultiLineTypeMissed(t: string, d: string, x: string, p: nat)
    requires d != [] && AllDigits(d) && p < |x| && x[p] == '\n'
    requires forall k :: 0 <= k < |x| ==> x[k] != '[' && x[k] != ']'
    requires t == "type [" + d + "] [" + x + "]" + " [1]"
    ensures SearchType(t, false, 0).None?
  {
    FlagLayoutOf(t, d, x);
    FirstTypeUnclosed(t, d, x, p);
    forall i | 0 < i
      ensures TypeAt(t, i, false).None?
    {
      NoTypeInside(t, d, x, i);
    }
    SearchTypeMiss(t, false, 0);
  }

  /** `type [d] [x] [1]`, part by part. */
  predicate FlagLayout(t: string, d: string, x: string) {
    && |t| == |d| + |x| + 14 && t[..4] == "type" && t[4] == ' ' && t[5] == '['
    && t[6..6 + |d|] == d && t[6 + |d|] == ']' && t[7 + |d|] == ' ' && t[8 + |d|] == '['
    && t[9 + |d|..9 + |d| + |x|] == x && t[|t| - 5..] == "] [1]"
  }

  lemma FlagLayoutOf(t: string, d: string, x: string)
    requires t == "type [" + d + "] [" + x + "]" + " [1]"
    ensures FlagLayout(t, d, x)
  {
  }

  /** The `type` pattern at the start of `type [d] [x] [1]` fails without DOTALL when x spans lines. */
  lemma FirstTypeUnclosed(t: string, d: string, x: string, p: nat)
    requires d != [] && AllDigits(d) && p < |x| && x[p] == '\n'
    requires forall k :: 0 <= k < |x| ==> x[k] != '[' && x[k] != ']'
    requires FlagLayout(t, d, x)
    ensures TypeAt(t, 0, false).None?
  {
    var L := |d|;
    BracketedIdFrom(t, "type", d, 0);
    assert OptSpaceBracket(t, L + 7) == Some(L + 8);
    var text := t[L + 9..L + 9 + |x|];
    assert text == x;
    forall k | L + 9 <= k <= L + 9 + p
      ensures t[k] != ']'
    {
      assert t[k] == text[k - L - 9] == x[k - L - 9];
    }
    assert t[L + 9 + p] == text[p];
    TypeTextEndUnclosed(t, L + 9, |t|, L + 9 + p);
  }

  /** A search over positions where the `type` pattern never matches finds nothing. */
  lemma SearchTypeMiss(s: string, dotall: bool, i: nat)
    requires forall k :: i <= k ==> TypeAt(s, k, dotall).None?
    ensures SearchType(s, dotall, i).None?
  {
  }

  /** In `type [d] [x] [1]` with a bracket-free x, the `type` pattern matches nowhere after the start. */
  lemma NoTypeInside(t: string, d: string, x: string, i: int)
    requires AllDigits(d) && 0 < i
    requires forall k :: 0 <= k < |x| ==> x[k] != '[' && x[k] != ']'
    requires FlagLayout(t, d, x)
    ensures BracketedIdAt(t, i, "type").None?
  {
    var q := |d| + 9 + |x|;
    if i < 9 + |d| {
      NoTypeBeforeText(t, d, x, i);
    } else if i + 3 >= q {
      NoTypeAcrossFlag(t, d, x, i);
    } else {
      NoBracketAfterType(t, d, x, i);
    }
  }

  /** No `t` stands between the start and the text. */
  lemma NoTypeBeforeText(t: string, d: string, x: string, i: int)
    requires AllDigits(d) && 0 < i < 9 + |d|
    requires FlagLayout(t, d, x)
    ensures !StartsAt(t, i, "type")
  {
    if i < 4 {
      assert t[i] == t[..4][i];
    } else if 6 <= i < 6 + |d| {
      assert t[i] == t[6..6 + |d|][i - 6];
    }
    StartsAtCharIf(t, i, "type", 0);
  }

  /** A `type` starting in the last three characters of the text would run into `] [1]`. */
  lemma NoTypeAcrossFlag(t: string, d: string, x: string, i: int)
    requires FlagLayout(t, d, x) && i + 3 >= |d| + 9 + |x|
    ensures !StartsAt(t, i, "type")
  {
    var q := |d| + 9 + |x|;
    if i + 3 < |t| {
      assert t[i + 3] == t[q..][i + 3 - q];
      assert t[q..] == "] [1]";
    }
    StartsAtCharIf(t, i, "type", 3);
  }

  /** Four characters into a bracket-free text, ` ?\[` cannot match. */
  lemma NoBracketAfterType(t: string, d: string, x: string, i: int)
    requires forall k :: 0 <= k < |x| ==> x[k] != '[' && x[k] != ']'
    requires FlagLayout(t, d, x) && 9 + |d| <= i && i + 3 < |d| + 9 + |x|
    ensures OptSpaceBracket(t, i + 4).None?
  {
    var L, q := |d|, |d| + 9 + |x|;
    var text := t[L + 9..q];
    assert text == x;
    if i + 4 < q {
      assert t[i + 4] == text[i + 4 - L - 9];
    } else {
      assert t[i + 4] == t[q..][0];
    }
    if i + 5 < q {
      assert t[i + 5] == text[i + 5 - L - 9];
    }
  }

  /** A character of a text that occurs at i, as an implication that holds whether or not it occurs. */
  lemma StartsAtCharIf(s: string, i: int, w: string, k: nat)
    requires k < |w|
    ensures StartsAt(s, i, w) ==> s[i + k] == w[k]
  {
    if StartsAt(s, i, w) {
      StartsAtChar(s, i, w, k);
    }
  }

  /**
   * Without DOTALL the text group cannot cross the newline at p, and nothing
   * between c and p closes it.
   */
  lemma {:induction false} TypeTextEndUnclosed(s: string, c: nat, hi: int, p: nat)
    requires c <= p < |s| && s[p] == '\n' && hi <= |s|
    requires forall k :: c <= k <= p ==> s[k] != ']'
    ensures TypeTextEnd(s, c, hi, false).None?
    decreases hi - c
  {
    if hi >= c + 1 {
      if hi > p {
        assert !NoNewline(s, c, hi);
      } else {
        assert !StartsAt(s, hi, "]") by {
          assert s[hi..hi + 1] == [s[hi]];
        }
        assert BracketedIdAt(s, hi, "]").None?;
      }
      assert TypeTextEnd(s, c, hi, false) == TypeTextEnd(s, c, hi - 1, false);
      TypeTextEndUnclosed(s, c, hi - 1, p);
    }
  }

  /**
   * `parse_actions_to_element_ids` (AgentOccam/AgentOccam.py:769-832): the
   * first piece whose handling does not raise decides the result, so at most
   * one element id is ever returned.
   */
  method ParseActionsToElementIds(actions: string, nav: seq<string>, planning: seq<string>) returns (ids: seq<nat>)
    requires WellFormedKeywords(nav)
    ensures ids == FirstIds(AllStipulated(actions, nav, planning + nav + ["goto"]))
    ensures |ids| <= 1
    ensures var list := AllStipulated(actions, nav, planning + nav + ["goto"]);
      forall k :: 0 <= k < |list| && PieceIds(list[k]).Some? && (forall m :: 0 <= m < k ==> PieceIds(list[m]).None?) ==>
        ids == PieceIds(list[k]).value
  {
    var list := CollectStipulated(actions, nav, planning + nav + ["goto"]);
    ids := FirstPieceIds(list);
  }

  /** The first loop of `parse_actions_to_element_ids`: the stipulated pieces of every navigation command. */
  method CollectStipulated(actions: string, nav: seq<string>, kws: seq<string>) returns (list: seq<string>)
    requires WellFormedKeywords(nav)
    ensures list == AllStipulated(actions, nav, kws)
  {
    list := [];
    for n := 0 to |nav|
      invariant list == AllStipulated(actions, nav[..n], kws)
    {
      assert nav[..n + 1][..n] == nav[..n];
      list := list + ParseStipulatedActionList(actions, nav[n], kws);
    }
    assert nav[..|nav|] == nav;
  }

  /** The second loop of `parse_actions_to_element_ids`: the ids of the first piece that yields any. */
  method FirstPieceIds(list: seq<string>) returns (ids: seq<nat>)
    ensures ids == FirstIds(list)
    ensures forall k :: 0 <= k < |list| && PieceIds(list[k]).Some? && (forall m :: 0 <= m < k ==> PieceIds(list[m]).None?) ==>
      ids == PieceIds(list[k]).value
  {
    for k := 0 to |list|
      invariant FirstIds(list[k..]) == FirstIds(list)
      invariant forall m :: 0 <= m < k ==> PieceIds(list[m]).None?
    {
      assert list[k..][1..] == list[k + 1..];
      match PieceIds(list[k])
      case Some(r) =>
        return r;
      case None =>
    }
    assert list[|list|..] == [];
    return [];
  }
}
