/**
 * The response parsers of the language-model utilities
 * (webagents_step/utils/llm.py): filling the prompt template, unquoting the
 * text of a `type` action, and reading the REASON and ACTION fields.
 */
module LlmParsers {
  import opened Wrappers
  import opened Text
  import opened Fields

  /** The observation handed to the prompt: plain text, or a dictionary whose "text" entry is used. */
  datatype Observation = PlainText(text: string) | Entries(entries: map<string, string>)

  /** The text an observation contributes; None for a dictionary without "text" (a KeyError). */
  function ObservationText(observation: Observation): Option<string>
  {
    match observation
    case PlainText(t) => Some(t)
    case Entries(e) => if "text" in e then Some(e["text"]) else None
  }

  /** The "input" entry with `{objective}`, `{observation}`, `{url}` and `{previous_actions}` replaced, in that order. */
  function FilledInput(input: string, objective: string, obsText: string, url: string, history: string): string
  {
    var a := ReplaceAll(input, "{objective}", objective);
    var b := ReplaceAll(a, "{observation}", obsText);
    var c := ReplaceAll(b, "{url}", url);
    ReplaceAll(c, "{previous_actions}", history)
  }

  /**
   * `fill_prompt_template` (webagents_step/utils/llm.py:43-52): a copy of the
   * template whose "input" entry is filled in. None stands for the KeyError
   * raised when "input" or the observation's "text" is missing.
   */
  function FillPromptTemplate(template: map<string, string>, objective: string, observation: Observation,
                              url: string, history: string): (r: Option<map<string, string>>)
    ensures r.Some? <==> "input" in template && ObservationText(observation).Some?
    ensures r.Some? ==> r.value.Keys == template.Keys
    ensures r.Some? ==> forall k :: k in template && k != "input" ==> r.value[k] == template[k]
  {
    if "input" !in template then None
    else match ObservationText(observation)
      case None => None
      case Some(t) => Some(template["input" := FilledInput(template["input"], objective, t, url, history)])
  }

  /** A template without placeholders comes back unchanged. */
  lemma FillWithoutPlaceholders(template: map<string, string>, objective: string, observation: Observation,
                                url: string, history: string)
    requires "input" in template && ObservationText(observation).Some?
    requires var i := template["input"];
      && !Contains(i, "{objective}") && !Contains(i, "{observation}")
      && !Contains(i, "{url}") && !Contains(i, "{previous_actions}")
    ensures FillPromptTemplate(template, objective, observation, url, history) == Some(template)
  {
    var i := template["input"];
    ReplaceAbsent(i, "{objective}", objective);
    ReplaceAbsent(i, "{observation}", ObservationText(observation).value);
    ReplaceAbsent(i, "{url}", url);
    ReplaceAbsent(i, "{previous_actions}", history);
    assert template["input" := i] == template;
  }

  predicate QuotableChar(c: char) { c != '"' && c != '[' && c != ']' }

  /**
   * `re.match(r'^type \[\d+\] \["([^"\[\]]+)"\]$', a)`: the id digits and the
   * quoted text. `$` also accepts one newline that ends the action.
   */
  function MatchQuotedType(a: string): (r: Option<(string, string)>)
    ensures r.Some? ==> r.value.0 != [] && AllDigits(r.value.0)
    ensures r.Some? ==> r.value.1 != [] && forall k :: 0 <= k < |r.value.1| ==> QuotableChar(r.value.1[k])
  {
    if !StartsWith(a, "type [") then None
    else
      var n := DigitRun(a, 6);
      var c := 6 + n;
      if n == 0 || !StartsAt(a, c, "] [\"") then None
      else
        var y := c + 4;
        var m := Run(a, y, QuotableChar);
        var z := y + m;
        if m > 0 && StartsAt(a, z, "\"]") && (z + 2 == |a| || (z + 3 == |a| && a[z + 2] == '\n'))
        then Some((a[6..c], a[y..z]))
        else None
  }

  /**
   * `filter_quotes_if_matches_template` (webagents_step/utils/llm.py:54-70):
   * `type [id] ["text"]` loses the quotes around its text; every other action
   * is only stripped; a missing action stays missing.
   */
  function FilterQuotes(action: Option<string>): Option<string>
  {
    match action
    case None => None
    case Some(a) =>
      match MatchQuotedType(a)
      case Some((d, y)) => Some(Strip("type [" + d + "] [" + y + "]"))
      case None => Some(Strip(a))
  }

  /** The quotes around the typed text are removed and nothing else changes. */
  lemma FilterQuotesUnquotes(d: string, y: string)
    requires d != [] && AllDigits(d)
    requires y != [] && forall k :: 0 <= k < |y| ==> QuotableChar(y[k])
    ensures FilterQuotes(Some("type [" + d + "] [\"" + y + "\"]")) == Some("type [" + d + "] [" + y + "]")
  {
    var a := "type [" + d + "] [\"" + y + "\"]";
    QuotedTypeLayout(a, d, y);
    QuotedTypeMatch(a, d, y);
    var r := "type [" + d + "] [" + y + "]";
    assert r[0] == 't' && r[|r| - 1] == ']';
    StripTrimmed(r);
  }

  /** Where the parts of a quoted `type` action sit in it. */
  lemma QuotedTypeLayout(a: string, d: string, y: string)
    requires a == "type [" + d + "] [\"" + y + "\"]"
    ensures |a| == 12 + |d| + |y|
    ensures StartsWith(a, "type [") && a[6..6 + |d|] == d && StartsAt(a, 6 + |d|, "] [\"")
    ensures a[10 + |d|..10 + |d| + |y|] == y && StartsAt(a, 10 + |d| + |y|, "\"]")
  {
    var c := 6 + |d|;
    assert a[..6] == "type [";
    assert a[6..c] == d;
    assert a[c..c + 4] == "] [\"";
    assert a[c + 4..c + 4 + |y|] == y;
    assert a[c + 4 + |y|..] == "\"]";
  }

  /** A quoted `type` action laid out as above matches the template. */
  lemma QuotedTypeMatch(a: string, d: string, y: string)
    requires d != [] && AllDigits(d)
    requires y != [] && forall k :: 0 <= k < |y| ==> QuotableChar(y[k])
    requires |a| == 12 + |d| + |y|
    requires StartsWith(a, "type [") && a[6..6 + |d|] == d && StartsAt(a, 6 + |d|, "] [\"")
    requires a[10 + |d|..10 + |d| + |y|] == y && StartsAt(a, 10 + |d| + |y|, "\"]")
    ensures MatchQuotedType(a) == Some((d, y))
  {
    var c := 6 + |d|;
    StartsAtChar(a, c, "] [\"", 0);
    DigitRunAt(a, 6, d);
    StartsAtChar(a, c + 4 + |y|, "\"]", 0);
    QuotableRun(a, c + 4, y);
  }

  /** The run of quotable characters written out at i ends where the closing quote starts. */
  lemma {:induction false} QuotableRun(a: string, i: nat, y: string)
    requires i + |y| < |a| && a[i..i + |y|] == y && a[i + |y|] == '"'
    requires forall k :: 0 <= k < |y| ==> QuotableChar(y[k])
    ensures Run(a, i, QuotableChar) == |y|
    decreases |y|
  {
    if y != [] {
      assert a[i] == y[0];
      assert a[i + 1..i + |y|] == y[1..];
      QuotableRun(a, i + 1, y[1..]);
    }
  }

  /** On an action without surrounding whitespace, filtering twice is filtering once. */
  lemma FilterQuotesIdempotent(a: string)
    requires Trimmed(a)
    ensures FilterQuotes(FilterQuotes(Some(a))) == FilterQuotes(Some(a))
  {
    match MatchQuotedType(a)
    case Some((d, y)) =>
      UnquotedStaysUnquoted(d, y);
    case None =>
      StripTrimmed(a);
  }

  /** An unquoted `type [d] [y]` is left as it is by the filter. */
  lemma UnquotedStaysUnquoted(d: string, y: string)
    requires d != [] && AllDigits(d)
    requires y != [] && forall k :: 0 <= k < |y| ==> QuotableChar(y[k])
    ensures var r := "type [" + d + "] [" + y + "]"; Strip(r) == r && FilterQuotes(Some(r)) == Some(r)
  {
    var r := "type [" + d + "] [" + y + "]";
    assert r[0] == 't' && r[|r| - 1] == ']';
    StripTrimmed(r);
    assert r[6..6 + |d|] == d;
    DigitRunAt(r, 6, d);
    assert r[6 + |d| + 3] == y[0];
    assert !StartsAt(r, 6 + |d|, "] [\"") by {
      assert r[6 + |d|..6 + |d| + 4][3] == r[6 + |d| + 3];
    }
  }

  /**
   * Leading whitespace hides a quoted `type` action from the first filtering
   * but not from the second, so filtering is not idempotent on such input.
   */
  lemma FilterQuotesNotIdempotent(d: string, y: string)
    requires d != [] && AllDigits(d)
    requires y != [] && forall k :: 0 <= k < |y| ==> QuotableChar(y[k])
    ensures var q := "type [" + d + "] [\"" + y + "\"]";
      && FilterQuotes(Some(" " + q)) == Some(q)
      && FilterQuotes(FilterQuotes(Some(" " + q))) != FilterQuotes(Some(" " + q))
  {
    var q := "type [" + d + "] [\"" + y + "\"]";
    var a := " " + q;
    assert !StartsWith(a, "type [") by {
      assert a[..6][0] == ' ';
    }
    assert a[1..] == q;
    assert SpaceRun(a, 0) == 1 by {
      assert SpaceRun(a, 1) == 0;
    }
    assert q[|q| - 1] == ']';
    TrimEndKeepsTrimmed(q);
    FilterQuotesUnquotes(d, y);
    assert |"type [" + d + "] [" + y + "]"| < |q|;
  }

  /**
   * `parse_action_reason` (webagents_step/utils/llm.py:72-82): the action
   * under `ACTION:` or `ACTIONS:`, unquoted, and the reason under `REASON:`,
   * each ending where a line starts with a capital letter.
   */
  function ParseActionReason(response: string): (r: (Option<string>, Option<string>))
  {
    var reason := Field(response, ["REASON:"], CapitalLine);
    var action := Field(response, ["ACTION:", "ACTIONS:"], CapitalLine);
    (FilterQuotes(action), reason)
  }

  /** A label from the list occurs somewhere in the text. */
  predicate HasLabel(s: string, labels: seq<string>) {
    exists k :: 0 <= k <= |s| && LabelAt(s, k, labels).Some?
  }

  /** A single label occurs exactly when the text contains it. */
  lemma HasLabelContains(s: string, w: string)
    ensures HasLabel(s, [w]) <==> Contains(s, w)
  {
    if Contains(s, w) {
      var k := FindFirst(s, w).value;
      assert LabelAt(s, k, [w]).Some?;
    }
    if HasLabel(s, [w]) {
      var k :| 0 <= k <= |s| && LabelAt(s, k, [w]).Some?;
      ContainsAt(s, w, k);
    }
  }

  /**
   * The reason is present exactly when `REASON:` occurs, the action exactly
   * when `ACTION:` or `ACTIONS:` occurs; both carry no surrounding whitespace,
   * and the reason never runs into a line that starts with a capital letter.
   */
  lemma ParseActionReasonShape(response: string)
    ensures var (action, reason) := ParseActionReason(response);
      && (reason.Some? <==> Contains(response, "REASON:"))
      && (action.Some? <==> Contains(response, "ACTION:") || Contains(response, "ACTIONS:"))
      && (reason.Some? ==> Trimmed(reason.value) && NoCapitalLine(reason.value))
      && (action.Some? ==> Trimmed(action.value))
  {
    var labels := ["ACTION:", "ACTIONS:"];
    HasLabelContains(response, "REASON:");
    HasLabelContains(response, "ACTION:");
    HasLabelContains(response, "ACTIONS:");
    assert HasLabel(response, labels) <==> HasLabel(response, ["ACTION:"]) || HasLabel(response, ["ACTIONS:"]) by {
      if HasLabel(response, labels) {
        var k :| 0 <= k <= |response| && LabelAt(response, k, labels).Some?;
        if StartsAt(response, k, "ACTION:") {
          assert LabelAt(response, k, ["ACTION:"]).Some?;
        } else {
          assert LabelAt(response, k, ["ACTIONS:"]).Some?;
        }
      }
      if HasLabel(response, ["ACTION:"]) {
        var k :| 0 <= k <= |response| && LabelAt(response, k, ["ACTION:"]).Some?;
        assert LabelAt(response, k, labels).Some?;
      }
      if HasLabel(response, ["ACTIONS:"]) {
        var k :| 0 <= k <= |response| && LabelAt(response, k, ["ACTIONS:"]).Some?;
        assert LabelAt(response, k, labels).Some?;
      }
    }
    if Field(response, ["REASON:"], CapitalLine).Some? {
      FieldShape(response, ["REASON:"], CapitalLine);
      CapitalFieldHasNoCapitalLine(response, ["REASON:"]);
    }
  }

  /**
   * A response written as `REASON: <reason>` and `ACTION: <action>` on two
   * lines reads back as the reason and the filtered action, when the reason
   * holds no colon.
   */
  lemma ParseActionReasonRoundTrip(reason: string, action: string)
    requires reason != [] && Trimmed(reason) && forall k :: 0 <= k < |reason| ==> reason[k] != '\n' && reason[k] != ':'
    requires action != [] && Trimmed(action) && forall k :: 0 <= k < |action| ==> action[k] != '\n'
    ensures ParseActionReason("REASON: " + reason + "\nACTION: " + action) == (FilterQuotes(Some(action)), Some(reason))
  {
    var s := "REASON: " + reason + "\nACTION: " + action;
    ReasonFirst(s, reason, "\nACTION: " + action);
    ActionAfterReason(s, reason, action);
  }

  /** The action of `REASON: <reason>` then `ACTION: <action>` reads back. */
  lemma ActionAfterReason(s: string, reason: string, action: string)
    requires forall k :: 0 <= k < |reason| ==> reason[k] != ':'
    requires action != [] && Trimmed(action) && forall k :: 0 <= k < |action| ==> action[k] != '\n'
    requires s == "REASON: " + reason + "\nACTION: " + action
    ensures Field(s, ["ACTION:", "ACTIONS:"], CapitalLine) == Some(action)
  {
    var j := 8 + |reason|;
    assert SearchLabel(s, ["ACTION:", "ACTIONS:"], 0) == Some((j + 1, "ACTION:")) by {
      assert s[j..j + 8] == "\nACTION:";
      assert s[0] == 'R';
      ColonOnlyInLabels(s, reason, action);
      ActionLabelFirst(s, j);
    }
    assert s == s[..j + 1] + "ACTION:" + " " + action + [];
    FieldRoundTrip(s, ["ACTION:", "ACTIONS:"], CapitalLine, j + 1, "ACTION:", action, []);
  }

  /** Between the two labels, and up to the colon of the second, there is no colon. */
  lemma ColonOnlyInLabels(s: string, reason: string, action: string)
    requires forall k :: 0 <= k < |reason| ==> reason[k] != ':'
    requires s == "REASON: " + reason + "\nACTION: " + action
    ensures forall i :: 7 <= i < 15 + |reason| ==> s[i] != ':'
  {
    var j := 8 + |reason|;
    assert s[7] == ' ';
    forall i | 8 <= i < j
      ensures s[i] != ':'
    {
      assert s[i] == reason[i - 8];
    }
    assert s[j] == '\n' && s[j + 1] == 'A' && s[j + 2] == 'C' && s[j + 3] == 'T';
    assert s[j + 4] == 'I' && s[j + 5] == 'O' && s[j + 6] == 'N';
  }

  /** The reason of `REASON: <reason>` followed by a capitalised line reads back. */
  lemma ReasonFirst(s: string, reason: string, tail: string)
    requires reason != [] && Trimmed(reason) && forall k :: 0 <= k < |reason| ==> reason[k] != '\n'
    requires |tail| >= 2 && tail[0] == '\n' && IsUpper(tail[1])
    requires s == "REASON: " + reason + tail
    ensures Field(s, ["REASON:"], CapitalLine) == Some(reason)
  {
    assert s[..7] == "REASON:";
    assert LabelAt(s, 0, ["REASON:"]) == Some("REASON:");
    assert s == s[..0] + "REASON:" + " " + reason + tail;
    FieldRoundTrip(s, ["REASON:"], CapitalLine, 0, "REASON:", reason, tail);
  }

  /**
   * When the text starts with a non-`A`, holds no colon from index 7 up to an
   * `ACTION:` on the line that starts after index j, that label is the first.
   */
  lemma ActionLabelFirst(s: string, j: nat)
    requires j + 8 <= |s| && s[j..j + 8] == "\nACTION:" && s[0] != 'A'
    requires forall i :: 7 <= i < j + 7 ==> s[i] != ':'
    ensures SearchLabel(s, ["ACTION:", "ACTIONS:"], 0) == Some((j + 1, "ACTION:"))
  {
    assert s[j + 1..j + 8] == s[j..j + 8][1..] == "ACTION:";
    assert s[j] == s[j..j + 8][0];
    NoActionLabelBefore(s, j);
    SearchLabelFirst(s, ["ACTION:", "ACTIONS:"], 0, j + 1, "ACTION:");
  }

  /** Under the same conditions no label starts at or before j. */
  lemma NoActionLabelBefore(s: string, j: nat)
    requires j + 8 <= |s| && s[j] == '\n' && s[0] != 'A'
    requires forall i :: 7 <= i < j + 7 ==> s[i] != ':'
    ensures forall k :: 0 <= k <= j ==> LabelAt(s, k, ["ACTION:", "ACTIONS:"]).None?
  {
    forall k | 0 <= k <= j
      ensures LabelAt(s, k, ["ACTION:", "ACTIONS:"]).None?
    {
      NotActionLabelAt(s, k);
    }
  }

  /** Neither `ACTION:` nor `ACTIONS:` starts at k when a letter or colon they need is missing. */
  lemma NotActionLabelAt(s: string, k: nat)
    requires k + 8 <= |s| && (s[k] != 'A' || (s[k + 6] != ':' && s[k + 7] != ':'))
    ensures LabelAt(s, k, ["ACTION:", "ACTIONS:"]).None?
  {
    assert s[k..k + 7][0] == s[k] && s[k..k + 7][6] == s[k + 6];
    assert s[k..k + 8][0] == s[k] && s[k..k + 8][7] == s[k + 7];
  }
}
