/**
 * Labelled fields of a model response. The agent reads `LABEL: value`
 * blocks with `re.search(rf'{label}\s*(.*?)\s*(?=<next header>|$)', text,
 * re.DOTALL)`: the value starts after the whitespace that follows the first
 * occurrence of the label and ends, without trailing whitespace, where the
 * next header begins. Two notions of "next header" occur: a newline
 * followed by a capital letter (webagents_step/utils/llm.py) and a newline
 * followed by capitals and whitespace up to a colon (AgentOccam/AgentOccam.py).
 */
module Fields {
  import opened Wrappers
  import opened Text

  /** `\n[A-Z]` or `\n[A-Z\s]*:`. */
  datatype HeaderStyle = CapitalLine | CapsColonLine

  predicate UpperOrSpace(c: char) { IsUpper(c) || IsSpace(c) }

  /** The header pattern after a newline, starting at index r. */
  predicate NextHeader(s: string, r: nat, style: HeaderStyle)
    requires r < |s|
  {
    match style
    case CapitalLine => IsUpper(s[r])
    case CapsColonLine => var t := r + Run(s, r, UpperOrSpace); t < |s| && s[t] == ':'
  }

  /**
   * The lookahead `(?=\n<header>|$)` at q: a header on the next line, the end
   * of the text, or a newline that ends the text.
   */
  predicate FieldBoundary(s: string, q: int, style: HeaderStyle) {
    || q == |s|
    || (0 <= q && q == |s| - 1 && s[q] == '\n')
    || (0 <= q && q + 1 < |s| && s[q] == '\n' && NextHeader(s, q + 1, style))
  }

  /** `\s*(?=...)` from e: the greedy whitespace, given back as needed, then the lookahead. */
  predicate Closes(s: string, e: nat, style: HeaderStyle)
    requires e <= |s|
  {
    exists q :: e <= q <= e + SpaceRun(s, e) && FieldBoundary(s, q, style)
  }

  /** Where the lazy `(.*?)` that starts at a stops: the first position from which the field closes. */
  function FieldEnd(s: string, a: nat, style: HeaderStyle): (e: nat)
    requires a <= |s|
    decreases |s| - a
    ensures a <= e <= |s| && Closes(s, e, style)
    ensures forall m :: a <= m < e ==> !Closes(s, m, style)
  {
    if Closes(s, a, style) then a
    else
      assert FieldBoundary(s, |s|, style);
      FieldEnd(s, a + 1, style)
  }

  /** The first of the alternative labels that occurs at i (`(?:ACTION|ACTIONS):` tries them in order). */
  function LabelAt(s: string, i: nat, labels: seq<string>): (r: Option<string>)
    ensures r.Some? ==> r.value in labels && StartsAt(s, i, r.value)
    ensures r.None? ==> forall l :: l in labels ==> !StartsAt(s, i, l)
  {
    if labels == [] then None
    else if StartsAt(s, i, labels[0]) then Some(labels[0])
    else LabelAt(s, i, labels[1..])
  }

  /** The leftmost position from i on where some label occurs, with that label. */
  function SearchLabel(s: string, labels: seq<string>, i: nat): (r: Option<(nat, string)>)
    decreases |s| + 1 - i
    ensures r.Some? ==> i <= r.value.0 <= |s| && LabelAt(s, r.value.0, labels) == Some(r.value.1)
    ensures r.Some? ==> forall k :: i <= k < r.value.0 ==> LabelAt(s, k, labels).None?
    ensures r.None? ==> forall k :: i <= k <= |s| ==> LabelAt(s, k, labels).None?
  {
    if i > |s| then None
    else match LabelAt(s, i, labels)
      case Some(l) => Some((i, l))
      case None => SearchLabel(s, labels, i + 1)
  }

  /** A label at p with none from i up to p: the search from i finds the one at p. */
  lemma {:induction false} SearchLabelFirst(s: string, labels: seq<string>, i: nat, p: nat, l: string)
    requires i <= p <= |s| && LabelAt(s, p, labels) == Some(l)
    requires forall k :: i <= k < p ==> LabelAt(s, k, labels).None?
    ensures SearchLabel(s, labels, i) == Some((p, l))
    decreases p - i
  {
    if i < p {
      SearchLabelFirst(s, labels, i + 1, p, l);
    }
  }

  /** Start of the value after a label found at h: past the label and the greedy `\s*`. */
  function ValueStart(s: string, h: nat, tag: string): (a: nat)
    requires StartsAt(s, h, tag)
    ensures h + |tag| <= a <= |s|
  {
    h + |tag| + SpaceRun(s, h + |tag|)
  }

  /** The group of `{label}\s*(.*?)\s*(?=\n<header>|$)` searched in s (DOTALL); None when no label occurs. */
  function Field(s: string, labels: seq<string>, style: HeaderStyle): (r: Option<string>)
    ensures r.None? <==> forall k :: 0 <= k <= |s| ==> LabelAt(s, k, labels).None?
  {
    match SearchLabel(s, labels, 0)
    case None => None
    case Some((h, tag)) =>
      assert LabelAt(s, h, labels).Some?;
      var a := ValueStart(s, h, tag);
      Some(s[a..FieldEnd(s, a, style)])
  }

  /**
   * A field value carries no surrounding whitespace, and no header starts
   * inside it.
   */
  lemma FieldShape(s: string, labels: seq<string>, style: HeaderStyle)
    requires Field(s, labels, style).Some?
    ensures Trimmed(Field(s, labels, style).value)
    ensures var (h, tag) := SearchLabel(s, labels, 0).value;
      var a := ValueStart(s, h, tag);
      forall q :: a <= q < a + |Field(s, labels, style).value| ==> !FieldBoundary(s, q, style)
  {
    var (h, tag) := SearchLabel(s, labels, 0).value;
    var a := ValueStart(s, h, tag);
    var e := FieldEnd(s, a, style);
    var f := s[a..e];
    forall q | a <= q < e
      ensures !FieldBoundary(s, q, style)
    {
      if FieldBoundary(s, q, style) {
        assert Closes(s, q, style);
      }
    }
    if a < e {
      assert !IsSpace(s[a]);
      if IsSpace(s[e - 1]) {
        assert SpaceRun(s, e - 1) == 1 + SpaceRun(s, e);
        var q :| e <= q <= e + SpaceRun(s, e) && FieldBoundary(s, q, style);
        assert Closes(s, e - 1, style);
      }
    }
  }

  /** No newline inside the text is followed by a capital letter. */
  predicate NoCapitalLine(v: string) {
    forall k :: 0 <= k < |v| - 1 ==> !(v[k] == '\n' && IsUpper(v[k + 1]))
  }

  /** A field ending at the next capitalised line holds no capitalised line itself. */
  lemma CapitalFieldHasNoCapitalLine(s: string, labels: seq<string>)
    requires Field(s, labels, CapitalLine).Some?
    ensures NoCapitalLine(Field(s, labels, CapitalLine).value)
  {
    var (h, tag) := SearchLabel(s, labels, 0).value;
    var a := ValueStart(s, h, tag);
    var e := FieldEnd(s, a, CapitalLine);
    var f := s[a..e];
    assert Field(s, labels, CapitalLine).value == f;
    forall k | 0 <= k < |f| - 1
      ensures !(f[k] == '\n' && IsUpper(f[k + 1]))
    {
      assert s[a + k] == f[k] && s[a + k + 1] == f[k + 1];
      assert f[k] == '\n' && IsUpper(f[k + 1]) ==> FieldBoundary(s, a + k, CapitalLine);
      BoundaryCloses(s, a + k, CapitalLine);
    }
  }

  /** A field closes wherever the lookahead holds. */
  lemma BoundaryCloses(s: string, q: nat, style: HeaderStyle)
    requires q <= |s|
    ensures FieldBoundary(s, q, style) ==> Closes(s, q, style)
  {
  }

  /** Applying `strip()` to a field value changes nothing. */
  lemma FieldStripped(s: string, labels: seq<string>, style: HeaderStyle)
    requires Field(s, labels, style).Some?
    ensures Strip(Field(s, labels, style).value) == Field(s, labels, style).value
  {
    FieldShape(s, labels, style);
    StripTrimmed(Field(s, labels, style).value);
  }

  /**
   * A one-line value written after the first label, and followed by the end
   * of the text or by a newline that starts the next header, reads back as
   * itself.
   */
  lemma FieldRoundTrip(s: string, labels: seq<string>, style: HeaderStyle, h: nat, tag: string, v: string, tail: string)
    requires SearchLabel(s, labels, 0) == Some((h, tag))
    requires v != [] && Trimmed(v) && forall k :: 0 <= k < |v| ==> v[k] != '\n'
    requires s == s[..h] + tag + " " + v + tail
    requires tail == [] || (|tail| >= 2 && tail[0] == '\n' && NextHeader(tail, 1, style))
    ensures Field(s, labels, style) == Some(v)
  {
    var p := h + |tag|;
    var e := p + 1 + |v|;
    assert s[p] == ' ';
    assert s[p + 1..e] == v;
    assert s[p + 1] == v[0];
    assert s[e..] == tail;
    ValueStartAt(s, h, tag, p);
    ClosesAtTail(s, e, tail, style);
    NoCloseWithin(s, p + 1, e, v, style);
    FieldFromEnd(s, labels, style, h, tag, p + 1, e);
  }

  /** One space after the label, then a non-space: the value starts right after the space. */
  lemma ValueStartAt(s: string, h: nat, tag: string, p: nat)
    requires StartsAt(s, h, tag) && p == h + |tag| && p + 1 < |s|
    requires s[p] == ' ' && !IsSpace(s[p + 1])
    ensures ValueStart(s, h, tag) == p + 1
  {
    assert SpaceRun(s, p) == 1 + SpaceRun(s, p + 1);
  }

  /** The field is the text from where its value starts to the first position it closes at. */
  lemma FieldFromEnd(s: string, labels: seq<string>, style: HeaderStyle, h: nat, tag: string, a: nat, e: nat)
    requires SearchLabel(s, labels, 0) == Some((h, tag))
    requires StartsAt(s, h, tag) && ValueStart(s, h, tag) == a
    requires a <= e <= |s| && Closes(s, e, style)
    requires forall m :: a <= m < e ==> !Closes(s, m, style)
    ensures Field(s, labels, style) == Some(s[a..e])
  {
    var f := FieldEnd(s, a, style);
    assert !(f < e) && !(e < f);
  }

  /** A field followed by nothing, or by a header line, closes where that tail begins. */
  lemma ClosesAtTail(s: string, e: nat, tail: string, style: HeaderStyle)
    requires e + |tail| == |s| && s[e..] == tail
    requires tail == [] || (|tail| >= 2 && tail[0] == '\n' && NextHeader(tail, 1, style))
    ensures Closes(s, e, style)
  {
    assert FieldBoundary(s, e, style) by {
      if tail != [] {
        assert s[e] == tail[0];
        NextHeaderShift(s, e, tail, style);
      }
    }
  }

  /** A stretch with no newline that ends in a non-space closes nowhere inside it. */
  lemma NoCloseWithin(s: string, a: nat, e: nat, v: string, style: HeaderStyle)
    requires a < e <= |s| && s[a..e] == v && !IsSpace(v[|v| - 1])
    requires forall k :: 0 <= k < |v| ==> v[k] != '\n'
    ensures forall m :: a <= m < e ==> !Closes(s, m, style)
  {
    assert !IsSpace(s[e - 1]);
    forall m | a <= m < e
      ensures !Closes(s, m, style)
    {
      assert m + SpaceRun(s, m) < e;
      forall q | m <= q <= m + SpaceRun(s, m)
        ensures !FieldBoundary(s, q, style)
      {
        assert s[q] == v[q - a];
      }
    }
  }

  /** The header test reads only the text after the newline. */
  lemma NextHeaderShift(s: string, i: nat, tail: string, style: HeaderStyle)
    requires i + |tail| == |s| && s[i..] == tail && |tail| >= 2
    ensures NextHeader(s, i + 1, style) == NextHeader(tail, 1, style)
  {
    if style == CapsColonLine {
      RunShift(s, i, tail, 1, UpperOrSpace);
    }
  }

  /** A run computed on a suffix is the run computed on the whole text. */
  lemma {:induction false} RunShift(s: string, i: nat, tail: string, j: nat, P: char -> bool)
    requires i + |tail| == |s| && s[i..] == tail && j <= |tail|
    ensures Run(s, i + j, P) == Run(tail, j, P)
    decreases |tail| - j
  {
    if j < |tail| {
      assert s[i + j] == tail[j];
      if P(tail[j]) {
        RunShift(s, i, tail, j + 1, P);
      }
    }
  }

  /** The first run of ASCII digits, read as a number: `int(re.search(r'\d+', s).group())`. */
  function FirstInt(s: string): (r: Option<nat>)
    ensures r.None? <==> forall k :: 0 <= k < |s| ==> !IsDigit(s[k])
  {
    match FirstDigit(s, 0)
    case None => None
    case Some(i) => Some(DigitsValue(s[i..i + DigitRun(s, i)]))
  }

  function FirstDigit(s: string, i: nat): (r: Option<nat>)
    decreases |s| - i
    ensures r.Some? ==> i <= r.value < |s| && IsDigit(s[r.value])
    ensures r.Some? ==> forall k :: i <= k < r.value ==> !IsDigit(s[k])
    ensures r.None? ==> forall k :: i <= k < |s| ==> !IsDigit(s[k])
  {
    if i >= |s| then None
    else if IsDigit(s[i]) then Some(i)
    else FirstDigit(s, i + 1)
  }

  /** The number written first in a text is the one read back. */
  lemma FirstIntRoundTrip(p: string, d: string, q: string)
    requires forall k :: 0 <= k < |p| ==> !IsDigit(p[k])
    requires d != [] && AllDigits(d)
    requires q == [] || !IsDigit(q[0])
    ensures FirstInt(p + d + q) == Some(DigitsValue(d))
  {
    var s := p + d + q;
    assert s[|p|] == d[0];
    assert FirstDigit(s, 0) == Some(|p|) by {
      assert forall k :: 0 <= k < |p| ==> s[k] == p[k];
    }
    DigitRunAt(s, |p|, d);
    assert s[|p|..|p| + |d|] == d;
  }

  /**
   * `parse_elements(text, key_list)` (AgentOccam/AgentOccam.py:125-131): for
   * each key, the stripped value under its upper-cased label, or "" when the
   * label does not occur.
   */
  function ParseElements(text: string, keys: set<string>): (r: map<string, string>)
    ensures r.Keys == keys
    ensures forall k :: k in keys ==> Trimmed(r[k])
  {
    map k | k in keys :: ElementValue(text, k)
  }

  function ElementValue(text: string, key: string): string {
    match Field(text, [Upper(key) + ":"], CapsColonLine)
    case None => ""
    case Some(f) => Strip(f)
  }
}
