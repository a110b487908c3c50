/**
 * The message lists the agent sends to the model (`prune_message_list` and
 * `merge_adjacent_text`): text items and other items such as images, in order.
 * Normalisation drops empty texts and joins runs of texts into one, which
 * leaves the stream of characters and other items unchanged.
 */
module Messages {
  import opened Wrappers

  /** A `("text", s)` item, or an item of any other kind carrying P. */
  datatype Message<P> = Text(text: string) | NonText(item: P)

  /** The stream a message list stands for: its characters and other items, in order. */
  datatype Atom<P> = Char(c: char) | Item(item: P)

  function MessageAtoms<P>(m: Message<P>): seq<Atom<P>> {
    match m
    case Text(s) => seq(|s|, k requires 0 <= k < |s| => Char(s[k]))
    case NonText(p) => [Item(p)]
  }

  function Atoms<P>(ms: seq<Message<P>>): seq<Atom<P>> {
    if ms == [] then [] else MessageAtoms(ms[0]) + Atoms(ms[1..])
  }

  lemma {:induction false} AtomsAppend<P>(a: seq<Message<P>>, b: seq<Message<P>>)
    ensures Atoms(a + b) == Atoms(a) + Atoms(b)
  {
    if a != [] {
      assert (a + b)[1..] == a[1..] + b;
      AtomsAppend(a[1..], b);
    } else {
      assert a + b == b;
    }
  }

  lemma TextAtoms<P>(s: string, t: string)
    ensures MessageAtoms<P>(Text(s + t)) == MessageAtoms<P>(Text(s)) + MessageAtoms<P>(Text(t))
  {
  }

  /** The items the source's filter keeps: everything but empty texts. */
  function NonEmptyTexts<P>(ms: seq<Message<P>>): (r: seq<Message<P>>)
    ensures forall k :: 0 <= k < |r| ==> r[k] != Text("")
  {
    if ms == [] then []
    else if ms[0] == Text("") then NonEmptyTexts(ms[1..])
    else [ms[0]] + NonEmptyTexts(ms[1..])
  }

  /** Dropping empty texts changes no character and no other item. */
  lemma {:induction false} NonEmptyTextsAtoms<P>(ms: seq<Message<P>>)
    ensures Atoms(NonEmptyTexts(ms)) == Atoms(ms)
  {
    if ms != [] {
      NonEmptyTextsAtoms(ms[1..]);
      if ms[0] != Text("") {
        assert ([ms[0]] + NonEmptyTexts(ms[1..]))[1..] == NonEmptyTexts(ms[1..]);
      }
    }
  }

  predicate EndsInText<P>(ms: seq<Message<P>>) {
    ms != [] && ms[|ms| - 1].Text?
  }

  /** The list with one more item merged in: a text joins a text that ends the list. */
  function MergeIn<P>(ms: seq<Message<P>>, m: Message<P>): seq<Message<P>> {
    if m.Text? && EndsInText(ms) then ms[..|ms| - 1] + [Text(ms[|ms| - 1].text + m.text)]
    else ms + [m]
  }

  /** What `merge_adjacent_text` returns. */
  function Merged<P>(ms: seq<Message<P>>): seq<Message<P>> {
    if ms == [] then [] else MergeIn(Merged(ms[..|ms| - 1]), ms[|ms| - 1])
  }

  /** No two text items are neighbours. */
  predicate NoAdjacentText<P>(ms: seq<Message<P>>) {
    forall k :: 0 <= k < |ms| - 1 ==> !(ms[k].Text? && ms[k + 1].Text?)
  }

  /** The normal form: no empty text and no adjacent texts. */
  predicate Normal<P>(ms: seq<Message<P>>) {
    NoAdjacentText(ms) && forall k :: 0 <= k < |ms| ==> ms[k] != Text("")
  }

  /** One merge step keeps the stream: the new item's atoms follow the old list's. */
  lemma MergeInAtoms<P>(d: seq<Message<P>>, m: Message<P>)
    ensures Atoms(MergeIn(d, m)) == Atoms(d) + MessageAtoms(m)
  {
    assert Atoms([m]) == MessageAtoms(m);
    if m.Text? && EndsInText(d) {
      var last := d[|d| - 1];
      var front := d[..|d| - 1];
      assert d == front + [last];
      AtomsAppend(front, [last]);
      AtomsAppend(front, [Text(last.text + m.text)]);
      assert Atoms([last]) == MessageAtoms(last);
      assert Atoms([Text(last.text + m.text)]) == MessageAtoms<P>(Text(last.text + m.text));
      TextAtoms<P>(last.text, m.text);
    } else {
      AtomsAppend(d, [m]);
    }
  }

  /** Merging keeps the stream of characters and other items. */
  lemma {:induction false} MergedAtoms<P>(ms: seq<Message<P>>)
    ensures Atoms(Merged(ms)) == Atoms(ms)
  {
    if ms != [] {
      var init := ms[..|ms| - 1];
      var m := ms[|ms| - 1];
      MergedAtoms(init);
      MergeInAtoms(Merged(init), m);
      assert ms == init + [m];
      AtomsAppend(init, [m]);
      assert Atoms([m]) == MessageAtoms(m);
    }
  }

  /** Merging leaves no adjacent texts, and makes no empty text out of non-empty ones. */
  lemma {:induction false} MergedNormal<P>(ms: seq<Message<P>>)
    ensures NoAdjacentText(Merged(ms))
    ensures (forall k :: 0 <= k < |ms| ==> ms[k] != Text("")) ==> Normal(Merged(ms))
  {
    if ms != [] {
      var init := ms[..|ms| - 1];
      MergedNormal(init);
      assert forall k :: 0 <= k < |init| ==> init[k] == ms[k];
    }
  }

  /** `merge_adjacent_text` (AgentOccam/AgentOccam.py:83-102), with the pending text in `current`. */
  method MergeAdjacentText<P>(ms: seq<Message<P>>) returns (merged: seq<Message<P>>)
    ensures merged == Merged(ms)
  {
    merged := [];
    var current: Option<string> := None;
    for i := 0 to |ms|
      invariant !EndsInText(merged)
      invariant Merged(ms[..i]) == if current.Some? then merged + [Text(current.value)] else merged
    {
      assert ms[..i + 1][..i] == ms[..i];
      if ms[i].Text? {
        if current.Some? {
          assert (merged + [Text(current.value)])[..|merged|] == merged;
          current := Some(current.value + ms[i].text);
        } else {
          current := Some(ms[i].text);
        }
      } else {
        if current.Some? {
          merged := merged + [Text(current.value)];
          current := None;
        }
        merged := merged + [ms[i]];
      }
    }
    assert ms[..|ms|] == ms;
    if current.Some? {
      merged := merged + [Text(current.value)];
    }
  }

  /** `prune_message_list` (AgentOccam/AgentOccam.py:80-81): empty texts dropped, then adjacent texts merged. */
  method PruneMessageList<P>(ms: seq<Message<P>>) returns (r: seq<Message<P>>)
    ensures r == Merged(NonEmptyTexts(ms))
    ensures Normal(r)
    ensures Atoms(r) == Atoms(ms)
  {
    var kept := NonEmptyTexts(ms);
    r := MergeAdjacentText(kept);
    MergedAtoms(kept);
    MergedNormal(kept);
    NonEmptyTextsAtoms(ms);
  }

  /** A normal list that starts with a text: that text is the whole leading run of characters. */
  lemma LeadingText<P>(ms: seq<Message<P>>)
    requires Normal(ms) && ms != [] && ms[0].Text?
    ensures Atoms(ms) == MessageAtoms(ms[0]) + Atoms(ms[1..])
    ensures Atoms(ms[1..]) == [] || Atoms(ms[1..])[0].Item?
  {
    if ms[1..] != [] {
      assert ms[1..][0] == ms[1];
      assert !ms[1].Text?;
    }
  }

  /** The number of characters before the first other item. */
  function CharRun<P>(xs: seq<Atom<P>>): nat {
    if xs == [] || xs[0].Item? then 0 else 1 + CharRun(xs[1..])
  }

  lemma {:induction false} CharRunText<P>(s: string, rest: seq<Atom<P>>)
    requires rest == [] || rest[0].Item?
    ensures CharRun(MessageAtoms<P>(Text(s)) + rest) == |s|
  {
    if s != [] {
      CharRunText(s[1..], rest);
      assert (MessageAtoms<P>(Text(s)) + rest)[1..] == MessageAtoms<P>(Text(s[1..])) + rest;
    } else {
      assert MessageAtoms<P>(Text(s)) + rest == rest;
    }
  }

  /** Two normal lists for the same stream both start with a text or both with another item. */
  lemma HeadKinds<P>(a: seq<Message<P>>, b: seq<Message<P>>)
    requires Normal(a) && Normal(b) && Atoms(a) == Atoms(b) && a != [] && b != []
    ensures a[0].Text? == b[0].Text?
  {
    if a[0].Text? {
      LeadingText(a);
      CharRunText(a[0].text, Atoms(a[1..]));
    }
    if b[0].Text? {
      LeadingText(b);
      CharRunText(b[0].text, Atoms(b[1..]));
    }
    assert !a[0].Text? ==> Atoms(a)[0] == Item(a[0].item);
    assert !b[0].Text? ==> Atoms(b)[0] == Item(b[0].item);
  }

  /** The normal form is unique: two normal lists standing for the same stream are equal. */
  lemma {:induction false} NormalUnique<P>(a: seq<Message<P>>, b: seq<Message<P>>)
    requires Normal(a) && Normal(b) && Atoms(a) == Atoms(b)
    ensures a == b
    decreases |a|
  {
    if a != [] && b != [] {
      if a[0].Text? && b[0].Text? {
        LeadingText(a);
        LeadingText(b);
        var s, t := a[0].text, b[0].text;
        CharRunText(s, Atoms(a[1..]));
        CharRunText(t, Atoms(b[1..]));
        assert s == t by {
          forall k | 0 <= k < |s|
            ensures s[k] == t[k]
          {
            assert Atoms(a)[k] == Char(s[k]) && Atoms(b)[k] == Char(t[k]);
          }
        }
        assert Atoms(a)[|s|..] == Atoms(a[1..]) && Atoms(b)[|t|..] == Atoms(b[1..]);
      } else {
        HeadKinds(a, b);
        assert Atoms(a)[0] == Item(a[0].item) && Atoms(b)[0] == Item(b[0].item);
        assert Atoms(a[1..]) == Atoms(a)[1..] && Atoms(b[1..]) == Atoms(b)[1..];
      }
      NormalTail(a);
      NormalTail(b);
      NormalUnique(a[1..], b[1..]);
      assert a == [a[0]] + a[1..] && b == [b[0]] + b[1..];
    }
  }

  lemma NormalTail<P>(ms: seq<Message<P>>)
    requires Normal(ms) && ms != []
    ensures Normal(ms[1..])
  {
    assert forall k :: 0 <= k < |ms| - 1 ==> ms[1..][k] == ms[k + 1];
  }

  /** Pruning an already pruned list changes nothing. */
  lemma PruneIdempotent<P>(ms: seq<Message<P>>)
    ensures Merged(NonEmptyTexts(Merged(NonEmptyTexts(ms)))) == Merged(NonEmptyTexts(ms))
  {
    var once := Merged(NonEmptyTexts(ms));
    MergedAtoms(NonEmptyTexts(ms));
    MergedNormal(NonEmptyTexts(ms));
    NonEmptyTextsAtoms(ms);
    MergedAtoms(NonEmptyTexts(once));
    MergedNormal(NonEmptyTexts(once));
    NonEmptyTextsAtoms(once);
    NormalUnique(Merged(NonEmptyTexts(once)), once);
  }
}
