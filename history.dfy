/**
 * The agent's interaction history (`previous_interactions`): one list per
 * documented field, appended to once per step.  The number of recorded actions
 * is the step counter.
 */
module HistoryStore {
  /** The fields every agent documents, whatever its configuration adds. */
  const DefaultFields: set<string> := {"observation", "action"}

  /** The fields the agent supplies at the end of every step. */
  const StepFields: set<string> := {"observation", "action", "url", "plan", "reason",
    "observation highlight", "retained element ids", "observation summary"}

  /** `update_history` on values: a supplied field gains one entry, other fields and unknown names are ignored. */
  function Appended<V>(fields: map<string, seq<V>>, entries: map<string, V>): (r: map<string, seq<V>>)
    ensures r.Keys == fields.Keys
    ensures forall k :: k in fields && k in entries ==> r[k] == fields[k] + [entries[k]]
    ensures forall k :: k in fields && k !in entries ==> r[k] == fields[k]
  {
    map k | k in fields :: if k in entries then fields[k] + [entries[k]] else fields[k]
  }

  /** `equal_history_length`: the set of field lengths has exactly one element. */
  predicate EqualLengths<V>(fields: map<string, seq<V>>) {
    fields != map[] && forall k1, k2 :: k1 in fields && k2 in fields ==> |fields[k1]| == |fields[k2]|
  }

  /**
   * Starting from equal lengths, an update keeps the lengths equal exactly when
   * it supplies every tracked field or none of them.
   */
  lemma RecordKeepsLengths<V>(fields: map<string, seq<V>>, entries: map<string, V>)
    requires EqualLengths(fields)
    ensures EqualLengths(Appended(fields, entries)) <==>
      (fields.Keys <= entries.Keys || fields.Keys !! entries.Keys)
  {
    var r := Appended(fields, entries);
    if !(fields.Keys <= entries.Keys) && !(fields.Keys !! entries.Keys) {
      var missing :| missing in fields && missing !in entries;
      var given :| given in fields && given in entries;
      assert |r[given]| == |r[missing]| + 1;
    }
  }

  /**
   * The per-step update supplies all eight step fields; when the tracked fields
   * are among them, lengths stay equal and the step counter grows by one.
   */
  lemma PerStepRecord<V>(fields: map<string, seq<V>>, entries: map<string, V>)
    requires EqualLengths(fields) && "action" in fields
    requires fields.Keys <= StepFields && entries.Keys == StepFields
    ensures EqualLengths(Appended(fields, entries))
    ensures |Appended(fields, entries)["action"]| == |fields["action"]| + 1
  {
    RecordKeepsLengths(fields, entries);
  }

  class History<V> {
    var fields: map<string, seq<V>>

    ghost predicate Valid()
      reads this
    {
      DefaultFields <= fields.Keys
    }

    /** Every default and configured field starts with an empty list. */
    constructor(documented: set<string>)
      ensures Valid()
      ensures fields.Keys == DefaultFields + documented
      ensures forall k :: k in fields ==> fields[k] == []
      ensures EqualLengths(fields) && GetStep() == 0
    {
      fields := map k | k in DefaultFields + documented :: [];
    }

    /** `get_step`: the number of actions recorded so far. */
    function GetStep(): nat
      reads this
      requires Valid()
    {
      |fields["action"]|
    }

    /** `equal_history_length`. */
    predicate EqualHistoryLength()
      reads this
    {
      EqualLengths(fields)
    }

    /** `update_history`: one entry appended to each tracked field that is supplied. */
    method UpdateHistory(entries: map<string, V>)
      requires Valid()
      modifies this
      ensures Valid()
      ensures fields == Appended(old(fields), entries)
    {
      var pending := entries.Keys;
      while pending != {}
        invariant pending <= entries.Keys
        invariant fields.Keys == old(fields).Keys
        invariant forall k :: k in fields ==>
          fields[k] == if k in entries && k !in pending then old(fields)[k] + [entries[k]] else old(fields)[k]
        decreases pending
      {
        var k :| k in pending;
        if k in fields {
          fields := fields[k := fields[k] + [entries[k]]];
        }
        pending := pending - {k};
      }
    }
  }
}
