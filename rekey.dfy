/**
 * Re-keying by lower-cased name, as the application does with
 * `result[name.toLowerCase()] = value` inside a `forEach`: entries are
 * written in order, so when two names differ only in case the later
 * entry's value is the one that stays.
 */
module Rekey {
  import opened Text

  /** The object built by writing each entry under its lower-cased name, first to last. */
  function LowerKeyed<V>(entries: seq<(string, V)>): map<string, V>
    decreases |entries|
  {
    if entries == [] then map[]
    else
      var last := entries[|entries| - 1];
      LowerKeyed(entries[..|entries| - 1])[Lower(last.0) := last.1]
  }

  /** The lower-cased names of the entries. */
  function LowerNames<V>(entries: seq<(string, V)>): set<string>
  {
    set i | 0 <= i < |entries| :: Lower(entries[i].0)
  }

  /** Writing one more entry adds its lower-cased name and nothing else. */
  lemma LowerNamesSnoc<V>(entries: seq<(string, V)>, e: (string, V))
    ensures LowerNames(entries + [e]) == LowerNames(entries) + {Lower(e.0)}
  {
    var s := entries + [e];
    assert forall i :: 0 <= i < |entries| ==> s[i] == entries[i];
    assert s[|entries|] == e;
  }

  /** The keys are exactly the lower-cased names. */
  lemma {:induction false} LowerKeyedKeys<V>(entries: seq<(string, V)>)
    ensures LowerKeyed(entries).Keys == LowerNames(entries)
    decreases |entries|
  {
    if entries != [] {
      var init := entries[..|entries| - 1];
      LowerKeyedKeys(init);
      assert entries == init + [entries[|entries| - 1]];
      LowerNamesSnoc(init, entries[|entries| - 1]);
    }
  }

  /** No entry after position `i` has the same lower-cased name. */
  predicate LastWithKey<V>(entries: seq<(string, V)>, i: int)
  {
    0 <= i < |entries| &&
    forall j :: i < j < |entries| ==> Lower(entries[j].0) != Lower(entries[i].0)
  }

  /** The value under a key is that of the last entry with that lower-cased name. */
  lemma {:induction false} LowerKeyedLastWins<V>(entries: seq<(string, V)>, i: int)
    requires LastWithKey(entries, i)
    ensures Lower(entries[i].0) in LowerKeyed(entries)
    ensures LowerKeyed(entries)[Lower(entries[i].0)] == entries[i].1
    decreases |entries|
  {
    var n := |entries| - 1;
    if i < n {
      var init := entries[..n];
      assert LastWithKey(init, i);
      LowerKeyedLastWins(init, i);
      assert init[i] == entries[i];
    }
  }

  /** Every key has a last entry, whose value it holds. */
  lemma LowerKeyedWitness<V>(entries: seq<(string, V)>, k: string) returns (i: int)
    requires k in LowerKeyed(entries)
    ensures LastWithKey(entries, i) && Lower(entries[i].0) == k
    ensures LowerKeyed(entries)[k] == entries[i].1
  {
    LowerKeyedKeys(entries);
    var j :| 0 <= j < |entries| && Lower(entries[j].0) == k;
    i := |entries| - 1;
    while Lower(entries[i].0) != k
      invariant j <= i < |entries|
      invariant forall m :: i < m < |entries| ==> Lower(entries[m].0) != k
      decreases i
    {
      i := i - 1;
    }
    LowerKeyedLastWins(entries, i);
  }

  /**
   * The `forEach` that writes `result[name.toLowerCase()] = value` for each
   * entry, first to last.
   */
  method WriteLowerKeyed<V>(entries: seq<(string, V)>) returns (result: map<string, V>)
    ensures result == LowerKeyed(entries)
  {
    result := map[];
    var i := 0;
    while i < |entries|
      invariant 0 <= i <= |entries|
      invariant result == LowerKeyed(entries[..i])
    {
      assert entries[..i + 1][..i] == entries[..i];
      result := result[Lower(entries[i].0) := entries[i].1];
      i := i + 1;
    }
    assert entries[..i] == entries;
  }
}
