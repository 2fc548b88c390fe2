/** The main window's in-memory conversion history: newest entry first, never more than
    MAX_HISTORY entries. */
module MainForm {
  import opened Models

  const MAX_HISTORY: nat := 10

  function Min(a: int, b: int): int {
    if a <= b then a else b
  }

  /** The history after one add: the new entry goes in front and, when that makes the
      list longer than MAX_HISTORY, the last (oldest) entry is dropped. */
  function Pushed<T>(history: seq<T>, entry: T): (h: seq<T>)
    ensures |h| >= 1 && h[0] == entry
    ensures |history| <= MAX_HISTORY ==> |h| == Min(|history| + 1, MAX_HISTORY)
    ensures h[1..] <= history
    ensures |history| < MAX_HISTORY ==> h[1..] == history
    ensures |history| == MAX_HISTORY ==> h[1..] == history[..MAX_HISTORY - 1]
  {
    var added := [entry] + history;
    assert added[1..] == history;
    if |added| > MAX_HISTORY then added[..|added| - 1] else added
  }

  /** The history after adding `entries` in order, the first entry first. */
  function PushedAll<T>(history: seq<T>, entries: seq<T>): seq<T>
    decreases |entries|
  {
    if entries == [] then history
    else PushedAll(Pushed(history, entries[0]), entries[1..])
  }

  function Reversed<T>(s: seq<T>): (r: seq<T>)
    ensures |r| == |s|
  {
    if s == [] then [] else Reversed(s[1..]) + [s[0]]
  }

  /** A history that starts within bounds holds, after any sequence of adds, the
      newest entries first: the added entries in reverse order, then the earlier
      history, cut to MAX_HISTORY. */
  lemma {:induction false} PushedAllKeepsNewest<T>(history: seq<T>, entries: seq<T>)
    requires |history| <= MAX_HISTORY
    ensures PushedAll(history, entries)
      == (Reversed(entries) + history)[..Min(|entries| + |history|, MAX_HISTORY)]
    decreases |entries|
  {
    if entries != [] {
      var h1 := Pushed(history, entries[0]);
      PushedAllKeepsNewest(h1, entries[1..]);
      var m := Min(|history| + 1, MAX_HISTORY);
      var n := Min(|entries| + |history|, MAX_HISTORY);
      PushedIsPrefix(history, entries[0]);
      assert Min(|entries| - 1 + m, MAX_HISTORY) == n;
      PrefixOfAppend(Reversed(entries[1..]), [entries[0]] + history, m, n);
      ReversedAppend(entries, history);
    }
  }

  /** One add is the entry in front of the history, cut to MAX_HISTORY. */
  lemma PushedIsPrefix<T>(history: seq<T>, entry: T)
    requires |history| <= MAX_HISTORY
    ensures Pushed(history, entry) == ([entry] + history)[..Min(|history| + 1, MAX_HISTORY)]
  {
    assert ([entry] + history)[1..] == history;
  }

  /** Reversing peels the first entry off to the back. */
  lemma ReversedAppend<T>(entries: seq<T>, history: seq<T>)
    requires entries != []
    ensures Reversed(entries[1..]) + ([entries[0]] + history) == Reversed(entries) + history
  {
    var front := Reversed(entries[1..]);
    var back := [entries[0]] + history;
    assert Reversed(entries) == front + [entries[0]];
    forall k | 0 <= k < |front| + |back|
      ensures (front + back)[k] == (Reversed(entries) + history)[k]
    {
      if k > |front| {
        assert back[k - |front|] == history[k - |front| - 1];
      }
    }
  }

  /** Cutting the tail of a concatenation early does not change a shorter prefix. */
  lemma PrefixOfAppend<T>(a: seq<T>, b: seq<T>, m: nat, n: nat)
    requires m <= |b| && n <= |a| + m
    ensures (a + b[..m])[..n] == (a + b)[..n]
  {
    assert forall k :: 0 <= k < n ==> (a + b[..m])[k] == (a + b)[k];
  }

  /** Adding to a history within bounds keeps it within bounds. */
  lemma PushedAllBounded<T>(history: seq<T>, entries: seq<T>)
    requires |history| <= MAX_HISTORY
    ensures |PushedAll(history, entries)| <= MAX_HISTORY
    ensures |history| + |entries| <= MAX_HISTORY ==>
      PushedAll(history, entries) == Reversed(entries) + history
  {
    PushedAllKeepsNewest(history, entries);
  }

  /** The main window, reduced to its conversion history. */
  class MainForm {
    var conversionHistory: seq<ConversionResult>

    ghost predicate Valid()
      reads this
    {
      |conversionHistory| <= MAX_HISTORY
    }

    constructor ()
      ensures Valid() && conversionHistory == []
    {
      conversionHistory := [];
    }

    /** AddToHistory: insert at the front, then drop the last entry if the list has
        grown past MAX_HISTORY. */
    method AddToHistory(result: ConversionResult)
      requires Valid()
      modifies this
      ensures Valid()
      ensures conversionHistory == Pushed(old(conversionHistory), result)
    {
      conversionHistory := [result] + conversionHistory;
      if |conversionHistory| > MAX_HISTORY {
        conversionHistory := conversionHistory[..|conversionHistory| - 1];
      }
    }
  }
}
