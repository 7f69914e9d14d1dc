/** The recent-passwords list of `add_to_history`: newest first, at most
    five entries. */
module History {

  const HISTORY_LIMIT: nat := 5

  function Min(a: int, b: int): int
  {
    if a <= b then a else b
  }

  /** The list after recording `pwd`: insert at the front, then keep the
      first five (a slice that clamps, as Python's `[:5]` does). */
  function Recorded(history: seq<string>, pwd: string): (r: seq<string>)
    ensures r == [pwd] + history[..Min(|history|, HISTORY_LIMIT - 1)]
    ensures |r| == Min(|history| + 1, HISTORY_LIMIT) <= HISTORY_LIMIT
  {
    var inserted := [pwd] + history;
    inserted[..Min(|inserted|, HISTORY_LIMIT)]
  }

  /** The list after recording each of `pwds`, oldest first. */
  function RecordAll(history: seq<string>, pwds: seq<string>): seq<string>
  {
    if pwds == [] then history
    else Recorded(RecordAll(history, pwds[..|pwds| - 1]), pwds[|pwds| - 1])
  }

  /** After a run of generations the list holds the most recent passwords
      newest first, then what was there before, cut to five entries. */
  lemma {:induction false} RecordAllKeepsNewest(history: seq<string>, pwds: seq<string>)
    ensures |RecordAll(history, pwds)| ==
      if pwds == [] then |history| else Min(|history| + |pwds|, HISTORY_LIMIT)
    ensures forall i :: 0 <= i < |RecordAll(history, pwds)| ==>
      RecordAll(history, pwds)[i] ==
        if i < |pwds| then pwds[|pwds| - 1 - i] else history[i - |pwds|]
  {
    if pwds != [] {
      var init, last := pwds[..|pwds| - 1], pwds[|pwds| - 1];
      var before := RecordAll(history, init);
      RecordAllKeepsNewest(history, init);
      var after := RecordAll(history, pwds);
      assert after == [last] + before[..Min(|before|, HISTORY_LIMIT - 1)];
      forall i | 1 <= i < |after|
        ensures after[i] == if i < |pwds| then pwds[|pwds| - 1 - i] else history[i - |pwds|]
      {
        assert after[i] == before[i - 1];
      }
    }
  }

  /** Once five or more passwords have been recorded, the list is exactly the
      last five, newest first, whatever it held before. */
  lemma LastFive(history: seq<string>, pwds: seq<string>)
    requires |pwds| >= HISTORY_LIMIT
    ensures RecordAll(history, pwds) ==
      [pwds[|pwds| - 1], pwds[|pwds| - 2], pwds[|pwds| - 3], pwds[|pwds| - 4], pwds[|pwds| - 5]]
  {
    RecordAllKeepsNewest(history, pwds);
  }
}
