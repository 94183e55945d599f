/**
 * The memoising wrapper that every stream cell goes through: the first force runs the
 * thunk and keeps its value, later forces hand back the kept value.
 *
 * The cell starts out `null` and the wrapper tests it against `null`, so a thunk whose
 * value is `null` is run again on every force. `None` stands for that `null` here, and the
 * thunk's value is an `Option`: a `None` result is never kept.
 *
 * A thunk may have effects, so each run is given its own outcome: `run(i)` is what the run
 * numbered `i` (counting from 0) does. A wrapper that did not cache would return a later
 * run's value; the contracts below say which run each force returns.
 */
module Memo {
  import opened Outcomes

  /**
   * What one run of the thunk does: it returns a value (`None` for `null`) or it throws.
   * A throw leaves the assignment to the cell undone and propagates to whoever forced.
   */
  datatype Run<T> = Returns(value: Option<T>) | Throws

  class Memoized<T> {
    /** What each run of the wrapped thunk does, by the number of runs before it. */
    const run: nat -> Run<T>
    /** The cell; `None` while nothing (or only `null`) has been computed. */
    var memo: Option<T>
    /** How many times the thunk has been run: the state the thunk's effects depend on. */
    var calls: nat

    /** A cell that holds something holds the value the latest run returned. */
    ghost predicate Valid()
      reads this
    {
      memo.Some? ==> calls > 0 && run(calls - 1) == Returns(memo)
    }

    constructor (run: nat -> Run<T>)
      ensures this.run == run
      ensures memo == None && calls == 0
      ensures Valid()
    {
      this.run := run;
      memo := None;
      calls := 0;
    }

    /**
     * One force: while the cell is empty the thunk runs once more, and what that run does
     * is handed back; its value is kept unless it is `null` or the run threw. Once the cell
     * holds a value, that value is handed back and the thunk does not run.
     */
    method Force() returns (r: Run<T>)
      requires Valid()
      modifies this
      ensures Valid()
      ensures old(memo).Some? ==> r == Returns(old(memo)) && calls == old(calls) && memo == old(memo)
      ensures old(memo).None? ==> r == run(old(calls)) && calls == old(calls) + 1
      ensures memo == if r.Returns? then r.value else None
    {
      if memo.None? {
        var outcome := run(calls);
        calls := calls + 1;
        if outcome.Returns? {
          memo := outcome.value;
        }
        r := outcome;
      } else {
        r := Returns(memo);
      }
    }
  }

  /**
   * Two forces of a fresh wrapper: a first run that returns a value other than `null` is
   * handed back again without a second run; after a `null` or a throw the second force
   * runs the thunk again.
   */
  method ForceTwice<T>(m: Memoized<T>) returns (r1: Run<T>, r2: Run<T>)
    requires m.Valid() && m.memo == None
    modifies m
    ensures r1 == m.run(old(m.calls))
    ensures r1.Returns? && r1.value.Some? ==> r2 == r1 && m.calls == old(m.calls) + 1
    ensures !(r1.Returns? && r1.value.Some?) ==> r2 == m.run(old(m.calls) + 1) && m.calls == old(m.calls) + 2
    ensures m.Valid()
    ensures m.memo == if r2.Returns? then r2.value else None
  {
    r1 := m.Force();
    r2 := m.Force();
  }
}
