/** The shutdown flag: a process-wide word that the interrupt, termination and
    hang-up handlers set and that the task's own loop polls.  Signal delivery
    itself is not modelled: a delivered signal is a call of `SigHandler`. */
module Shutdown {

  /** The flag as a poller sees it after a history of events: `true` entries
      are handler runs, `false` entries are polls. */
  function ActiveAfter(history: seq<bool>): (active: bool)
    ensures active <==> forall i :: 0 <= i < |history| ==> !history[i]
  {
    if history == [] then true
    else ActiveAfter(history[..|history| - 1]) && !history[|history| - 1]
  }

  /** Monotonicity: once some handler has run, every later poll reports the
      task inactive, however many handlers run again. */
  lemma ShutdownIsFinal(history: seq<bool>, later: seq<bool>)
    requires !ActiveAfter(history)
    ensures !ActiveAfter(history + later)
  {
    var i :| 0 <= i < |history| && history[i];
    assert (history + later)[i] == history[i];
  }

  /** The process's `exit_requested` word, and the ghost history of handler
      runs that led to it (polls change nothing, so they are not recorded). */
  class ShutdownFlag {
    var exitRequested: int
    ghost var history: seq<bool>

    /** The word is 0 while no handler has run, and 1 after. */
    ghost predicate Valid()
      reads this
    {
      exitRequested == if ActiveAfter(history) then 0 else 1
    }

    /** The statically initialised word: no shutdown requested. */
    constructor ()
      ensures Valid() && exitRequested == 0 && history == []
    {
      exitRequested := 0;
      history := [];
    }

    /** `sig_handler`: whatever the signal, record the request and do
        nothing else. */
    method SigHandler(sig: int)
      requires Valid()
      modifies this
      ensures Valid()
      ensures exitRequested == 1 && history == old(history) + [true]
    {
      exitRequested := 1;
      history := history + [true];
      assert history[|history| - 1];
    }

    /** `litmus_task_active`: true until the first handler run, false after. */
    method LitmusTaskActive() returns (active: bool)
      requires Valid()
      ensures active == ActiveAfter(history)
    {
      active := exitRequested == 0;
    }
  }
}
