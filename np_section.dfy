/** The non-preemptive section protocol.

    A task shares one flag structure with the kernel: a `preemptivity` word, a
    `request` word the kernel sets when it wanted to preempt during a section,
    and an unsigned nesting counter.  Entering and leaving sections needs no
    kernel call except when the kernel asked for a preemption in the meantime.

    The pure part (NpState, Enter, Exit, KernelRequestExit, Run) says what one
    step does to the three words and which observable events it causes; the
    class NpFlag is the process-wide structure itself, whose methods are proved
    to take exactly those steps. */
module NonPreemptive {

  type U16 = x: int | 0 <= x < 0x1_0000
  type U32 = x: int | 0 <= x < 0x1_0000_0000

  /** The value of an `unsigned int` one past its largest value. */
  const CTR_LIMIT: int := 0x1_0000_0000

  /** The two `preemptivity` words and the `request` word the kernel writes. */
  const RT_PREEMPTIVE: U16 := 0x2050
  const RT_NON_PREEMPTIVE: U16 := 0x4e50
  const RT_EXIT_NP_REQUESTED: U16 := 0x5251

  /** The contents of the shared flag structure. */
  datatype NpState = NpState(preemptivity: U16, request: U16, ctr: U32)

  /** What the kernel can observe of a step: the preemptivity word changing,
      and the `signal_exit_np` call. */
  datatype NpEvent = BecameNonPreemptive | BecamePreemptive | ExitNpSignalled

  /** A step's resulting state and the events it caused, in order. */
  datatype Stepped = Stepped(after: NpState, events: seq<NpEvent>)

  /** The flag state right after initialisation: the structure is static, so
      `request` starts at zero, and initialisation sets the other two words. */
  const INIT_STATE: NpState := NpState(RT_PREEMPTIVE, 0, 0)

  /** The protocol invariant: the task is non-preemptive exactly while it is
      inside at least one section, and each word holds one of its named values. */
  predicate Consistent(s: NpState)
  {
    && (s.preemptivity == RT_NON_PREEMPTIVE <==> s.ctr > 0)
    && (s.preemptivity == RT_PREEMPTIVE || s.preemptivity == RT_NON_PREEMPTIVE)
    && (s.request == 0 || s.request == RT_EXIT_NP_REQUESTED)
  }

  /** `enter_np`: the pre-increment of the unsigned counter (which wraps at
      2^32), and only on reaching 1: clear the request, then become
      non-preemptive. */
  function Enter(s: NpState): (r: Stepped)
    ensures s.ctr < CTR_LIMIT - 1 ==> r.after.ctr == s.ctr + 1
    ensures s.ctr == CTR_LIMIT - 1 ==> r.after.ctr == 0
    // The outermost entry clears any old request and is the only transition.
    ensures r.after.ctr == 1 ==>
      && r.after == NpState(RT_NON_PREEMPTIVE, 0, 1)
      && r.events == [BecameNonPreemptive]
    // A nested entry changes nothing but the counter.
    ensures r.after.ctr != 1 ==> r == Stepped(s.(ctr := r.after.ctr), [])
    ensures Consistent(s) && s.ctr < CTR_LIMIT - 1 ==> Consistent(r.after)
  {
    var ctr: U32 := if s.ctr == CTR_LIMIT - 1 then 0 else s.ctr + 1;
    if ctr == 1 then
      Stepped(NpState(RT_NON_PREEMPTIVE, 0, ctr), [BecameNonPreemptive])
    else
      Stepped(s.(ctr := ctr), [])
  }

  /** `exit_np`: the pre-decrement of the unsigned counter (which wraps below
      zero), and only on reaching 0: become preemptive, then notify the kernel
      if it left an exit request.  The request word is left as it is. */
  function Exit(s: NpState): (r: Stepped)
    ensures s.ctr > 0 ==> r.after.ctr == s.ctr - 1
    ensures s.ctr == 0 ==> r.after.ctr == CTR_LIMIT - 1
    ensures r.after.request == s.request
    // Only the outermost exit changes the preemptivity word.
    ensures r.after.ctr == 0 ==>
      r.after.preemptivity == RT_PREEMPTIVE && BecamePreemptive in r.events
    ensures r.after.ctr != 0 ==> r == Stepped(s.(ctr := r.after.ctr), [])
    // At the closing exit the task becomes preemptive before the request is read.
    ensures r.after.ctr == 0 ==>
      r.events == [BecamePreemptive] + (if s.request == RT_EXIT_NP_REQUESTED then [ExitNpSignalled] else [])
    // The kernel is notified exactly when the outermost exit finds a request.
    ensures ExitNpSignalled in r.events <==> s.ctr == 1 && s.request == RT_EXIT_NP_REQUESTED
    ensures |r.events| <= 2
    ensures Consistent(s) && s.ctr > 0 ==> Consistent(r.after)
  {
    var ctr: U32 := if s.ctr == 0 then CTR_LIMIT - 1 else s.ctr - 1;
    if ctr == 0 then
      var after := s.(ctr := ctr, preemptivity := RT_PREEMPTIVE);
      if after.request == RT_EXIT_NP_REQUESTED then
        Stepped(after, [BecamePreemptive, ExitNpSignalled])
      else
        Stepped(after, [BecamePreemptive])
    else
      Stepped(s.(ctr := ctr), [])
  }

  /** The kernel's side: when it wants to preempt the task during a section,
      it records an exit request instead; outside a section it preempts
      directly and leaves the flag alone. */
  function KernelRequestExit(s: NpState): (r: NpState)
    ensures r.preemptivity == s.preemptivity && r.ctr == s.ctr
    ensures r.request == RT_EXIT_NP_REQUESTED <==>
      s.ctr > 0 || s.request == RT_EXIT_NP_REQUESTED
    ensures s.ctr == 0 ==> r == s
    ensures Consistent(s) ==> Consistent(r)
  {
    if s.ctr > 0 then s.(request := RT_EXIT_NP_REQUESTED) else s
  }

  /** The operations a task and its kernel perform on the flag. */
  datatype Op = EnterOp | ExitOp | KernelRequestOp

  function Step(s: NpState, op: Op): Stepped
  {
    match op
    case EnterOp => Enter(s)
    case ExitOp => Exit(s)
    case KernelRequestOp => Stepped(KernelRequestExit(s), [])
  }

  /** Performs `ops` in order from `s`, collecting the events. */
  function Run(s: NpState, ops: seq<Op>): Stepped
    decreases |ops|
  {
    if ops == [] then Stepped(s, [])
    else
      var first := Step(s, ops[0]);
      var rest := Run(first.after, ops[1..]);
      Stepped(rest.after, first.events + rest.events)
  }

  /** An operation the task may perform in state `s` without misusing the
      counter: no exit outside every section, and no nesting deep enough to
      wrap the counter. */
  predicate Admissible(s: NpState, op: Op)
  {
    match op
    case EnterOp => s.ctr < CTR_LIMIT - 1
    case ExitOp => s.ctr > 0
    case KernelRequestOp => true
  }

  /** Every operation of `ops` is admissible in the state it is performed in. */
  predicate WellNested(s: NpState, ops: seq<Op>)
    decreases |ops|
  {
    ops == [] || (Admissible(s, ops[0]) && WellNested(Step(s, ops[0]).after, ops[1..]))
  }

  function Repeat(op: Op, n: nat): (ops: seq<Op>)
    ensures |ops| == n && forall i :: 0 <= i < n ==> ops[i] == op
  {
    if n == 0 then [] else [op] + Repeat(op, n - 1)
  }

  /** Running two op sequences one after the other is running their
      concatenation. */
  lemma {:induction false} RunAppend(s: NpState, a: seq<Op>, b: seq<Op>)
    ensures var ra := Run(s, a); var rb := Run(ra.after, b);
      Run(s, a + b) == Stepped(rb.after, ra.events + rb.events)
    decreases |a|
  {
    if a == [] {
      assert a + b == b;
    } else {
      assert (a + b)[0] == a[0];
      assert (a + b)[1..] == a[1..] + b;
      RunAppend(Step(s, a[0]).after, a[1..], b);
    }
  }

  /** The invariant holds after every well-nested run. */
  lemma {:induction false} RunKeepsConsistent(s: NpState, ops: seq<Op>)
    requires Consistent(s) && WellNested(s, ops)
    ensures Consistent(Run(s, ops).after)
    decreases |ops|
  {
    if ops != [] {
      RunKeepsConsistent(Step(s, ops[0]).after, ops[1..]);
    }
  }

  /** The invariant holds at every point of a well-nested run from any
      consistent state (the initial one included), wherever the kernel may
      look at the flag. */
  lemma {:induction false} ConsistentThroughout(s: NpState, ops: seq<Op>, k: nat)
    requires Consistent(s) && WellNested(s, ops) && k <= |ops|
    ensures Consistent(Run(s, ops[..k]).after)
    decreases k
  {
    if k > 0 {
      assert ops[..k][0] == ops[0];
      assert ops[..k][1..] == ops[1..][..k - 1];
      ConsistentThroughout(Step(s, ops[0]).after, ops[1..], k - 1);
    }
  }

  /** Entering `n` nested sections: only the first entry does anything beyond
      counting. */
  lemma {:induction false} NestedEnters(s: NpState, n: nat)
    requires s.ctr + n < CTR_LIMIT
    ensures Run(s, Repeat(EnterOp, n)) ==
      if n > 0 && s.ctr == 0 then Stepped(NpState(RT_NON_PREEMPTIVE, 0, n), [BecameNonPreemptive])
      else Stepped(s.(ctr := s.ctr + n), [])
    decreases n
  {
    if n > 0 {
      var first := Enter(s);
      NestedEnters(first.after, n - 1);
    }
  }

  /** Leaving `n` nested sections: only the exit that reaches zero does
      anything beyond counting, and it signals iff a request is pending. */
  lemma {:induction false} NestedExits(s: NpState, n: nat)
    requires n <= s.ctr
    ensures Run(s, Repeat(ExitOp, n)) ==
      if n > 0 && n == s.ctr then
        Stepped(s.(ctr := 0, preemptivity := RT_PREEMPTIVE),
                [BecamePreemptive] + (if s.request == RT_EXIT_NP_REQUESTED then [ExitNpSignalled] else []))
      else Stepped(s.(ctr := s.ctr - n), [])
    decreases n
  {
    if n > 0 {
      var first := Exit(s);
      NestedExits(first.after, n - 1);
    }
  }

  /** A balanced `enter^n; exit^n` outside any section makes exactly one
      transition in and one out, sends no notification (even when a request
      from an earlier section is still in the flag), and ends in the initial
      state. */
  lemma BalancedSection(s: NpState, n: nat)
    requires Consistent(s) && s.ctr == 0 && 0 < n < CTR_LIMIT
    ensures Run(s, Repeat(EnterOp, n) + Repeat(ExitOp, n)) ==
      Stepped(INIT_STATE, [BecameNonPreemptive, BecamePreemptive])
  {
    RunAppend(s, Repeat(EnterOp, n), Repeat(ExitOp, n));
    NestedEnters(s, n);
    NestedExits(NpState(RT_NON_PREEMPTIVE, 0, n), n);
  }

  /** A request the kernel makes at any depth, followed only by the exits
      that close the section, is not lost: the last exit notifies the kernel
      exactly once.  RequestNeverLost covers arbitrary work in between. */
  lemma DeferredExitSignalled(s: NpState)
    requires Consistent(s) && s.ctr > 0
    ensures Run(s, [KernelRequestOp] + Repeat(ExitOp, s.ctr)) ==
      Stepped(NpState(RT_PREEMPTIVE, RT_EXIT_NP_REQUESTED, 0), [BecamePreemptive, ExitNpSignalled])
  {
    var requested := KernelRequestExit(s);
    NestedExits(requested, s.ctr);
    RunAppend(s, [KernelRequestOp], Repeat(ExitOp, s.ctr));
  }

  /** Every step of `ops` from `s` leaves the task inside a section. */
  predicate StaysInside(s: NpState, ops: seq<Op>)
    decreases |ops|
  {
    ops == [] || (Step(s, ops[0]).after.ctr > 0 && StaysInside(Step(s, ops[0]).after, ops[1..]))
  }

  /** Inside a section a pending request survives any nesting, unnesting and
      further requests, and nothing is signalled before the section ends. */
  lemma {:induction false} RequestPersistsInside(s: NpState, ops: seq<Op>)
    requires Consistent(s) && s.ctr > 0 && s.request == RT_EXIT_NP_REQUESTED
    requires WellNested(s, ops) && StaysInside(s, ops)
    ensures var r := Run(s, ops);
      && Consistent(r.after) && r.after.ctr > 0
      && r.after.request == RT_EXIT_NP_REQUESTED
      && r.events == []
    decreases |ops|
  {
    if ops != [] {
      RequestPersistsInside(Step(s, ops[0]).after, ops[1..]);
    }
  }

  /** A requested preemption is never dropped: whatever the task does inside
      the section after the kernel's request (nested entries, exits, further
      requests), the exit that leaves the section becomes preemptive and
      notifies the kernel exactly once. */
  lemma RequestNeverLost(s: NpState, ops: seq<Op>)
    requires Consistent(s) && s.ctr > 0
    requires WellNested(KernelRequestExit(s), ops) && StaysInside(KernelRequestExit(s), ops)
    requires Run(KernelRequestExit(s), ops).after.ctr == 1
    ensures Run(s, [KernelRequestOp] + ops + [ExitOp]) ==
      Stepped(NpState(RT_PREEMPTIVE, RT_EXIT_NP_REQUESTED, 0), [BecamePreemptive, ExitNpSignalled])
  {
    var requested := KernelRequestExit(s);
    RequestPersistsInside(requested, ops);
    RunAppend(requested, ops, [ExitOp]);
    assert [KernelRequestOp] + ops + [ExitOp] == [KernelRequestOp] + (ops + [ExitOp]);
    RunAppend(s, [KernelRequestOp], ops + [ExitOp]);
  }

  /** A section of depth `n` during which the kernel asks to preempt causes
      one transition in, one out, and one notification; the next balanced
      section starts from a cleared request and sends none. */
  lemma RequestedSectionThenQuietSection(s: NpState, n: nat, m: nat)
    requires Consistent(s) && s.ctr == 0 && 0 < n < CTR_LIMIT && 0 < m < CTR_LIMIT
    ensures var first := Run(s, Repeat(EnterOp, n) + [KernelRequestOp] + Repeat(ExitOp, n));
      && first == Stepped(NpState(RT_PREEMPTIVE, RT_EXIT_NP_REQUESTED, 0),
                          [BecameNonPreemptive, BecamePreemptive, ExitNpSignalled])
      && Run(first.after, Repeat(EnterOp, m) + Repeat(ExitOp, m)) ==
           Stepped(INIT_STATE, [BecameNonPreemptive, BecamePreemptive])
  {
    var entered := NpState(RT_NON_PREEMPTIVE, 0, n);
    NestedEnters(s, n);
    RunAppend(s, Repeat(EnterOp, n), [KernelRequestOp] + Repeat(ExitOp, n));
    DeferredExitSignalled(entered);
    assert Repeat(EnterOp, n) + [KernelRequestOp] + Repeat(ExitOp, n)
        == Repeat(EnterOp, n) + ([KernelRequestOp] + Repeat(ExitOp, n));
    BalancedSection(NpState(RT_PREEMPTIVE, RT_EXIT_NP_REQUESTED, 0), m);
  }

  /** An exit outside every section wraps the unsigned counter to its largest
      value while the task stays preemptive: the invariant is lost. */
  lemma UnmatchedExitBreaksInvariant(s: NpState)
    requires Consistent(s) && s.ctr == 0
    ensures Exit(s).after.ctr == CTR_LIMIT - 1 && !Consistent(Exit(s).after)
  {
  }

  /** The process-wide flag structure registered with the kernel. */
  class NpFlag {
    var preemptivity: U16
    var request: U16
    var ctr: U32
    /** The kernel-visible events so far: transitions of the preemptivity word
        and `signal_exit_np` calls. */
    ghost var log: seq<NpEvent>

    function State(): NpState
      reads this
    {
      NpState(preemptivity, request, ctr)
    }

    /** The zero-initialised static structure, before initialisation. */
    constructor ()
      ensures State() == NpState(0, 0, 0) && log == []
    {
      preemptivity, request, ctr := 0, 0, 0;
      log := [];
    }

    /** The flag part of `init_litmus`: preemptive, outside every section. */
    method InitLitmus()
      modifies this
      ensures State() == old(State()).(preemptivity := RT_PREEMPTIVE, ctr := 0)
      ensures log == old(log)
      ensures old(request) == 0 ==> State() == INIT_STATE && Consistent(State())
    {
      preemptivity := RT_PREEMPTIVE;
      ctr := 0;
    }

    /** The `signal_exit_np` kernel call, seen only through the log. */
    method SignalExitNp()
      modifies this`log
      ensures log == old(log) + [ExitNpSignalled]
    {
      log := log + [ExitNpSignalled];
    }

    /** `enter_np`.  The memory barrier between clearing the request and
        setting the preemptivity word orders the two writes; here the
        statements are simply sequential. */
    method EnterNp()
      modifies this
      ensures var step := Enter(old(State()));
        State() == step.after && log == old(log) + step.events
    {
      ctr := if ctr == CTR_LIMIT - 1 then 0 else ctr + 1;
      if ctr == 1 {
        request := 0;
        preemptivity := RT_NON_PREEMPTIVE;
        log := log + [BecameNonPreemptive];
      }
    }

    /** `exit_np`. */
    method ExitNp()
      modifies this
      ensures var step := Exit(old(State()));
        State() == step.after && log == old(log) + step.events
    {
      ctr := if ctr == 0 then CTR_LIMIT - 1 else ctr - 1;
      if ctr == 0 {
        preemptivity := RT_PREEMPTIVE;
        log := log + [BecamePreemptive];
        if request == RT_EXIT_NP_REQUESTED {
          SignalExitNp();
        }
      }
    }

    /** The kernel, as an environment step, asking the task to leave its
        section. */
    method KernelRequestsExit()
      modifies this
      ensures State() == KernelRequestExit(old(State())) && log == old(log)
    {
      if ctr > 0 {
        request := RT_EXIT_NP_REQUESTED;
      }
    }
  }
}
