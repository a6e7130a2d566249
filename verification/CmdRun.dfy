/** Every interleaving: no wakeup is lost, no command is lost, duplicated or reordered, and the thread gets to the end of its work. */
module CmdRun {
  import opened CmdQueue

  /** If the thread sleeps, the semaphore and the producers about to raise it cover the queue. */
  predicate NoLostWakeup(s: State) {
    s.pc == AtDown ==> |s.queue| <= s.sema + s.pending
  }

  /** The commands dequeued, then those freed, then those queued are the accepted ones, in the order they were inserted. */
  predicate Conserved(s: State) {
    s.taken + s.freed + s.queue == s.accepted
  }

  /** Those of the commands whose code is looked up in the table. */
  function Known(cfg: Config, cmds: seq<Cmd>): (r: seq<Cmd>) {
    if cmds == [] then []
    else
      var n := |cmds| - 1;
      Known(cfg, cmds[..n]) + (if cmds[n].code <= cfg.tableSize then [cmds[n]] else [])
  }

  lemma KnownSnoc(cfg: Config, cmds: seq<Cmd>, c: Cmd)
    ensures Known(cfg, cmds + [c]) == if c.code <= cfg.tableSize then Known(cfg, cmds) + [c] else Known(cfg, cmds)
  {
    assert (cmds + [c])[..|cmds|] == cmds;
  }

  lemma {:induction false} KnownIff(cfg: Config, cmds: seq<Cmd>)
    ensures |Known(cfg, cmds)| <= |cmds|
    ensures Known(cfg, cmds) == cmds <==> forall c :: c in cmds ==> c.code <= cfg.tableSize
  {
    if cmds != [] {
      var n := |cmds| - 1;
      KnownIff(cfg, cmds[..n]);
      assert cmds == cmds[..n] + [cmds[n]];
    }
  }

  /** The dequeued commands that the thread is done with. */
  function Done(s: State): (r: seq<Cmd>) {
    if s.pc.Handling? && s.taken != [] then s.taken[..|s.taken| - 1] else s.taken
  }

  /** The command in the handler, if there is one. */
  function InHandler(s: State): (r: seq<Cmd>) {
    if s.pc.Handling? then [s.pc.cmd] else []
  }

  predicate InLoop(s: State) {
    s.pc == AtDown || s.pc == AtNext || s.pc.Handling?
  }

  /** What the two counters count, and when commands are freed. */
  predicate Counted(cfg: Config, s: State) {
    && s.issued == |s.taken|
    && s.taken == Done(s) + InHandler(s) && s.handled == Known(cfg, Done(s)) && s.seqNo == |s.handled|
    && (InLoop(s) ==> s.freed == []) && (s.terminated <==> s.pc == Exited)
  }

  predicate Inv(cfg: Config, s: State) {
    NoLostWakeup(s) && Conserved(s) && Counted(cfg, s)
  }

  lemma StepKeepsConserved(cfg: Config, s: State, e: Event)
    requires Conserved(s) && (InLoop(s) ==> s.freed == [])
    ensures Conserved(Step(cfg, s, e))
  {
    if s.queue != [] {
      assert [s.queue[0]] + s.queue[1..] == s.queue;
    }
  }

  lemma DispatchKeepsCounted(cfg: Config, s: State)
    requires Counted(cfg, s) && s.pc == AtNext
    ensures Counted(cfg, Dispatched(s))
  {
    if !s.stopped && s.queue != [] {
      var r := Dispatched(s);
      assert Done(r) == s.taken;
    }
  }

  lemma FinishKeepsCounted(cfg: Config, s: State)
    requires Counted(cfg, s) && s.pc.Handling?
    ensures Counted(cfg, Finished(cfg, s))
  {
    KnownSnoc(cfg, Done(s), s.pc.cmd);
    assert Done(Finished(cfg, s)) == Done(s) + [s.pc.cmd];
  }

  lemma StepKeepsCounted(cfg: Config, s: State, e: Event)
    requires Counted(cfg, s)
    ensures Counted(cfg, Step(cfg, s, e))
  {
    if Enabled(s, e) {
      match e
      case Next => DispatchKeepsCounted(cfg, s);
      case Finish => FinishKeepsCounted(cfg, s);
      case _ => assert Done(Step(cfg, s, e)) == Done(s) && InHandler(Step(cfg, s, e)) == InHandler(s);
    }
  }

  lemma StepKeeps(cfg: Config, s: State, e: Event)
    requires Inv(cfg, s)
    ensures Inv(cfg, Step(cfg, s, e))
  {
    StepKeepsConserved(cfg, s, e);
    StepKeepsCounted(cfg, s, e);
  }

  function Run(cfg: Config, es: seq<Event>): (r: State) {
    if es == [] then START else Step(cfg, Run(cfg, es[..|es| - 1]), es[|es| - 1])
  }

  lemma {:induction false} RunKeeps(cfg: Config, es: seq<Event>)
    ensures Inv(cfg, Run(cfg, es))
  {
    if es != [] {
      RunKeeps(cfg, es[..|es| - 1]);
      StepKeeps(cfg, Run(cfg, es[..|es| - 1]), es[|es| - 1]);
    }
  }

  /**
   handled ++ freed ++ queued is what was accepted, but for the command in the handler, if and only if
   every command the thread is done with had a code in the table: the others are neither handled nor freed.
   */
  lemma HandledIff(cfg: Config, es: seq<Event>)
    ensures var s := Run(cfg, es);
      s.handled + InHandler(s) + s.freed + s.queue == s.accepted <==> forall c :: c in Done(s) ==> c.code <= cfg.tableSize
  {
    RunKeeps(cfg, es);
    HandledOf(cfg, Run(cfg, es));
  }

  lemma HandledOf(cfg: Config, s: State)
    requires Conserved(s) && s.taken == Done(s) + InHandler(s) && s.handled == Known(cfg, Done(s))
    ensures s.handled + InHandler(s) + s.freed + s.queue == s.accepted <==> forall c :: c in Done(s) ==> c.code <= cfg.tableSize
  {
    var rest := InHandler(s) + s.freed + s.queue;
    KnownIff(cfg, Done(s));
    SplicesIff(s.handled, Done(s), rest);
    assert s.handled + rest == s.handled + InHandler(s) + s.freed + s.queue;
    assert Done(s) + rest == (Done(s) + InHandler(s)) + s.freed + s.queue;
  }

  lemma SplicesIff(a: seq<Cmd>, b: seq<Cmd>, rest: seq<Cmd>)
    ensures a + rest == b + rest <==> a == b
  {
    if a + rest == b + rest {
      assert |a + rest| == |b + rest|;
      assert (a + rest)[..|a|] == a && (b + rest)[..|b|] == b;
    }
  }

  /** A step of the thread or of a producer that has inserted; an interrupt of the sleep is not one. */
  predicate Internal(e: Event) {
    e == Up || e == Down || e == Next || e == Finish || e == Drain
  }

  function PcWork(pc: Pc): (r: nat) {
    match pc
    case Exited => 0
    case Draining => 1
    case AtDown => 2
    case AtNext => 3
    case Handling(_) => 4
  }

  /** Bounds the steps left when nothing new is inserted. */
  function Work(s: State): (r: nat) {
    3 * s.pending + 2 * s.sema + 2 * |s.queue| + PcWork(s.pc)
  }

  lemma InternalStepsWork(cfg: Config, s: State, e: Event)
    requires Internal(e) && Enabled(s, e)
    ensures Work(Step(cfg, s, e)) < Work(s)
  {
  }

  ghost predicate Quiet(s: State) {
    forall e: Event :: Internal(e) ==> !Enabled(s, e)
  }

  /**
   When nothing can move, either the thread sleeps with no command left behind and every accepted one
   dequeued, or it has ended; in the latter case what is queued was inserted after it had ended.
   */
  lemma QuietMeansDone(cfg: Config, es: seq<Event>)
    requires Quiet(Run(cfg, es))
    ensures var s := Run(cfg, es);
      (s.pc == AtDown && s.queue == [] && s.taken == s.accepted) || s.pc == Exited
  {
    RunKeeps(cfg, es);
    var s := Run(cfg, es);
    assert !Enabled(s, Up) && !Enabled(s, Down) && !Enabled(s, Next) && !Enabled(s, Finish) && !Enabled(s, Drain);
    assert s.taken + [] + [] == s.taken;
  }

  /** Run the enabled internal steps, in a fixed order, until there are none. */
  function Settle(cfg: Config, s: State): (r: State)
    decreases Work(s)
  {
    if Enabled(s, Up) then
      InternalStepsWork(cfg, s, Up);
      Settle(cfg, Step(cfg, s, Up))
    else if Enabled(s, Next) then
      InternalStepsWork(cfg, s, Next);
      Settle(cfg, Step(cfg, s, Next))
    else if Enabled(s, Finish) then
      InternalStepsWork(cfg, s, Finish);
      Settle(cfg, Step(cfg, s, Finish))
    else if Enabled(s, Down) then
      InternalStepsWork(cfg, s, Down);
      Settle(cfg, Step(cfg, s, Down))
    else if Enabled(s, Drain) then
      InternalStepsWork(cfg, s, Drain);
      Settle(cfg, Step(cfg, s, Drain))
    else s
  }

  /** While the driver is not stopped, the thread left alone dequeues everything that was ever accepted, in order. */
  lemma {:induction false} SettleTakesAll(cfg: Config, s: State)
    requires Inv(cfg, s) && InLoop(s) && !s.stopped
    ensures var t := Settle(cfg, s);
      t.pc == AtDown && t.queue == [] && t.taken == s.accepted && t.freed == []
    decreases Work(s)
  {
    if Enabled(s, Up) {
      SettleStep(cfg, s, Up);
    } else if Enabled(s, Next) {
      SettleStep(cfg, s, Next);
    } else if Enabled(s, Finish) {
      SettleStep(cfg, s, Finish);
    } else if Enabled(s, Down) {
      SettleStep(cfg, s, Down);
    } else {
      assert s.taken + [] + [] == s.taken;
    }
  }

  lemma {:induction false} SettleStep(cfg: Config, s: State, e: Event)
    requires Inv(cfg, s) && InLoop(s) && !s.stopped && Internal(e) && Enabled(s, e)
    ensures var t := Settle(cfg, Step(cfg, s, e));
      t.pc == AtDown && t.queue == [] && t.taken == s.accepted && t.freed == []
    decreases Work(s), 0
  {
    InternalStepsWork(cfg, s, e);
    StepKeeps(cfg, s, e);
    SettleTakesAll(cfg, Step(cfg, s, e));
  }

  /** The driver has been stopped, and the thread is awake or about to be woken. */
  predicate Stopping(s: State) {
    s.stopped && (s.pc == AtDown ==> s.sema + s.pending > 0) && (s.pc == Exited ==> s.queue == [])
  }

  /** Once the driver is stopped, a thread that is awake or will be woken ends, and every accepted command was dequeued or freed. */
  lemma {:induction false} SettleStops(cfg: Config, s: State)
    requires Inv(cfg, s) && Stopping(s)
    ensures var t := Settle(cfg, s);
      t.pc == Exited && t.terminated && t.queue == [] && t.taken + t.freed == s.accepted
    decreases Work(s)
  {
    if Enabled(s, Up) {
      StopStep(cfg, s, Up);
    } else if Enabled(s, Next) {
      StopStep(cfg, s, Next);
    } else if Enabled(s, Finish) {
      StopStep(cfg, s, Finish);
    } else if Enabled(s, Down) {
      StopStep(cfg, s, Down);
    } else if Enabled(s, Drain) {
      StopStep(cfg, s, Drain);
    } else {
      assert s.taken + s.freed + [] == s.taken + s.freed;
    }
  }

  lemma {:induction false} StopStep(cfg: Config, s: State, e: Event)
    requires Inv(cfg, s) && Stopping(s) && Internal(e) && Enabled(s, e)
    ensures var t := Settle(cfg, Step(cfg, s, e));
      t.pc == Exited && t.terminated && t.queue == [] && t.taken + t.freed == s.accepted
    decreases Work(s), 0
  {
    InternalStepsWork(cfg, s, e);
    StepKeeps(cfg, s, e);
    SettleStops(cfg, Step(cfg, s, e));
  }
}
