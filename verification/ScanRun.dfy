/** Whole scans: one hand-over at a time, every channel once a pass, and a guaranteed end. */
module ScanRun {
  import opened SiteSurvey

  function Channels(cfg: Config): (r: seq<nat>) {
    cfg.channels[..Terminator(cfg.channels)]
  }

  /** Armed timer and queued commands together. */
  function Outstanding(s: Scan): (r: nat) {
    (if s.timer then 1 else 0) + s.queued
  }

  /** One survey command has been queued and no scan is on. */
  predicate Ready(s: Scan) {
    s.state == ScanDisable && !s.timer && s.queued == 1 && s.reports == 0
  }

  /** The null frame that announces the absence has been sent. */
  predicate Announcing(s: Scan) {
    s.state == ScanTxNull && Outstanding(s) == 1 && s.channelIdx == 0 && s.passes == [[]] && s.reports == 0
  }

  /** At most two passes, a second one only after the antenna has been switched, and all but the last complete. */
  ghost predicate PassesOk(cfg: Config, s: Scan) {
    && 1 <= |s.passes| <= 2 && (|s.passes| == 2 ==> s.noLink && s.passes[0] == Channels(cfg))
  }

  function Current(s: Scan): (r: seq<nat>)
    requires s.passes != []
  {
    s.passes[|s.passes| - 1]
  }

  ghost predicate Scanning(cfg: Config, s: Scan) {
    && s.state == ScanProcess && Outstanding(s) == 1 && s.reports == 0 && PassesOk(cfg, s)
    && |Current(s)| <= Terminator(cfg.channels) && Current(s) == cfg.channels[..|Current(s)|]
    && s.channelIdx == if s.timer then |Current(s)| - 1 else |Current(s)|
  }

  /** The scan is over: one or two complete passes, transmission resumed, one report, nothing outstanding. */
  ghost predicate Over(cfg: Config, s: Scan) {
    && s.state == ScanDisable && Outstanding(s) == 0 && s.txPause == 0 && s.reports == 1
    && 1 <= |s.passes| <= 2 && forall p :: p in s.passes ==> p == Channels(cfg)
  }

  ghost predicate Inv(cfg: Config, s: Scan) {
    Ready(s) || Announcing(s) || Scanning(cfg, s) || Over(cfg, s)
  }

  /** The timer fires and gets no memory for its command. */
  predicate Fails(s: Scan, e: Event) {
    e == Fire(false) && s.timer
  }

  /** The rest of the scan as a number: antenna switches left, then channels left, then the hand-over. */
  ghost function Left(cfg: Config, s: Scan): (r: nat)
    requires Inv(cfg, s)
  {
    var t := Terminator(cfg.channels);
    var switches := if s.noLink then 0 else 2 * t + 2;
    if Ready(s) then switches + 2 * t + 3
    else if Announcing(s) then switches + 2 * t + (if s.timer then 2 else 1)
    else if Scanning(cfg, s) then switches + 2 * (t - |Current(s)|) + (if s.timer then 2 else 1)
    else 0
  }

  /** site_survey with nothing outstanding, at the channel after those of the current pass. */
  ghost predicate AtChannel(cfg: Config, s: Scan) {
    && s.state == ScanProcess && Outstanding(s) == 0 && s.reports == 0 && PassesOk(cfg, s)
    && |Current(s)| <= Terminator(cfg.channels) && Current(s) == cfg.channels[..|Current(s)|]
    && s.channelIdx == |Current(s)|
  }

  lemma SurveyKeeps(cfg: Config, s: Scan, linked: bool)
    requires ValidConfig(cfg) && AtChannel(cfg, s)
    ensures Scanning(cfg, Survey(cfg, s, linked)) || Over(cfg, Survey(cfg, s, linked))
    ensures Inv(cfg, s.(queued := 1))
    ensures Left(cfg, Survey(cfg, s, linked)) < Left(cfg, s.(queued := 1))
  {
    var k, t, after := |Current(s)|, Terminator(cfg.channels), Survey(cfg, s, linked);
    assert Scanning(cfg, s.(queued := 1));
    if k < t {
      assert cfg.channels[..k + 1] == cfg.channels[..k] + [cfg.channels[k]];
      assert Current(after) == cfg.channels[..k + 1];
    }
  }

  lemma FireKeeps(cfg: Config, s: Scan)
    requires Inv(cfg, s) && s.timer
    ensures var n := Step(cfg, s, Fire(true));
      Inv(cfg, n) && Left(cfg, n) < Left(cfg, s)
  {
  }

  lemma FirstExecKeeps(cfg: Config, s: Scan, associated: bool, linked: bool)
    requires ValidConfig(cfg) && Ready(s) && s.queued > 0
    ensures var n := Step(cfg, s, Exec(associated, linked));
      Inv(cfg, n) && Left(cfg, n) < Left(cfg, s)
  {
    if !associated {
      SurveyKeeps(cfg, s.(queued := 0, state := ScanProcess, channelIdx := 0, passes := [[]]), linked);
    }
  }

  lemma LaterExecKeeps(cfg: Config, s: Scan, associated: bool, linked: bool)
    requires ValidConfig(cfg) && (Announcing(s) || Scanning(cfg, s)) && s.queued > 0
    ensures var n := Step(cfg, s, Exec(associated, linked));
      Inv(cfg, n) && Left(cfg, n) < Left(cfg, s)
  {
    var t := s.(queued := 0, state := ScanProcess);
    assert AtChannel(cfg, t) && Step(cfg, s, Exec(associated, linked)) == Survey(cfg, t, linked);
    SurveyKeeps(cfg, t, linked);
  }

  lemma ExecKeeps(cfg: Config, s: Scan, associated: bool, linked: bool)
    requires ValidConfig(cfg) && Inv(cfg, s) && s.queued > 0
    ensures var n := Step(cfg, s, Exec(associated, linked));
      Inv(cfg, n) && Left(cfg, n) < Left(cfg, s)
  {
    if Ready(s) {
      FirstExecKeeps(cfg, s, associated, linked);
    } else {
      LaterExecKeeps(cfg, s, associated, linked);
    }
  }

  lemma StepKeeps(cfg: Config, s: Scan, e: Event)
    requires ValidConfig(cfg) && Inv(cfg, s) && !Fails(s, e)
    ensures Inv(cfg, Step(cfg, s, e))
    ensures if Enabled(s, e) then Left(cfg, Step(cfg, s, e)) < Left(cfg, s) else Step(cfg, s, e) == s
  {
    if Enabled(s, e) {
      match e
      case Fire(_) => FireKeeps(cfg, s);
      case Exec(associated, linked) => ExecKeeps(cfg, s, associated, linked);
    }
  }

  function Run(cfg: Config, s: Scan, es: seq<Event>): (r: Scan) {
    if es == [] then s else Step(cfg, Run(cfg, s, es[..|es| - 1]), es[|es| - 1])
  }

  /** How many events of the run were enabled when they came. */
  function Effective(cfg: Config, s: Scan, es: seq<Event>): (r: nat) {
    if es == [] then 0
    else
      var n := |es| - 1;
      Effective(cfg, s, es[..n]) + (if Enabled(Run(cfg, s, es[..n]), es[n]) then 1 else 0)
  }

  /** No allocation of the timer fails in the run. */
  predicate Smooth(cfg: Config, s: Scan, es: seq<Event>) {
    es == [] || (Smooth(cfg, s, es[..|es| - 1]) && !Fails(Run(cfg, s, es[..|es| - 1]), es[|es| - 1]))
  }

  lemma {:induction false} RunKeeps(cfg: Config, s: Scan, es: seq<Event>)
    requires ValidConfig(cfg) && Inv(cfg, s) && Smooth(cfg, s, es)
    ensures Inv(cfg, Run(cfg, s, es)) && Effective(cfg, s, es) + Left(cfg, Run(cfg, s, es)) <= Left(cfg, s)
  {
    if es != [] {
      var n := |es| - 1;
      RunKeeps(cfg, s, es[..n]);
      StepKeeps(cfg, Run(cfg, s, es[..n]), es[n]);
    }
  }

  /**
   In whatever order timer and command come, and whatever they are told of the link: at most one of them is
   outstanding; none is exactly when the scan is over, after every channel before the terminator was
   visited once a pass in order; and it is over once as many as 4 * channels + 5 events have taken effect.
   */
  lemma ScanIsComplete(cfg: Config, s: Scan, es: seq<Event>)
    requires ValidConfig(cfg) && Ready(s) && Smooth(cfg, s, es)
    ensures var r := Run(cfg, s, es);
      && Outstanding(r) <= 1 && (Outstanding(r) == 0 <==> Over(cfg, r))
      && r.reports == (if Over(cfg, r) then 1 else 0)
      && Effective(cfg, s, es) <= 4 * Terminator(cfg.channels) + 5
      && (Effective(cfg, s, es) == 4 * Terminator(cfg.channels) + 5 ==> Over(cfg, r))
  {
    RunKeeps(cfg, s, es);
  }

  /** A scan that is not over can always go on. */
  lemma ScanProgresses(cfg: Config, s: Scan)
    requires Inv(cfg, s) && !Over(cfg, s)
    ensures exists e :: !Fails(s, e) && Enabled(s, e)
  {
    assert if s.timer then Enabled(s, Fire(true)) else Enabled(s, Exec(false, false));
  }

  lemma RunSnoc(cfg: Config, s: Scan, es: seq<Event>, e: Event)
    ensures Run(cfg, s, es + [e]) == Step(cfg, Run(cfg, s, es), e)
  {
    assert (es + [e])[..|es|] == es;
  }

  lemma {:induction false} RunConcat(cfg: Config, s: Scan, a: seq<Event>, b: seq<Event>)
    ensures Run(cfg, s, a + b) == Run(cfg, Run(cfg, s, a), b)
  {
    if b == [] {
      assert a + b == a;
    } else {
      var n := |b| - 1;
      assert a + b == (a + b[..n]) + [b[n]];
      RunConcat(cfg, s, a, b[..n]);
      RunSnoc(cfg, s, a + b[..n], b[n]);
    }
  }

  /** A scan on which no allocation has failed can always be brought to its end. */
  lemma {:induction false} CanFinish(cfg: Config, s: Scan) returns (es: seq<Event>)
    requires ValidConfig(cfg) && Inv(cfg, s)
    ensures Over(cfg, Run(cfg, s, es))
    decreases Left(cfg, s)
  {
    if Over(cfg, s) {
      es := [];
    } else {
      var e := if s.timer then Fire(true) else Exec(false, false);
      StepKeeps(cfg, s, e);
      var rest := CanFinish(cfg, Step(cfg, s, e));
      es := [e] + rest;
      assert Run(cfg, s, []) == s;
      RunSnoc(cfg, s, [], e);
      assert [] + [e] == [e];
      RunConcat(cfg, s, [e], rest);
    }
  }

  /** Nothing is outstanding and the scan is not over: no event does anything. */
  predicate Stuck(s: Scan) {
    Outstanding(s) == 0 && s.state != ScanDisable
  }

  lemma {:induction false} StuckForGood(cfg: Config, s: Scan, es: seq<Event>)
    requires Stuck(s)
    ensures Run(cfg, s, es) == s
  {
    if es != [] {
      StuckForGood(cfg, s, es[..|es| - 1]);
    }
  }

  /** One failed allocation in the timer stops a scan for good: it is never over, and no event changes it. */
  lemma FailedAllocationStalls(cfg: Config, s: Scan, es: seq<Event>)
    requires (Announcing(s) || Scanning(cfg, s)) && s.timer
    ensures var stuck := Step(cfg, s, Fire(false));
      Run(cfg, stuck, es) == stuck && Stuck(stuck)
  {
    StuckForGood(cfg, Step(cfg, s, Fire(false)), es);
  }

  /** A run with a failed allocation ends stuck; any other run ends within the invariant. */
  lemma {:induction false} SmoothOrStuck(cfg: Config, s: Scan, es: seq<Event>)
    requires ValidConfig(cfg) && Inv(cfg, s)
    ensures if Smooth(cfg, s, es) then Inv(cfg, Run(cfg, s, es)) else Stuck(Run(cfg, s, es))
  {
    if es != [] {
      var n := |es| - 1;
      SmoothOrStuck(cfg, s, es[..n]);
      var before := Run(cfg, s, es[..n]);
      if Smooth(cfg, s, es) {
        StepKeeps(cfg, before, es[n]);
      } else if !Smooth(cfg, s, es[..n]) {
        StuckForGood(cfg, before, [es[n]]);
        RunSnoc(cfg, before, [], es[n]);
        assert [] + [es[n]] == [es[n]] && Run(cfg, before, []) == before;
      }
    }
  }

  ghost predicate CanBeOver(cfg: Config, s: Scan) {
    exists es :: Over(cfg, Run(cfg, s, es))
  }

  /** After any run of a scan its end can still be reached if and only if no allocation of the timer has failed. */
  lemma EndReachableIff(cfg: Config, s: Scan, es: seq<Event>)
    requires ValidConfig(cfg) && Ready(s)
    ensures CanBeOver(cfg, Run(cfg, s, es)) <==> Smooth(cfg, s, es)
  {
    SmoothOrStuck(cfg, s, es);
    var r := Run(cfg, s, es);
    if Smooth(cfg, s, es) {
      var rest := CanFinish(cfg, r);
    } else {
      forall rest ensures !Over(cfg, Run(cfg, r, rest)) {
        StuckForGood(cfg, r, rest);
      }
    }
  }
}
