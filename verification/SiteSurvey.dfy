/** The channel scan: a command and a timer that hand the scan to each other until the channel set is done. */
module SiteSurvey {
  datatype ScanState = ScanDisable | ScanStart | ScanTxNull | ScanProcess | ScanComplete

  const SURVEY_TO: nat := 100

  /** The channel set up to and beyond its zero terminator, and whether the antennas can be switched. */
  datatype Config = Config(channels: seq<nat>, antDiv: bool)

  /** How many channels stand before the terminator. */
  function Terminator(channels: seq<nat>): (t: nat)
    ensures t <= |channels|
    ensures forall i :: 0 <= i < t ==> channels[i] != 0
    ensures t < |channels| ==> channels[t] == 0
  {
    if channels == [] || channels[0] == 0 then 0 else 1 + Terminator(channels[1..])
  }

  ghost predicate ValidConfig(cfg: Config) {
    Terminator(cfg.channels) < |cfg.channels|
  }

  /**
   The scan. `queued` counts the survey commands waiting in the command queue; `passes`, the channels
   visited in each pass, and `reports`, the survey-done reports, are its history.
   */
  datatype Scan = Scan(
    state: ScanState,
    channelIdx: int,
    scanTime: nat,
    timer: bool,
    queued: nat,
    txPause: bv8,
    noLink: bool,
    passes: seq<seq<nat>>,
    reports: nat)

  function Visited(passes: seq<seq<nat>>, channel: nat): (r: seq<seq<nat>>) {
    if passes == [] then [[channel]] else passes[..|passes| - 1] + [passes[|passes| - 1] + [channel]]
  }

  /** SwAntDivBeforeLink8192C: scan once more on the other antenna? */
  function AnotherAntenna(cfg: Config, s: Scan, linked: bool): (r: (bool, bool)) {
    if !cfg.antDiv then (false, s.noLink)
    else if linked then (false, false)
    else (!s.noLink, !s.noLink)
  }

  function Finished(s: Scan): (r: Scan) {
    s.(state := ScanDisable, txPause := 0, scanTime := SURVEY_TO, reports := s.reports + 1)
  }

  /** site_survey outside the P2P states, with a channel index inside the set. */
  function Survey(cfg: Config, s: Scan, linked: bool): (r: Scan) {
    if 0 <= s.channelIdx < |cfg.channels| && cfg.channels[s.channelIdx] != 0 then
      s.(txPause := s.txPause | 0x0f, timer := true, passes := Visited(s.passes, cfg.channels[s.channelIdx]))
    else
      var (again, noLink) := AnotherAntenna(cfg, s, linked);
      if again then
        s.(noLink := noLink, channelIdx := -1, scanTime := SURVEY_TO / 2, timer := true, passes := s.passes + [[]])
      else Finished(s.(noLink := noLink))
  }

  /** sitesurvey_cmd_hdl */
  function SurveyCmd(cfg: Config, s: Scan, associated: bool, linked: bool): (r: Scan) {
    if s.state == ScanDisable && associated then
      s.(state := ScanTxNull, channelIdx := 0, timer := true, passes := [[]])
    else if s.state == ScanDisable then
      Survey(cfg, s.(state := ScanProcess, channelIdx := 0, passes := [[]]), linked)
    else if s.state == ScanTxNull || s.state == ScanStart then Survey(cfg, s.(state := ScanProcess), linked)
    else Survey(cfg, s, linked)
  }

  /** survey_timer_hdl; `alloc` says whether both allocations succeed. */
  function SurveyTimer(s: Scan, alloc: bool): (r: Scan) {
    if s.state == ScanDisable || s.state == ScanStart then s
    else
      var t := if s.state == ScanProcess then s.(channelIdx := s.channelIdx + 1) else s;
      if alloc then t.(queued := t.queued + 1) else t
  }

  /** The armed timer fires, or the command thread takes a queued survey command. */
  datatype Event = Fire(alloc: bool) | Exec(associated: bool, linked: bool)

  predicate Enabled(s: Scan, e: Event) {
    match e
    case Fire(_) => s.timer
    case Exec(_, _) => s.queued > 0
  }

  function Step(cfg: Config, s: Scan, e: Event): (r: Scan) {
    if !Enabled(s, e) then s
    else
      match e
      case Fire(alloc) => SurveyTimer(s.(timer := false), alloc)
      case Exec(associated, linked) => SurveyCmd(cfg, s.(queued := s.queued - 1), associated, linked)
  }

  /** mlme_ext_priv and the dynamic-management state the scan uses. */
  class MlmeExt {
    const cfg: Config
    var state: ScanState
    var channelIdx: int
    var chanScanTime: nat
    var surveyTimer: bool
    var queued: nat
    var txPause: bv8
    var noLinkState: bool
    ghost var passes: seq<seq<nat>>
    ghost var reports: nat

    ghost function View(): (r: Scan)
      reads this
    {
      Scan(state, channelIdx, chanScanTime, surveyTimer, queued, txPause, noLinkState, passes, reports)
    }

    constructor (cfg: Config)
      ensures this.cfg == cfg && View() == Scan(ScanDisable, 0, SURVEY_TO, false, 0, 0, false, [], 0)
    {
      this.cfg := cfg;
      state, channelIdx, chanScanTime, surveyTimer, queued := ScanDisable, 0, SURVEY_TO, false, 0;
      txPause, noLinkState, passes, reports := 0, false, [], 0;
    }

    method SwAntDivBeforeLink(linked: bool) returns (again: bool)
      modifies this`noLinkState
      ensures (again, noLinkState) == AnotherAntenna(cfg, old(View()), linked)
    {
      if !cfg.antDiv {
        return false;
      }
      if linked {
        noLinkState := false;
        return false;
      }
      if !noLinkState {
        noLinkState := true;
        return true;
      }
      noLinkState := false;
      return false;
    }

    method SiteSurvey(linked: bool)
      requires 0 <= channelIdx < |cfg.channels|
      modifies this
      ensures View() == Survey(cfg, old(View()), linked)
    {
      var channel := cfg.channels[channelIdx];
      if channel != 0 {
        var val8 := txPause;
        val8 := val8 | 0x0f;
        txPause := val8;
        passes := Visited(passes, channel);
        surveyTimer := true;
      } else {
        var again := SwAntDivBeforeLink(linked);
        if again {
          channelIdx := -1;
          chanScanTime := SURVEY_TO / 2;
          surveyTimer := true;
          passes := passes + [[]];
          return;
        }
        state := ScanComplete;
        txPause := 0;
        reports := reports + 1;
        chanScanTime := SURVEY_TO;
        state := ScanDisable;
      }
    }

    /** The command thread takes one survey command off the queue and runs its handler. */
    method SiteSurveyCmd(associated: bool, linked: bool)
      requires queued > 0 && |cfg.channels| > 0
      requires state != ScanDisable ==> 0 <= channelIdx < |cfg.channels|
      modifies this
      ensures View() == Step(cfg, old(View()), Exec(associated, linked))
    {
      queued := queued - 1;
      if state == ScanDisable {
        state := ScanStart;
        channelIdx := 0;
        passes := [[]];
        if associated {
          state := ScanTxNull;
          surveyTimer := true;
          return;
        }
      }
      if state == ScanStart || state == ScanTxNull {
        state := ScanProcess;
      }
      ghost var t := View();
      assert Survey(cfg, t, linked) == Step(cfg, old(View()), Exec(associated, linked));
      SiteSurvey(linked);
    }

    method SurveyTimerHdl(alloc: bool)
      requires surveyTimer
      modifies this
      ensures View() == Step(cfg, old(View()), Fire(alloc))
    {
      surveyTimer := false;
      if state != ScanDisable && state != ScanStart {
        if state == ScanProcess {
          channelIdx := channelIdx + 1;
        }
        if !alloc {
          return;
        }
        queued := queued + 1;
      }
    }
  }
}
