/** When the scans of module ScanRuns read: neither too early nor, in a pass that comes in time, too late. */
module ScanTimes {
  import opened Options
  import opened ScanScheduler
  import opened ScanRuns

  /** Delays the 32-bit clock can tell from the past. */
  predicate WithinClock(c: Config) {
    c.Valid() && c.spacing <= HALF && c.monitorInterval <= HALF && c.controlInterval <= HALF
  }

  /** When a control register may be read that only waits for its turn: at once after a register write,
      the spacing later after a read. */
  function Ready(c: Config, log: seq<Entry>): nat {
    if log == [] then 0
    else
      var e := log[|log| - 1];
      if e.act.RestartAct? then e.act.time
      else if e.pass.read.Some? then e.act.time + c.spacing
      else Ready(c, log[..|log| - 1])
  }

  /** What matters of the acts so far. */
  datatype Past = Past(monitors: nat, lastMonitor: Option<nat>, controls: nat, lastControl: Option<nat>, ready: nat)

  function PastOf(c: Config, log: seq<Entry>): Past {
    Past(Monitors(log), LastMonitor(log), Controls(log), LastControl(log), Ready(c, log))
  }

  function Then(c: Config, p: Past, act: Act, pass: Pass): Past {
    var isMonitor := pass.read.Some? && pass.read.value.MonitorRead?;
    var isControl := pass.read.Some? && pass.read.value.ControlRead?;
    Past(MonitorsThen(act, pass, p.monitors),
         if isMonitor then Some(act.time) else p.lastMonitor,
         ControlsThen(act, pass, p.controls),
         if isControl then Some(act.time) else p.lastControl,
         if act.RestartAct? then act.time else if isMonitor || isControl then act.time + c.spacing else p.ready)
  }

  lemma PastThen(c: Config, log: seq<Entry>)
    requires log != [] && (log[|log| - 1].pass.read.Some? ==> log[|log| - 1].act.PassAct?)
    ensures var n := |log| - 1; PastOf(c, log) == Then(c, PastOf(c, log[..n]), log[n].act, log[n].pass)
  {}

  /** The delay has passed at `now`, or its end is zero on the 32-bit clock. */
  predicate Rested(last: nat, interval: nat, now: nat) {
    last + interval <= now || (last + interval) % WRAP == 0
  }

  function MonitorDelay(c: Config, finished: bool): nat {
    if finished then c.monitorInterval else c.spacing
  }

  predicate MonitorOnTime(c: Config, s: Scan, p: Past, now: nat) {
    if s.monitorIndex == 0 then p.monitors == 0 && s.nextMonitor == 0
    else
      && s.monitorIndex <= c.monitorCount && p.monitors > 0 && p.lastMonitor.Some? && p.lastMonitor.value <= now
      && s.nextMonitor == (p.lastMonitor.value + MonitorDelay(c, s.monitorIndex == c.monitorCount)) % WRAP
  }

  predicate ControlOnTime(c: Config, s: Scan, p: Past, now: nat) {
    if s.controlIndex == c.controlCount then
      && p.lastControl.Some? && p.lastControl.value <= now
      && s.nextControl == (p.lastControl.value + c.controlInterval) % WRAP
    else
      && s.controlIndex < c.controlCount
      && (s.monitorIndex == c.monitorCount ==> s.nextControl == p.ready % WRAP && p.ready <= now + c.spacing)
      && (s.controlIndex == 0 && p.controls > 0 ==>
            p.lastControl.Some? && Rested(p.lastControl.value, c.controlInterval, now))
  }

  predicate OnTime(c: Config, s: Scan, p: Past, now: nat) {
    MonitorOnTime(c, s, p, now) && ControlOnTime(c, s, p, now)
  }

  /** A delay from `last` on, compared on the 32-bit clock. */
  lemma DelayIs(last: nat, delay: nat, v: nat)
    requires delay <= HALF && last <= v
    ensures var target := (last + delay) % WRAP;
      && (Elapsed(v % WRAP, target) ==> last + delay <= v)
      && (last + delay <= v < last + delay + HALF ==> Elapsed(v % WRAP, target))
  {
    if v < last + delay + HALF {
      ElapsedNear(v, last + delay);
    }
  }

  lemma NowHasElapsed(v: nat)
    ensures Elapsed(v % WRAP, v % WRAP)
  {}

  lemma ZeroTime(v: nat)
    ensures Elapsed(v % WRAP, 0) <==> v % WRAP < HALF
  {}

  /** The monitor scan in one pass. */
  lemma MonitorPass(c: Config, s: Scan, p: Past, now: nat, v: nat)
    requires WithinClock(c) && now <= v && MonitorOnTime(c, s, p, now)
    ensures var pass := LoopPass(c, s, v % WRAP);
      var isMonitor := pass.read.Some? && pass.read.value.MonitorRead?;
      && MonitorOnTime(c, pass.scan, Then(c, p, PassAct(v), pass), v)
      && (p.monitors == 0 ==> (isMonitor <==> v % WRAP < HALF))
      && (p.monitors > 0 ==>
            var due := p.lastMonitor.value + MonitorDelay(c, s.monitorIndex == c.monitorCount);
            var atOnce := s.monitorIndex == c.monitorCount && due % WRAP == 0;
            && (isMonitor ==> due <= v || atOnce)
            && (due <= v < due + HALF || atOnce ==> isMonitor))
  {
    hide Elapsed;
    NowHasElapsed(v);
    ZeroTime(v);
    LaterIs(v, c.spacing);
    LaterIs(v, c.monitorInterval);
    hide Later;
    if p.monitors > 0 {
      DelayIs(p.lastMonitor.value, MonitorDelay(c, s.monitorIndex == c.monitorCount), v);
    }
  }

  /** The control scan in one pass: it begins when it is due, and a pending one goes on when the monitor
      scan leaves it room. */
  lemma ControlPass(c: Config, s: Scan, p: Past, now: nat, v: nat)
    requires WithinClock(c) && now <= v && OnTime(c, s, p, now)
    ensures var pass := LoopPass(c, s, v % WRAP);
      var isControl := pass.read.Some? && pass.read.value.ControlRead?;
      && ControlOnTime(c, pass.scan, Then(c, p, PassAct(v), pass), v)
      && (isControl && pass.read.value.index == 0 && p.controls > 0 ==>
            p.lastControl.Some? && Rested(p.lastControl.value, c.controlInterval, v))
      && (s.controlIndex == c.controlCount ==>
            var due := p.lastControl.value + c.controlInterval;
            var begun := isControl || pass.scan.controlIndex < c.controlCount;
            && (begun ==> due <= v || due % WRAP == 0)
            && (due <= v < due + HALF || due % WRAP == 0 ==> begun)
            && (begun && pass.scan.monitorIndex == c.monitorCount ==> pass.read.Some?))
      && (s.controlIndex < c.controlCount && s.monitorIndex == c.monitorCount && !pass.monitorStarts ==>
            && (isControl ==> p.ready <= v)
            && (p.ready <= v < p.ready + HALF ==> isControl))
  {
    hide Elapsed;
    NowHasElapsed(v);
    LaterIs(v, c.spacing);
    LaterIs(v, c.controlInterval);
    hide Later;
    if s.controlIndex == c.controlCount {
      DelayIs(p.lastControl.value, c.controlInterval, v);
    } else if s.monitorIndex == c.monitorCount {
      ReadyIs(p.ready, v);
    }
  }

  lemma ReadyIs(ready: nat, v: nat)
    requires ready <= v + HALF
    ensures Elapsed(v % WRAP, ready % WRAP) ==> ready <= v
    ensures ready <= v < ready + HALF ==> Elapsed(v % WRAP, ready % WRAP)
  {
    if v < ready + HALF {
      ElapsedNear(v, ready);
    }
  }

  lemma ActOnTime(c: Config, s: Scan, p: Past, now: nat, act: Act)
    requires WithinClock(c) && now <= act.time && OnTime(c, s, p, now)
    ensures var pass := Do(c, s, act);
      OnTime(c, pass.scan, Then(c, p, act, pass), act.time) && (pass.read.Some? ==> act.PassAct?)
  {
    hide LoopPass;
    if act.PassAct? {
      hide MonitorOnTime, ControlOnTime;
      MonitorPass(c, s, p, now, act.time);
      ControlPass(c, s, p, now, act.time);
    }
  }

  lemma {:induction false} RunOnTime(c: Config, acts: seq<Act>)
    requires WithinClock(c) && Ascending(acts)
    ensures OnTime(c, After(c, RESET, acts), PastOf(c, Log(c, RESET, acts)), NowAfter(acts))
    decreases |acts|
  {
    hide Do, OnTime, PastOf;
    if acts == [] {
      StartsOnTime(c);
    } else {
      var n := |acts| - 1;
      RunOnTime(c, acts[..n]);
      var s, log := After(c, RESET, acts[..n]), Log(c, RESET, acts);
      assert log[..n] == Log(c, RESET, acts[..n]);
      ActOnTime(c, s, PastOf(c, log[..n]), NowAfter(acts[..n]), acts[n]);
      PastThen(c, log);
    }
  }

  function NowAfter(acts: seq<Act>): nat {
    if acts == [] then 0 else acts[|acts| - 1].time
  }

  lemma StartsOnTime(c: Config)
    requires c.Valid()
    ensures OnTime(c, RESET, PastOf(c, []), 0)
  {}

  /** In any run of passes, register writes and resets in true time, however often the clock wraps: a monitor
      register is read in the first pass in which the spacing, or behind a finished scan the interval, has
      passed since the last, and in no earlier one. The exception is an interval that ends at zero on the
      32-bit clock, which counts as passed at once; and after a reset the clock has to be in its lower half. */
  lemma MonitorReadsOnTime(c: Config, acts: seq<Act>, k: nat)
    requires WithinClock(c) && Ascending(acts) && k < |acts| && acts[k].PassAct?
    ensures var log, v := Log(c, RESET, acts), acts[k].time;
      var n, last := Monitors(log[..k]), LastMonitor(log[..k]);
      if n == 0 then IsMonitor(log[k]) <==> v % WRAP < HALF
      else
        && last.Some?
        && var finished := n % c.monitorCount == 0;
        var due := last.value + if finished then c.monitorInterval else c.spacing;
        var atOnce := finished && due % WRAP == 0;
        && (IsMonitor(log[k]) ==> due <= v || atOnce)
        && (due <= v < due + HALF || atOnce ==> IsMonitor(log[k]))
  {
    hide LoopPass, ControlOnTime, Counted, Cycle;
    var s, log := After(c, RESET, acts[..k]), Log(c, RESET, acts);
    LogPrefix(c, RESET, acts, k);
    RunOnTime(c, acts[..k]);
    RunCounts(c, acts[..k]);
    FinishedIs(s.monitorIndex, Monitors(log[..k]), c.monitorCount);
    MonitorPass(c, s, PastOf(c, log[..k]), NowAfter(acts[..k]), acts[k].time);
  }

  /** A scan that has read is finished when the number of its reads is a multiple of the table size. */
  lemma FinishedIs(index: nat, count: nat, m: nat)
    requires m > 0 && Counted(index, count, m)
    ensures index > 0 ==> (index == m <==> count % m == 0)
  {
    hide Cycle;
    var _ := CycleIsRemainder(count, m);
  }

  /** A finished control scan begins again in the first pass in which the interval has passed since its last
      read, or the interval ends at zero on the clock, and in no earlier one; the first register is read in
      that pass unless a monitor scan is under way. A pending control scan goes on between monitor scans in
      the first pass in which the spacing has passed since the last read of either kind, at once behind a
      register write. So between two control scans there is always the interval or that zero. */
  lemma ControlReadsOnTime(c: Config, acts: seq<Act>, k: nat)
    requires WithinClock(c) && Ascending(acts) && k < |acts| && acts[k].PassAct?
    ensures var s, log, v := After(c, RESET, acts[..k]), Log(c, RESET, acts), acts[k].time;
      var last, ready, pass := LastControl(log[..k]), Ready(c, log[..k]), log[k].pass;
      && (pass.read == Some(ControlRead(0)) && Controls(log[..k]) > 0 ==>
            last.Some? && (last.value + c.controlInterval <= v || (last.value + c.controlInterval) % WRAP == 0))
      && (s.controlIndex == c.controlCount ==>
            && last.Some?
            && var due := last.value + c.controlInterval;
            var begun := IsControl(log[k]) || pass.scan.controlIndex < c.controlCount;
            && (begun ==> due <= v || due % WRAP == 0)
            && (due <= v < due + HALF || due % WRAP == 0 ==> begun)
            && (begun && pass.scan.monitorIndex == c.monitorCount ==> IsControl(log[k]) || IsMonitor(log[k])))
      && (s.controlIndex < c.controlCount && s.monitorIndex == c.monitorCount && !pass.monitorStarts ==>
            && (IsControl(log[k]) ==> ready <= v)
            && (ready <= v < ready + HALF ==> IsControl(log[k])))
  {
    hide LoopPass, MonitorOnTime;
    var s, log := After(c, RESET, acts[..k]), Log(c, RESET, acts);
    LogPrefix(c, RESET, acts, k);
    RunOnTime(c, acts[..k]);
    ControlPass(c, s, PastOf(c, log[..k]), NowAfter(acts[..k]), acts[k].time);
  }
}
