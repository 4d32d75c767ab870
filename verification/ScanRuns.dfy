/** The scans of module ScanScheduler over whole runs of passes, register writes and resets. */
module ScanRuns {
  import opened Arithmetic
  import opened Options
  import opened ScanScheduler

  /** A pass of the loop, a register write that begins the control scan anew, or a reset of both scans,
      each at its true time. */
  datatype Act = PassAct(time: nat) | RestartAct(time: nat) | ResetAct(time: nat)

  function Do(c: Config, s: Scan, act: Act): Pass {
    match act
    case PassAct(t) => LoopPass(c, s, t % WRAP)
    case RestartAct(t) => Pass(RestartControl(s, t % WRAP), None, false)
    case ResetAct(_) => Pass(RESET, None, false)
  }

  datatype Entry = Entry(act: Act, pass: Pass)

  /** The state after the acts, and what each did. */
  function After(c: Config, s: Scan, acts: seq<Act>): Scan
    decreases |acts|
  {
    if acts == [] then s
    else
      var n := |acts| - 1;
      Do(c, After(c, s, acts[..n]), acts[n]).scan
  }

  function Log(c: Config, s: Scan, acts: seq<Act>): (log: seq<Entry>)
    ensures |log| == |acts|
    decreases |acts|
  {
    if acts == [] then []
    else
      var n := |acts| - 1;
      Log(c, s, acts[..n]) + [Entry(acts[n], Do(c, After(c, s, acts[..n]), acts[n]))]
  }

  predicate IsMonitor(e: Entry) {
    e.pass.read.Some? && e.pass.read.value.MonitorRead?
  }

  predicate IsControl(e: Entry) {
    e.pass.read.Some? && e.pass.read.value.ControlRead?
  }

  /** The monitor reads since the last reset. */
  function Monitors(log: seq<Entry>): nat {
    if log == [] then 0
    else
      var e := log[|log| - 1];
      if e.act.ResetAct? then 0 else Monitors(log[..|log| - 1]) + (if IsMonitor(e) then 1 else 0)
  }

  /** The control reads since the last reset or register write. */
  function Controls(log: seq<Entry>): nat {
    if log == [] then 0
    else
      var e := log[|log| - 1];
      if !e.act.PassAct? then 0 else Controls(log[..|log| - 1]) + (if IsControl(e) then 1 else 0)
  }

  lemma LogPrefix(c: Config, s: Scan, acts: seq<Act>, k: nat)
    requires k < |acts|
    ensures Log(c, s, acts)[..k] == Log(c, s, acts[..k])
    ensures Log(c, s, acts)[k] == Entry(acts[k], Do(c, After(c, s, acts[..k]), acts[k]))
    decreases |acts|
  {
    hide Do;
    var n := |acts| - 1;
    if k < n {
      LogPrefix(c, s, acts[..n], k);
      assert acts[..n][..k] == acts[..k];
    }
  }

  // ----- Complete and in order -----

  /** The index after `i` in a table of `m` entries that is gone through again and again. */
  function Next(i: nat, m: nat): nat {
    if i + 1 >= m then 0 else i + 1
  }

  /** The index of the k-th read of such a table. */
  function Cycle(k: nat, m: nat): (i: nat)
    requires m > 0
    ensures i < m
  {
    if k == 0 then 0 else Next(Cycle(k - 1, m), m)
  }

  lemma {:induction false} CycleIsRemainder(k: nat, m: nat) returns (q: nat)
    requires m > 0
    ensures k == q * m + Cycle(k, m) && Cycle(k, m) == k % m
  {
    if k == 0 {
      q := 0;
    } else {
      q := CycleIsRemainder(k - 1, m);
      if Cycle(k, m) == 0 {
        assert k == (q + 1) * m;
        q := q + 1;
      }
    }
    RemainderUnique(k, q, Cycle(k, m), m);
  }

  lemma RemainderUnique(n: nat, q: nat, r: nat, m: nat)
    requires r < m && n == q * m + r
    ensures n % m == r
  {
    var q', r' := n / m, n % m;
    assert n == m * q' + r';
    if q < q' {
      MulMonotone(q + 1, q', m);
    } else if q' < q {
      MulMonotone(q' + 1, q, m);
    }
  }

  /** The index stands where the reads so far have brought it; at the end of the table the next scan
      has not begun. */
  predicate Counted(index: nat, count: nat, m: nat)
    requires m > 0
  {
    index <= m && Cycle(count, m) == if index == m then 0 else index
  }

  lemma PassCounts(c: Config, s: Scan, now: nat, monitors: nat, controls: nat)
    requires c.Valid()
    requires Counted(s.monitorIndex, monitors, c.monitorCount) && Counted(s.controlIndex, controls, c.controlCount)
    ensures var pass := LoopPass(c, s, now);
      && (pass.read == None ==>
            && Counted(pass.scan.monitorIndex, monitors, c.monitorCount)
            && Counted(pass.scan.controlIndex, controls, c.controlCount))
      && (pass.read.Some? && pass.read.value.MonitorRead? ==>
            && pass.read.value.index == Cycle(monitors, c.monitorCount)
            && Counted(pass.scan.monitorIndex, monitors + 1, c.monitorCount)
            && Counted(pass.scan.controlIndex, controls, c.controlCount))
      && (pass.read.Some? && pass.read.value.ControlRead? ==>
            && pass.read.value.index == Cycle(controls, c.controlCount) && Cycle(monitors, c.monitorCount) == 0
            && Counted(pass.scan.monitorIndex, monitors, c.monitorCount)
            && Counted(pass.scan.controlIndex, controls + 1, c.controlCount))
  {
    hide Elapsed, Later;
  }

  /** The numbers of reads after an act. */
  function MonitorsThen(act: Act, pass: Pass, monitors: nat): nat {
    if act.ResetAct? then 0 else if pass.read.Some? && pass.read.value.MonitorRead? then monitors + 1 else monitors
  }

  function ControlsThen(act: Act, pass: Pass, controls: nat): nat {
    if !act.PassAct? then 0 else if pass.read.Some? && pass.read.value.ControlRead? then controls + 1 else controls
  }

  lemma ActCounts(c: Config, s: Scan, act: Act, monitors: nat, controls: nat)
    requires c.Valid()
    requires Counted(s.monitorIndex, monitors, c.monitorCount) && Counted(s.controlIndex, controls, c.controlCount)
    ensures var pass := Do(c, s, act);
      && Counted(pass.scan.monitorIndex, MonitorsThen(act, pass, monitors), c.monitorCount)
      && Counted(pass.scan.controlIndex, ControlsThen(act, pass, controls), c.controlCount)
  {
    hide LoopPass, Counted;
    NothingRead(c);
    if act.PassAct? {
      PassCounts(c, s, act.time % WRAP, monitors, controls);
    }
  }

  lemma {:induction false} RunCounts(c: Config, acts: seq<Act>)
    requires c.Valid()
    ensures var s, log := After(c, RESET, acts), Log(c, RESET, acts);
      Counted(s.monitorIndex, Monitors(log), c.monitorCount) && Counted(s.controlIndex, Controls(log), c.controlCount)
    decreases |acts|
  {
    hide Do, Counted;
    if acts == [] {
      NothingRead(c);
    } else {
      var n := |acts| - 1;
      RunCounts(c, acts[..n]);
      var log := Log(c, RESET, acts);
      assert log[..n] == Log(c, RESET, acts[..n]);
      ActCounts(c, After(c, RESET, acts[..n]), acts[n], Monitors(log[..n]), Controls(log[..n]));
    }
  }

  lemma NothingRead(c: Config)
    requires c.Valid()
    ensures Counted(0, 0, c.monitorCount) && Counted(0, 0, c.controlCount)
  {}

  /** In any run of passes, register writes and resets, whatever their times: the k-th monitor read since
      the last reset is of entry k modulo the table size, and so is the k-th control read since the last
      reset or register write, so every scan reads each entry once and in order and an interrupted control
      scan goes on where it stopped; and control registers are read only between monitor scans. */
  lemma ScansAreComplete(c: Config, acts: seq<Act>, k: nat)
    requires c.Valid() && k < |acts|
    ensures var log := Log(c, RESET, acts);
      match log[k].pass.read
      case None => true
      case Some(MonitorRead(i)) => i == Monitors(log[..k]) % c.monitorCount
      case Some(ControlRead(i)) => i == Controls(log[..k]) % c.controlCount && Monitors(log[..k]) % c.monitorCount == 0
  {
    hide LoopPass, Counted;
    var log := Log(c, RESET, acts);
    LogPrefix(c, RESET, acts, k);
    RunCounts(c, acts[..k]);
    if acts[k].PassAct? {
      PassCounts(c, After(c, RESET, acts[..k]), acts[k].time % WRAP, Monitors(log[..k]), Controls(log[..k]));
    }
    var _ := CycleIsRemainder(Monitors(log[..k]), c.monitorCount);
    var _ := CycleIsRemainder(Controls(log[..k]), c.controlCount);
  }

  // ----- Spacing -----

  predicate Ascending(acts: seq<Act>) {
    forall i, j :: 0 <= i < j < |acts| ==> acts[i].time <= acts[j].time
  }

  /** The time of the last monitor, and of the last control read. */
  function LastMonitor(log: seq<Entry>): Option<nat> {
    if log == [] then None
    else if IsMonitor(log[|log| - 1]) then Some(log[|log| - 1].act.time)
    else LastMonitor(log[..|log| - 1])
  }

  function LastControl(log: seq<Entry>): Option<nat> {
    if log == [] then None
    else if IsControl(log[|log| - 1]) then Some(log[|log| - 1].act.time)
    else LastControl(log[..|log| - 1])
  }

  /** `next` is the spacing later than some time between `from` and `now`. */
  ghost predicate Waits(c: Config, next: nat, from: nat, now: nat) {
    exists base :: from <= base <= now && next == Later(base % WRAP, c.spacing)
  }

  /** While a scan is under way its next read waits. */
  ghost predicate Spaced(c: Config, s: Scan, monitor: Option<nat>, control: Option<nat>, now: nat) {
    && (0 < s.monitorIndex < c.monitorCount ==> monitor.Some? && Waits(c, s.nextMonitor, monitor.value, now))
    && (0 < s.controlIndex < c.controlCount ==> control.Some? && Waits(c, s.nextControl, control.value, now))
  }

  lemma LaterIs(t: nat, delay: nat)
    ensures Later(t % WRAP, delay) == (t + delay) % WRAP
  {
    ModShift(t % WRAP + delay, t / WRAP);
    assert t + delay == t % WRAP + delay + t / WRAP * WRAP;
  }

  lemma WaitingHolds(c: Config, next: nat, from: nat, now: nat, v: nat)
    requires c.spacing <= HALF && Waits(c, next, from, now) && now <= v && Elapsed(v % WRAP, next)
    ensures from + c.spacing <= v
  {
    hide Elapsed, Later;
    var base :| from <= base <= now && next == Later(base % WRAP, c.spacing);
    LaterIs(base, c.spacing);
    if v < base + c.spacing {
      ElapsedNear(v, base + c.spacing);
    }
  }

  lemma WaitsLonger(c: Config, next: nat, from: nat, now: nat, v: nat)
    requires Waits(c, next, from, now) && now <= v
    ensures Waits(c, next, from, v)
  {
    hide Later;
  }

  lemma WaitsFromNow(c: Config, from: nat, v: nat)
    requires from <= v
    ensures Waits(c, Later(v % WRAP, c.spacing), from, v)
  {
    hide Later;
  }

  /** One pass: a read that continues a scan comes no sooner than the spacing, and the next one waits. */
  lemma PassSpaces(c: Config, s: Scan, monitor: Option<nat>, control: Option<nat>, now: nat, v: nat)
    requires c.Valid() && c.spacing <= HALF && now <= v
    requires Spaced(c, s, monitor, control, now)
    requires control.Some? ==> control.value <= now
    ensures var pass := LoopPass(c, s, v % WRAP);
      && (pass.read.Some? && pass.read.value.MonitorRead? && pass.read.value.index > 0 ==>
            monitor.Some? && monitor.value + c.spacing <= v)
      && (pass.read.Some? && pass.read.value.ControlRead? && pass.read.value.index > 0 ==>
            control.Some? && control.value + c.spacing <= v)
      && Spaced(c, pass.scan,
                if pass.read.Some? && pass.read.value.MonitorRead? then Some(v) else monitor,
                if pass.read.Some? && pass.read.value.ControlRead? then Some(v) else control, v)
  {
    hide Elapsed, Later, Waits;
    WaitsFromNow(c, v, v);
    if control.Some? {
      WaitsFromNow(c, control.value, v);
    }
    if 0 < s.monitorIndex < c.monitorCount {
      WaitsLonger(c, s.nextMonitor, monitor.value, now, v);
      if Elapsed(v % WRAP, s.nextMonitor) {
        WaitingHolds(c, s.nextMonitor, monitor.value, now, v);
      }
    }
    if 0 < s.controlIndex < c.controlCount {
      WaitsLonger(c, s.nextControl, control.value, now, v);
      if Elapsed(v % WRAP, s.nextControl) {
        WaitingHolds(c, s.nextControl, control.value, now, v);
      }
    }
  }

  lemma ActSpaces(c: Config, s: Scan, monitor: Option<nat>, control: Option<nat>, now: nat, act: Act)
    requires c.Valid() && c.spacing <= HALF && now <= act.time
    requires Spaced(c, s, monitor, control, now)
    requires control.Some? ==> control.value <= now
    ensures var pass := Do(c, s, act);
      Spaced(c, pass.scan,
             if pass.read.Some? && pass.read.value.MonitorRead? then Some(act.time) else monitor,
             if pass.read.Some? && pass.read.value.ControlRead? then Some(act.time) else control, act.time)
  {
    hide LoopPass, Waits;
    if act.PassAct? {
      PassSpaces(c, s, monitor, control, now, act.time);
    } else if 0 < s.monitorIndex < c.monitorCount {
      WaitsLonger(c, s.nextMonitor, monitor.value, now, act.time);
    }
  }

  lemma {:induction false} RunSpaces(c: Config, acts: seq<Act>)
    requires c.Valid() && c.spacing <= HALF && Ascending(acts)
    ensures var s, log := After(c, RESET, acts), Log(c, RESET, acts);
      var now := if acts == [] then 0 else acts[|acts| - 1].time;
      && Spaced(c, s, LastMonitor(log), LastControl(log), now)
      && (LastControl(log).Some? ==> LastControl(log).value <= now)
    decreases |acts|
  {
    hide Do, Spaced;
    if acts == [] {
      NothingWaits(c);
    } else {
      var n := |acts| - 1;
      RunSpaces(c, acts[..n]);
      var log := Log(c, RESET, acts);
      assert log[..n] == Log(c, RESET, acts[..n]);
      var now := if n == 0 then 0 else acts[n - 1].time;
      ActSpaces(c, After(c, RESET, acts[..n]), LastMonitor(log[..n]), LastControl(log[..n]), now, acts[n]);
    }
  }

  lemma NothingWaits(c: Config)
    ensures Spaced(c, RESET, None, None, 0)
  {}

  /** Two consecutive reads of one scan are at least the spacing apart in true time, however often the
      clock wraps in between, when the spacing is at most 2^31 ms. */
  lemma ReadsAreSpaced(c: Config, acts: seq<Act>, k: nat)
    requires c.Valid() && c.spacing <= HALF && Ascending(acts) && k < |acts|
    ensures var log := Log(c, RESET, acts);
      match log[k].pass.read
      case None => true
      case Some(MonitorRead(i)) =>
        i > 0 ==> LastMonitor(log[..k]).Some? && LastMonitor(log[..k]).value + c.spacing <= acts[k].time
      case Some(ControlRead(i)) =>
        i > 0 ==> LastControl(log[..k]).Some? && LastControl(log[..k]).value + c.spacing <= acts[k].time
  {
    hide LoopPass, Spaced;
    var log := Log(c, RESET, acts);
    LogPrefix(c, RESET, acts, k);
    RunSpaces(c, acts[..k]);
    var now := if k == 0 then 0 else acts[k - 1].time;
    if acts[k].PassAct? {
      PassSpaces(c, After(c, RESET, acts[..k]), LastMonitor(log[..k]), LastControl(log[..k]), now, acts[k].time);
    }
  }
}
