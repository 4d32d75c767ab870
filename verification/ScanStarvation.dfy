/** Whether the control registers get their turn between monitor scans (inverter/inverter.ino, lines
    1152-1182). */
module ScanStarvation {
  import opened Options
  import opened ScanScheduler
  import opened ScanRuns

  /** Just after the pass at true time `t` that has finished a monitor scan, a control scan pending. */
  predicate Finished(c: Config, s: Scan, t: nat) {
    && s.monitorIndex == c.monitorCount && s.controlIndex < c.controlCount
    && s.nextMonitor == (t + c.monitorInterval) % WRAP && s.nextControl == (t + c.spacing) % WRAP
  }

  /** Delays the 32-bit clock can tell from the past. */
  predicate Timed(c: Config) {
    c.Valid() && c.spacing < HALF && c.monitorInterval < HALF
  }

  /** The next monitor time computed at `t` is not zero, which to the firmware means "at once". */
  predicate Regular(c: Config, t: nat) {
    Timed(c) && (t + c.monitorInterval) % WRAP != 0
  }

  /** Pass times from `t` on, in order and no more than `gap` apart. */
  predicate Schedule(times: seq<nat>, t: nat, gap: nat)
    decreases |times|
  {
    times != [] ==> t <= times[0] <= t + gap && Schedule(times[1..], times[0], gap)
  }

  /** Going through the passes, a control register is read before the next monitor scan starts - or
      neither happens. */
  predicate Served(c: Config, s: Scan, times: seq<nat>)
    decreases |times|
  {
    times != [] ==>
      var pass := LoopPass(c, s, times[0] % WRAP);
      if pass.read.Some? && pass.read.value.ControlRead? then true
      else !pass.monitorStarts && Served(c, pass.scan, times[1..])
  }

  /** Before both targets nothing happens; at the monitor's target its scan starts; in between the
      control register is read. */
  lemma WaitingPass(c: Config, s: Scan, t: nat, v: nat)
    requires Regular(c, t) && Finished(c, s, t) && t <= v
    ensures var pass := LoopPass(c, s, v % WRAP);
      && (v < t + c.spacing && v < t + c.monitorInterval ==> pass == Pass(s, None, false))
      && (t + c.spacing <= v < t + c.monitorInterval ==>
            pass.read == Some(ControlRead(s.controlIndex)) && !pass.monitorStarts)
      && (t + c.monitorInterval <= v < t + c.monitorInterval + HALF ==>
            pass.monitorStarts && pass.read == Some(MonitorRead(0)))
  {
    hide Later;
    if v < t + c.monitorInterval + HALF {
      ElapsedNear(v, t + c.monitorInterval);
    }
    if v < t + c.spacing + HALF {
      ElapsedNear(v, t + c.spacing);
    }
    ElapsedNear(v, v);
  }

  lemma {:induction false} ServedWhileWaiting(c: Config, s: Scan, t: nat, u: nat, gap: nat, times: seq<nat>)
    requires Regular(c, t) && Finished(c, s, t)
    requires t <= u < t + c.spacing && Schedule(times, u, gap)
    requires c.spacing + gap <= c.monitorInterval
    ensures Served(c, s, times)
    decreases |times|
  {
    hide LoopPass, Regular, Finished;
    if times != [] {
      var v := times[0];
      RegularBounds(c, t);
      WaitingPass(c, s, t, v);
      if v < t + c.spacing {
        ServedWhileWaiting(c, s, t, v, gap, times[1..]);
      }
    }
  }

  lemma RegularBounds(c: Config, t: nat)
    requires Regular(c, t)
    ensures 0 < c.spacing < HALF && 0 < c.monitorInterval < HALF && c.monitorCount > 0
  {}

  /** Passes one millisecond apart, from `u` + 1 to `v`. */
  function EveryMillisecond(u: nat, v: nat): (times: seq<nat>)
    requires u <= v
    ensures |times| == v - u
    decreases v - u
  {
    if u == v then [] else [u + 1] + EveryMillisecond(u + 1, v)
  }

  lemma {:induction false} Quiet(c: Config, s: Scan, t: nat, u: nat, q: nat, gap: nat, last: nat)
    requires Regular(c, t) && Finished(c, s, t)
    requires t <= u <= q < t + c.spacing && q < t + c.monitorInterval && gap > 0
    requires q <= last <= q + gap && last == t + c.monitorInterval
    ensures var times := EveryMillisecond(u, q) + [last];
      Schedule(times, u, gap) && !Served(c, s, times)
    decreases q - u
  {
    hide LoopPass, Regular, Finished;
    RegularBounds(c, t);
    if u == q {
      WaitingPass(c, s, t, last);
      assert EveryMillisecond(u, q) + [last] == [last];
    } else {
      WaitingPass(c, s, t, u + 1);
      Quiet(c, s, t, u + 1, q, gap, last);
      assert (EveryMillisecond(u, q) + [last])[1..] == EveryMillisecond(u + 1, q) + [last];
    }
  }

  /** When the next monitor time happens to be zero, whichever pass comes next starts a monitor scan. */
  lemma ZeroStarves(c: Config, s: Scan, t: nat, times: seq<nat>)
    requires Timed(c) && Finished(c, s, t) && (t + c.monitorInterval) % WRAP == 0 && times != []
    ensures !Served(c, s, times)
  {
    hide Later;
  }

  /** A pending control register is sure to be read between two monitor scans, whatever the passes, if
      and only if the monitor interval is at least the register spacing plus the longest gap between
      two passes and the next monitor time is not zero on the 32-bit clock. */
  lemma NoStarvation(c: Config, s: Scan, t: nat, gap: nat)
    requires Timed(c) && Finished(c, s, t) && gap > 0
    ensures (forall times :: Schedule(times, t, gap) ==> Served(c, s, times)) <==>
      c.spacing + gap <= c.monitorInterval && (t + c.monitorInterval) % WRAP != 0
  {
    hide Finished, Served;
    if (t + c.monitorInterval) % WRAP == 0 {
      ZeroStarves(c, s, t, [t]);
      assert Schedule([t], t, gap);
    } else if c.spacing + gap <= c.monitorInterval {
      forall times | Schedule(times, t, gap) ensures Served(c, s, times) {
        ServedWhileWaiting(c, s, t, t, gap, times);
      }
    } else {
      var q := t + (if c.spacing < c.monitorInterval then c.spacing else c.monitorInterval) - 1;
      Quiet(c, s, t, t, q, gap, t + c.monitorInterval);
    }
  }

  /** With an interval no longer than the spacing it is never read: whichever pass comes first behind
      the waiting starts the next monitor scan. */
  lemma {:induction false} AlwaysStarved(c: Config, s: Scan, t: nat, u: nat, times: seq<nat>)
    requires Timed(c) && Finished(c, s, t) && c.monitorInterval <= c.spacing
    requires t <= u < t + c.monitorInterval && Schedule(times, u, HALF)
    requires times != [] && times[|times| - 1] >= t + c.monitorInterval
    ensures !Served(c, s, times)
    decreases |times|
  {
    hide LoopPass, Finished;
    if (t + c.monitorInterval) % WRAP == 0 {
      ZeroStarves(c, s, t, times);
    } else {
      var v := times[0];
      WaitingPass(c, s, t, v);
      if v < t + c.monitorInterval {
        AlwaysStarved(c, s, t, v, times[1..]);
      }
    }
  }

  // ----- How long a control scan takes -----

  /** A run with its clock: the time of the last pass, the time the last monitor scan finished, the
      monitor scans finished while the present control scan was pending, how many of them computed a next
      time of zero, and whether the last of them still owes a control read. */
  datatype Clocked = Clocked(s: Scan, now: nat, finish: nat, finished: nat, zeros: nat, owed: bool)

  /** A monitor scan finishes in this pass while a control scan is pending behind it. */
  predicate Finishes(c: Config, pass: Pass) {
    && pass.read.Some? && pass.read.value.MonitorRead?
    && pass.scan.monitorIndex == c.monitorCount && pass.scan.controlIndex < c.controlCount
  }

  function Tick(c: Config, k: Clocked, v: nat): Clocked {
    var pass := LoopPass(c, k.s, v % WRAP);
    var begins := k.s.controlIndex >= c.controlCount && ControlDue(c, k.s, v % WRAP);
    var finished, zeros := if begins then 0 else k.finished, if begins then 0 else k.zeros;
    var isControl := pass.read.Some? && pass.read.value.ControlRead?;
    if Finishes(c, pass) then
      var zero := (v + c.monitorInterval) % WRAP == 0;
      Clocked(pass.scan, v, v, finished + 1, if zero then zeros + 1 else zeros, !zero)
    else
      Clocked(pass.scan, v, k.finish, finished, zeros, k.owed && !isControl)
  }

  function Ticks(c: Config, k: Clocked, times: seq<nat>): Clocked
    decreases |times|
  {
    if times == [] then k else Ticks(c, Tick(c, k, times[0]), times[1..])
  }

  /** At most one finished monitor scan is not yet paid for by a control read, but for those that left
      no time for one. */
  predicate Paid(c: Config, k: Clocked) {
    && k.s.monitorIndex <= c.monitorCount && k.s.controlIndex <= c.controlCount
    && k.finished <= k.s.controlIndex + k.zeros + (if k.owed then 1 else 0)
    && (k.owed ==> Finished(c, k.s, k.finish) && Regular(c, k.finish) && k.finish <= k.now < k.finish + c.spacing)
  }

  lemma TickPays(c: Config, k: Clocked, v: nat, gap: nat)
    requires Timed(c) && c.spacing + gap <= c.monitorInterval
    requires Paid(c, k) && k.now <= v <= k.now + gap
    ensures Paid(c, Tick(c, k, v))
  {
    if k.owed {
      hide LoopPass, Finished, Regular;
      WaitingPass(c, k.s, k.finish, v);
      OwedPass(c, k, v);
    } else {
      hide Elapsed, Later;
      LaterIs(v, c.monitorInterval);
      LaterIs(v, c.spacing);
    }
  }

  lemma OwedPass(c: Config, k: Clocked, v: nat)
    requires c.Valid() && Paid(c, k) && k.owed && k.now <= v
    requires var pass := LoopPass(c, k.s, v % WRAP);
      (pass == Pass(k.s, None, false) && v < k.finish + c.spacing) ||
      (pass.read == Some(ControlRead(k.s.controlIndex)) && !pass.monitorStarts)
    ensures Paid(c, Tick(c, k, v))
  {
    hide Elapsed, Later;
  }

  lemma {:induction false} TicksPay(c: Config, k: Clocked, times: seq<nat>, gap: nat)
    requires Timed(c) && c.spacing + gap <= c.monitorInterval
    requires Paid(c, k) && Schedule(times, k.now, gap)
    ensures Paid(c, Ticks(c, k, times))
    decreases |times|
  {
    hide LoopPass, Paid, Tick, Finishes;
    if times != [] {
      TickPays(c, k, times[0], gap);
      TickTime(c, k, times[0]);
      TicksPay(c, Tick(c, k, times[0]), times[1..], gap);
    }
  }

  lemma TickTime(c: Config, k: Clocked, v: nat)
    ensures Tick(c, k, v).now == v
  {}

  /** From a reset on, with passes close enough: at most `controlCount` monitor scans finish during one
      control scan, not counting those whose computed next time was zero. */
  lemma ControlScanEndsInTime(c: Config, start: nat, times: seq<nat>, gap: nat)
    requires Timed(c) && c.spacing + gap <= c.monitorInterval && Schedule(times, start, gap)
    ensures var k := Ticks(c, Clocked(RESET, start, 0, 0, 0, false), times);
      k.finished <= c.controlCount + k.zeros && k.s == After(c, RESET, Passes(times))
  {
    hide LoopPass, Tick;
    var k := Clocked(RESET, start, 0, 0, 0, false);
    TicksPay(c, k, times, gap);
    TicksFollow(c, k, times);
    FinishedIsPending(c, Ticks(c, k, times));
  }

  lemma FinishedIsPending(c: Config, k: Clocked)
    requires Paid(c, k)
    ensures k.finished <= c.controlCount + k.zeros
  {}

  function Passes(times: seq<nat>): (acts: seq<Act>)
    ensures |acts| == |times|
  {
    seq(|times|, i requires 0 <= i < |times| => PassAct(times[i]))
  }

  lemma {:induction false} TicksFollow(c: Config, k: Clocked, times: seq<nat>)
    ensures Ticks(c, k, times).s == After(c, k.s, Passes(times))
    decreases |times|
  {
    hide LoopPass;
    if times != [] {
      TicksFollow(c, Tick(c, k, times[0]), times[1..]);
      AfterFirst(c, k.s, times);
    }
  }

  lemma {:induction false} AfterFirst(c: Config, s: Scan, times: seq<nat>)
    requires times != []
    ensures After(c, s, Passes(times)) == After(c, LoopPass(c, s, times[0] % WRAP).scan, Passes(times[1..]))
    decreases |times|
  {
    hide LoopPass;
    var n := |times| - 1;
    assert Passes(times)[..n] == Passes(times[..n]);
    if n > 0 {
      AfterFirst(c, s, times[..n]);
      assert times[..n][1..] == times[1..][..n - 1];
      assert Passes(times[1..])[..n - 1] == Passes(times[1..][..n - 1]);
    }
  }
}
