/** The two register scans of the firmware's `loop` (inverter/inverter.ino, lines 361-363, 399-404,
    1140-1182). `millis()` is true time modulo 2^32; the theorems follow true time. */
module ScanScheduler {
  import opened Options

  const WRAP: nat := 0x1_0000_0000
  const HALF: nat := 0x8000_0000

  /** Table sizes and delays; the firmware accepts no delay of zero. */
  datatype Config = Config(
    monitorCount: nat, controlCount: nat,
    spacing: nat, monitorInterval: nat, controlInterval: nat)
  {
    predicate Valid() {
      && monitorCount > 0 && controlCount > 0
      && 0 < spacing < WRAP && 0 < monitorInterval < WRAP && 0 < controlInterval < WRAP
    }
  }

  datatype Scan = Scan(monitorIndex: nat, controlIndex: nat, nextMonitor: nat, nextControl: nat)

  datatype Read = MonitorRead(index: nat) | ControlRead(index: nat)

  /** What one pass of `loop` does: the new state, the register read, if any, and whether a monitor
      scan has been started. */
  datatype Pass = Pass(scan: Scan, read: Option<Read>, monitorStarts: bool)

  /** `timeHasElapsed`: the 32-bit difference, taken as signed, is not negative. */
  predicate Elapsed(now: nat, target: nat) {
    (now - target) % WRAP < HALF
  }

  function Later(now: nat, delay: nat): nat {
    (now + delay) % WRAP
  }

  predicate MonitorDue(c: Config, s: Scan, now: nat) {
    s.monitorIndex >= c.monitorCount && (s.nextMonitor == 0 || Elapsed(now, s.nextMonitor))
  }

  predicate ControlDue(c: Config, s: Scan, now: nat) {
    s.controlIndex >= c.controlCount && (s.nextControl == 0 || Elapsed(now, s.nextControl))
  }

  /** The scans that are due begin again. */
  function Begin(c: Config, s: Scan, now: nat): Scan {
    var s1 := if MonitorDue(c, s, now) then s.(monitorIndex := 0, nextMonitor := now) else s;
    if ControlDue(c, s, now) then s1.(controlIndex := 0, nextControl := now) else s1
  }

  function ReadMonitor(c: Config, s: Scan, now: nat): Scan {
    var s1 := s.(monitorIndex := s.monitorIndex + 1);
    if s1.monitorIndex < c.monitorCount then
      s1.(nextMonitor := Later(now, c.spacing))
    else
      s1.(nextMonitor := Later(now, c.monitorInterval),
          nextControl := if s.controlIndex < c.controlCount then Later(now, c.spacing) else s.nextControl)
  }

  function ReadControl(c: Config, s: Scan, now: nat): Scan {
    var s1 := s.(controlIndex := s.controlIndex + 1);
    s1.(nextControl := Later(now, if s1.controlIndex < c.controlCount then c.spacing else c.controlInterval))
  }

  function LoopPass(c: Config, s: Scan, now: nat): Pass {
    var s1 := Begin(c, s, now);
    if s1.monitorIndex < c.monitorCount && Elapsed(now, s1.nextMonitor) then
      Pass(ReadMonitor(c, s1, now), Some(MonitorRead(s1.monitorIndex)), MonitorDue(c, s, now))
    else if s1.monitorIndex >= c.monitorCount && s1.controlIndex < c.controlCount && Elapsed(now, s1.nextControl) then
      Pass(ReadControl(c, s1, now), Some(ControlRead(s1.controlIndex)), MonitorDue(c, s, now))
    else
      Pass(s1, None, MonitorDue(c, s, now))
  }

  /** After a register has been written: the control scan begins again. `now` is the clock as the command
      reads it, not the one of the pass it is handled in. */
  function RestartControl(s: Scan, now: nat): Scan {
    s.(controlIndex := 0, nextControl := now)
  }

  /** The state at boot and after `resetScanTime`. */
  const RESET: Scan := Scan(0, 0, 0, 0)

  class Firmware {
    const config: Config
    var monitorScanIndex: nat
    var controlScanIndex: nat
    var nextMonitorScanTime: nat
    var nextControlScanTime: nat
    var readLog: seq<Read>

    constructor (config: Config)
      ensures this.config == config && Abstract() == RESET && readLog == []
    {
      this.config := config;
      monitorScanIndex, controlScanIndex := 0, 0;
      nextMonitorScanTime, nextControlScanTime := 0, 0;
      readLog := [];
    }

    function Abstract(): Scan
      reads this
    {
      Scan(monitorScanIndex, controlScanIndex, nextMonitorScanTime, nextControlScanTime)
    }

    method ResetScanTime()
      modifies this
      ensures Abstract() == RESET && readLog == old(readLog)
    {
      nextControlScanTime := 0;
      nextMonitorScanTime := 0;
      controlScanIndex := 0;
      monitorScanIndex := 0;
    }

    method RestartControlScan(now: nat)
      modifies this`controlScanIndex, this`nextControlScanTime
      ensures Abstract() == RestartControl(old(Abstract()), now)
    {
      controlScanIndex := 0;
      nextControlScanTime := now;
    }

    method BeginDueScans(now: nat)
      modifies this`monitorScanIndex, this`controlScanIndex, this`nextMonitorScanTime, this`nextControlScanTime
      ensures Abstract() == Begin(config, old(Abstract()), now)
    {
      hide Elapsed;
      if monitorScanIndex >= config.monitorCount && (nextMonitorScanTime == 0 || Elapsed(now, nextMonitorScanTime)) {
        monitorScanIndex := 0;
        nextMonitorScanTime := now;
      }
      if controlScanIndex >= config.controlCount && (nextControlScanTime == 0 || Elapsed(now, nextControlScanTime)) {
        controlScanIndex := 0;
        nextControlScanTime := now;
      }
    }

    /** Every read finds its index inside its register table. */
    method Loop(now: nat)
      modifies this
      ensures var pass := LoopPass(config, old(Abstract()), now);
        && Abstract() == pass.scan
        && readLog == old(readLog) + (if pass.read.Some? then [pass.read.value] else [])
      ensures var pass := LoopPass(config, old(Abstract()), now);
        match pass.read
        case None => true
        case Some(MonitorRead(i)) => i < config.monitorCount
        case Some(ControlRead(i)) => i < config.controlCount
    {
      hide Elapsed, Later, Begin;
      BeginDueScans(now);
      if monitorScanIndex < config.monitorCount {
        if Elapsed(now, nextMonitorScanTime) {
          readLog := readLog + [MonitorRead(monitorScanIndex)];
          monitorScanIndex := monitorScanIndex + 1;
          if monitorScanIndex < config.monitorCount {
            nextMonitorScanTime := Later(now, config.spacing);
          } else {
            nextMonitorScanTime := Later(now, config.monitorInterval);
            if controlScanIndex < config.controlCount {
              nextControlScanTime := Later(now, config.spacing);
            }
          }
        }
      } else if controlScanIndex < config.controlCount {
        if Elapsed(now, nextControlScanTime) {
          readLog := readLog + [ControlRead(controlScanIndex)];
          controlScanIndex := controlScanIndex + 1;
          if controlScanIndex < config.controlCount {
            nextControlScanTime := Later(now, config.spacing);
          } else {
            nextControlScanTime := Later(now, config.controlInterval);
          }
        }
      }
    }
  }

  // ----- Wrapping time -----

  lemma ModShift(x: int, k: int)
    ensures (x + k * WRAP) % WRAP == x % WRAP
  {}

  /** The wrapped difference of two true times is their difference, wrapped. */
  lemma ElapsedIs(v: nat, target: nat)
    ensures Elapsed(v % WRAP, target % WRAP) <==> (v - target) % WRAP < HALF
  {
    var a, b := v / WRAP, target / WRAP;
    assert v == v % WRAP + a * WRAP && target == target % WRAP + b * WRAP;
    ModShift(v % WRAP - target % WRAP, a - b);
    assert v - target == v % WRAP - target % WRAP + (a - b) * WRAP;
  }

  /** Within half the range of the clock the comparison is right. */
  lemma ElapsedNear(v: nat, target: nat)
    requires target - HALF <= v < target + HALF
    ensures Elapsed(v % WRAP, target % WRAP) <==> v >= target
  {
    ElapsedIs(v, target);
    if v < target {
      ModShift(v - target, 1);
    }
  }

  /** A delay is never cut short exactly when it is at most 2^31 ms. */
  lemma DelayHolds(t: nat, delay: nat)
    requires delay < WRAP
    ensures (forall v :: t <= v < t + delay ==> !Elapsed(v % WRAP, (t + delay) % WRAP)) <==> delay <= HALF
  {
    if delay <= HALF {
      forall v | t <= v < t + delay ensures !Elapsed(v % WRAP, (t + delay) % WRAP) {
        ElapsedNear(v, t + delay);
      }
    } else {
      ElapsedIs(t, t + delay);
      ModShift(-(delay as int), 1);
      assert Elapsed(t % WRAP, (t + delay) % WRAP);
    }
  }

  /** After a reset nothing is read until the clock is in its lower half: the next times are 0 then,
      but the running scans compare with 0 as a time. */
  lemma ResetStalls(c: Config, now: nat)
    requires c.Valid() && now < WRAP
    ensures LoopPass(c, RESET, now).read.Some? <==> now < HALF
    ensures now >= HALF ==> LoopPass(c, RESET, now).scan == RESET
  {}
}
