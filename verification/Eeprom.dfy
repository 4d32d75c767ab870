/** The settings the firmware keeps in EEPROM (inverter/inverter.ino, lines 15-31, 197-294, 345-396):
    one byte array, divided into fields by offsets. */
module Eeprom {
  import opened Options
  import Text
  import opened Numbers

  type Byte = n: nat | n < 256

  /** A C string: its bytes up to, and without, the terminating zero. */
  type CString = s: seq<Byte> | 0 !in s witness []

  const WIFI_SSID_MAX_LEN: nat := 32
  const WIFI_PASSWORD_MAX_LEN: nat := 64
  const MONITOR_HOST_MAX_LEN: nat := 64
  const MONITOR_PORT_MAX_LEN: nat := 6
  const RELAY_IP_ADDRESS_MAX_LEN: nat := 15
  const RELAY_PIN_COUNT: nat := 4
  const RELAY_IP_EEPROM_STRIDE: nat := RELAY_IP_ADDRESS_MAX_LEN + 1
  const WIFI_SSID_OFFSET: nat := 0
  const WIFI_PASSWORD_OFFSET: nat := WIFI_SSID_OFFSET + WIFI_SSID_MAX_LEN + 1
  const MONITOR_HOST_OFFSET: nat := WIFI_PASSWORD_OFFSET + WIFI_PASSWORD_MAX_LEN + 1
  const MONITOR_PORT_OFFSET: nat := MONITOR_HOST_OFFSET + MONITOR_HOST_MAX_LEN + 1
  const SIMULATION_MODE_OFFSET: nat := MONITOR_PORT_OFFSET + MONITOR_PORT_MAX_LEN + 1
  const TIMING_VALID_OFFSET: nat := SIMULATION_MODE_OFFSET + 1
  const CONTROL_INTERVAL_OFFSET: nat := TIMING_VALID_OFFSET + 1
  const MONITOR_INTERVAL_OFFSET: nat := CONTROL_INTERVAL_OFFSET + 4
  const SPACING_OFFSET: nat := MONITOR_INTERVAL_OFFSET + 4
  const RELAY_IP_OFFSET: nat := SPACING_OFFSET + 4
  const EEPROM_SIZE: nat := RELAY_IP_OFFSET + RELAY_PIN_COUNT * RELAY_IP_EEPROM_STRIDE

  const DEFAULT_CONTROL_SCAN_INTERVAL: uint32 := 60000
  const DEFAULT_MONITOR_SCAN_INTERVAL: uint32 := 5000
  const DEFAULT_REGISTER_READ_SPACING: uint32 := 300

  /** The fields that are saved and loaded each on its own. */
  datatype Field =
    | Ssid | Password | Host | Port
    | Simulation | TimingValid | ControlInterval | MonitorInterval | Spacing
    | RelayIp(index: nat)

  predicate ValidField(f: Field) {
    f.RelayIp? ==> f.index < RELAY_PIN_COUNT
  }

  function Offset(f: Field): nat {
    match f
    case Ssid => WIFI_SSID_OFFSET
    case Password => WIFI_PASSWORD_OFFSET
    case Host => MONITOR_HOST_OFFSET
    case Port => MONITOR_PORT_OFFSET
    case Simulation => SIMULATION_MODE_OFFSET
    case TimingValid => TIMING_VALID_OFFSET
    case ControlInterval => CONTROL_INTERVAL_OFFSET
    case MonitorInterval => MONITOR_INTERVAL_OFFSET
    case Spacing => SPACING_OFFSET
    case RelayIp(i) => RELAY_IP_OFFSET + i * RELAY_IP_EEPROM_STRIDE
  }

  /** The longest text of a text field, and the number of bytes of any field. */
  function MaxLen(f: Field): nat {
    match f
    case Ssid => WIFI_SSID_MAX_LEN
    case Password => WIFI_PASSWORD_MAX_LEN
    case Host => MONITOR_HOST_MAX_LEN
    case Port => MONITOR_PORT_MAX_LEN
    case RelayIp(_) => RELAY_IP_ADDRESS_MAX_LEN
    case _ => 0
  }

  predicate IsText(f: Field) {
    f.Ssid? || f.Password? || f.Host? || f.Port? || f.RelayIp?
  }

  predicate IsNumber(f: Field) {
    f.ControlInterval? || f.MonitorInterval? || f.Spacing?
  }

  function Size(f: Field): nat {
    if IsText(f) then MaxLen(f) + 1 else if IsNumber(f) then 4 else 1
  }

  /** No two fields share a byte, and none reaches past the declared size. */
  lemma FieldsAreDisjoint(f: Field, g: Field)
    requires ValidField(f) && ValidField(g)
    ensures Offset(f) + Size(f) <= EEPROM_SIZE
    ensures f == g || Offset(f) + Size(f) <= Offset(g) || Offset(g) + Size(g) <= Offset(f)
  {}

  // ----- What is stored -----

  function Zeros(n: nat): (r: seq<Byte>)
    ensures |r| == n
  {
    seq(n, i => 0)
  }

  function TextBytes(maxLen: nat, s: CString): (r: seq<Byte>)
    ensures |r| == maxLen + 1
  {
    var kept := if |s| <= maxLen then s else s[..maxLen];
    kept + Zeros(maxLen + 1 - |kept|)
  }

  /** Least significant byte first. */
  function NumberBytes(v: uint32): (r: seq<Byte>)
    ensures |r| == 4
  {
    var v8 := v / 0x100;
    var v16 := v8 / 0x100;
    [v % 0x100, v8 % 0x100, v16 % 0x100, v16 / 0x100]
  }

  function NumberOf(bytes: seq<Byte>): uint32
    requires |bytes| == 4
  {
    var b0: nat, b1: nat, b2: nat, b3: nat := bytes[0], bytes[1], bytes[2], bytes[3];
    b0 + 0x100 * (b1 + 0x100 * (b2 + 0x100 * b3))
  }

  /** The bytes of a number, the least significant first. */
  lemma NumberBack(v: uint32)
    ensures NumberOf(NumberBytes(v)) == v
    ensures var b: seq<nat> := NumberBytes(v); v == b[0] + 0x100 * b[1] + 0x10000 * b[2] + 0x1000000 * b[3]
  {
    var v8 := v / 0x100;
    var v16 := v8 / 0x100;
    assert v == v % 0x100 + 0x100 * v8;
    assert v8 == v8 % 0x100 + 0x100 * v16;
    assert v16 == v16 % 0x100 + 0x100 * (v16 / 0x100);
  }

  predicate Ends(b: Byte) {
    b == 0 || b == 255
  }

  /** The text read from a field: up to a zero or an erased byte, at most all but the last byte. */
  function TextOf(bytes: seq<Byte>): (s: CString)
    requires |bytes| > 0
    ensures |s| < |bytes|
    decreases |bytes|
  {
    if Ends(bytes[0]) || |bytes| == 1 then [] else [bytes[0]] + TextOf(bytes[1..])
  }

  /** A text up to its first byte 255. */
  function Readable(s: CString): CString
    decreases |s|
  {
    if s == [] || s[0] == 255 then [] else [s[0]] + Readable(s[1..])
  }

  lemma {:induction false} ReadableIs(s: CString)
    ensures Readable(s) == s <==> 255 !in s
    decreases |s|
  {
    if s != [] && s[0] != 255 {
      ReadableIs(s[1..]);
      assert s == [s[0]] + s[1..];
      assert ([s[0]] + Readable(s[1..]))[1..] == Readable(s[1..]);
    }
  }

  lemma {:induction false} TextBack(maxLen: nat, s: CString)
    requires |s| <= maxLen
    ensures TextOf(TextBytes(maxLen, s)) == Readable(s)
    decreases |s|
  {
    var bytes := TextBytes(maxLen, s);
    if s != [] && s[0] != 255 {
      assert bytes[1..] == TextBytes(maxLen - 1, s[1..]);
      TextBack(maxLen - 1, s[1..]);
    }
  }

  function Slice(mem: seq<Byte>, at: nat, n: nat): (r: seq<Byte>)
    requires at + n <= |mem|
    ensures |r| == n
  {
    mem[at..at + n]
  }

  function Splice(mem: seq<Byte>, at: nat, bytes: seq<Byte>): (r: seq<Byte>)
    requires at + |bytes| <= |mem|
    ensures |r| == |mem|
  {
    mem[..at] + bytes + mem[at + |bytes|..]
  }

  lemma SpliceIsLocal(mem: seq<Byte>, at: nat, bytes: seq<Byte>, from: nat, n: nat)
    requires at + |bytes| <= |mem| && from + n <= |mem|
    ensures from + n <= at || at + |bytes| <= from ==> Slice(Splice(mem, at, bytes), from, n) == Slice(mem, from, n)
    ensures Slice(Splice(mem, at, bytes), at, |bytes|) == bytes
  {}

  lemma NothingWritten(mem: seq<Byte>, at: nat)
    requires at <= |mem|
    ensures Splice(mem, at, []) == mem
  {}

  lemma OneMoreWritten(mem: seq<Byte>, at: nat, bytes: seq<Byte>, b: Byte)
    requires at + |bytes| < |mem|
    ensures Splice(mem, at, bytes)[at + |bytes| := b] == Splice(mem, at, bytes + [b])
  {}

  lemma WrittenInTwo(mem: seq<Byte>, at: nat, a: seq<Byte>, b: seq<Byte>)
    requires at + |a| + |b| <= |mem|
    ensures Splice(Splice(mem, at, a), at + |a|, b) == Splice(mem, at, a + b)
  {}

  function FieldBytes(mem: seq<Byte>, f: Field): (r: seq<Byte>)
    requires |mem| == EEPROM_SIZE && ValidField(f)
    ensures |r| == Size(f)
  {
    FieldsAreDisjoint(f, f);
    Slice(mem, Offset(f), Size(f))
  }

  /** The memory with the bytes of one field replaced. */
  function Put(mem: seq<Byte>, f: Field, bytes: seq<Byte>): (r: seq<Byte>)
    requires |mem| == EEPROM_SIZE && ValidField(f) && |bytes| == Size(f)
    ensures |r| == EEPROM_SIZE
  {
    FieldsAreDisjoint(f, f);
    Splice(mem, Offset(f), bytes)
  }

  /** Writing one field shows in that field and in no other. */
  lemma PutIsLocal(mem: seq<Byte>, f: Field, bytes: seq<Byte>, g: Field)
    requires |mem| == EEPROM_SIZE && ValidField(f) && ValidField(g) && |bytes| == Size(f)
    ensures FieldBytes(Put(mem, f, bytes), g) == if f == g then bytes else FieldBytes(mem, g)
  {
    hide Offset, Size, ValidField, Slice, Splice;
    FieldsAreDisjoint(f, g);
    FieldsAreDisjoint(g, g);
    SpliceIsLocal(mem, Offset(f), bytes, Offset(g), Size(g));
  }

  // ----- Saves -----

  datatype Save =
    | SaveWifi(ssid: CString, password: CString)
    | SaveMonitorServer(host: CString, port: CString)
    | SaveSimulationMode(enabled: bool)
    | SaveTiming(control: uint32, monitor: uint32, spacing: uint32)
    | SaveRelayIp(relayIndex: nat, ip: CString)

  /** Texts that are too long are refused, and so are relays that do not exist. */
  predicate Accepted(op: Save) {
    match op
    case SaveWifi(ssid, password) => |ssid| <= WIFI_SSID_MAX_LEN && |password| <= WIFI_PASSWORD_MAX_LEN
    case SaveMonitorServer(host, port) => |host| <= MONITOR_HOST_MAX_LEN && |port| <= MONITOR_PORT_MAX_LEN
    case SaveRelayIp(i, ip) => i < RELAY_PIN_COUNT && |ip| <= RELAY_IP_ADDRESS_MAX_LEN
    case _ => true
  }

  /** A text is saved exactly when its field has room for it and a zero behind it. */
  lemma AcceptedFits(first: CString, second: CString, i: nat)
    ensures Accepted(SaveWifi(first, second)) <==> |first| < Size(Ssid) && |second| < Size(Password)
    ensures Accepted(SaveMonitorServer(first, second)) <==> |first| < Size(Host) && |second| < Size(Port)
    ensures Accepted(SaveRelayIp(i, first)) <==> ValidField(RelayIp(i)) && |first| < Size(RelayIp(i))
  {}

  /** What a save writes to a field, None when it leaves the field alone. */
  function WrittenTo(op: Save, f: Field): (r: Option<seq<Byte>>)
    requires ValidField(f)
    ensures r.Some? ==> |r.value| == Size(f)
  {
    if !Accepted(op) then None
    else
      match op
      case SaveWifi(ssid, password) =>
        if f == Ssid then Some(TextBytes(MaxLen(f), ssid))
        else if f == Password then Some(TextBytes(MaxLen(f), password))
        else None
      case SaveMonitorServer(host, port) =>
        if f == Host then Some(TextBytes(MaxLen(f), host))
        else if f == Port then Some(TextBytes(MaxLen(f), port))
        else None
      case SaveSimulationMode(enabled) => if f == Simulation then Some([if enabled then 1 else 0]) else None
      case SaveTiming(control, monitor, spacing) =>
        (match f
         case TimingValid => Some([0xAA])
         case ControlInterval => Some(NumberBytes(control))
         case MonitorInterval => Some(NumberBytes(monitor))
         case Spacing => Some(NumberBytes(spacing))
         case _ => None)
      case SaveRelayIp(i, ip) => if f == RelayIp(i) then Some(TextBytes(MaxLen(f), ip)) else None
  }

  /** The memory after a save, in the order the bytes are written. */
  function Perform(mem: seq<Byte>, op: Save): (r: seq<Byte>)
    requires |mem| == EEPROM_SIZE
    ensures |r| == EEPROM_SIZE
  {
    if !Accepted(op) then mem
    else
      match op
      case SaveWifi(ssid, password) =>
        Put(Put(mem, Ssid, TextBytes(MaxLen(Ssid), ssid)), Password, TextBytes(MaxLen(Password), password))
      case SaveMonitorServer(host, port) =>
        Put(Put(mem, Host, TextBytes(MaxLen(Host), host)), Port, TextBytes(MaxLen(Port), port))
      case SaveSimulationMode(enabled) => Put(mem, Simulation, [if enabled then 1 else 0])
      case SaveTiming(control, monitor, spacing) =>
        Put(Put(Put(Put(mem, TimingValid, [0xAA]), ControlInterval, NumberBytes(control)),
            MonitorInterval, NumberBytes(monitor)), Spacing, NumberBytes(spacing))
      case SaveRelayIp(i, ip) => Put(mem, RelayIp(i), TextBytes(MaxLen(RelayIp(i)), ip))
  }

  lemma PerformIsLocal(mem: seq<Byte>, op: Save, f: Field)
    requires |mem| == EEPROM_SIZE && ValidField(f)
    ensures FieldBytes(Perform(mem, op), f) ==
      match WrittenTo(op, f) case None => FieldBytes(mem, f) case Some(bytes) => bytes
  {
    hide Put, FieldBytes, TextBytes, NumberBytes;
    if Accepted(op) {
      match op
      case SaveWifi(ssid, password) =>
        var m1 := Put(mem, Ssid, TextBytes(MaxLen(Ssid), ssid));
        PutIsLocal(mem, Ssid, TextBytes(MaxLen(Ssid), ssid), f);
        PutIsLocal(m1, Password, TextBytes(MaxLen(Password), password), f);
      case SaveMonitorServer(host, port) =>
        var m1 := Put(mem, Host, TextBytes(MaxLen(Host), host));
        PutIsLocal(mem, Host, TextBytes(MaxLen(Host), host), f);
        PutIsLocal(m1, Port, TextBytes(MaxLen(Port), port), f);
      case SaveSimulationMode(enabled) => PutIsLocal(mem, Simulation, [if enabled then 1 else 0], f);
      case SaveTiming(control, monitor, spacing) =>
        var m1 := Put(mem, TimingValid, [0xAA]);
        var m2 := Put(m1, ControlInterval, NumberBytes(control));
        var m3 := Put(m2, MonitorInterval, NumberBytes(monitor));
        PutIsLocal(mem, TimingValid, [0xAA], f);
        PutIsLocal(m1, ControlInterval, NumberBytes(control), f);
        PutIsLocal(m2, MonitorInterval, NumberBytes(monitor), f);
        PutIsLocal(m3, Spacing, NumberBytes(spacing), f);
      case SaveRelayIp(i, ip) => PutIsLocal(mem, RelayIp(i), TextBytes(MaxLen(RelayIp(i)), ip), f);
    }
  }

  function PerformAll(mem: seq<Byte>, ops: seq<Save>): (r: seq<Byte>)
    requires |mem| == EEPROM_SIZE
    ensures |r| == EEPROM_SIZE
    decreases |ops|
  {
    if ops == [] then mem else Perform(PerformAll(mem, ops[..|ops| - 1]), ops[|ops| - 1])
  }

  /** What a field holds after the saves: what the last save that concerns it has written. */
  function LastWritten(ops: seq<Save>, f: Field, initial: seq<Byte>): seq<Byte>
    requires ValidField(f)
    decreases |ops|
  {
    if ops == [] then initial
    else
      match WrittenTo(ops[|ops| - 1], f)
      case Some(bytes) => bytes
      case None => LastWritten(ops[..|ops| - 1], f, initial)
  }

  /** The fields are independent variables. */
  lemma {:induction false} FieldsAreIndependent(mem: seq<Byte>, ops: seq<Save>, f: Field)
    requires |mem| == EEPROM_SIZE && ValidField(f)
    ensures FieldBytes(PerformAll(mem, ops), f) == LastWritten(ops, f, FieldBytes(mem, f))
    decreases |ops|
  {
    hide Perform, FieldBytes, WrittenTo;
    if ops != [] {
      FieldsAreIndependent(mem, ops[..|ops| - 1], f);
      PerformIsLocal(PerformAll(mem, ops[..|ops| - 1]), ops[|ops| - 1], f);
    }
  }

  lemma {:induction false} LastWrittenIs(ops: seq<Save>, f: Field, initial: seq<Byte>, k: nat)
    requires ValidField(f) && k < |ops| && WrittenTo(ops[k], f).Some?
    requires forall i :: k < i < |ops| ==> WrittenTo(ops[i], f).None?
    ensures LastWritten(ops, f, initial) == WrittenTo(ops[k], f).value
    decreases |ops|
  {
    hide WrittenTo;
    var n := |ops| - 1;
    if k < n {
      LastWrittenIs(ops[..n], f, initial, k);
    }
  }

  // ----- Loads -----

  function LoadText(mem: seq<Byte>, f: Field): CString
    requires |mem| == EEPROM_SIZE && ValidField(f) && IsText(f)
  {
    TextOf(FieldBytes(mem, f))
  }

  function LoadNumber(mem: seq<Byte>, f: Field): uint32
    requires |mem| == EEPROM_SIZE && ValidField(f) && IsNumber(f)
  {
    NumberOf(FieldBytes(mem, f))
  }

  function Default(f: Field): uint32
    requires IsNumber(f)
  {
    match f
    case ControlInterval => DEFAULT_CONTROL_SCAN_INTERVAL
    case MonitorInterval => DEFAULT_MONITOR_SCAN_INTERVAL
    case Spacing => DEFAULT_REGISTER_READ_SPACING
  }

  predicate TimingSaved(mem: seq<Byte>)
    requires |mem| == EEPROM_SIZE
  {
    mem[TIMING_VALID_OFFSET] == 0xAA
  }

  /** A delay of the timing configuration: the default when none was saved, or 0. */
  function LoadDelay(mem: seq<Byte>, f: Field): uint32
    requires |mem| == EEPROM_SIZE && IsNumber(f)
  {
    if !TimingSaved(mem) || LoadNumber(mem, f) == 0 then Default(f) else LoadNumber(mem, f)
  }

  /** Loading a text field gives what was saved last, up to its first byte 255 - so all of it exactly
      when it has none. */
  lemma TextLoadsAsSaved(mem: seq<Byte>, ops: seq<Save>, f: Field, k: nat, s: CString)
    requires |mem| == EEPROM_SIZE && ValidField(f) && IsText(f) && k < |ops|
    requires |s| <= MaxLen(f) && WrittenTo(ops[k], f) == Some(TextBytes(MaxLen(f), s))
    requires forall i :: k < i < |ops| ==> WrittenTo(ops[i], f).None?
    ensures LoadText(PerformAll(mem, ops), f) == Readable(s)
    ensures LoadText(PerformAll(mem, ops), f) == s <==> 255 !in s
  {
    hide WrittenTo, FieldBytes, PerformAll, TextOf, TextBytes;
    FieldsAreIndependent(mem, ops, f);
    LastWrittenIs(ops, f, FieldBytes(mem, f), k);
    TextBack(MaxLen(f), s);
    ReadableIs(s);
  }

  /** `strtoul` of the port text and the cast to 16 bits; 0 when there is no number. */
  function PortNumber(text: CString): nat {
    match Stoul(seq(|text|, i requires 0 <= i < |text| => text[i] as char))
    case None => 0
    case Some(n) => n % 0x10000
  }

  datatype Server = Server(host: CString, port: CString)

  /** The monitor server: none without a host, or with a port that is 0 in 16 bits. */
  function LoadServer(mem: seq<Byte>): Option<Server>
    requires |mem| == EEPROM_SIZE
  {
    var host, port := LoadText(mem, Host), LoadText(mem, Port);
    if host == [] || PortNumber(port) == 0 then None else Some(Server(host, port))
  }

  /** The monitor server loads as it was saved last if and only if it has a host, its port is not 0 in 16
      bits, and there is no byte 255 in either text. */
  lemma ServerLoadsAsSaved(mem: seq<Byte>, ops: seq<Save>, k: nat, host: CString, port: CString)
    requires |mem| == EEPROM_SIZE && k < |ops| && ops[k] == SaveMonitorServer(host, port) && Accepted(ops[k])
    requires forall i :: k < i < |ops| && ops[i].SaveMonitorServer? ==> !Accepted(ops[i])
    ensures LoadServer(PerformAll(mem, ops)) == Some(Server(host, port)) <==>
      host != [] && PortNumber(port) != 0 && 255 !in host && 255 !in port
  {
    hide FieldBytes, PerformAll, TextBytes, PortNumber, LoadText;
    TextLoadsAsSaved(mem, ops, Host, k, host);
    TextLoadsAsSaved(mem, ops, Port, k, port);
  }

  /** A port as it is typed. */
  function PortText(n: nat): (text: CString)
    ensures forall b :: b in text ==> '0' as nat <= b <= '9' as nat
  {
    var digits := Text.NatToString(n);
    seq(|digits|, i requires 0 <= i < |digits| => digits[i] as nat)
  }

  lemma PortIsNumber(n: nat)
    requires n < ULONG_RANGE
    ensures PortNumber(PortText(n)) == n % 0x10000
  {
    hide Text.NatToString, Stoul;
    StoulOfNumeral(n);
    var text, digits := PortText(n), Text.NatToString(n);
    assert seq(|text|, i requires 0 <= i < |text| => text[i] as char) == digits;
  }

  /** A host and a port from 1 to 65535, saved with the port as it is typed: the loader gives that host and,
      as a number, that port. */
  lemma PortLoadsAsNumber(mem: seq<Byte>, ops: seq<Save>, k: nat, host: CString, n: nat)
    requires |mem| == EEPROM_SIZE && k < |ops|
    requires ops[k] == SaveMonitorServer(host, PortText(n)) && Accepted(ops[k])
    requires forall i :: k < i < |ops| && ops[i].SaveMonitorServer? ==> !Accepted(ops[i])
    requires 1 <= n <= 65535 && host != [] && 255 !in host
    ensures var loaded := LoadServer(PerformAll(mem, ops));
      loaded.Some? && loaded.value.host == host && PortNumber(loaded.value.port) == n
  {
    hide PerformAll, PortNumber, LoadServer, PortText;
    PortIsNumber(n);
    ServerLoadsAsSaved(mem, ops, k, host, PortText(n));
  }

  function LoadSimulation(mem: seq<Byte>): bool
    requires |mem| == EEPROM_SIZE
  {
    FieldBytes(mem, Simulation)[0] != 0
  }

  /** The simulation mode loads as it was saved last. */
  lemma SimulationLoadsAsSaved(mem: seq<Byte>, ops: seq<Save>, k: nat, enabled: bool)
    requires |mem| == EEPROM_SIZE && k < |ops| && ops[k] == SaveSimulationMode(enabled)
    requires forall i :: k < i < |ops| ==> !ops[i].SaveSimulationMode?
    ensures LoadSimulation(PerformAll(mem, ops)) == enabled
  {
    hide PerformAll, NumberBytes;
    FieldsAreIndependent(mem, ops, Simulation);
    LastWrittenIs(ops, Simulation, FieldBytes(mem, Simulation), k);
  }

  /** The saved delays load as they are, except 0, which loads the default. */
  lemma TimingLoadsAsSaved(mem: seq<Byte>, ops: seq<Save>, k: nat, control: uint32, monitor: uint32, spacing: uint32)
    requires |mem| == EEPROM_SIZE && k < |ops| && ops[k] == SaveTiming(control, monitor, spacing)
    requires forall i :: k < i < |ops| ==> !ops[i].SaveTiming?
    ensures var m := PerformAll(mem, ops);
      && LoadDelay(m, ControlInterval) == (if control == 0 then DEFAULT_CONTROL_SCAN_INTERVAL else control)
      && LoadDelay(m, MonitorInterval) == (if monitor == 0 then DEFAULT_MONITOR_SCAN_INTERVAL else monitor)
      && LoadDelay(m, Spacing) == (if spacing == 0 then DEFAULT_REGISTER_READ_SPACING else spacing)
  {
    hide PerformAll, NumberOf, NumberBytes, FieldBytes;
    DelayWritten(mem, ops, k, ControlInterval, control);
    DelayWritten(mem, ops, k, MonitorInterval, monitor);
    DelayWritten(mem, ops, k, Spacing, spacing);
    MarkWritten(mem, ops, k);
  }

  /** An erased memory: no text, no server, simulation on, and a minute, five seconds and 0.3 seconds for the
      delays. */
  lemma ErasedLoads(mem: seq<Byte>, f: Field)
    requires |mem| == EEPROM_SIZE && (forall i :: 0 <= i < |mem| ==> mem[i] == 255)
    requires ValidField(f) && IsText(f)
    ensures LoadText(mem, f) == [] && LoadServer(mem) == None && LoadSimulation(mem)
    ensures LoadDelay(mem, ControlInterval) == 60000 && LoadDelay(mem, MonitorInterval) == 5000
    ensures LoadDelay(mem, Spacing) == 300
  {
    hide PortNumber, LoadNumber;
    ErasedText(mem, f);
    ErasedText(mem, Host);
  }

  lemma ErasedText(mem: seq<Byte>, f: Field)
    requires |mem| == EEPROM_SIZE && (forall i :: 0 <= i < |mem| ==> mem[i] == 255)
    requires ValidField(f) && IsText(f)
    ensures LoadText(mem, f) == []
  {
    assert FieldBytes(mem, f)[0] == 255;
  }

  lemma DelayWritten(mem: seq<Byte>, ops: seq<Save>, k: nat, f: Field, v: uint32)
    requires |mem| == EEPROM_SIZE && k < |ops| && IsNumber(f)
    requires ops[k].SaveTiming? && WrittenTo(ops[k], f) == Some(NumberBytes(v))
    requires forall i :: k < i < |ops| ==> !ops[i].SaveTiming?
    ensures LoadNumber(PerformAll(mem, ops), f) == v
  {
    hide PerformAll, NumberOf, NumberBytes, FieldBytes;
    FieldsAreIndependent(mem, ops, f);
    LastWrittenIs(ops, f, FieldBytes(mem, f), k);
    NumberBack(v);
  }

  lemma MarkWritten(mem: seq<Byte>, ops: seq<Save>, k: nat)
    requires |mem| == EEPROM_SIZE && k < |ops| && ops[k].SaveTiming?
    requires forall i :: k < i < |ops| ==> !ops[i].SaveTiming?
    ensures TimingSaved(PerformAll(mem, ops))
  {
    hide PerformAll, NumberBytes;
    FieldsAreIndependent(mem, ops, TimingValid);
    LastWrittenIs(ops, TimingValid, FieldBytes(mem, TimingValid), k);
    assert FieldBytes(PerformAll(mem, ops), TimingValid)[0] == 0xAA;
  }

  lemma Pieces(after: seq<Byte>, before: seq<Byte>, start: nat, bytes: seq<Byte>)
    requires |after| == |before| && start + |bytes| <= |after|
    requires after[..start] == before[..start] && after[start..start + |bytes|] == bytes
    requires after[start + |bytes|..] == before[start + |bytes|..]
    ensures after == Splice(before, start, bytes)
  {}

  class Firmware {
    const mem: array<Byte>
    var wifiSSID: CString
    var wifiPassword: CString
    var monitorHost: CString
    var monitorPortString: CString
    var monitorPort: nat
    var simulationMode: bool
    var controlScanInterval: uint32
    var monitorScanInterval: uint32
    var registerReadSpacing: uint32
    var relayIpAddresses: seq<CString>

    /** The firmware started over a memory that holds `image`. */
    constructor (image: seq<Byte>)
      requires |image| == EEPROM_SIZE
      ensures Valid() && fresh(mem) && mem[..] == image
    {
      mem := new Byte[EEPROM_SIZE](i requires 0 <= i < EEPROM_SIZE => image[i]);
      wifiSSID, wifiPassword, monitorHost, monitorPortString, monitorPort := [], [], [], [], 0;
      simulationMode, relayIpAddresses := true, seq(RELAY_PIN_COUNT, i => []);
      controlScanInterval := DEFAULT_CONTROL_SCAN_INTERVAL;
      monitorScanInterval := DEFAULT_MONITOR_SCAN_INTERVAL;
      registerReadSpacing := DEFAULT_REGISTER_READ_SPACING;
    }

    ghost predicate Valid()
      reads this
    {
      mem.Length == EEPROM_SIZE
    }

    method ReadText(start: nat, maxLen: nat) returns (dest: CString)
      requires maxLen > 0 && start + maxLen <= mem.Length
      ensures dest == TextOf(mem[start..start + maxLen])
    {
      dest := [];
      for i := 0 to maxLen - 1
        invariant |dest| == i
        invariant TextOf(mem[start..start + maxLen]) == dest + TextOf(mem[start + i..start + maxLen])
      {
        var c := mem[start + i];
        assert mem[start + i..start + maxLen][1..] == mem[start + i + 1..start + maxLen];
        if c == 0 || c == 255 {
          return;
        }
        ghost var more := TextOf(mem[start + i + 1..start + maxLen]);
        assert dest + ([c] + more) == (dest + [c]) + more;
        dest := dest + [c];
      }
      // The last byte of the field always ends the text.
    }

    /** The bytes of the text, at most `maxLen` of them. */
    method CopyText(start: nat, maxLen: nat, src: CString) returns (n: nat)
      requires start + maxLen < mem.Length
      modifies mem
      ensures n == if |src| <= maxLen then |src| else maxLen
      ensures mem[..] == Splice(old(mem[..]), start, src[..n])
    {
      n := 0;
      NothingWritten(mem[..], start);
      while n < maxLen && n < |src|
        invariant n <= maxLen && n <= |src|
        invariant mem[..] == Splice(old(mem[..]), start, src[..n])
      {
        hide Splice;
        ghost var was := mem[..];
        mem[start + n] := src[n];
        assert mem[..] == was[start + n := src[n]];
        OneMoreWritten(old(mem[..]), start, src[..n], src[n]);
        n := n + 1;
        assert src[..n] == src[..n - 1] + [src[n - 1]];
      }
    }

    /** Zeros up to and including the byte behind the longest text. */
    method ClearBytes(start: nat, n: nat)
      requires start + n <= mem.Length
      modifies mem
      ensures mem[..] == Splice(old(mem[..]), start, Zeros(n))
    {
      var i := 0;
      NothingWritten(mem[..], start);
      while i < n
        invariant i <= n
        invariant mem[..] == Splice(old(mem[..]), start, Zeros(i))
      {
        hide Splice;
        ghost var was := mem[..];
        mem[start + i] := 0;
        assert mem[..] == was[start + i := 0];
        OneMoreWritten(old(mem[..]), start, Zeros(i), 0);
        i := i + 1;
        assert Zeros(i) == Zeros(i - 1) + [0];
      }
    }

    method WriteText(start: nat, maxLen: nat, src: CString)
      requires start + maxLen < mem.Length
      modifies mem
      ensures mem[..] == Splice(old(mem[..]), start, TextBytes(maxLen, src))
    {
      hide Splice;
      var n := CopyText(start, maxLen, src);
      ClearBytes(start + n, maxLen + 1 - n);
      assert src[..|src|] == src;
      WrittenInTwo(old(mem[..]), start, src[..n], Zeros(maxLen + 1 - n));
    }

    method WriteByte(f: Field, b: Byte)
      requires Valid() && ValidField(f) && Size(f) == 1
      modifies mem
      ensures mem[..] == Put(old(mem[..]), f, [b])
    {
      FieldsAreDisjoint(f, f);
      mem[Offset(f)] := b;
    }

    method WriteUint32(f: Field, value: uint32)
      requires Valid() && IsNumber(f)
      modifies mem
      ensures mem[..] == Put(old(mem[..]), f, NumberBytes(value))
    {
      FieldsAreDisjoint(f, f);
      var start := Offset(f);
      var bytes := NumberBytes(value);
      mem[start], mem[start + 1], mem[start + 2], mem[start + 3] := bytes[0], bytes[1], bytes[2], bytes[3];
      assert mem[start..start + 4] == bytes;
      Pieces(mem[..], old(mem[..]), start, bytes);
    }

    method SaveText(f: Field, text: CString)
      requires Valid() && ValidField(f) && IsText(f)
      modifies mem
      ensures mem[..] == Put(old(mem[..]), f, TextBytes(MaxLen(f), text))
    {
      FieldsAreDisjoint(f, f);
      WriteText(Offset(f), MaxLen(f), text);
    }

    method SaveSettings(op: Save) returns (ok: bool)
      requires Valid()
      modifies mem
      ensures ok == Accepted(op) && mem[..] == Perform(old(mem[..]), op)
    {
      hide Put, TextBytes, NumberBytes;
      if !Accepted(op) {
        return false;
      }
      match op {
        case SaveWifi(ssid, password) =>
          SaveText(Ssid, ssid);
          SaveText(Password, password);
        case SaveMonitorServer(host, port) =>
          SaveText(Host, host);
          SaveText(Port, port);
        case SaveSimulationMode(enabled) =>
          WriteByte(Simulation, if enabled then 1 else 0);
        case SaveTiming(control, monitor, spacing) =>
          WriteByte(TimingValid, 0xAA);
          WriteUint32(ControlInterval, control);
          WriteUint32(MonitorInterval, monitor);
          WriteUint32(Spacing, spacing);
        case SaveRelayIp(i, ip) =>
          SaveText(RelayIp(i), ip);
      }
      ok := true;
    }

    method LoadField(f: Field) returns (text: CString)
      requires Valid() && ValidField(f) && IsText(f)
      ensures text == LoadText(mem[..], f)
    {
      FieldsAreDisjoint(f, f);
      text := ReadText(Offset(f), MaxLen(f) + 1);
      assert mem[..][Offset(f)..Offset(f) + Size(f)] == mem[Offset(f)..Offset(f) + Size(f)];
    }

    method LoadWiFiCredentials() returns (ok: bool)
      requires Valid()
      modifies this
      ensures wifiSSID == LoadText(mem[..], Ssid) && wifiPassword == LoadText(mem[..], Password)
      ensures ok == (wifiSSID != [])
    {
      wifiSSID := LoadField(Ssid);
      wifiPassword := LoadField(Password);
      ok := wifiSSID != [];
    }

    /** A server without a host, or whose port is 0 in 16 bits, is forgotten. */
    method LoadMonitorServer() returns (ok: bool)
      requires Valid()
      modifies this
      ensures ok == LoadServer(mem[..]).Some?
      ensures match LoadServer(mem[..])
        case Some(Server(host, port)) =>
          monitorHost == host && monitorPortString == port && monitorPort == PortNumber(port)
        case None => monitorHost == [] && monitorPortString == [] && monitorPort == 0
    {
      monitorHost := LoadField(Host);
      monitorPortString := LoadField(Port);
      monitorPort := PortNumber(monitorPortString);
      ok := monitorHost != [] && monitorPort != 0;
      if !ok {
        monitorHost, monitorPortString, monitorPort := [], [], 0;
      }
    }

    /** Simulation is on when it was never saved. */
    method LoadSimulationMode() returns (ok: bool)
      requires Valid()
      modifies this
      ensures var stored := FieldBytes(mem[..], Simulation)[0];
        ok == (stored != 0xFF) && simulationMode == LoadSimulation(mem[..])
    {
      var stored := mem[SIMULATION_MODE_OFFSET];
      simulationMode := stored == 0xFF || stored != 0;
      ok := stored != 0xFF;
    }

    method LoadRelayIpAddresses() returns (anyLoaded: bool)
      requires Valid()
      modifies this`relayIpAddresses
      ensures |relayIpAddresses| == RELAY_PIN_COUNT
      ensures forall i: nat :: i < RELAY_PIN_COUNT ==> relayIpAddresses[i] == LoadText(mem[..], RelayIp(i))
      ensures anyLoaded <==> exists i: nat :: i < RELAY_PIN_COUNT && relayIpAddresses[i] != []
    {
      hide LoadText;
      anyLoaded, relayIpAddresses := false, [];
      for i := 0 to RELAY_PIN_COUNT
        invariant |relayIpAddresses| == i
        invariant forall k: nat :: k < i ==> relayIpAddresses[k] == LoadText(mem[..], RelayIp(k))
        invariant anyLoaded <==> exists k: nat :: k < i && relayIpAddresses[k] != []
      {
        var ip := LoadField(RelayIp(i));
        relayIpAddresses := relayIpAddresses + [ip];
        anyLoaded := anyLoaded || relayIpAddresses[i] != [];
      }
    }

    method ReadUint32(f: Field) returns (value: uint32)
      requires Valid() && IsNumber(f)
      ensures value == LoadNumber(mem[..], f)
    {
      FieldsAreDisjoint(f, f);
      var start := Offset(f);
      var b0: nat, b1: nat, b2: nat, b3: nat := mem[start], mem[start + 1], mem[start + 2], mem[start + 3];
      value := b0 + 0x100 * (b1 + 0x100 * (b2 + 0x100 * b3));
      assert mem[..][start..start + 4] == [b0, b1, b2, b3];
    }

    method LoadTimingConfig() returns (ok: bool)
      requires Valid()
      modifies this
      ensures ok == TimingSaved(mem[..])
      ensures controlScanInterval == LoadDelay(mem[..], ControlInterval)
      ensures monitorScanInterval == LoadDelay(mem[..], MonitorInterval)
      ensures registerReadSpacing == LoadDelay(mem[..], Spacing)
    {
      hide LoadNumber;
      if mem[TIMING_VALID_OFFSET] != 0xAA {
        controlScanInterval := DEFAULT_CONTROL_SCAN_INTERVAL;
        monitorScanInterval := DEFAULT_MONITOR_SCAN_INTERVAL;
        registerReadSpacing := DEFAULT_REGISTER_READ_SPACING;
        return false;
      }
      var control := ReadUint32(ControlInterval);
      var monitor := ReadUint32(MonitorInterval);
      var spacing := ReadUint32(Spacing);
      controlScanInterval := if control == 0 then DEFAULT_CONTROL_SCAN_INTERVAL else control;
      monitorScanInterval := if monitor == 0 then DEFAULT_MONITOR_SCAN_INTERVAL else monitor;
      registerReadSpacing := if spacing == 0 then DEFAULT_REGISTER_READ_SPACING else spacing;
      ok := true;
    }
  }
}
