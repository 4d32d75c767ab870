/** The Modbus RTU slave of simulator_modbus/main.cpp: the receive loop that cuts requests out of
    a byte stream, the register store, and the replies. */
module ModbusSlave {
  import opened Crc16

  datatype RegisterInfo = RegisterInfo(value: bv16, writable: bool)

  /** Registers by their 16-bit address. */
  type RegisterMap = map<nat, RegisterInfo>

  /** The value `generateMonitorValue` yields on its n-th call. */
  type MonitorSource = nat -> bv16

  function MakeRegisterMap(): RegisterMap {
    map[20101 := RegisterInfo(0, true), 20102 := RegisterInfo(2300, true), 20103 := RegisterInfo(5000, true),
        20104 := RegisterInfo(0, true), 20108 := RegisterInfo(0, true), 20109 := RegisterInfo(1, true),
        20111 := RegisterInfo(0, true), 20112 := RegisterInfo(0, true), 20113 := RegisterInfo(100, true),
        20118 := RegisterInfo(270, true), 20119 := RegisterInfo(270, true), 10103 := RegisterInfo(270, true),
        10104 := RegisterInfo(282, true), 10105 := RegisterInfo(170, true), 10107 := RegisterInfo(300, true),
        20125 := RegisterInfo(600, true), 20127 := RegisterInfo(170, true), 20128 := RegisterInfo(300, true),
        20132 := RegisterInfo(600, true), 20142 := RegisterInfo(0, true), 20143 := RegisterInfo(0, true),
        20144 := RegisterInfo(0, true), 15205 := RegisterInfo(2200, false), 15206 := RegisterInfo(265, false),
        15207 := RegisterInfo(150, false), 15208 := RegisterInfo(500, false), 25212 := RegisterInfo(800, false),
        25274 := RegisterInfo(15, false)]
  }

  // ----- One request -----

  /** The register store together with the number of monitor values drawn so far. */
  datatype Store = Store(registers: RegisterMap, draws: nat)

  datatype Outcome = Outcome(store: Store, reply: seq<bv8>)

  datatype Reading = Missing(draws: nat) | Found(bytes: seq<bv8>, draws: nat)

  const REQUEST_LENGTH: nat := 8

  type Request = r: seq<bv8> | |r| == 8 witness [0, 0, 0, 0, 0, 0, 0, 0]

  const READ: bv8 := 0x03
  const WRITE: bv8 := 0x06

  function StartAddress(request: Request): nat {
    Word(request[2], request[3]) as nat
  }

  function RequestWord(request: Request): bv16 {
    Word(request[4], request[5])
  }

  function Quantity(request: Request): nat {
    RequestWord(request) as nat
  }

  /** The `offset`-th register after `start`, in 16-bit arithmetic. */
  function KeyAt(start: nat, offset: nat): nat {
    (start + offset) % 0x10000
  }

  function ValueBytes(value: bv16): (r: seq<bv8>)
    ensures |r| == 2
  {
    [HighByte(value), LowByte(value)]
  }

  function ReadFrom(source: MonitorSource, s: Store, start: nat, offset: nat, quantity: nat): Reading
    requires offset <= quantity < 0x10000
    decreases quantity - offset
  {
    if offset == quantity then
      Found([], s.draws)
    else
      var key := KeyAt(start, offset);
      if key !in s.registers then
        Missing(s.draws)
      else if s.registers[key].writable then
        Prefixed(ValueBytes(s.registers[key].value), ReadFrom(source, s, start, offset + 1, quantity))
      else
        Prefixed(ValueBytes(source(s.draws)),
                 ReadFrom(source, s.(draws := s.draws + 1), start, offset + 1, quantity))
  }

  function Prefixed(prefix: seq<bv8>, reading: Reading): Reading {
    match reading
    case Missing(_) => reading
    case Found(bytes, draws) => Found(prefix + bytes, draws)
  }

  function Failure(request: Request, code: bv8): seq<bv8>
  {
    WithCrc([request[0], if request[1] == READ then 0x83 else 0x86, code])
  }

  function Handle(source: MonitorSource, s: Store, request: Request): Outcome {
    if request[1] == READ then
      var quantity := Quantity(request);
      if quantity == 0 || quantity > 125 then
        Outcome(s, Failure(request, 0x03))
      else
        match ReadFrom(source, s, StartAddress(request), 0, quantity)
        case Missing(draws) => Outcome(s.(draws := draws), Failure(request, 0x02))
        case Found(bytes, draws) =>
          Outcome(s.(draws := draws), WithCrc(request[..2] + [(2 * quantity) as bv8] + bytes))
    else
      var key := StartAddress(request);
      if key !in s.registers then
        Outcome(s, Failure(request, 0x02))
      else if !s.registers[key].writable then
        Outcome(s, Failure(request, 0x03))
      else
        Outcome(s.(registers := s.registers[key := s.registers[key].(value := RequestWord(request))]),
                WithCrc(request[..6]))
  }

  // ----- The receive loop -----

  datatype State = State(store: Store, buffer: seq<bv8>)

  datatype Result = Result(state: State, sent: seq<seq<bv8>>)

  predicate IsRequest(frame: seq<bv8>) {
    |frame| == REQUEST_LENGTH && (frame[1] == READ || frame[1] == WRITE) && Accepted(frame)
  }

  /** One round of the inner loop: drop a byte, drop a request for another slave, or answer. */
  function Step(source: MonitorSource, id: bv8, st: State): (r: Result)
    requires |st.buffer| >= REQUEST_LENGTH
    ensures |r.state.buffer| < |st.buffer|
  {
    var window := st.buffer[..REQUEST_LENGTH];
    if !IsRequest(window) then
      Result(st.(buffer := st.buffer[1..]), [])
    else if window[0] != id then
      Result(st.(buffer := st.buffer[REQUEST_LENGTH..]), [])
    else
      var outcome := Handle(source, st.store, window);
      Result(State(outcome.store, st.buffer[REQUEST_LENGTH..]), [outcome.reply])
  }

  function Drain(source: MonitorSource, id: bv8, st: State): (r: Result)
    ensures |r.state.buffer| < REQUEST_LENGTH
    decreases |st.buffer|
  {
    if |st.buffer| < REQUEST_LENGTH then
      Result(st, [])
    else
      var first := Step(source, id, st);
      var rest := Drain(source, id, first.state);
      rest.(sent := first.sent + rest.sent)
  }

  /** One read from the serial port: append, then drain. */
  function Receive(source: MonitorSource, id: bv8, st: State, bytes: seq<bv8>): Result {
    Drain(source, id, st.(buffer := st.buffer + bytes))
  }

  function ReceiveAll(source: MonitorSource, id: bv8, st: State, chunks: seq<seq<bv8>>): Result
    decreases |chunks|
  {
    if chunks == [] then
      Result(st, [])
    else
      var first := Receive(source, id, st, chunks[0]);
      var rest := ReceiveAll(source, id, first.state, chunks[1..]);
      rest.(sent := first.sent + rest.sent)
  }

  function Flatten(chunks: seq<seq<bv8>>): seq<bv8> {
    if chunks == [] then [] else chunks[0] + Flatten(chunks[1..])
  }

  class Slave {
    const id: bv8
    const source: MonitorSource
    var registers: RegisterMap
    var draws: nat
    var rxBuffer: seq<bv8>
    var sent: seq<seq<bv8>>

    constructor (id: bv8, source: MonitorSource)
      ensures this.id == id && this.source == source
      ensures Abstract() == State(Store(MakeRegisterMap(), 0), []) && sent == []
    {
      this.id := id;
      this.source := source;
      registers := MakeRegisterMap();
      draws := 0;
      rxBuffer := [];
      sent := [];
    }

    function Abstract(): State
      reads this
    {
      State(Store(registers, draws), rxBuffer)
    }

    method GenerateMonitorValue() returns (value: bv16)
      modifies this`draws
      ensures value == source(old(draws)) && draws == old(draws) + 1
    {
      value := source(draws);
      draws := draws + 1;
    }

    method ReadPayload(start: nat, quantity: nat) returns (valid: bool, payload: seq<bv8>)
      requires quantity < 0x10000
      modifies this`draws
      ensures var reading := ReadFrom(source, Store(registers, old(draws)), start, 0, quantity);
        reading == if valid then Found(payload, draws) else Missing(draws)
    {
      hide ValueBytes, KeyAt, Prefixed, ReadFrom;
      payload := [];
      ghost var whole := ReadFrom(source, Store(registers, draws), start, 0, quantity);
      NothingPrefixed(whole);
      for offset := 0 to quantity
        invariant whole == Prefixed(payload, ReadFrom(source, Store(registers, draws), start, offset, quantity))
      {
        var key := KeyAt(start, offset);
        ReadStep(source, Store(registers, draws), start, offset, quantity, payload);
        if key !in registers {
          return false, payload;
        }
        var value := registers[key].value;
        if !registers[key].writable {
          value := GenerateMonitorValue();
        }
        payload := payload + ValueBytes(value);
      }
      ReadEnd(source, Store(registers, draws), start, quantity, payload);
      valid := true;
    }

    /** The reply to function 3, without its checksum. */
    method AnswerRead(request: Request) returns (response: seq<bv8>)
      requires request[1] == READ
      modifies this`draws
      ensures Handle(source, Store(registers, old(draws)), request)
           == Outcome(Store(registers, draws), WithCrc(response))
    {
      hide WithCrc, ReadFrom, Word;
      var quantity := Quantity(request);
      if quantity == 0 || quantity > 125 {
        return [request[0], 0x83, 0x03];
      }
      var valid, payload := ReadPayload(StartAddress(request), quantity);
      if !valid {
        return [request[0], 0x83, 0x02];
      }
      response := request[..2];
      response := response + [(2 * quantity) as bv8] + payload;
    }

    /** The reply to function 6, without its checksum. */
    method AnswerWrite(request: Request) returns (response: seq<bv8>)
      requires request[1] == WRITE
      modifies this`registers
      ensures Handle(source, Store(old(registers), draws), request)
           == Outcome(Store(registers, draws), WithCrc(response))
    {
      hide WithCrc, Word;
      var startAddress := StartAddress(request);
      if startAddress !in registers {
        response := [request[0], 0x86, 0x02];
      } else if !registers[startAddress].writable {
        response := [request[0], 0x86, 0x03];
      } else {
        var value := RequestWord(request);
        registers := registers[startAddress := registers[startAddress].(value := value)];
        response := [request[0], request[1]] + [request[2], request[3], request[4], request[5]];
        assert response == request[..6];
      }
    }

    /** Answers a request and puts the reply on the line. */
    method Respond(request: Request)
      requires (request[1] == READ || request[1] == WRITE)
      modifies this`registers, this`draws, this`sent
      ensures var outcome := Handle(source, Store(old(registers), old(draws)), request);
        Store(registers, draws) == outcome.store && sent == old(sent) + [outcome.reply]
    {
      hide WithCrc, Handle;
      var response;
      if request[1] == 0x03 {
        response := AnswerRead(request);
      } else {
        response := AnswerWrite(request);
      }
      response := AppendCrc(response);
      sent := sent + [response];
    }

    method Poll(bytes: seq<bv8>)
      modifies this
      ensures var r := Receive(source, id, old(Abstract()), bytes);
        Abstract() == r.state && sent == old(sent) + r.sent
    {
      rxBuffer := rxBuffer + bytes;
      ghost var whole := Receive(source, id, old(Abstract()), bytes);
      while |rxBuffer| >= 8
        invariant Continues(source, id, Abstract(), old(sent), sent, whole)
        decreases |rxBuffer|
      {
        ghost var before, sentBefore := Abstract(), sent;
        var function_ := rxBuffer[1];
        var valid := false;
        if function_ == 0x03 || function_ == 0x06 {
          valid := ValidCrc(rxBuffer, 8);
        }
        if !valid {
          rxBuffer := rxBuffer[1..];
        } else if rxBuffer[0] != id {
          rxBuffer := rxBuffer[8..];
        } else {
          Respond(rxBuffer[..8]);
          rxBuffer := rxBuffer[8..];
        }
        hide Accepted, Handle, Drain, Receive;
        assert Step(source, id, before).state == Abstract();
        assert sent == sentBefore + Step(source, id, before).sent;
        StepContinues(source, id, before, old(sent), sentBefore, whole);
      }
    }
  }

  lemma NothingPrefixed(reading: Reading)
    ensures Prefixed([], reading) == reading
  {
    assert reading.Found? ==> [] + reading.bytes == reading.bytes;
  }

  lemma PrefixedTwice(a: seq<bv8>, b: seq<bv8>, reading: Reading)
    ensures Prefixed(a, Prefixed(b, reading)) == Prefixed(a + b, reading)
  {
    assert reading.Found? ==> a + (b + reading.bytes) == (a + b) + reading.bytes;
  }

  /** What reading on from a register adds to the payload so far. */
  lemma ReadStep(source: MonitorSource, s: Store, start: nat, offset: nat, quantity: nat, payload: seq<bv8>)
    requires offset < quantity < 0x10000
    ensures var key := KeyAt(start, offset);
      Prefixed(payload, ReadFrom(source, s, start, offset, quantity)) ==
      if key !in s.registers then Missing(s.draws)
      else if s.registers[key].writable then
        Prefixed(payload + ValueBytes(s.registers[key].value), ReadFrom(source, s, start, offset + 1, quantity))
      else
        Prefixed(payload + ValueBytes(source(s.draws)),
                 ReadFrom(source, s.(draws := s.draws + 1), start, offset + 1, quantity))
  {
    hide ValueBytes, KeyAt;
    var key := KeyAt(start, offset);
    if key in s.registers {
      var info := s.registers[key];
      var s' := if info.writable then s else s.(draws := s.draws + 1);
      var value := if info.writable then info.value else source(s.draws);
      PrefixedTwice(payload, ValueBytes(value), ReadFrom(source, s', start, offset + 1, quantity));
    }
  }

  lemma ReadEnd(source: MonitorSource, s: Store, start: nat, quantity: nat, payload: seq<bv8>)
    requires quantity < 0x10000
    ensures Prefixed(payload, ReadFrom(source, s, start, quantity, quantity)) == Found(payload, s.draws)
  {
    assert payload + [] == payload;
  }

  /** `whole` is what draining `st` still has to add to what was sent up to now. */
  ghost predicate Continues(source: MonitorSource, id: bv8, st: State, sent0: seq<seq<bv8>>, sent: seq<seq<bv8>>,
          whole: Result) {
    var rest := Drain(source, id, st);
    whole.state == rest.state && sent0 + whole.sent == sent + rest.sent
  }

  lemma StepContinues(source: MonitorSource, id: bv8, st: State, sent0: seq<seq<bv8>>, sent: seq<seq<bv8>>,
          whole: Result)
    requires |st.buffer| >= REQUEST_LENGTH
    requires Continues(source, id, st, sent0, sent, whole)
    ensures Continues(source, id, Step(source, id, st).state, sent0, sent + Step(source, id, st).sent, whole)
  {
    hide Step;
    var first := Step(source, id, st);
    var rest := Drain(source, id, first.state);
    assert sent + (first.sent + rest.sent) == (sent + first.sent) + rest.sent;
  }
}
