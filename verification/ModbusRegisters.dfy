/** The slave of module ModbusSlave seen as a register map: what requests read and write, over
    any list of requests and so over any byte stream (ModbusStream.StreamIsServed). */
module ModbusRegisters {
  import opened Arithmetic
  import opened Options
  import opened Crc16
  import opened ModbusSlave
  import opened ModbusStream

  /** Same keys, same access rights, and nothing that is read-only has changed. */
  ghost predicate SameMap(before: RegisterMap, after: RegisterMap) {
    && before.Keys == after.Keys
    && forall key :: key in before ==>
         && before[key].writable == after[key].writable
         && (!before[key].writable ==> before[key] == after[key])
  }

  // ----- Requests as the master writes them: numbers are two bytes, the high one first -----

  function AddressOf(request: Request): nat {
    BigEndian(request[2], request[3])
  }

  /** The quantity of a read, the value of a write. */
  function NumberOf(request: Request): nat {
    BigEndian(request[4], request[5])
  }

  lemma RequestNumbers(request: Request)
    ensures StartAddress(request) == AddressOf(request)
    ensures Quantity(request) == RequestWord(request) as nat == NumberOf(request)
  {
    hide Word, BigEndian;
    WordIsBigEndian(request[2], request[3]);
    WordIsBigEndian(request[4], request[5]);
  }

  lemma RegisterIs(request: Request, i: nat)
    ensures RegisterOf(request, i) == KeyAt(StartAddress(request), i) == KeyAt(AddressOf(request), i)
  {
    hide StartAddress, AddressOf, Quantity, RequestWord;
    RequestNumbers(request);
  }

  predicate IsWriteTo(id: bv8, request: Request, key: nat) {
    request[0] == id && request[1] == 0x06 && AddressOf(request) == key
  }

  /** The register of the i-th value of a read, in 16-bit addresses. */
  function RegisterOf(request: Request, i: nat): nat {
    (AddressOf(request) + i) % 0x10000
  }

  /** The last write to `key` among the requests. */
  function LastWrite(id: bv8, requests: seq<Request>, key: nat): Option<Request>
    decreases |requests|
  {
    if requests == [] then
      None
    else
      var later := LastWrite(id, requests[1..], key);
      if later.Some? then later
      else if IsWriteTo(id, requests[0], key) then Some(requests[0])
      else None
  }

  // ----- What the store holds -----

  lemma HandleEffect(source: MonitorSource, store: Store, request: Request, key: nat)
    requires request[1] == READ || request[1] == WRITE
    ensures var after := Handle(source, store, request).store;
      && SameMap(store.registers, after.registers)
      && (key in store.registers && store.registers[key].writable ==>
            after.registers[key].value as nat ==
            if IsWriteTo(request[0], request, key) then NumberOf(request) else store.registers[key].value as nat)
  {
    hide WithCrc, ReadFrom, Word, AddressOf, NumberOf, StartAddress, RequestWord;
    RequestNumbers(request);
    var after := Handle(source, store, request).store;
    if request[1] == READ {
      assert request[1] != WRITE;
      assert after.registers == store.registers;
    } else {
      var target := StartAddress(request);
      if target in store.registers && store.registers[target].writable {
        WriteEffect(store.registers, target, RequestWord(request), key);
      }
    }
  }

  lemma WriteEffect(before: RegisterMap, target: nat, value: bv16, key: nat)
    requires target in before && before[target].writable
    ensures var after := before[target := before[target].(value := value)];
      && SameMap(before, after)
      && (key in before ==> after[key].value == if key == target then value else before[key].value)
  {}

  /** Over any list of requests the keys, the access rights and the read-only entries stay as they
      are, and a writable register holds the last value written to it. */
  lemma {:induction false} StoreRemembersLastWrite(source: MonitorSource, id: bv8, store: Store,
          requests: seq<Request>, key: nat)
    requires forall r :: r in requests ==> r[1] == READ || r[1] == WRITE
    ensures var after := Serve(source, id, store, requests).0;
      && SameMap(store.registers, after.registers)
      && (key in store.registers && store.registers[key].writable ==>
            after.registers[key].value as nat ==
            match LastWrite(id, requests, key)
            case Some(write) => NumberOf(write)
            case None => store.registers[key].value as nat)
    decreases |requests|
  {
    hide Handle, AddressOf, NumberOf;
    if requests != [] {
      assert requests[0] in requests;
      var rest := requests[1..];
      assert forall r :: r in rest ==> r in requests;
      if requests[0][0] == id {
        HandleEffect(source, store, requests[0], key);
        StoreRemembersLastWrite(source, id, Handle(source, store, requests[0]).store, rest, key);
      } else {
        StoreRemembersLastWrite(source, id, store, rest, key);
      }
    }
  }

  // ----- Replies -----

  /** A read succeeds exactly when all its registers exist, and then yields two bytes for each. */
  lemma {:induction false} ReadSucceeds(source: MonitorSource, s: Store, start: nat, offset: nat, quantity: nat)
    requires offset <= quantity < 0x10000
    ensures var r := ReadFrom(source, s, start, offset, quantity);
      && (r.Found? <==> forall i :: offset <= i < quantity ==> KeyAt(start, i) in s.registers)
      && (r.Found? ==> |r.bytes| == 2 * (quantity - offset))
    decreases quantity - offset
  {
    hide KeyAt, ValueBytes;
    if offset < quantity && KeyAt(start, offset) in s.registers {
      var s' := if s.registers[KeyAt(start, offset)].writable then s else s.(draws := s.draws + 1);
      ReadSucceeds(source, s', start, offset + 1, quantity);
    }
  }

  /** How many monitor values a read draws for the registers from `offset` on: one for each that is
      read-only, up to the first that is missing. */
  function Drawn(registers: RegisterMap, start: nat, offset: nat, quantity: nat): nat
    decreases quantity - offset
  {
    var key := (start + offset) % 0x10000;
    if offset >= quantity || key !in registers then 0
    else (if registers[key].writable then 0 else 1) + Drawn(registers, start, offset + 1, quantity)
  }

  /** The value a read shows for a register: the stored one or, where it is read-only, the next drawn. */
  function Shown(source: MonitorSource, s: Store, start: nat, offset: nat, i: nat): bv16 {
    var key := KeyAt(start, i);
    if key in s.registers && s.registers[key].writable then s.registers[key].value
    else source(s.draws + Drawn(s.registers, start, offset, i))
  }

  lemma {:induction false} ReadDraws(source: MonitorSource, s: Store, start: nat, offset: nat, quantity: nat)
    requires offset <= quantity < 0x10000
    ensures ReadFrom(source, s, start, offset, quantity).draws == s.draws + Drawn(s.registers, start, offset, quantity)
    decreases quantity - offset
  {
    hide ValueBytes;
    if offset < quantity && KeyAt(start, offset) in s.registers {
      var s' := if s.registers[KeyAt(start, offset)].writable then s else s.(draws := s.draws + 1);
      ReadDraws(source, s', start, offset + 1, quantity);
    }
  }

  lemma DrawnNext(registers: RegisterMap, start: nat, offset: nat, i: nat)
    requires offset < i && KeyAt(start, offset) in registers
    ensures Drawn(registers, start, offset, i) ==
      (if registers[KeyAt(start, offset)].writable then 0 else 1) + Drawn(registers, start, offset + 1, i)
  {}

  /** The store for the registers behind `offset`. */
  function NextStore(s: Store, start: nat, offset: nat): Store
    requires KeyAt(start, offset) in s.registers
  {
    if s.registers[KeyAt(start, offset)].writable then s else s.(draws := s.draws + 1)
  }

  lemma FirstRead(source: MonitorSource, s: Store, start: nat, offset: nat, quantity: nat)
    requires offset < quantity < 0x10000 && ReadFrom(source, s, start, offset, quantity).Found?
    ensures KeyAt(start, offset) in s.registers
    ensures var rest := ReadFrom(source, NextStore(s, start, offset), start, offset + 1, quantity);
      && rest.Found?
      && ReadFrom(source, s, start, offset, quantity).bytes ==
         ValueBytes(Shown(source, s, start, offset, offset)) + rest.bytes
  {
    hide KeyAt, ValueBytes, Drawn;
    NoneDrawn(s.registers, start, offset);
  }

  lemma ShownNext(source: MonitorSource, s: Store, start: nat, offset: nat, i: nat)
    requires offset < i && KeyAt(start, offset) in s.registers && KeyAt(start, i) in s.registers
    ensures Shown(source, s, start, offset, i) == Shown(source, NextStore(s, start, offset), start, offset + 1, i)
  {
    hide KeyAt, Drawn;
    DrawnNext(s.registers, start, offset, i);
  }

  /** The i-th value of a read is at its place. */
  lemma {:induction false} ReadShowsTheStore(source: MonitorSource, s: Store, start: nat, offset: nat, quantity: nat,
          i: nat)
    requires offset <= i < quantity < 0x10000
    requires ReadFrom(source, s, start, offset, quantity).Found?
    ensures var bytes := ReadFrom(source, s, start, offset, quantity).bytes;
      var at := 2 * (i - offset);
      && KeyAt(start, i) in s.registers && at + 2 <= |bytes|
      && bytes[at..at + 2] == ValueBytes(Shown(source, s, start, offset, i))
    decreases quantity - offset
  {
    hide KeyAt, ValueBytes, ReadFrom, Shown;
    FirstRead(source, s, start, offset, quantity);
    var s', value := NextStore(s, start, offset), Shown(source, s, start, offset, offset);
    var rest := ReadFrom(source, s', start, offset + 1, quantity).bytes;
    if i > offset {
      ReadShowsTheStore(source, s', start, offset + 1, quantity, i);
      ShownNext(source, s, start, offset, i);
      Behind(ValueBytes(value), rest, 2 * (i - offset - 1));
    } else {
      assert (ValueBytes(value) + rest)[..2] == ValueBytes(value);
    }
  }

  lemma NoneDrawn(registers: RegisterMap, start: nat, offset: nat)
    ensures Drawn(registers, start, offset, offset) == 0
  {}

  lemma Behind(first: seq<bv8>, rest: seq<bv8>, at: nat)
    requires |first| == 2 && at + 2 <= |rest|
    ensures (first + rest)[at + 2..at + 4] == rest[at..at + 2]
  {}

  /** The three forms a reply can have. */
  predicate ProperReply(id: bv8, reply: seq<bv8>) {
    && Accepted(reply)
    && reply[0] == id
    && ( || (|reply| == 5 && (reply[1] == 0x83 || reply[1] == 0x86))
         || (|reply| == 8 && reply[1] == WRITE)
         || (reply[1] == READ && 7 <= |reply| <= 255 && |reply| % 2 == 1))
  }

  lemma HandleReplies(source: MonitorSource, store: Store, request: Request)
    requires request[1] == READ || request[1] == WRITE
    ensures ProperReply(request[0], Handle(source, store, request).reply)
  {
    hide WithCrc, ReadFrom, Quantity, StartAddress, RequestWord, ProperReply;
    if request[1] == READ {
      var quantity := Quantity(request);
      if 0 < quantity <= 125 {
        ReadSucceeds(source, store, StartAddress(request), 0, quantity);
        var reading := ReadFrom(source, store, StartAddress(request), 0, quantity);
        if reading.Found? {
          ReadReplyIsProper(request, (2 * quantity) as bv8, quantity, reading.bytes);
        } else {
          FailureIsProper(request, 0x02);
        }
      } else {
        FailureIsProper(request, 0x03);
      }
    } else {
      FailureIsProper(request, 0x02);
      FailureIsProper(request, 0x03);
      EchoIsProper(request);
    }
  }

  lemma Framed(frame: seq<bv8>)
    requires |frame| >= 2
    ensures var reply := WithCrc(frame);
      Accepted(reply) && |reply| == |frame| + 2 && reply[0] == frame[0] && reply[1] == frame[1]
  {
    hide Crc, Accepted;
    AppendedIsAccepted(frame);
  }

  lemma FailureIsProper(request: Request, code: bv8)
    ensures ProperReply(request[0], Failure(request, code))
  {
    hide WithCrc, Accepted;
    Framed([request[0], if request[1] == READ then 0x83 else 0x86, code]);
  }

  lemma EchoIsProper(request: Request)
    requires request[1] == WRITE
    ensures ProperReply(request[0], WithCrc(request[..6]))
  {
    hide WithCrc, Accepted;
    Framed(request[..6]);
  }

  lemma ReadReplyIsProper(request: Request, count: bv8, quantity: nat, bytes: seq<bv8>)
    requires request[1] == READ && 0 < quantity <= 125 && |bytes| == 2 * quantity
    ensures ProperReply(request[0], WithCrc(request[..2] + [count] + bytes))
  {
    hide WithCrc, Accepted;
    Framed(request[..2] + [count] + bytes);
  }

  /** Every reply carries a valid checksum and this slave's number and is 5, 8 or 5 + 2q bytes
      long, and there is exactly one for each request to this slave. */
  lemma {:induction false} RepliesAreProper(source: MonitorSource, id: bv8, store: Store, requests: seq<Request>)
    requires forall r :: r in requests ==> r[1] == READ || r[1] == WRITE
    ensures var sent := Serve(source, id, store, requests).1;
      |sent| == AddressedTo(id, requests) && forall i :: 0 <= i < |sent| ==> ProperReply(id, sent[i])
    decreases |requests|
  {
    hide Handle, ProperReply;
    if requests != [] {
      assert requests[0] in requests;
      var rest := requests[1..];
      assert forall r :: r in rest ==> r in requests;
      if requests[0][0] == id {
        HandleReplies(source, store, requests[0]);
        RepliesAreProper(source, id, Handle(source, store, requests[0]).store, rest);
      } else {
        RepliesAreProper(source, id, store, rest);
      }
    }
  }

  function AddressedTo(id: bv8, requests: seq<Request>): nat
    decreases |requests|
  {
    if requests == [] then 0 else (if requests[0][0] == id then 1 else 0) + AddressedTo(id, requests[1..])
  }

  predicate IsReadOf(request: Request, registers: RegisterMap) {
    && request[1] == 0x03 && 0 < NumberOf(request) <= 125
    && forall k :: 0 <= k < NumberOf(request) ==> RegisterOf(request, k) in registers
  }

  lemma Trailed(frame: seq<bv8>, from: nat, to: nat)
    requires from <= to <= |frame|
    ensures |WithCrc(frame)| == |frame| + 2 && WithCrc(frame)[from..to] == frame[from..to]
  {
    hide Crc;
  }

  lemma FoundReply(source: MonitorSource, store: Store, request: Request)
    requires request[1] == READ && 0 < Quantity(request) <= 125
    ensures var quantity := Quantity(request);
      var reading := ReadFrom(source, store, StartAddress(request), 0, quantity);
      reading.Found? ==>
        Handle(source, store, request).reply == WithCrc(request[..2] + [ByteOf(2 * quantity)] + reading.bytes)
  {
    hide WithCrc, ReadFrom, StartAddress, Quantity;
  }

  /** The two bytes of a value in a reply. */
  lemma Pair(reply: seq<bv8>, at: nat, value: bv16)
    requires at + 2 <= |reply| && reply[at..at + 2] == ValueBytes(value)
    ensures BigEndian(reply[at], reply[at + 1]) == value as nat
  {
    hide Word, BigEndian, HighByte, LowByte;
    assert reply[at..at + 2][0] == reply[at] && reply[at..at + 2][1] == reply[at + 1];
    WordOfBytes(value);
    WordIsBigEndian(HighByte(value), LowByte(value));
  }

  lemma SameBytes(high: bv8, low: bv8, high': bv8, low': bv8)
    requires BigEndian(high, low) == BigEndian(high', low')
    ensures high == high' && low == low'
  {
    hide ByteValue;
    SameByte(low, low');
    SameByte(high, high');
  }

  lemma SameByte(b: bv8, b': bv8)
    ensures ByteValue(b) == ByteValue(b') ==> b == b'
  {}

  lemma Headed(head: seq<bv8>, count: bv8, bytes: seq<bv8>, from: nat)
    requires |head| == 2 && from + 2 <= |bytes|
    ensures var reply := WithCrc(head + [count] + bytes);
      && |reply| == 5 + |bytes| && reply[..2] == head && reply[2] == count
      && reply[3 + from..5 + from] == bytes[from..from + 2]
  {
    hide WithCrc;
    var frame := head + [count] + bytes;
    Trailed(frame, 0, 2);
    Trailed(frame, 2, 3);
    assert WithCrc(frame)[2..3][0] == frame[2..3][0];
    Trailed(frame, 3 + from, 5 + from);
  }

  /** What a well-formed read is answered with: number and function of the request, a byte count, and
      the bytes of each value in its turn. */
  lemma ReadReply(source: MonitorSource, store: Store, request: Request, i: nat)
    requires IsReadOf(request, store.registers) && i < NumberOf(request)
    ensures var reply := Handle(source, store, request).reply;
      && |reply| == 5 + 2 * NumberOf(request)
      && reply[..2] == request[..2] && reply[2] as nat == 2 * NumberOf(request)
      && BigEndian(reply[3 + 2 * i], reply[4 + 2 * i]) == Shown(source, store, AddressOf(request), 0, i) as nat
  {
    hide WithCrc, ValueBytes, ReadFrom, StartAddress, Quantity, Handle, Shown, AddressOf, NumberOf, ByteOf, KeyAt,
        RegisterOf, BigEndian;
    var quantity, start := Quantity(request), StartAddress(request);
    RequestNumbers(request);
    forall k: nat | k < quantity ensures KeyAt(start, k) in store.registers {
      RegisterIs(request, k);
    }
    ReadSucceeds(source, store, start, 0, quantity);
    ReadShowsTheStore(source, store, start, 0, quantity, i);
    FoundReply(source, store, request);
    ByteIs(2 * quantity);
    Headed(request[..2], ByteOf(2 * quantity), ReadFrom(source, store, start, 0, quantity).bytes, 2 * i);
    Pair(Handle(source, store, request).reply, 3 + 2 * i, Shown(source, store, start, 0, i));
  }

  lemma {:induction false} ServeConcat(source: MonitorSource, id: bv8, store: Store, a: seq<Request>, b: seq<Request>)
    ensures var first := Serve(source, id, store, a);
      var second := Serve(source, id, first.0, b);
      Serve(source, id, store, a + b) == (second.0, first.1 + second.1)
    decreases |a|
  {
    hide Handle;
    if a == [] {
      assert a + b == b;
      assert [] + Serve(source, id, store, b).1 == Serve(source, id, store, b).1;
    } else {
      assert (a + b)[1..] == a[1..] + b;
      var outcome := Handle(source, store, a[0]);
      var store' := if a[0][0] == id then outcome.store else store;
      ServeConcat(source, id, store', a[1..], b);
      var first := Serve(source, id, store', a[1..]);
      var second := Serve(source, id, first.0, b);
      assert [outcome.reply] + (first.1 + second.1) == ([outcome.reply] + first.1) + second.1;
    }
  }

  /** How many monitor values the requests to this slave draw. */
  function DrawnBy(id: bv8, registers: RegisterMap, requests: seq<Request>): nat
    decreases |requests|
  {
    if requests == [] then 0
    else
      var r := requests[0];
      (if r[0] == id && r[1] == 0x03 && 0 < NumberOf(r) <= 125
       then Drawn(registers, AddressOf(r), 0, NumberOf(r)) else 0) +
      DrawnBy(id, registers, requests[1..])
  }

  lemma {:induction false} DrawnSame(before: RegisterMap, after: RegisterMap, start: nat, offset: nat, quantity: nat)
    requires SameMap(before, after)
    ensures Drawn(before, start, offset, quantity) == Drawn(after, start, offset, quantity)
    decreases quantity - offset
  {
    if offset < quantity && (start + offset) % 0x10000 in before {
      DrawnSame(before, after, start, offset + 1, quantity);
    }
  }

  lemma {:induction false} DrawnBySame(id: bv8, before: RegisterMap, after: RegisterMap, requests: seq<Request>)
    requires SameMap(before, after)
    ensures DrawnBy(id, before, requests) == DrawnBy(id, after, requests)
    decreases |requests|
  {
    hide SameMap, AddressOf, NumberOf;
    if requests != [] {
      DrawnSame(before, after, AddressOf(requests[0]), 0, NumberOf(requests[0]));
      DrawnBySame(id, before, after, requests[1..]);
    }
  }

  lemma HandleDraws(source: MonitorSource, store: Store, request: Request)
    requires request[1] == READ || request[1] == WRITE
    ensures Handle(source, store, request).store.draws == store.draws +
      if request[1] == 0x03 && 0 < NumberOf(request) <= 125
      then Drawn(store.registers, AddressOf(request), 0, NumberOf(request)) else 0
  {
    hide WithCrc, ReadFrom, StartAddress, Quantity, AddressOf, NumberOf, RequestWord, Drawn;
    RequestNumbers(request);
    if request[1] == READ && 0 < NumberOf(request) <= 125 {
      ReadDraws(source, store, StartAddress(request), 0, Quantity(request));
    }
  }

  lemma {:induction false} ServeDraws(source: MonitorSource, id: bv8, store: Store, requests: seq<Request>)
    requires forall r :: r in requests ==> r[1] == READ || r[1] == WRITE
    ensures Serve(source, id, store, requests).0.draws == store.draws + DrawnBy(id, store.registers, requests)
    decreases |requests|
  {
    hide Handle, AddressOf, NumberOf, Drawn, SameMap;
    if requests != [] {
      assert requests[0] in requests;
      var rest := requests[1..];
      assert forall r :: r in rest ==> r in requests;
      if requests[0][0] == id {
        var after := Handle(source, store, requests[0]).store;
        HandleDraws(source, store, requests[0]);
        HandleEffect(source, store, requests[0], 0);
        DrawnBySame(id, store.registers, after.registers, rest);
        ServeDraws(source, id, after, rest);
      } else {
        ServeDraws(source, id, store, rest);
      }
    }
  }

  /** In any list of requests, a read is answered with one pair of bytes for each register. A writable
      register shows the very bytes of the last write to it before, or the number it held from the start
      when there was none, high byte first. A read-only one shows the next value of the source: one value
      is drawn for each read-only register of each read, in order. */
  lemma ReadReturnsLastWrite(source: MonitorSource, id: bv8, store: Store, before: seq<Request>, read: Request,
          after: seq<Request>, i: nat)
    requires forall r :: r in before ==> r[1] == READ || r[1] == WRITE
    requires read[0] == id && IsReadOf(read, store.registers) && i < NumberOf(read)
    ensures var sent, n := Serve(source, id, store, before + [read] + after).1, AddressedTo(id, before);
      && n < |sent| && |sent[n]| == 5 + 2 * NumberOf(read)
      && sent[n][..2] == [id, 0x03] && sent[n][2] as nat == 2 * NumberOf(read)
      && var key, high, low := RegisterOf(read, i), sent[n][3 + 2 * i], sent[n][4 + 2 * i];
      if store.registers[key].writable then
        match LastWrite(id, before, key)
        case Some(write) => high == write[4] && low == write[5]
        case None => BigEndian(high, low) == store.registers[key].value as nat
      else
        BigEndian(high, low) ==
        source(store.draws + DrawnBy(id, store.registers, before) +
               Drawn(store.registers, AddressOf(read), 0, i)) as nat
  {
    hide Handle, Shown, RegisterOf, AddressOf, NumberOf, LastWrite, AddressedTo, Drawn, DrawnBy, BigEndian, ByteOf;
    var first := Serve(source, id, store, before);
    ServeConcat(source, id, store, before, [read] + after);
    assert before + [read] + after == before + ([read] + after);
    assert ([read] + after)[1..] == after;
    RepliesAreProper(source, id, store, before);
    StoreRemembersLastWrite(source, id, store, before, RegisterOf(read, i));
    ReadReply(source, first.0, read, i);
    ShownAfter(source, id, store, before, read, i);
    var reply, write := Handle(source, first.0, read).reply, LastWrite(id, before, RegisterOf(read, i));
    assert Serve(source, id, store, before + [read] + after).1[AddressedTo(id, before)] == reply;
    if store.registers[RegisterOf(read, i)].writable && write.Some? {
      NumberIs(write.value);
      SameBytes(reply[3 + 2 * i], reply[4 + 2 * i], write.value[4], write.value[5]);
    }
  }

  lemma NumberIs(request: Request)
    ensures NumberOf(request) == BigEndian(request[4], request[5])
  {}

  /** What a register shows behind requests. */
  lemma ShownAfter(source: MonitorSource, id: bv8, store: Store, before: seq<Request>, read: Request, i: nat)
    requires forall r :: r in before ==> r[1] == READ || r[1] == WRITE
    requires RegisterOf(read, i) in store.registers
    ensures var key := RegisterOf(read, i);
      Shown(source, Serve(source, id, store, before).0, AddressOf(read), 0, i) as nat ==
      if store.registers[key].writable then
        match LastWrite(id, before, key)
        case Some(write) => NumberOf(write)
        case None => store.registers[key].value as nat
      else
        source(store.draws + DrawnBy(id, store.registers, before) +
               Drawn(store.registers, AddressOf(read), 0, i)) as nat
  {
    hide Serve, KeyAt, RegisterOf, AddressOf, NumberOf, LastWrite, Drawn, DrawnBy;
    RegisterIs(read, i);
    StoreRemembersLastWrite(source, id, store, before, RegisterOf(read, i));
    ServeDraws(source, id, store, before);
    DrawnSame(store.registers, Serve(source, id, store, before).0.registers, AddressOf(read), 0, i);
  }

  /** The slave from its start, over any stream cut in any way, for any key: the map of registers is
      the initial one with the last writes in it, and there is one proper reply to each request of the
      stream's one cut that is addressed to this slave. */
  lemma SlaveIsARegisterMap(source: MonitorSource, id: bv8, chunks: seq<seq<bv8>>, starts: seq<nat>, key: nat)
    requires IsCut(Flatten(chunks), starts)
    ensures var r := ReceiveAll(source, id, State(Store(MakeRegisterMap(), 0), []), chunks);
      var initial, registers := MakeRegisterMap(), r.state.store.registers;
      && (forall k :: 0 <= k < |starts| ==> starts[k] + REQUEST_LENGTH <= |Flatten(chunks)|)
      && var requests := Windows(Flatten(chunks), starts);
      && SameMap(initial, registers)
      && (key in initial && initial[key].writable ==>
            registers[key].value as nat ==
            match LastWrite(id, requests, key)
            case Some(write) => NumberOf(write)
            case None => initial[key].value as nat)
      && |r.sent| == AddressedTo(id, requests)
      && forall k :: 0 <= k < |r.sent| ==> ProperReply(id, r.sent[k])
  {
    hide Serve, Receive, ReceiveAll, Flatten, LastWrite, NumberOf, AddressedTo, ProperReply, MakeRegisterMap, SameMap,
        Starts, Covers, Accepted;
    var s, store := Flatten(chunks), Store(MakeRegisterMap(), 0);
    FragmentationIsInvisible(source, id, State(store, []), chunks);
    StreamIsServed(source, id, store, s, starts);
    var requests := Windows(s, starts);
    forall r | r in requests
      ensures r[1] == READ || r[1] == WRITE
    {
      var k :| 0 <= k < |requests| && requests[k] == r;
      assert RequestAt(s, starts[k]);
    }
    StoreRemembersLastWrite(source, id, store, requests, key);
    RepliesAreProper(source, id, store, requests);
  }

  // ----- Refusals -----

  /** A read of no register, or of more than fit in a reply. */
  predicate OutOfRange(request: Request) {
    request[1] == 0x03 && !(1 <= NumberOf(request) <= 125)
  }

  /** Some register asked for does not exist. */
  predicate Missing(request: Request, registers: RegisterMap) {
    if request[1] == 0x03 then exists k: nat :: k < NumberOf(request) && RegisterOf(request, k) !in registers
    else AddressOf(request) !in registers
  }

  predicate Protected(request: Request, registers: RegisterMap) {
    request[1] == 0x06 && AddressOf(request) in registers && !registers[AddressOf(request)].writable
  }

  /** The reply is the exception with this code to this request. */
  predicate IsException(reply: seq<bv8>, request: Request, code: bv8) {
    |reply| == 5 && reply[0] == request[0] && reply[1] == request[1] | 0x80 && reply[2] == code
  }

  /** Exception 3 answers a quantity out of range and a write to a read-only register, exception 2 any
      other request for a register that does not exist, and nothing else is answered with an exception.
      A write that is carried out is answered with itself. */
  lemma ExceptionsAreExact(source: MonitorSource, store: Store, request: Request)
    requires IsRequest(request)
    ensures var reply, registers := Handle(source, store, request).reply, store.registers;
      && (IsException(reply, request, 3) <==> OutOfRange(request) || Protected(request, registers))
      && (IsException(reply, request, 2) <==> !OutOfRange(request) && Missing(request, registers))
      && (IsException(reply, request, 2) || IsException(reply, request, 3) || reply[1] == request[1])
      && (request[1] == 0x06 && !Missing(request, registers) && !Protected(request, registers) ==> reply == request)
  {
    hide WithCrc, ReadFrom, StartAddress, Quantity, RequestWord, AddressOf, NumberOf, RegisterOf, KeyAt, Accepted,
        ByteOf;
    RequestNumbers(request);
    FailureIs(request, 2);
    FailureIs(request, 3);
    if request[1] == READ {
      if !OutOfRange(request) {
        FoundReply(source, store, request);
        MissingIs(source, store, request);
      }
    } else {
      TrailerIs(request);
    }
  }

  lemma FailureIs(request: Request, code: bv8)
    requires request[1] == READ || request[1] == WRITE
    ensures IsException(Failure(request, code), request, code)
  {
    hide WithCrc;
    var frame := [request[0], if request[1] == READ then 0x83 else 0x86, code];
    Trailed(frame, 0, 3);
    assert WithCrc(frame)[..3] == frame;
  }

  /** Reading stops at a missing register, and otherwise the reply begins like the request. */
  lemma MissingIs(source: MonitorSource, store: Store, request: Request)
    requires request[1] == READ && 0 < NumberOf(request) <= 125
    ensures var reading := ReadFrom(source, store, StartAddress(request), 0, Quantity(request));
      && (reading.Missing? <==> Missing(request, store.registers))
      && (reading.Found? ==> WithCrc(request[..2] + [ByteOf(2 * NumberOf(request))] + reading.bytes)[1] == READ)
  {
    hide WithCrc, ReadFrom, AddressOf, NumberOf, RegisterOf, KeyAt, ByteOf, StartAddress, Quantity;
    RequestNumbers(request);
    var start, quantity := StartAddress(request), Quantity(request);
    forall k: nat | k < quantity ensures RegisterOf(request, k) == KeyAt(start, k) {
      RegisterIs(request, k);
    }
    ReadSucceeds(source, store, start, 0, quantity);
    var reading := ReadFrom(source, store, start, 0, quantity);
    if reading.Found? {
      Headed(request[..2], ByteOf(2 * quantity), reading.bytes, 0);
    }
  }

  /** An accepted frame ends with the checksum of the rest. */
  lemma TrailerIs(frame: seq<bv8>)
    requires Accepted(frame)
    ensures WithCrc(frame[..|frame| - 2]) == frame
  {
    hide Crc, Word, HighByte, LowByte;
    BytesOfWord(frame[|frame| - 1], frame[|frame| - 2]);
  }

  /** A request that is refused changes no register. */
  lemma RefusalsChangeNothing(source: MonitorSource, store: Store, request: Request)
    requires request[1] == READ || request[1] == WRITE
    ensures var outcome := Handle(source, store, request);
      outcome.reply[1] != WRITE ==> outcome.store.registers == store.registers
  {
    hide Crc, ReadFrom, Quantity, StartAddress, RequestWord;
  }

  // ----- The master's side -----

  /** A request as a master sends it. */
  function MasterRequest(id: bv8, code: bv8, address: nat, number: nat): Request
    requires address < 0x10000 && number < 0x10000
  {
    WithCrc([id, code, ByteOf(address / 256), ByteOf(address % 256), ByteOf(number / 256), ByteOf(number % 256)])
  }

  lemma NumberInBytes(n: nat)
    requires n < 0x10000
    ensures BigEndian(ByteOf(n / 256), ByteOf(n % 256)) == n
  {
    ByteIs(n / 256);
    ByteIs(n % 256);
  }

  /** It is a request with just that address and number. */
  lemma MasterIsUnderstood(id: bv8, code: bv8, address: nat, number: nat)
    requires (code == 0x03 || code == 0x06) && address < 0x10000 && number < 0x10000
    ensures var r := MasterRequest(id, code, address, number);
      && IsRequest(r) && r[0] == id && r[1] == code && AddressOf(r) == address && NumberOf(r) == number
      && r[4] == ByteOf(number / 256) && r[5] == ByteOf(number % 256)
  {
    hide WithCrc, Accepted, BigEndian, ByteOf;
    var frame := [id, code, ByteOf(address / 256), ByteOf(address % 256), ByteOf(number / 256), ByteOf(number % 256)];
    AppendedIsAccepted(frame);
    Trailed(frame, 0, 6);
    var r := MasterRequest(id, code, address, number);
    assert r[..6] == frame;
    assert r[2] == r[..6][2] && r[3] == r[..6][3] && r[4] == r[..6][4] && r[5] == r[..6][5];
    NumberInBytes(address);
    NumberInBytes(number);
  }

  lemma ShortReply(reply: seq<bv8>, id: bv8, high: bv8, low: bv8)
    requires |reply| == 7 && Accepted(reply) && reply[..2] == [id, 0x03] && reply[2] as nat == 2
    requires reply[3] == high && reply[4] == low
    ensures reply == WithCrc([id, 0x03, 0x02, high, low])
  {
    hide WithCrc, Accepted;
    TrailerIs(reply);
    SameByte(reply[2], 2);
    assert reply[..2][0] == reply[0] && reply[..2][1] == reply[1];
    assert reply[..5] == [id, 0x03, 0x02, high, low];
  }

  /** A master that writes a number to a writable register and reads it back gets its request back, and then
      the number. */
  lemma MasterSeesItsWrite(source: MonitorSource, id: bv8, store: Store, address: nat, number: nat)
    requires address < 0x10000 && number < 0x10000
    requires address in store.registers && store.registers[address].writable
    ensures var write, read := MasterRequest(id, 0x06, address, number), MasterRequest(id, 0x03, address, 1);
      Receive(source, id, State(store, []), write + read).sent ==
      [write, WithCrc([id, 0x03, 0x02, ByteOf(number / 256), ByteOf(number % 256)])]
  {
    hide WithCrc, Accepted, ByteOf, MasterRequest, Handle, Receive, BigEndian, IsRequest, LastWrite, Serve;
    var write: Request := MasterRequest(id, 0x06, address, number);
    var read: Request := MasterRequest(id, 0x03, address, 1);
    var both: seq<Request> := [write, read];
    MasterIsUnderstood(id, 0x06, address, number);
    MasterIsUnderstood(id, 0x03, address, 1);
    FlattenTwo(write, read);
    BackToBack(source, id, store, both);
    TwoReplies(source, id, store, write, read);
    ExceptionsAreExact(source, store, write);
    OneWrite(id, write, address);
    ReadReturnsLastWrite(source, id, store, [write], read, [], 0);
    RepliesAreProper(source, id, store, both);
    assert [write] + [read] + [] == both;
    var sent := Serve(source, id, store, both).1;
    ShortReply(sent[1], id, write[4], write[5]);
  }

  lemma FlattenTwo(a: seq<bv8>, b: seq<bv8>)
    ensures Flatten([a, b]) == a + b
  {
    assert [a, b][1..] == [b] && [b][1..] == [];
    assert Flatten([b]) == b + Flatten([]) == b + [] == b;
  }

  lemma OneWrite(id: bv8, write: Request, key: nat)
    requires IsWriteTo(id, write, key)
    ensures LastWrite(id, [write], key) == Some(write)
  {
    hide IsWriteTo;
    assert [write][1..] == [];
    assert LastWrite(id, [write][1..], key) == None;
  }

  lemma TwoReplies(source: MonitorSource, id: bv8, store: Store, a: Request, b: Request)
    requires a[0] == id && b[0] == id
    ensures var sent := Serve(source, id, store, [a, b]).1;
      |sent| == 2 && sent[0] == Handle(source, store, a).reply && AddressedTo(id, [a]) == 1
  {
    hide Handle;
    var none: seq<Request>, first := [], Handle(source, store, a);
    assert [a, b][1..] == [b] && [b][1..] == none && [a][1..] == none;
    var second := Handle(source, first.store, b);
    assert Serve(source, id, first.store, [b]).1 == [second.reply] + Serve(source, id, second.store, none).1;
    assert AddressedTo(id, none) == 0;
  }
}
