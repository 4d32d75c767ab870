/** Whole runs of the telemetry server: any number of clients, their bytes cut and interleaved in any
    way (server/server_monitor.hpp, lines 129-182 and 237-268), and the lines the firmware sends
    (inverter/inverter.ino, lines 571-577 and 1037-1043). */
module Telemetry {
  import opened Options
  import opened Text
  import opened Numbers
  import opened LineAssembly

  /** All that a socket has received. */
  function StreamOf(arrivals: seq<Arrival>, socket: int): string {
    if arrivals == [] then ""
    else
      var last := arrivals[|arrivals| - 1];
      StreamOf(arrivals[..|arrivals| - 1], socket) + if last.socket == socket then last.bytes else ""
  }

  /** The lines of one socket in a log. */
  function LinesOf(log: seq<Handled>, socket: int): seq<string> {
    if log == [] then []
    else
      var last := log[|log| - 1];
      LinesOf(log[..|log| - 1], socket) + if last.socket == socket then [last.line] else []
  }

  function LogLines(log: seq<Handled>): (r: seq<string>)
    ensures |r| == |log|
  {
    seq(|log|, i requires 0 <= i < |log| => log[i].line)
  }

  function Start(store: Store): State {
    State(map[], store, [])
  }

  lemma {:induction false} LinesOfTagged(log: seq<Handled>, from: int, lines: seq<string>, socket: int)
    ensures LinesOf(log + Tagged(from, lines), socket) == LinesOf(log, socket) + if from == socket then lines else []
    decreases |lines|
  {
    var more := Tagged(from, lines);
    if lines == [] {
      assert log + more == log;
    } else {
      var lines' := lines[..|lines| - 1];
      assert (log + more)[..|log + more| - 1] == log + Tagged(from, lines');
      LinesOfTagged(log, from, lines', socket);
      assert lines == lines' + [lines[|lines| - 1]];
    }
  }

  lemma {:induction false} ApplyAllConcat(store: Store, a: seq<string>, b: seq<string>)
    ensures ApplyAll(store, a + b) == ApplyAll(ApplyAll(store, a), b)
    decreases |b|
  {
    hide Apply;
    if b == [] {
      assert a + b == a;
    } else {
      assert (a + b)[..|a + b| - 1] == a + b[..|b| - 1];
      ApplyAllConcat(store, a, b[..|b| - 1]);
    }
  }

  /** However the bytes of several clients are cut and interleaved: the lines handled for a socket are
      those of its whole stream, what is left of that stream waits, and the store is what the handled
      lines, in their order, make of the first one. */
  lemma {:induction false} AssemblyIsPerSocket(store: Store, arrivals: seq<Arrival>, socket: int)
    ensures var st := ReceiveAll(Start(store), arrivals);
      && LinesOf(st.handled, socket) == Kept(Lines(StreamOf(arrivals, socket)))
      && Pending(st.partialLines, socket) == Rest(StreamOf(arrivals, socket))
      && st.store == ApplyAll(store, LogLines(st.handled))
    decreases |arrivals|
  {
    hide Apply, Kept, Lines, Rest, ApplyAll;
    if arrivals == [] {
      NoLines("");
      NothingKept(store);
      assert LogLines([]) == [];
    } else {
      var before, last := arrivals[..|arrivals| - 1], arrivals[|arrivals| - 1];
      AssemblyIsPerSocket(store, before, socket);
      AssemblyIsPerSocket(store, before, last.socket);
      var st := ReceiveAll(Start(store), before);
      var stream := StreamOf(before, last.socket);
      var lines := Kept(Lines(Rest(stream) + last.bytes));
      LinesOfMore(stream, last.bytes);
      KeptConcat(Lines(stream), Lines(Rest(stream) + last.bytes));
      LinesOfTagged(st.handled, last.socket, lines, socket);
      ApplyAllConcat(store, LogLines(st.handled), lines);
      assert LogLines(st.handled + Tagged(last.socket, lines)) == LogLines(st.handled) + lines;
      assert StreamOf(before, socket) + "" == StreamOf(before, socket);
    }
  }

  // ----- A socket number used again -----

  function KeptOne(raw: string): seq<string> {
    if Strip(raw) == "" then [] else [Strip(raw)]
  }

  lemma KeptFirst(raw: string, lines: seq<string>)
    ensures Kept([raw] + lines) == KeptOne(raw) + Kept(lines)
  {
    KeptConcat([raw], lines);
    KeptNext([], raw);
    assert [] + [raw] == [raw];
  }

  lemma GluedLine(left: string, raw: string)
    requires left != ""
    ensures KeptOne(left + raw) == KeptOne(raw) <==> left == "\r" && raw == ""
  {
    if raw == "" {
      assert left + raw == left;
    } else {
      assert (left + raw)[|left + raw| - 1] == raw[|raw| - 1];
      assert |Strip(left + raw)| == |left| + |Strip(raw)|;
    }
  }

  /** `partialLines` outlives a connection. A client that gets the number of an earlier one has its own
      lines handled if and only if the earlier one left no unfinished line, or the new one finishes
      none, or the two halves make an empty line. */
  lemma ReusedSocket(earlier: string, stream: string)
    ensures Kept(Lines(earlier + stream)) == Kept(Lines(earlier)) + Kept(Lines(stream)) <==>
      Rest(earlier) == "" || '\n' !in stream || (Rest(earlier) == "\r" && stream[0] == '\n')
  {
    hide Kept, Lines, Rest;
    var left := Rest(earlier);
    LinesOfMore(earlier, stream);
    KeptConcat(Lines(earlier), Lines(left + stream));
    NoLines(stream);
    LinesCut(earlier);
    if left == "" {
      assert left + stream == stream;
    } else if '\n' !in stream {
      NoLines(left + stream);
    } else {
      var k := LineEnd(stream);
      assert k < |stream| by { assert stream[..|stream|] == stream; }
      var raw, tail := stream[..k], stream[k + 1..];
      assert stream == raw + "\n" + tail && left + stream == (left + raw) + "\n" + tail;
      LinesStep(raw, tail);
      LinesStep(left + raw, tail);
      KeptFirst(raw, Lines(tail));
      KeptFirst(left + raw, Lines(tail));
      GluedLine(left, raw);
      Cancel(Kept(Lines(earlier)), KeptOne(left + raw), KeptOne(raw), Kept(Lines(tail)));
      assert raw == "" <==> stream[0] == '\n';
    }
  }

  lemma Cancel(a: seq<string>, x: seq<string>, y: seq<string>, b: seq<string>)
    ensures a + (x + b) == a + (y + b) <==> x == y
  {
    if a + (x + b) == a + (y + b) {
      assert |x| == |y|;
      assert (a + (x + b))[|a|..|a| + |x|] == x;
      assert (a + (y + b))[|a|..|a| + |x|] == y;
    }
  }

  // ----- What the firmware sends -----

  function ReadingLine(r: Reading): string {
    NatToString(r.address) + " " + NatToString(r.value)
  }

  function RelayText(relay: nat, state: nat, ip: string): string {
    "R" + NatToString(relay) + " " + NatToString(state) + " " + ip
  }

  function RelayLine(r: RelayReport): string {
    RelayText(r.relay, r.state, r.ip)
  }

  /** A number printed behind blanks is read back, and what follows it is left. */
  lemma NumberRead(blanks: string, n: nat, tail: string)
    requires Blank(blanks) && n < ULONG_RANGE && (tail != "" ==> !IsDigit(tail[0]))
    ensures Stoul(blanks + NatToString(n) + tail) == Some(n)
    ensures Unread(blanks + NatToString(n) + tail) == tail
  {
    var digits := NatToString(n);
    var s := blanks + digits + tail;
    hide SkipBlanks, SkipDigits, NatToString, DigitsValue;
    assert At(s, 0, blanks) && At(s, |blanks|, digits);
    assert s[|blanks|] == digits[0];
    SkipBlanksAt(s, 0, blanks);
    SkipDigitsAt(s, |blanks|, digits);
    assert s[|blanks|..|blanks| + |digits|] == digits;
    assert s[|blanks| + |digits|..] == tail;
    NumeralValue(n);
  }

  lemma {:induction false} WordIs(s: string, p: nat, word: string)
    requires p <= |s| && s[p..] == word && forall c :: c in word ==> !IsSpace(c)
    ensures WordEnd(s, p) == |s|
    decreases |word|
  {
    if p < |s| {
      assert s[p] == word[0];
      assert s[p + 1..] == word[1..];
      WordIs(s, p + 1, word[1..]);
    }
  }

  /** The line of a reading is read as that reading, and stores the two's complement of its 16 bits. */
  lemma ReadingIsStored(store: Store, r: Reading)
    ensures ParseReading(ReadingLine(r)) == Some(r)
    ensures Apply(store, ReadingLine(r)) == store.(lastValues := store.lastValues[r.address := Signed16(r.value)])
  {
    var a, v := NatToString(r.address), NatToString(r.value);
    var line := ReadingLine(r);
    hide NatToString, Stoul, Unread;
    assert "" + a + (" " + v) == line;
    NumberRead("", r.address, " " + v);
    assert " " + v + "" == " " + v;
    NumberRead(" ", r.value, "");
    assert line[0] == a[0];
  }

  /** A line of two numbers one of which does not fit 16 bits changes nothing. */
  lemma LargeReadingIsRefused(store: Store, address: nat, value: nat)
    requires address < ULONG_RANGE && value < ULONG_RANGE && (address > 65535 || value > 65535)
    ensures Apply(store, NatToString(address) + " " + NatToString(value)) == store
  {
    var a, v := NatToString(address), NatToString(value);
    hide NatToString, Stoul, Unread;
    assert "" + a + (" " + v) == a + " " + v;
    NumberRead("", address, " " + v);
    assert " " + v + "" == " " + v;
    NumberRead(" ", value, "");
    assert (a + " " + v)[0] == a[0];
  }

  /** The line of a relay is read as that report, and never as a reading. */
  lemma RelayIsStored(store: Store, r: RelayReport)
    requires 1 <= r.relay <= 4 && r.state <= 1 && r.ip != "" && forall c :: c in r.ip ==> !IsSpace(c)
    ensures ParseRelay(RelayLine(r)) == Some(r) && ParseReading(RelayLine(r)) == None
    ensures var st := Apply(store, RelayLine(r));
      && st.lastValues == store.lastValues[r.relay := r.state]
      && st.relayIps == if r.relay in store.relayIps then store.relayIps[r.relay := r.ip] else store.relayIps
  {
    hide RelayText, Stoul, Unread, Word;
    RelayParts(r.relay, r.state, r.ip);
    StartsWithR(RelayLine(r));
    WordBehindBlank(r.ip);
  }

  /** What is read of a relay line, piece by piece. */
  lemma RelayParts(relay: nat, state: nat, ip: string)
    requires relay < ULONG_RANGE && state < ULONG_RANGE
    ensures var line := RelayText(relay, state, ip);
      && line != "" && line[0] == 'R' && Stoul(line[1..]) == Some(relay)
      && Stoul(Unread(line[1..])) == Some(state) && Unread(Unread(line[1..])) == " " + ip
  {
    var n, s, line := NatToString(relay), NatToString(state), RelayText(relay, state, ip);
    hide NatToString, Stoul, Unread;
    assert line[1..] == "" + n + (" " + s + (" " + ip));
    NumberRead("", relay, " " + s + (" " + ip));
    NumberRead(" ", state, " " + ip);
  }

  /** A relay line with a relay or a state that does not exist changes nothing. */
  lemma LargeRelayIsRefused(store: Store, relay: nat, state: nat, ip: string)
    requires relay < ULONG_RANGE && state < ULONG_RANGE && (relay == 0 || relay > 4 || state > 1)
    ensures Apply(store, RelayText(relay, state, ip)) == store
  {
    hide RelayText, Stoul, Unread, Word;
    RelayParts(relay, state, ip);
    StartsWithR(RelayText(relay, state, ip));
  }

  lemma StartsWithR(line: string)
    requires line != "" && line[0] == 'R'
    ensures Stoul(line) == None
  {}

  lemma WordBehindBlank(word: string)
    requires word != "" && forall c :: c in word ==> !IsSpace(c)
    ensures Word(" " + word) == word
  {
    var s := " " + word;
    assert s[1] == word[0];
    SkipBlanksAt(s, 0, " ");
    assert s[1..] == word;
    WordIs(s, 1, word);
  }

  function ReadingLines(readings: seq<Reading>): (r: seq<string>)
    ensures |r| == |readings|
  {
    seq(|readings|, i requires 0 <= i < |readings| => ReadingLine(readings[i]))
  }

  /** The values after readings, each stored under its address as a 16-bit two's complement. */
  function Mirror(values: map<nat, int>, readings: seq<Reading>): map<nat, int> {
    if readings == [] then values
    else
      var last := readings[|readings| - 1];
      Mirror(values, readings[..|readings| - 1])[last.address := Signed16(last.value)]
  }

  lemma PlainLine(r: Reading)
    ensures '\n' !in ReadingLine(r) && Strip(ReadingLine(r)) == ReadingLine(r) != ""
  {
    hide NatToString;
    var line, a, v := ReadingLine(r), NatToString(r.address), NatToString(r.value);
    assert forall c :: c in line ==> c in a || c == ' ' || c in v;
    assert line[|line| - 1] == v[|v| - 1];
  }

  lemma {:induction false} PlainLines(readings: seq<Reading>)
    ensures Kept(ReadingLines(readings)) == ReadingLines(readings)
    ensures forall line :: line in ReadingLines(readings) ==> '\n' !in line
  {
    hide ReadingLine, Strip, Kept;
    var lines := ReadingLines(readings);
    if readings == [] {
      NothingKept(Store(map[], map[]));
    } else {
      var before, last := readings[..|readings| - 1], readings[|readings| - 1];
      PlainLines(before);
      PlainLine(last);
      KeptNext(ReadingLines(before), ReadingLine(last));
      assert lines == ReadingLines(before) + [ReadingLine(last)];
    }
  }

  /** A device whose readings arrive on its socket, in pieces and between the pieces of other clients:
      exactly its lines are handled for it, in order, and nothing of them is left over. */
  lemma DeviceIsHeard(store: Store, arrivals: seq<Arrival>, socket: int, readings: seq<Reading>)
    requires StreamOf(arrivals, socket) == Join(ReadingLines(readings))
    ensures var st := ReceiveAll(Start(store), arrivals);
      LinesOf(st.handled, socket) == ReadingLines(readings) && Pending(st.partialLines, socket) == ""
  {
    hide Kept, Lines, Rest, ReadingLines, Join, ReceiveAll, StreamOf;
    AssemblyIsPerSocket(store, arrivals, socket);
    PlainLines(readings);
    CutIsUnique(ReadingLines(readings), "");
    assert Join(ReadingLines(readings)) + "" == Join(ReadingLines(readings));
  }

  /** The line changes the value stored under an address. */
  predicate Touches(line: string, address: nat) {
    match ParseRelay(line)
    case Some(r) => r.relay == address
    case None => match ParseReading(line) case Some(r) => r.address == address case None => false
  }

  predicate SameAt(address: nat, a: map<nat, int>, b: map<nat, int>) {
    (address in a <==> address in b) && (address in a ==> a[address] == b[address])
  }

  lemma {:induction false} LoggedLine(log: seq<Handled>, i: nat)
    requires i < |log|
    ensures log[i].line in LinesOf(log, log[i].socket)
    decreases |log|
  {
    var n := |log| - 1;
    var lines := LinesOf(log, log[i].socket);
    if i < n {
      LoggedLine(log[..n], i);
    } else {
      assert lines[|lines| - 1] == log[n].line;
    }
  }

  lemma ApplySameAt(address: nat, a: Store, b: Store, line: string)
    requires SameAt(address, a.lastValues, b.lastValues)
    ensures SameAt(address, Apply(a, line).lastValues, Apply(b, line).lastValues)
    ensures !Touches(line, address) ==> SameAt(address, a.lastValues, Apply(a, line).lastValues)
  {}

  lemma {:induction false} OthersDoNotMatter(store: Store, log: seq<Handled>, socket: int, address: nat)
    requires forall h :: h in log && h.socket != socket ==> !Touches(h.line, address)
    ensures SameAt(address, ApplyAll(store, LogLines(log)).lastValues, ApplyAll(store, LinesOf(log, socket)).lastValues)
    decreases |log|
  {
    hide Apply, Touches, ApplyAll;
    if log == [] {
      assert LogLines(log) == [];
    } else {
      var before, last := log[..|log| - 1], log[|log| - 1];
      var all, own := LogLines(before), LinesOf(before, socket);
      OthersDoNotMatter(store, before, socket, address);
      assert LogLines(log) == all + [last.line];
      ApplyNext(store, all, last.line);
      ApplyNext(store, own, last.line);
      ApplySameAt(address, ApplyAll(store, all), ApplyAll(store, own), last.line);
      assert own + [] == own;
    }
  }

  lemma {:induction false} ReadingsAreStored(store: Store, readings: seq<Reading>)
    ensures ApplyAll(store, ReadingLines(readings)) == store.(lastValues := Mirror(store.lastValues, readings))
  {
    hide ReadingLine, Apply;
    if readings != [] {
      var before, last := readings[..|readings| - 1], readings[|readings| - 1];
      ReadingsAreStored(store, before);
      ReadingIsStored(store.(lastValues := Mirror(store.lastValues, before)), last);
      assert ReadingLines(readings)[..|readings| - 1] == ReadingLines(before);
    }
  }

  /** And when no other client reports the address, the server's value mirrors the device's readings,
      whatever else the others send. */
  lemma DeviceIsMirrored(store: Store, arrivals: seq<Arrival>, socket: int, readings: seq<Reading>, address: nat)
    requires StreamOf(arrivals, socket) == Join(ReadingLines(readings))
    requires forall other, line ::
      other != socket && line in Kept(Lines(StreamOf(arrivals, other))) ==> !Touches(line, address)
    ensures SameAt(address, ReceiveAll(Start(store), arrivals).store.lastValues, Mirror(store.lastValues, readings))
  {
    hide Kept, Lines, Rest, ReadingLines, Join, StreamOf, Mirror, ApplyAll, ReceiveAll, Touches, SameAt;
    var log := ReceiveAll(Start(store), arrivals).handled;
    DeviceIsHeard(store, arrivals, socket, readings);
    AssemblyIsPerSocket(store, arrivals, socket);
    forall h | h in log && h.socket != socket
      ensures !Touches(h.line, address)
    {
      var i :| 0 <= i < |log| && log[i] == h;
      LoggedLine(log, i);
      AssemblyIsPerSocket(store, arrivals, h.socket);
    }
    OthersDoNotMatter(store, log, socket, address);
    ReadingsAreStored(store, readings);
  }
}
