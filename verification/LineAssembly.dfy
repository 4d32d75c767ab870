/** The telemetry server's reassembly of lines (server/server_monitor.hpp, lines 129-182 and 237-268):
    what each socket has sent, cut into lines however it arrives, and the values those lines store. */
module LineAssembly {
  import opened Options
  import opened Text
  import opened Numbers

  // ----- Lines of a stream -----

  /** The position of the first line feed, the length when there is none. */
  function LineEnd(s: string): (k: nat)
    ensures k <= |s| && '\n' !in s[..k]
    ensures k < |s| ==> s[k] == '\n'
    decreases |s|
  {
    if s == [] || s[0] == '\n' then 0
    else
      var k := LineEnd(s[1..]);
      assert s[..k + 1] == [s[0]] + s[1..][..k];
      k + 1
  }

  /** The complete lines of a stream, without their line feeds, and what follows the last of them. */
  function Lines(s: string): seq<string>
    decreases |s|
  {
    var k := LineEnd(s);
    if k == |s| then [] else [s[..k]] + Lines(s[k + 1..])
  }

  function Rest(s: string): string
    decreases |s|
  {
    var k := LineEnd(s);
    if k == |s| then s else Rest(s[k + 1..])
  }

  function Join(lines: seq<string>): string {
    if lines == [] then "" else lines[0] + "\n" + Join(lines[1..])
  }

  lemma {:induction false} LineEndIs(line: string, rest: string)
    requires '\n' !in line
    ensures LineEnd(line + "\n" + rest) == |line|
    decreases |line|
  {
    if line != "" {
      LineEndIs(line[1..], rest);
      assert (line + "\n" + rest)[1..] == line[1..] + "\n" + rest;
    }
  }

  lemma LinesStep(line: string, rest: string)
    requires '\n' !in line
    ensures Lines(line + "\n" + rest) == [line] + Lines(rest) && Rest(line + "\n" + rest) == Rest(rest)
  {
    var s := line + "\n" + rest;
    LineEndIs(line, rest);
    assert s[..|line|] == line && s[|line| + 1..] == rest;
  }

  lemma NoLines(s: string)
    ensures '\n' !in s <==> Lines(s) == []
    ensures '\n' !in s ==> Rest(s) == s
  {
    assert s[..|s|] == s;
    assert LineEnd(s) < |s| ==> s[LineEnd(s)] in s;
  }

  lemma JoinStep(line: string, lines: seq<string>, rest: string)
    ensures Join([line] + lines) + rest == line + "\n" + (Join(lines) + rest)
  {
    assert ([line] + lines)[1..] == lines;
  }

  predicate IsCut(s: string, lines: seq<string>, rest: string) {
    s == Join(lines) + rest && '\n' !in rest && forall line :: line in lines ==> '\n' !in line
  }

  lemma {:induction false} CutIsUnique(lines: seq<string>, rest: string)
    requires '\n' !in rest && forall line :: line in lines ==> '\n' !in line
    ensures Lines(Join(lines) + rest) == lines && Rest(Join(lines) + rest) == rest
  {
    hide Lines, Rest, Join;
    if lines == [] {
      assert "" + rest == rest;
      NoLines(rest);
      EmptyJoin();
    } else {
      CutIsUnique(lines[1..], rest);
      LinesStep(lines[0], Join(lines[1..]) + rest);
      JoinStep(lines[0], lines[1..], rest);
      assert lines == [lines[0]] + lines[1..];
    }
  }

  lemma EmptyJoin()
    ensures Join([]) == ""
  {}

  lemma {:induction false} LinesCut(s: string)
    ensures IsCut(s, Lines(s), Rest(s))
    decreases |s|
  {
    hide Join, LineEnd, Lines, Rest;
    var k := LineEnd(s);
    NoLines(s);
    if k == |s| {
      EmptyJoin();
      assert s[..k] == s == "" + s;
    } else {
      var line, tail := s[..k], s[k + 1..];
      assert s == line + "\n" + tail;
      LinesStep(line, tail);
      LinesCut(tail);
      JoinStep(line, Lines(tail), Rest(tail));
    }
  }

  /** The lines are the cut of the stream at its line feeds: there is one, and no other. */
  lemma LinesAreTheCut(s: string, lines: seq<string>, rest: string)
    ensures lines == Lines(s) && rest == Rest(s) <==> IsCut(s, lines, rest)
  {
    LinesCut(s);
    if IsCut(s, lines, rest) {
      CutIsUnique(lines, rest);
    }
  }

  /** Reading on: the lines of a longer stream are the lines so far, then those of the rest and the new text. */
  lemma {:induction false} LinesOfMore(a: string, b: string)
    ensures Lines(a + b) == Lines(a) + Lines(Rest(a) + b) && Rest(a + b) == Rest(Rest(a) + b)
    decreases |a|
  {
    hide LineEnd, Lines, Rest;
    NoLines(a);
    var k := LineEnd(a);
    if k < |a| {
      var line, tail := a[..k], a[k + 1..];
      assert a == line + "\n" + tail;
      assert a + b == line + "\n" + (tail + b);
      LinesStep(line, tail);
      LinesStep(line, tail + b);
      LinesOfMore(tail, b);
      assert [line] + (Lines(tail) + Lines(Rest(tail) + b)) == ([line] + Lines(tail)) + Lines(Rest(tail) + b);
    } else {
      assert a[..k] == a;
      assert [] + Lines(a + b) == Lines(a + b);
    }
  }

  /** A line as it is handled: without a carriage return at its end, and not at all when nothing is left. */
  function Strip(line: string): string {
    if line != "" && line[|line| - 1] == '\r' then line[..|line| - 1] else line
  }

  function Kept(lines: seq<string>): (r: seq<string>) {
    if lines == [] then []
    else
      var line := Strip(lines[|lines| - 1]);
      Kept(lines[..|lines| - 1]) + if line == "" then [] else [line]
  }

  lemma {:induction false} KeptConcat(a: seq<string>, b: seq<string>)
    ensures Kept(a + b) == Kept(a) + Kept(b)
    decreases |b|
  {
    if b == [] {
      assert a + b == a;
    } else {
      var b' := b[..|b| - 1];
      assert (a + b)[..|a + b| - 1] == a + b';
      KeptConcat(a, b');
    }
  }

  // ----- What a line stores -----

  /** The last values by address, and the addresses of the known relays. */
  datatype Store = Store(lastValues: map<nat, int>, relayIps: map<nat, string>)

  type Word16 = n: nat | n < 0x10000

  /** The 16 bits read as a two's complement. */
  function Signed16(v: Word16): (r: int)
    ensures -0x8000 <= r < 0x8000 && r % 0x10000 == v
  {
    if v < 0x8000 then v else v - 0x10000
  }

  /** What `>>` leaves of the text when it has read a number. */
  function Unread(s: string): string {
    s[SkipDigits(s, SkipSign(s, SkipBlanks(s, 0)))..]
  }

  function WordEnd(s: string, p: nat): (r: nat)
    requires p <= |s|
    ensures p <= r <= |s|
    decreases |s| - p
  {
    if p < |s| && !IsSpace(s[p]) then WordEnd(s, p + 1) else p
  }

  /** The word that `>>` reads, empty when there is none. */
  function Word(s: string): string {
    var p := SkipBlanks(s, 0);
    s[p..WordEnd(s, p)]
  }

  datatype RelayReport = RelayReport(relay: nat, state: nat, ip: string)

  function ParseRelay(line: string): (r: Option<RelayReport>)
    ensures r.Some? ==> 1 <= r.value.relay <= 4 && r.value.state <= 1 && line != "" && line[0] == 'R'
  {
    if line == "" || line[0] != 'R' then None
    else
      var text := line[1..];
      match Stoul(text)
      case None => None
      case Some(relay) =>
        var behind := Unread(text);
        match Stoul(behind)
        case None => None
        case Some(state) =>
          var ip := Word(Unread(behind));
          if ip == "" || relay == 0 || relay > 4 || state > 1 then None else Some(RelayReport(relay, state, ip))
  }

  datatype Reading = Reading(address: Word16, value: Word16)

  function ParseReading(line: string): Option<Reading> {
    match Stoul(line)
    case None => None
    case Some(address) =>
      match Stoul(Unread(line))
      case None => None
      case Some(value) => if address > 0xFFFF || value > 0xFFFF then None else Some(Reading(address, value))
  }

  predicate Understood(line: string) {
    ParseRelay(line).Some? || ParseReading(line).Some?
  }

  function Apply(store: Store, line: string): Store {
    match ParseRelay(line)
    case Some(r) =>
      Store(store.lastValues[r.relay := r.state],
            if r.relay in store.relayIps then store.relayIps[r.relay := r.ip] else store.relayIps)
    case None =>
      match ParseReading(line)
      case Some(r) => store.(lastValues := store.lastValues[r.address := Signed16(r.value)])
      case None => store
  }

  function ApplyAll(store: Store, lines: seq<string>): Store {
    if lines == [] then store else Apply(ApplyAll(store, lines[..|lines| - 1]), lines[|lines| - 1])
  }

  lemma NothingKept(store: Store)
    ensures Kept([]) == [] && ApplyAll(store, []) == store
  {}

  lemma KeptNext(lines: seq<string>, raw: string)
    ensures Kept(lines + [raw]) == if Strip(raw) == "" then Kept(lines) else Kept(lines) + [Strip(raw)]
  {
    assert (lines + [raw])[..|lines|] == lines;
  }

  lemma ApplyNext(store: Store, lines: seq<string>, line: string)
    ensures ApplyAll(store, lines + [line]) == Apply(ApplyAll(store, lines), line)
  {
    assert (lines + [line])[..|lines|] == lines;
  }

  // ----- The server -----

  datatype Arrival = Arrival(socket: int, bytes: string)

  /** A line handled, with the socket it came from. */
  datatype Handled = Handled(socket: int, line: string)

  function Tagged(socket: int, lines: seq<string>): (r: seq<Handled>)
    ensures |r| == |lines|
  {
    seq(|lines|, i requires 0 <= i < |lines| => Handled(socket, lines[i]))
  }

  datatype State = State(partialLines: map<int, string>, store: Store, handled: seq<Handled>)

  function Pending(partialLines: map<int, string>, socket: int): string {
    if socket in partialLines then partialLines[socket] else ""
  }

  function Receive(st: State, a: Arrival): State {
    var text := Pending(st.partialLines, a.socket) + a.bytes;
    var lines := Kept(Lines(text));
    State(st.partialLines[a.socket := Rest(text)], ApplyAll(st.store, lines), st.handled + Tagged(a.socket, lines))
  }

  function ReceiveAll(st: State, arrivals: seq<Arrival>): State {
    if arrivals == [] then st else Receive(ReceiveAll(st, arrivals[..|arrivals| - 1]), arrivals[|arrivals| - 1])
  }

  class Monitor {
    var partialLines: map<int, string>
    var lastValues: map<nat, int>
    var relayIps: map<nat, string>
    ghost var handled: seq<Handled>

    ghost function Value(): State
      reads this
    {
      State(partialLines, Store(lastValues, relayIps), handled)
    }

    constructor ()
      ensures Value() == State(map[], Store(map[], map[1 := "", 2 := "", 3 := "", 4 := ""]), [])
    {
      partialLines, lastValues, handled := map[], map[], [];
      relayIps := map[1 := "", 2 := "", 3 := "", 4 := ""];
    }

    method UpdateRelayStateWithIp(line: string) returns (ok: bool)
      modifies `lastValues, `relayIps
      ensures ok == ParseRelay(line).Some?
      ensures Store(lastValues, relayIps) ==
        if ok then Apply(old(Store(lastValues, relayIps)), line) else old(Store(lastValues, relayIps))
    {
      if line == "" || line[0] != 'R' {
        return false;
      }
      var text := line[1..];
      var relay := Stoul(text);
      if relay.None? {
        return false;
      }
      text := Unread(text);
      var state := Stoul(text);
      if state.None? {
        return false;
      }
      var ip := Word(Unread(text));
      if ip == "" || relay.value == 0 || relay.value > 4 || state.value > 1 {
        return false;
      }
      var address := relay.value;
      if address !in lastValues || lastValues[address] != state.value {
        lastValues := lastValues[address := state.value];
      }
      if address in relayIps && relayIps[address] != ip {
        relayIps := relayIps[address := ip];
      }
      ok := true;
    }

    method UpdateAddressValue(line: string) returns (ok: bool)
      modifies `lastValues
      ensures ok == ParseReading(line).Some?
      ensures lastValues == match ParseReading(line)
        case Some(r) => old(lastValues)[r.address := Signed16(r.value)]
        case None => old(lastValues)
    {
      var address := Stoul(line);
      if address.None? {
        return false;
      }
      var rawValue := Stoul(Unread(line));
      if rawValue.None? || address.value > 0xFFFF || rawValue.value > 0xFFFF {
        return false;
      }
      var value := Signed16(rawValue.value);
      if address.value !in lastValues || lastValues[address.value] != value {
        lastValues := lastValues[address.value := value];
      }
      ok := true;
    }

    method HandleLine(line: string) returns (changed: bool)
      modifies `lastValues, `relayIps
      ensures changed == Understood(line)
      ensures Store(lastValues, relayIps) == Apply(old(Store(lastValues, relayIps)), line)
    {
      changed := UpdateRelayStateWithIp(line);
      if !changed {
        changed := UpdateAddressValue(line);
      }
    }

    method OnReceive(socket: int, bytes: string) returns (valuesChanged: bool)
      modifies this
      ensures Value() == Receive(old(Value()), Arrival(socket, bytes))
      ensures valuesChanged <==>
        exists line :: line in Kept(Lines(Pending(old(partialLines), socket) + bytes)) && Understood(line)
    {
      hide Understood, Apply, ApplyAll, Strip, LineEnd, Kept;
      valuesChanged := false;
      var pending := Pending(partialLines, socket) + bytes;
      ghost var text, done, lines, before := pending, [], [], Store(lastValues, relayIps);
      NothingKept(before);
      while LineEnd(pending) < |pending|
        invariant Lines(text) == done + Lines(pending) && Rest(text) == Rest(pending)
        invariant lines == Kept(done)
        invariant Store(lastValues, relayIps) == ApplyAll(before, lines)
        invariant handled == old(handled) && partialLines == old(partialLines)
        invariant valuesChanged <==> exists line :: line in lines && Understood(line)
        decreases |pending|
      {
        var newlinePos := LineEnd(pending);
        var raw := pending[..newlinePos];
        var line := Strip(raw);
        KeptNext(done, raw);
        if line != "" {
          ApplyNext(before, lines, line);
          var changed := HandleLine(line);
          valuesChanged := valuesChanged || changed;
          lines := lines + [line];
        }
        assert done + ([raw] + Lines(pending[newlinePos + 1..])) == (done + [raw]) + Lines(pending[newlinePos + 1..]);
        done := done + [raw];
        pending := pending[newlinePos + 1..];
      }
      assert done + [] == done;
      partialLines := partialLines[socket := pending];
      handled := handled + Tagged(socket, lines);
    }
  }
}
