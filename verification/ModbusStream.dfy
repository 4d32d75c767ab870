/** What the slave of module ModbusSlave does over whole byte streams. */
module ModbusStream {
  import opened ModbusSlave

  // ----- Fragmentation -----

  /** A round looks at the first eight bytes only. */
  lemma StepIsLocal(source: MonitorSource, id: bv8, st: State, more: seq<bv8>)
    requires |st.buffer| >= REQUEST_LENGTH
    ensures var r := Step(source, id, st);
      Step(source, id, st.(buffer := st.buffer + more)) == Result(r.state.(buffer := r.state.buffer + more), r.sent)
  {
    hide IsRequest, Handle;
    var whole := st.buffer + more;
    assert whole[..REQUEST_LENGTH] == st.buffer[..REQUEST_LENGTH];
    assert whole[1..] == st.buffer[1..] + more;
    assert whole[REQUEST_LENGTH..] == st.buffer[REQUEST_LENGTH..] + more;
  }

  /** Bytes that arrive after draining could as well have been there before. */
  lemma {:induction false} DrainIsIncremental(source: MonitorSource, id: bv8, st: State, more: seq<bv8>)
    ensures var first := Drain(source, id, st);
      var second := Receive(source, id, first.state, more);
      Receive(source, id, st, more) == Result(second.state, first.sent + second.sent)
    decreases |st.buffer|
  {
    hide Step;
    if |st.buffer| >= REQUEST_LENGTH {
      var r := Step(source, id, st);
      StepIsLocal(source, id, st, more);
      DrainIsIncremental(source, id, r.state, more);
      var first := Drain(source, id, r.state);
      var second := Receive(source, id, first.state, more);
      assert (r.sent + first.sent) + second.sent == r.sent + (first.sent + second.sent);
    } else {
      assert [] + Receive(source, id, st, more).sent == Receive(source, id, st, more).sent;
    }
  }

  /** However the stream is cut into reads, the replies, the store and the bytes left over are
      those of reading it all at once. */
  lemma {:induction false} FragmentationIsInvisible(source: MonitorSource, id: bv8, st: State, chunks: seq<seq<bv8>>)
    requires |st.buffer| < REQUEST_LENGTH
    ensures ReceiveAll(source, id, st, chunks) == Receive(source, id, st, Flatten(chunks))
    decreases |chunks|
  {
    if chunks == [] {
      assert st.buffer + [] == st.buffer;
    } else {
      var first := Receive(source, id, st, chunks[0]);
      FragmentationIsInvisible(source, id, first.state, chunks[1..]);
      DrainIsIncremental(source, id, st.(buffer := st.buffer + chunks[0]), Flatten(chunks[1..]));
      assert st.buffer + chunks[0] + Flatten(chunks[1..]) == st.buffer + Flatten(chunks);
    }
  }

  // ----- Which windows of the stream are requests -----

  predicate RequestAt(s: seq<bv8>, p: nat) {
    p + REQUEST_LENGTH <= |s| && IsRequest(s[p..p + REQUEST_LENGTH])
  }

  /** The decoder's choice, described without running it: windows in order, not overlapping, all of
      them requests, and every other request window overlaps an earlier chosen one. */
  ghost predicate IsCut(s: seq<bv8>, starts: seq<nat>) {
    && (forall i :: 0 <= i < |starts| ==> RequestAt(s, starts[i]))
    && (forall i, j :: 0 <= i < j < |starts| ==> starts[i] + REQUEST_LENGTH <= starts[j])
    && (forall p: nat :: RequestAt(s, p) ==> Covers(starts, p))
  }

  ghost predicate Covers(starts: seq<nat>, p: nat) {
    exists i :: 0 <= i < |starts| && starts[i] <= p < starts[i] + REQUEST_LENGTH
  }

  function Starts(s: seq<bv8>, p: nat): (r: seq<nat>)
    requires p <= |s|
    ensures forall i :: 0 <= i < |r| ==> p <= r[i] && r[i] + REQUEST_LENGTH <= |s|
    decreases |s| - p
  {
    if p + REQUEST_LENGTH > |s| then []
    else if RequestAt(s, p) then [p] + Starts(s, p + REQUEST_LENGTH)
    else Starts(s, p + 1)
  }

  function Windows(s: seq<bv8>, starts: seq<nat>): seq<Request>
    requires forall i :: 0 <= i < |starts| ==> starts[i] + REQUEST_LENGTH <= |s|
  {
    seq(|starts|, i requires 0 <= i < |starts| => s[starts[i]..starts[i] + REQUEST_LENGTH])
  }

  /** Where the undecoded rest begins. */
  function RestFrom(s: seq<bv8>, p: nat): (e: nat)
    requires p <= |s|
    ensures p <= e <= |s| < e + REQUEST_LENGTH
    decreases |s| - p
  {
    if p + REQUEST_LENGTH > |s| then p
    else if RequestAt(s, p) then RestFrom(s, p + REQUEST_LENGTH)
    else RestFrom(s, p + 1)
  }

  /** Serving a list of requests: those for another slave are passed over. */
  function Serve(source: MonitorSource, id: bv8, store: Store, requests: seq<Request>): (Store, seq<seq<bv8>>)
    decreases |requests|
  {
    if requests == [] then
      (store, [])
    else if requests[0][0] != id then
      Serve(source, id, store, requests[1..])
    else
      var outcome := Handle(source, store, requests[0]);
      var rest := Serve(source, id, outcome.store, requests[1..]);
      (rest.0, [outcome.reply] + rest.1)
  }

  lemma {:induction false} StartsAreRequests(s: seq<bv8>, p: nat)
    requires p <= |s|
    ensures forall i :: 0 <= i < |Starts(s, p)| ==> RequestAt(s, Starts(s, p)[i])
    ensures forall i, j :: 0 <= i < j < |Starts(s, p)| ==> Starts(s, p)[i] + REQUEST_LENGTH <= Starts(s, p)[j]
    decreases |s| - p
  {
    hide IsRequest;
    if p + REQUEST_LENGTH <= |s| {
      StartsAreRequests(s, if RequestAt(s, p) then p + REQUEST_LENGTH else p + 1);
    }
  }

  lemma {:induction false} StartsMissNothing(s: seq<bv8>, p: nat, q: nat) returns (i: nat)
    requires p <= q && RequestAt(s, q)
    ensures i < |Starts(s, p)| && Starts(s, p)[i] <= q < Starts(s, p)[i] + REQUEST_LENGTH
    decreases |s| - p
  {
    hide IsRequest;
    if RequestAt(s, p) {
      if q < p + REQUEST_LENGTH {
        i := 0;
      } else {
        i := StartsMissNothing(s, p + REQUEST_LENGTH, q);
        i := i + 1;
      }
    } else {
      i := StartsMissNothing(s, p + 1, q);
    }
  }

  lemma NotCovered(starts: seq<nat>, p: nat)
    requires forall i :: 0 <= i < |starts| ==> starts[i] + REQUEST_LENGTH <= p || p < starts[i]
    ensures !Covers(starts, p)
  {}

  /** There is only one way to cut a stream like that. */
  lemma CutIsUnique(s: seq<bv8>, x: seq<nat>, y: seq<nat>)
    requires IsCut(s, x) && IsCut(s, y)
    ensures x == y
  {
    hide RequestAt, Covers;
    AgreeUpTo(s, x, y, if |x| < |y| then |x| else |y|);
    NoFurtherStart(s, x, y);
    NoFurtherStart(s, y, x);
  }

  lemma NoFurtherStart(s: seq<bv8>, x: seq<nat>, y: seq<nat>)
    requires IsCut(s, x) && IsCut(s, y)
    requires forall i :: 0 <= i < |x| && i < |y| ==> x[i] == y[i]
    ensures |y| <= |x|
  {
    hide RequestAt, Covers;
    if |x| < |y| {
      NotCovered(x, y[|x|]);
    }
  }

  lemma {:induction false} AgreeUpTo(s: seq<bv8>, x: seq<nat>, y: seq<nat>, n: nat)
    requires IsCut(s, x) && IsCut(s, y) && n <= |x| && n <= |y|
    ensures forall i :: 0 <= i < n ==> x[i] == y[i]
    decreases n
  {
    hide RequestAt, Covers;
    if n > 0 {
      AgreeUpTo(s, x, y, n - 1);
      NotLater(s, x, y, n - 1);
      NotLater(s, y, x, n - 1);
    }
  }

  /** After equal beginnings neither cut can have skipped the other's next window. */
  lemma NotLater(s: seq<bv8>, x: seq<nat>, y: seq<nat>, n: nat)
    requires IsCut(s, x) && IsCut(s, y) && n < |x| && n < |y|
    requires forall i :: 0 <= i < n ==> x[i] == y[i]
    ensures y[n] <= x[n]
  {
    hide RequestAt, Covers;
    if x[n] < y[n] {
      NotCovered(y, x[n]);
    }
  }

  /** The decoder finds it. */
  lemma StartsIsTheCut(s: seq<bv8>, starts: seq<nat>)
    ensures IsCut(s, starts) <==> starts == Starts(s, 0)
  {
    hide RequestAt, Starts;
    StartsAreRequests(s, 0);
    forall q: nat | RequestAt(s, q)
      ensures Covers(Starts(s, 0), q)
    {
      var i := StartsMissNothing(s, 0, q);
    }
    assert IsCut(s, Starts(s, 0));
    if IsCut(s, starts) {
      CutIsUnique(s, starts, Starts(s, 0));
    }
  }

  lemma NothingSent(r: Result)
    ensures [] + r.sent == r.sent
  {}

  lemma {:induction false} DrainServesFrom(source: MonitorSource, id: bv8, store: Store, s: seq<bv8>, p: nat)
    requires p <= |s|
    ensures var r := Drain(source, id, State(store, s[p..]));
      && r.state.buffer == s[RestFrom(s, p)..]
      && (r.state.store, r.sent) == Serve(source, id, store, Windows(s, Starts(s, p)))
    decreases |s| - p
  {
    hide IsRequest, Handle;
    if p + REQUEST_LENGTH <= |s| {
      var window := s[p..p + REQUEST_LENGTH];
      assert s[p..][..REQUEST_LENGTH] == window;
      if !RequestAt(s, p) {
        assert s[p..][1..] == s[p + 1..];
        DrainServesFrom(source, id, store, s, p + 1);
        NothingSent(Drain(source, id, State(store, s[p + 1..])));
      } else {
        var rest := Starts(s, p + REQUEST_LENGTH);
        assert s[p..][REQUEST_LENGTH..] == s[p + REQUEST_LENGTH..];
        assert Windows(s, Starts(s, p)) == [window] + Windows(s, rest);
        var store' := if window[0] == id then Handle(source, store, window).store else store;
        DrainServesFrom(source, id, store', s, p + REQUEST_LENGTH);
        NothingSent(Drain(source, id, State(store', s[p + REQUEST_LENGTH..])));
      }
    }
  }

  /** The receive loop serves exactly the requests of the one cut of the stream, in order, and
      keeps the bytes behind the last position a request could start. */
  lemma StreamIsServed(source: MonitorSource, id: bv8, store: Store, s: seq<bv8>, starts: seq<nat>)
    requires IsCut(s, starts)
    ensures var r := Receive(source, id, State(store, []), s);
      && (forall i :: 0 <= i < |starts| ==> starts[i] + REQUEST_LENGTH <= |s|)
      && r.state.buffer == s[RestFrom(s, 0)..]
      && (r.state.store, r.sent) == Serve(source, id, store, Windows(s, starts))
  {
    hide RequestAt, Drain, Starts, Windows, Serve, RestFrom;
    StartsIsTheCut(s, starts);
    assert [] + s == s[0..];
    DrainServesFrom(source, id, store, s, 0);
  }

  /** Garbage in front of a request is dropped, and the request and what follows it are served as
      if the garbage had never been there - provided no window starting in the garbage happens to
      look like a request. */
  lemma {:induction false} GarbageIsDropped(source: MonitorSource, id: bv8, store: Store, garbage: seq<bv8>,
          rest: seq<bv8>)
    requires |rest| >= REQUEST_LENGTH
    requires forall p :: 0 <= p < |garbage| ==> !RequestAt(garbage + rest, p)
    ensures Receive(source, id, State(store, []), garbage + rest) == Receive(source, id, State(store, []), rest)
    decreases |garbage|
  {
    hide IsRequest;
    assert [] + (garbage + rest) == garbage + rest && [] + rest == rest;
    if garbage == [] {
      assert garbage + rest == rest;
    } else {
      var s := garbage + rest;
      assert !RequestAt(s, 0);
      assert s[..REQUEST_LENGTH] == s[0..0 + REQUEST_LENGTH];
      assert s[1..] == garbage[1..] + rest;
      forall p | 0 <= p < |garbage[1..]| ensures !RequestAt(garbage[1..] + rest, p) {
        assert !RequestAt(s, p + 1);
        if p + REQUEST_LENGTH <= |s[1..]| {
          assert s[1..][p..p + REQUEST_LENGTH] == s[p + 1..p + 1 + REQUEST_LENGTH];
        }
      }
      GarbageIsDropped(source, id, store, garbage[1..], rest);
      assert [] + (garbage[1..] + rest) == s[1..];
    }
  }

  /** Requests sent back to back are each served, in order, and nothing is left over. */
  lemma {:induction false} BackToBack(source: MonitorSource, id: bv8, store: Store, requests: seq<Request>)
    requires forall r :: r in requests ==> IsRequest(r)
    ensures var r := Receive(source, id, State(store, []), Flatten(requests));
      r.state.buffer == [] && (r.state.store, r.sent) == Serve(source, id, store, requests)
    decreases |requests|
  {
    hide IsRequest, Handle;
    var s := Flatten(requests);
    assert [] + s == s;
    if requests != [] {
      var more := Flatten(requests[1..]);
      assert s[..REQUEST_LENGTH] == requests[0] && s[REQUEST_LENGTH..] == more;
      assert [] + more == more;
      var store' := if requests[0][0] == id then Handle(source, store, requests[0]).store else store;
      BackToBack(source, id, store', requests[1..]);
      NothingSent(Drain(source, id, State(store', more)));
    }
  }
}
