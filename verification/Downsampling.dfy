/** Reading chart points from a data file: `readDataFilePointsInRange` (server/utils.hpp, lines
    108-168). A line is given as what its fields read as; arithmetic is exact. */
module Downsampling {

  datatype Line = Unusable | Point(timestamp: string, value: real)

  type Points = seq<Line>

  /** `std::string` order. */
  predicate StringLess(a: string, b: string)
    decreases |a|
  {
    if b == "" then false
    else if a == "" then true
    else a[0] < b[0] || (a[0] == b[0] && StringLess(a[1..], b[1..]))
  }

  predicate InRange(line: Line, from: string, to: string) {
    line.Point? && !StringLess(line.timestamp, from) && !StringLess(to, line.timestamp)
  }

  function Filter(lines: seq<Line>, from: string, to: string): Points {
    if lines == [] then []
    else
      var n := |lines| - 1;
      Filter(lines[..n], from, to) + (if InRange(lines[n], from, to) then [lines[n]] else [])
  }

  /** The distance between two chosen points, in points. */
  function Stride(n: nat, m: nat): real
    requires m > 1
  {
    (n - 1) as real / (m - 1) as real
  }

  /** `std::round` of a number that is not negative. */
  function Round(x: real): int {
    (x + 0.5).Floor
  }

  function Selected(i: nat, n: nat, m: nat): int
    requires m > 1
  {
    Round(i as real * Stride(n, m))
  }

  function Choose(filtered: Points, m: nat): Points
    requires 1 < m < |filtered|
  {
    seq(m, i requires 0 <= i < m =>
      SelectedInside(i, |filtered|, m);
      filtered[Selected(i, |filtered|, m)])
  }

  function PointsInRange(file: seq<Line>, from: string, to: string, m: nat): Points {
    var filtered := Filter(file, from, to);
    if from == "" || to == "" || m == 0 then []
    else if |filtered| <= m then filtered
    else if m == 1 then filtered[|filtered| - 1..]
    else Choose(filtered, m)
  }

  method FilterLines(file: seq<Line>, from: string, to: string) returns (filtered: Points)
    ensures filtered == Filter(file, from, to)
  {
    hide StringLess;
    filtered := [];
    for i := 0 to |file|
      invariant filtered == Filter(file[..i], from, to)
    {
      assert file[..i + 1][..i] == file[..i];
      if !file[i].Point? {
        continue;
      }
      if StringLess(file[i].timestamp, from) || StringLess(to, file[i].timestamp) {
        continue;
      }
      filtered := filtered + [file[i]];
    }
    assert file[..|file|] == file;
  }

  method ChoosePoints(filtered: Points, maxPoints: nat) returns (points: Points)
    requires 1 < maxPoints < |filtered|
    ensures points == Choose(filtered, maxPoints)
  {
    points := [];
    var step := Stride(|filtered|, maxPoints);
    for index := 0 to maxPoints
      invariant points == Choose(filtered, maxPoints)[..index]
    {
      var selectedIndex := Round(index as real * step);
      SelectedInside(index, |filtered|, maxPoints);
      assert selectedIndex == Selected(index, |filtered|, maxPoints);
      hide Stride, Round, Selected;
      // The clamp of the source is never needed.
      if selectedIndex >= |filtered| {
        selectedIndex := |filtered| - 1;
      }
      points := points + [filtered[selectedIndex]];
    }
  }

  method ReadDataFilePointsInRange(file: seq<Line>, from: string, to: string, maxPoints: nat) returns (points: Points)
    ensures points == PointsInRange(file, from, to, maxPoints)
  {
    hide Filter, Choose;
    if from == "" || to == "" || maxPoints == 0 {
      return [];
    }
    var filtered := FilterLines(file, from, to);
    if |filtered| <= maxPoints {
      return filtered;
    }
    if maxPoints == 1 {
      return [filtered[|filtered| - 1]];
    }
    points := ChoosePoints(filtered, maxPoints);
  }

  // ----- The order of strings -----

  /** The first place where `a` and `b` differ is `k`, and there `a` has the smaller character or has ended. */
  predicate SmallerAt(a: string, b: string, k: nat) {
    k <= |a| && k < |b| && a[..k] == b[..k] && (k == |a| || a[k] < b[k])
  }

  ghost predicate Precedes(a: string, b: string) {
    exists k: nat :: SmallerAt(a, b, k)
  }

  lemma SmallerBehind(a: string, b: string, k: nat)
    requires a != "" && b != "" && a[0] == b[0]
    ensures SmallerAt(a, b, k + 1) <==> SmallerAt(a[1..], b[1..], k)
    ensures !SmallerAt(a, b, 0)
  {
    if k <= |a| - 1 && k <= |b| - 1 {
      assert a[..k + 1] == [a[0]] + a[1..][..k] && b[..k + 1] == [b[0]] + b[1..][..k];
    }
  }

  /** The comparison of the filter is the order by the first difference. */
  lemma {:induction false} StringOrder(a: string, b: string)
    ensures StringLess(a, b) <==> Precedes(a, b)
    decreases |a|
  {
    if a == "" || b == "" || a[0] != b[0] {
      hide StringLess;
      DifferAtOnce(a, b);
    } else {
      StringOrder(a[1..], b[1..]);
      if StringLess(a[1..], b[1..]) {
        var k: nat :| SmallerAt(a[1..], b[1..], k);
        SmallerBehind(a, b, k);
      }
      if Precedes(a, b) {
        var k: nat :| SmallerAt(a, b, k);
        SmallerBehind(a, b, if k > 0 then k - 1 else 0);
      }
    }
  }

  lemma DifferAtOnce(a: string, b: string)
    requires a == "" || b == "" || a[0] != b[0]
    ensures StringLess(a, b) <==> Precedes(a, b)
  {
    if StringLess(a, b) {
      assert SmallerAt(a, b, 0);
    }
    if Precedes(a, b) {
      var k: nat :| SmallerAt(a, b, k);
      SameBefore(a, b, k);
    }
  }

  lemma SameBefore(a: string, b: string, k: nat)
    requires SmallerAt(a, b, k)
    ensures k > 0 ==> a != "" && b != "" && a[0] == b[0]
  {
    assert k > 0 ==> a[..k][0] == a[0] && b[..k][0] == b[0];
  }

  /** It is a strict total order. */
  lemma {:induction false} StringOrderIsTotal(a: string, b: string, c: string)
    ensures !StringLess(a, a)
    ensures StringLess(a, b) && StringLess(b, c) ==> StringLess(a, c)
    ensures StringLess(a, b) || StringLess(b, a) || a == b
    decreases |a|
  {
    if a != "" {
      StringOrderIsTotal(a[1..], if b == "" then b else b[1..], if c == "" then c else c[1..]);
      assert b != "" && a[0] == b[0] && a[1..] == b[1..] ==> a == b;
    }
  }

  /** The line has a timestamp that does not come before `from`, and that `to` does not come before. */
  ghost predicate Within(line: Line, from: string, to: string) {
    line.Point? && !Precedes(line.timestamp, from) && !Precedes(to, line.timestamp)
  }

  lemma WithinIs(line: Line, from: string, to: string)
    ensures InRange(line, from, to) <==> Within(line, from, to)
  {
    hide StringLess, Precedes;
    if line.Point? {
      StringOrder(line.timestamp, from);
      StringOrder(to, line.timestamp);
    }
  }

  // ----- Fair choice -----

  lemma FloorStep(x: real, s: real)
    ensures var gap := (x + s).Floor - x.Floor;
      s.Floor <= gap <= s.Floor + 1 && (s == s.Floor as real ==> gap == s.Floor)
  {}

  lemma StrideBounds(n: nat, m: nat)
    requires 1 < m < n
    ensures Stride(n, m) > 1.0 && (m - 1) as real * Stride(n, m) == (n - 1) as real
    ensures Stride(n, m).Floor == (n - 1) / (m - 1)
    ensures Stride(n, m) == Stride(n, m).Floor as real <==> (n - 1) % (m - 1) == 0
  {
    var a, b := n - 1, m - 1;
    var q, r := a / b, a % b;
    var s := Stride(n, m);
    assert b as real * s == a as real;
    assert a == b * q + r;
    assert a as real == b as real * q as real + r as real;
    assert s == q as real + r as real / b as real;
    FractionBelowOne(r, b);
  }

  lemma FractionBelowOne(r: nat, b: nat)
    requires r < b
    ensures 0.0 <= r as real / b as real < 1.0 && (r as real / b as real == 0.0 <==> r == 0)
  {}

  lemma SelectedStep(i: nat, n: nat, m: nat)
    requires 1 < m < n
    ensures var gap := Selected(i + 1, n, m) - Selected(i, n, m);
      if (n - 1) % (m - 1) == 0 then gap == (n - 1) / (m - 1)
      else gap == (n - 1) / (m - 1) || gap == (n - 1) / (m - 1) + 1
    ensures Selected(i, n, m) < Selected(i + 1, n, m)
  {
    var s := Stride(n, m);
    StrideBounds(n, m);
    assert (i + 1) as real * s == i as real * s + s;
    FloorStep(i as real * s + 0.5, s);
    assert (i as real * s + 0.5) + s == (i + 1) as real * s + 0.5;
  }

  lemma SelectedEnds(n: nat, m: nat)
    requires 1 < m < n
    ensures Selected(0, n, m) == 0 && Selected(m - 1, n, m) == n - 1
  {
    StrideBounds(n, m);
  }

  lemma {:induction false} SelectedAscends(i: nat, j: nat, n: nat, m: nat)
    requires 1 < m < n && i <= j
    ensures Selected(i, n, m) <= Selected(j, n, m) && (i < j ==> Selected(i, n, m) < Selected(j, n, m))
    decreases j - i
  {
    if i < j {
      SelectedStep(j - 1, n, m);
      SelectedAscends(i, j - 1, n, m);
    }
  }

  lemma SelectedInside(i: nat, n: nat, m: nat)
    requires 1 < m < n && i < m
    ensures 0 <= Selected(i, n, m) < n
  {
    SelectedEnds(n, m);
    SelectedAscends(0, i, n, m);
    SelectedAscends(i, m - 1, n, m);
  }

  /** The chosen index is nearest to its ideal place, i (n - 1) / (m - 1), and the higher one where two are. */
  lemma ChoiceIsNearest(n: nat, m: nat, i: nat)
    requires m > 1
    ensures var ideal, chosen := i * (n - 1), Selected(i, n, m) * (m - 1);
      2 * ideal - (m - 1) < 2 * chosen <= 2 * ideal + (m - 1)
  {
    var x, r := i as real * Stride(n, m), Selected(i, n, m);
    assert x - 0.5 < r as real <= x + 0.5;
    IdealPlace(n, m, i);
    hide Selected, Stride;
    ProductAsReal(i, n - 1);
    ProductAsReal(r, m - 1);
    Nearest(x, r as real, m - 1, i * (n - 1), r * (m - 1));
  }

  /** With p and q for x and r times b. */
  lemma Nearest(x: real, r: real, b: nat, p: int, q: int)
    requires x - 0.5 < r <= x + 0.5 && b > 0 && p as real == x * b as real && q as real == r * b as real
    ensures 2 * p - b < 2 * q <= 2 * p + b
  {
    Scaled(x, r, b as real, p as real, q as real);
    Doubled(p, q, b);
  }

  lemma IdealPlace(n: nat, m: nat, i: nat)
    requires m > 1
    ensures (i as real * Stride(n, m)) * (m - 1) as real == i as real * (n - 1) as real
  {
    var s, b := Stride(n, m), (m - 1) as real;
    assert s * b == (n - 1) as real;
    Reassociated(i as real, s, b);
  }

  lemma Reassociated(x: real, y: real, z: real)
    ensures (x * y) * z == x * (y * z)
  {}

  lemma ProductAsReal(x: int, y: int)
    ensures (x * y) as real == x as real * y as real
  {}

  lemma Doubled(p: int, q: int, b: int)
    requires p as real - 0.5 * b as real < q as real <= p as real + 0.5 * b as real
    ensures 2 * p - b < 2 * q <= 2 * p + b
  {}

  lemma Scaled(x: real, r: real, b: real, p: real, q: real)
    requires x - 0.5 < r <= x + 0.5 && b > 0.0 && p == x * b && q == r * b
    ensures p - 0.5 * b < q <= p + 0.5 * b
  {
    hide Times;
    HalfSteps(x, b);
    KeepsOrder(x - 0.5, r, b);
    KeepsOrder(r, x + 0.5, b);
    TimesIs(x, b);
    TimesIs(r, b);
  }

  function Times(x: real, b: real): real { x * b }

  lemma TimesIs(x: real, b: real)
    ensures Times(x, b) == x * b
  {}

  lemma HalfSteps(x: real, b: real)
    ensures Times(x - 0.5, b) == Times(x, b) - 0.5 * b && Times(x + 0.5, b) == Times(x, b) + 0.5 * b
  {}

  lemma KeepsOrder(x: real, y: real, b: real)
    requires b > 0.0
    ensures x < y ==> Times(x, b) < Times(y, b)
  {
    if x < y {
      assert (y - x) * b > 0.0;
      assert (y - x) * b == y * b - x * b;
    }
  }

  /** The chosen indices begin with the first point, end with the last, rise strictly, stay inside
      without the clamp, and their gaps are the floor or the ceiling of the ideal one. */
  lemma ChoiceIsFair(n: nat, m: nat, i: nat)
    requires 1 < m < n && i < m
    ensures Selected(0, n, m) == 0 && Selected(m - 1, n, m) == n - 1 && 0 <= Selected(i, n, m) < n
    ensures i + 1 < m ==>
      var gap, ideal := Selected(i + 1, n, m) - Selected(i, n, m), (n - 1) / (m - 1);
      1 <= ideal && (gap == ideal || (gap == ideal + 1 && (n - 1) % (m - 1) != 0))
  {
    SelectedEnds(n, m);
    SelectedInside(i, n, m);
    SelectedStep(i, n, m);
    StrideBounds(n, m);
  }

  // ----- What is returned -----

  /** `part` are the lines of `file` at ascending places. */
  ghost predicate IsSubsequence(part: Points, file: seq<Line>, places: seq<nat>) {
    && |places| == |part|
    && (forall k :: 0 <= k < |places| ==> places[k] < |file| && part[k] == file[places[k]])
    && (forall j, k :: 0 <= j < k < |places| ==> places[j] < places[k])
  }

  /** The places of the lines in range. */
  function Places(file: seq<Line>, from: string, to: string): seq<nat> {
    if file == [] then []
    else
      var n := |file| - 1;
      Places(file[..n], from, to) + (if InRange(file[n], from, to) then [n] else [])
  }

  /** Filtering keeps the lines in range, all of them, in their order. */
  lemma {:induction false} FilterKeeps(file: seq<Line>, from: string, to: string)
    ensures IsSubsequence(Filter(file, from, to), file, Places(file, from, to))
    decreases |file|
  {
    hide InRange, IsSubsequence;
    if file == [] {
      EmptySubsequence(file);
    } else {
      var n := |file| - 1;
      FilterKeeps(file[..n], from, to);
      Longer(Filter(file[..n], from, to), file, Places(file[..n], from, to));
      if !InRange(file[n], from, to) {
        assert Filter(file, from, to) == Filter(file[..n], from, to);
        assert Places(file, from, to) == Places(file[..n], from, to);
      }
    }
  }

  lemma {:induction false} FilterInRange(file: seq<Line>, from: string, to: string)
    ensures forall k :: 0 <= k < |Filter(file, from, to)| ==> Within(Filter(file, from, to)[k], from, to)
    decreases |file|
  {
    hide InRange, Within;
    if file != [] {
      FilterInRange(file[..|file| - 1], from, to);
      WithinIs(file[|file| - 1], from, to);
    }
  }

  lemma EmptySubsequence(file: seq<Line>)
    ensures IsSubsequence([], file, [])
  {}

  lemma Longer(part: Points, file: seq<Line>, places: seq<nat>)
    requires file != [] && IsSubsequence(part, file[..|file| - 1], places)
    ensures IsSubsequence(part, file, places)
    ensures IsSubsequence(part + [file[|file| - 1]], file, places + [|file| - 1])
  {}

  lemma {:induction false} FilterMissesNothing(file: seq<Line>, from: string, to: string, i: nat) returns (k: nat)
    requires i < |file| && Within(file[i], from, to)
    ensures k < |Places(file, from, to)| && Places(file, from, to)[k] == i
    decreases |file|
  {
    hide InRange, Within;
    WithinIs(file[i], from, to);
    var n := |file| - 1;
    if i < n {
      k := FilterMissesNothing(file[..n], from, to, i);
    } else {
      k := |Places(file[..n], from, to)|;
    }
  }

  /** In every case the result is a subsequence of the file of points in range, the last of them always
      being the last in range. It has as many points as there are but no more than asked for, if and
      only if both bounds are given or that number is zero. */
  lemma ResultIsFairSubsequence(file: seq<Line>, from: string, to: string, m: nat) returns (places: seq<nat>)
    ensures var points, n := PointsInRange(file, from, to, m), |Filter(file, from, to)|;
      && (|points| == Smaller(n, m) <==> (from != "" && to != "") || n == 0 || m == 0)
      && (from == "" || to == "" ==> points == [])
      && IsSubsequence(points, file, places)
      && (forall k :: 0 <= k < |points| ==> Within(points[k], from, to))
      && (points != [] ==> n > 0 && points[|points| - 1] == Filter(file, from, to)[n - 1])
  {
    hide Within, Filter, Selected, Places, Choose, IsSubsequence;
    var filtered := Filter(file, from, to);
    var n := |filtered|;
    var all := Places(file, from, to);
    FilterKeeps(file, from, to);
    FilterInRange(file, from, to);
    if from == "" || to == "" || m == 0 {
      places := [];
      EmptySubsequence(file);
    } else if n <= m {
      places := all;
    } else if m == 1 {
      places := LastPlace(filtered, file, all);
    } else {
      places := ChosenPlaces(filtered, file, all, m);
    }
  }

  function Smaller(n: nat, m: nat): nat {
    if n <= m then n else m
  }

  lemma LastPlace(part: Points, file: seq<Line>, all: seq<nat>) returns (places: seq<nat>)
    requires part != [] && IsSubsequence(part, file, all)
    ensures IsSubsequence(part[|part| - 1..], file, places)
  {
    places := all[|part| - 1..];
  }

  lemma ChosenPlaces(filtered: Points, file: seq<Line>, all: seq<nat>, m: nat) returns (places: seq<nat>)
    requires 1 < m < |filtered| && IsSubsequence(filtered, file, all)
    ensures |Choose(filtered, m)| == m && IsSubsequence(Choose(filtered, m), file, places)
    ensures forall k :: 0 <= k < m ==> Choose(filtered, m)[k] in filtered
    ensures Choose(filtered, m)[m - 1] == filtered[|filtered| - 1]
  {
    hide Selected;
    var n := |filtered|;
    forall i: nat | i < m ensures 0 <= Selected(i, n, m) < n {
      SelectedInside(i, n, m);
    }
    places := seq(m, i requires 0 <= i < m => all[Selected(i, n, m)]);
    SelectedEnds(n, m);
    forall j, k | 0 <= j < k < m ensures places[j] < places[k] {
      SelectedAscends(j, k, n, m);
    }
  }
}
