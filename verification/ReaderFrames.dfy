/** What the reader of the rules file looks at: on two texts that agree over a stretch, every function
    of it does the same there, position for position. The stretch reaches to the end of both texts, or
    to a delimiter in either. */
module ReaderFrames {
  import opened Options
  import opened Text
  import opened Numbers
  import opened JsonReader
  import opened RuleReader

  /** Characters that end whatever is being scanned, unless it is a string. */
  predicate Delimiter(c: char) {
    c == ',' || c == '{' || c == '}'
  }

  /** The text `a` from `from` up to `to`, and the text `b` from `from + shift` up to `to + shift`. */
  datatype Frame = Frame(a: string, b: string, from: nat, to: nat, shift: nat) {
    predicate Whole() {
      to == |a| && to + shift == |b|
    }

    predicate Delimited() {
      to < |a| && to + shift < |b| && Delimiter(a[to]) && Delimiter(b[to + shift])
    }

    ghost predicate Valid() {
      && from <= to && (Whole() || Delimited())
      && forall i :: from <= i < to ==> a[i] == b[i + shift]
    }

    /** Positions inside; behind the end of a whole text, all of them are. */
    predicate Has(p: nat) {
      from <= p && (Whole() || p <= to)
    }
  }

  // ----- Scanners that cannot leave a stretch -----

  lemma {:induction false} BlanksSame(f: Frame, p: nat)
    requires f.Valid() && f.Has(p)
    ensures SkipBlanks(f.b, p + f.shift) == SkipBlanks(f.a, p) + f.shift && f.Has(SkipBlanks(f.a, p))
    decreases |f.a| - p
  {
    if p < f.to && IsSpace(f.a[p]) {
      BlanksSame(f, p + 1);
    }
  }

  lemma {:induction false} DigitsSame(f: Frame, p: nat)
    requires f.Valid() && f.Has(p)
    ensures SkipDigits(f.b, p + f.shift) == SkipDigits(f.a, p) + f.shift && f.Has(SkipDigits(f.a, p))
    decreases |f.a| - p
  {
    if p < f.to && IsDigit(f.a[p]) {
      DigitsSame(f, p + 1);
    }
  }

  lemma SignSame(f: Frame, p: nat)
    requires f.Valid() && f.Has(p)
    ensures SkipSign(f.b, p + f.shift) == SkipSign(f.a, p) + f.shift && f.Has(SkipSign(f.a, p))
  {}

  lemma FractionSame(f: Frame, p: nat)
    requires f.Valid() && f.Has(p)
    ensures SkipFraction(f.b, p + f.shift) == SkipFraction(f.a, p) + f.shift && f.Has(SkipFraction(f.a, p))
  {
    hide SkipDigits;
    if p < f.to && f.a[p] == '.' {
      DigitsSame(f, p + 1);
    }
  }

  lemma MarkSame(f: Frame, p: nat)
    requires f.Valid() && f.Has(p)
    ensures ExponentMark(f.b, p + f.shift) <==> ExponentMark(f.a, p)
    ensures ExponentMark(f.a, p) ==> f.Has(p + 1)
  {}

  lemma SliceSame(f: Frame, p: nat, q: nat)
    requires f.Valid() && f.from <= p <= q <= f.to
    ensures f.a[p..q] == f.b[p + f.shift..q + f.shift]
  {}

  function Moved(s: Scan, shift: nat): Scan {
    s.(pos := s.pos + shift)
  }

  lemma MantissaSame(f: Frame, p: nat)
    requires f.Valid() && f.Has(p) && p <= |f.a|
    ensures var p1 := SkipSign(f.a, p);
      var p2 := SkipDigits(f.a, p1);
      var p3 := SkipFraction(f.a, p2);
      && SkipSign(f.b, p + f.shift) == p1 + f.shift && SkipDigits(f.b, p1 + f.shift) == p2 + f.shift
      && SkipFraction(f.b, p2 + f.shift) == p3 + f.shift
      && p <= p3 <= f.to && f.Has(p3)
  {
    hide SkipSign, SkipDigits, SkipFraction;
    SignSame(f, p);
    DigitsSame(f, SkipSign(f.a, p));
    FractionSame(f, SkipDigits(f.a, SkipSign(f.a, p)));
  }

  lemma SliceIn(f: Frame, p: nat, q: nat)
    requires f.Valid() && f.Has(p) && p <= q <= f.to
    ensures q + f.shift <= |f.b| && q <= |f.a| && f.a[p..q] == f.b[p + f.shift..q + f.shift]
  {
    SliceSame(f, p, q);
  }

  lemma ExponentSame(f: Frame, p: nat)
    requires f.Valid() && f.Has(p) && ExponentMark(f.a, p)
    ensures ExponentStart(f.b, p + f.shift) == ExponentStart(f.a, p) + f.shift
    ensures ExponentEnd(f.b, p + f.shift) == ExponentEnd(f.a, p) + f.shift
    ensures ExponentEnd(f.a, p) <= f.to && f.Has(ExponentEnd(f.a, p))
  {
    hide SkipSign, SkipDigits;
    MarkSame(f, p);
    SignSame(f, p + 1);
    DigitsSame(f, SkipSign(f.a, p + 1));
  }

  lemma MantissaPlaces(f: Frame, p: nat)
    requires f.Valid() && f.Has(p) && p <= |f.a|
    ensures var p3 := MantissaEnd(f.a, p);
      && MantissaEnd(f.b, p + f.shift) == p3 + f.shift && p3 <= f.to && f.Has(p3)
      && Digitless(f.b, p + f.shift) == Digitless(f.a, p)
      && ExponentMark(f.b, p3 + f.shift) == ExponentMark(f.a, p3)
  {
    hide SkipSign, SkipDigits, SkipFraction, ExponentMark, Frame.Valid, Frame.Has;
    MantissaSame(f, p);
    MarkSame(f, MantissaEnd(f.a, p));
  }

  lemma PlainSame(f: Frame, p: nat)
    requires f.Valid() && f.Has(p) && p <= |f.a| && p + f.shift <= |f.b| && !ExponentMark(f.a, MantissaEnd(f.a, p))
    ensures ScanNumber(f.b, p + f.shift) == Moved(ScanNumber(f.a, p), f.shift) && f.Has(ScanNumber(f.a, p).pos)
  {
    hide ScanNumber, MantissaEnd, Digitless, ExponentMark, Frame.Valid, Frame.Has;
    MantissaPlaces(f, p);
    PlainIs(f.a, p);
    PlainIs(f.b, p + f.shift);
    SliceIn(f, p, MantissaEnd(f.a, p));
  }

  lemma ScientificSame(f: Frame, p: nat)
    requires f.Valid() && f.Has(p) && p <= |f.a| && p + f.shift <= |f.b| && ExponentMark(f.a, MantissaEnd(f.a, p))
    ensures ScanNumber(f.b, p + f.shift) == Moved(ScanNumber(f.a, p), f.shift) && f.Has(ScanNumber(f.a, p).pos)
  {
    hide ScanNumber, MantissaEnd, ExponentStart, ExponentEnd, Digitless, ExponentMark, Frame.Valid, Frame.Has;
    MantissaPlaces(f, p);
    ExponentSame(f, MantissaEnd(f.a, p));
    ScientificIs(f.a, p);
    ScientificIs(f.b, p + f.shift);
    SliceIn(f, p, ExponentEnd(f.a, MantissaEnd(f.a, p)));
  }

  lemma NumberSame(f: Frame, p: nat)
    requires f.Valid() && f.Has(p) && p <= |f.a| && p + f.shift <= |f.b|
    ensures ScanNumber(f.b, p + f.shift) == Moved(ScanNumber(f.a, p), f.shift) && f.Has(ScanNumber(f.a, p).pos)
  {
    hide ScanNumber, MantissaEnd, ExponentMark, Frame.Valid, Frame.Has;
    if ExponentMark(f.a, MantissaEnd(f.a, p)) {
      ScientificSame(f, p);
    } else {
      PlainSame(f, p);
    }
  }

  predicate IsWord(word: string) {
    word == "true" || word == "false" || word == "null"
  }

  lemma NotAcross(data: string, p: nat, word: string, i: nat)
    requires IsWord(word) && i < |word| && p + i < |data| && Delimiter(data[p + i])
    ensures !At(data, p, word)
  {
    if At(data, p, word) {
      AtChar(data, p, word, i);
    }
  }

  lemma WordSame(f: Frame, p: nat, word: string)
    requires f.Valid() && f.Has(p) && IsWord(word)
    ensures At(f.b, p + f.shift, word) <==> At(f.a, p, word)
    ensures At(f.a, p, word) ==> f.Has(p + |word|)
  {
    if p + |word| <= f.to {
      SliceSame(f, p, p + |word|);
    } else if !f.Whole() {
      NotAcross(f.a, p, word, f.to - p);
      NotAcross(f.b, p + f.shift, word, f.to - p);
    }
  }

  lemma BoolSame(f: Frame, p: nat)
    requires f.Valid() && f.Has(p) && p <= |f.a| && p + f.shift <= |f.b|
    ensures var r := ScanBool(f.a, p);
      ScanBool(f.b, p + f.shift) == r.(pos := r.pos + f.shift) && f.Has(r.pos)
  {
    hide At, SkipBlanks;
    BlanksSame(f, p);
    WordSame(f, SkipBlanks(f.a, p), "true");
    WordSame(f, SkipBlanks(f.a, p), "false");
  }

  // ----- Scanners that may -----

  lemma StringGoesOn(data: string, p: nat)
    ensures p < |data| ==> p < StringTail(data, p).pos
  {}

  lemma {:induction false} StringTailSame(f: Frame, p: nat)
    requires f.Valid() && f.Has(p)
    requires f.Whole() || StringTail(f.a, p).pos <= f.to
    ensures StringTail(f.b, p + f.shift) == Moved(StringTail(f.a, p), f.shift)
    decreases |f.a| - p
  {
    StringGoesOn(f.a, p);
    if p < f.to {
      if f.a[p] == '\\' && p + 1 < |f.a| {
        StringTailSame(f, p + 2);
      } else if f.a[p] != '"' {
        StringTailSame(f, p + 1);
      }
    }
  }

  lemma StringSame(f: Frame, p: nat)
    requires f.Valid() && f.Has(p)
    requires f.Whole() || StringScan(f.a, p).pos <= f.to
    ensures StringScan(f.b, p + f.shift) == Moved(StringScan(f.a, p), f.shift)
  {
    hide SkipBlanks, StringTail;
    BlanksSame(f, p);
    var q := SkipBlanks(f.a, p);
    if q < |f.a| && f.a[q] == '"' {
      StringTailSame(f, q + 1);
    }
  }

  /** `Consume` inside a stretch: before its end, or anywhere in a whole text. */
  lemma ConsumeSame(f: Frame, p: nat, expected: char)
    requires f.Valid() && f.Has(p)
    requires f.Whole() || SkipBlanks(f.a, p) < f.to
    ensures Consume(f.b, p + f.shift, expected) ==
      match Consume(f.a, p, expected) case None => None case Some(q) => Some(q + f.shift)
    ensures Consume(f.a, p, expected).Some? ==> f.Has(Consume(f.a, p, expected).value)
  {
    hide SkipBlanks;
    BlanksSame(f, p);
  }

  lemma AfterItemSame(f: Frame, p: nat)
    requires f.Valid() && f.Has(p)
    requires f.Whole() || SkipBlanks(f.a, p) < f.to
    ensures AfterItem(f.b, p + f.shift) == AfterItem(f.a, p) + f.shift && f.Has(AfterItem(f.a, p))
  {
    hide SkipBlanks;
    BlanksSame(f, p);
  }

  lemma ValueSame(f: Frame, p: nat)
    requires f.Valid() && f.Has(p) && p <= |f.a| && p + f.shift <= |f.b|
    requires f.Whole() || ScanValue(f.a, p).pos <= f.to
    ensures var r := ScanValue(f.a, p);
      ScanValue(f.b, p + f.shift) == r.(pos := r.pos + f.shift)
  {
    hide SkipBlanks, StringScan, ScanNumber, ScanBool, At;
    var q := SkipBlanks(f.a, p);
    BlanksSame(f, p);
    if q < |f.a| {
      BlanksSame(f, q);
      NumberSame(f, SkipBlanks(f.a, q));
      BoolSame(f, q);
      WordSame(f, q, "null");
      if f.a[q] == '"' {
        StringSame(f, q);
      }
    }
  }

  /** A word, a number or a character that starts no value. */
  lemma ScalarSame(f: Frame, p: nat)
    requires f.Valid() && f.Has(p) && p < f.to
    requires !IsSpace(f.a[p]) && f.a[p] != '{' && f.a[p] != '[' && f.a[p] != '"'
    ensures Skip(f.b, p + f.shift) == Skip(f.a, p) + f.shift
  {
    hide SkipItems, StringScan, ScanNumber, ScanBool, SkipBlanks, At;
    NoBlanks(f.a, p);
    NoBlanks(f.b, p + f.shift);
    WordSame(f, p, "true");
    WordSame(f, p, "false");
    WordSame(f, p, "null");
    BoolSame(f, p);
    WordSame(f, ScanBool(f.a, p).pos, "null");
    NumberSame(f, p);
  }

  /** Blanks in front of a value make no difference to skipping it. */
  lemma SkipFrom(data: string, p: nat)
    ensures var q := SkipBlanks(data, p); Skip(data, p) == if q < |data| then Skip(data, q) else q
  {
    hide SkipItems, StringScan, NumberScan, ScanBool, At;
    var q := SkipBlanks(data, p);
    if q < |data| {
      NoBlanks(data, q);
    }
  }

  lemma {:induction false} SkipSame(f: Frame, p: nat)
    requires f.Valid() && f.Has(p)
    requires f.Whole() || Skip(f.a, p) <= f.to
    ensures Skip(f.b, p + f.shift) == Skip(f.a, p) + f.shift
    decreases |f.a| - p, 0
  {
    hide SkipItems, StringScan, NumberScan, ScanBool, SkipBlanks, At;
    var q := SkipBlanks(f.a, p);
    BlanksSame(f, p);
    SkipFrom(f.a, p);
    SkipFrom(f.b, p + f.shift);
    if q < |f.a| {
      assert q < f.to;
      NoBlanks(f.a, q);
      NoBlanks(f.b, q + f.shift);
      if f.a[q] == '{' || f.a[q] == '[' {
        ItemsSame(f, q + 1, if f.a[q] == '{' then '}' else ']');
      } else if f.a[q] == '"' {
        StringSame(f, q);
      } else {
        ScalarSame(f, q);
      }
    }
  }

  lemma {:induction false} ItemsSame(f: Frame, p: nat, close: char)
    requires f.Valid() && f.Has(p)
    requires f.Whole() || SkipItems(f.a, p, close) <= f.to
    ensures SkipItems(f.b, p + f.shift, close) == SkipItems(f.a, p, close) + f.shift
    decreases |f.a| - p, 1
  {
    hide SkipBlanks, Skip, SkipItems;
    ItemsStep(f.a, p, close);
    ItemsStep(f.b, p + f.shift, close);
    if p < |f.a| {
      SkipSame(f, p);
      var q := SkipBlanks(f.a, Skip(f.a, p));
      BlanksSame(f, Skip(f.a, p));
      if !(q < |f.a| && f.a[q] == close) {
        ItemsSame(f, q + 1, close);
      }
    }
  }
}
