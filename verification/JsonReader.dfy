/** The hand-written JSON scanner of server/rules.hpp (lines 61-188 and 258-315): every function takes
    the whole text and a position and leaves a position. The functions say what the scanners do, the
    methods are the scanners with their loops. */
module JsonReader {
  import opened Options
  import opened Text
  import opened Numbers

  function Unescape(c: char): char {
    match c
    case 'b' => '\U{0008}'
    case 'f' => '\U{000C}'
    case 'n' => '\n'
    case 'r' => '\r'
    case 't' => '\t'
    case _ => c
  }

  /** The escapes of two characters in JSON (RFC 8259, section 7), by the codes they stand for. */
  lemma EscapesMean()
    ensures Unescape('b') as int == 0x08 && Unescape('t') as int == 0x09 && Unescape('n') as int == 0x0A
    ensures Unescape('f') as int == 0x0C && Unescape('r') as int == 0x0D
    ensures Unescape('"') as int == 0x22 && Unescape('/') as int == 0x2F && Unescape('\\') as int == 0x5C
  {}

  /** Behind the opening quote: the text up to the closing one. */
  function StringTail(data: string, pos: nat): (r: Scan)
    ensures pos <= r.pos && (pos <= |data| ==> r.pos <= |data|)
    ensures r.ok ==> pos < r.pos
    decreases |data| - pos
  {
    if pos >= |data| then
      Scan(false, "", pos)
    else if data[pos] == '"' then
      Scan(true, "", pos + 1)
    else if data[pos] == '\\' && pos + 1 < |data| then
      Prefixed([Unescape(data[pos + 1])], StringTail(data, pos + 2))
    else
      Prefixed([data[pos]], StringTail(data, pos + 1))
  }

  function Prefixed(prefix: string, scan: Scan): Scan {
    scan.(text := prefix + scan.text)
  }

  lemma PrefixedTwice(a: string, b: string, scan: Scan)
    ensures Prefixed(a, Prefixed(b, scan)) == Prefixed(a + b, scan)
  {
    assert a + (b + scan.text) == (a + b) + scan.text;
  }

  function StringScan(data: string, pos: nat): (r: Scan)
    ensures pos <= r.pos && (pos <= |data| ==> r.pos <= |data|)
    ensures r.ok ==> pos + 1 < r.pos
  {
    var p := SkipBlanks(data, pos);
    if p < |data| && data[p] == '"' then StringTail(data, p + 1) else Scan(false, "", p)
  }

  function NumberScan(data: string, pos: nat): (r: Scan)
    requires pos <= |data|
    ensures pos <= r.pos <= |data|
    ensures r.ok ==> pos < r.pos
  {
    ScanNumber(data, SkipBlanks(data, pos))
  }

  /** `consumeChar`: the position behind the expected character, or None. */
  function Consume(data: string, pos: nat, expected: char): (r: Option<nat>)
    ensures r.Some? ==> pos < r.value <= |data|
  {
    var p := SkipBlanks(data, pos);
    if p < |data| && data[p] == expected then Some(p + 1) else None
  }

  datatype BoolScan = BoolScan(ok: bool, value: bool, pos: nat)

  function ScanBool(data: string, pos: nat): (r: BoolScan)
    requires pos <= |data|
    ensures pos <= r.pos <= |data|
    ensures r.ok ==> pos < r.pos
  {
    var p := SkipBlanks(data, pos);
    if At(data, p, "true") then BoolScan(true, true, p + 4)
    else if At(data, p, "false") then BoolScan(true, false, p + 5)
    else BoolScan(false, false, p)
  }

  datatype ValueScan = ValueScan(ok: bool, text: string, isString: bool, pos: nat)

  /** A string, number, boolean or null, as text. */
  function ScanValue(data: string, pos: nat): (r: ValueScan)
    requires pos <= |data|
    ensures pos <= r.pos <= |data|
    ensures r.ok ==> pos < r.pos
  {
    var p := SkipBlanks(data, pos);
    if p >= |data| then
      ValueScan(false, "", false, p)
    else if data[p] == '"' then
      var s := StringScan(data, p);
      ValueScan(s.ok, s.text, true, s.pos)
    else if data[p] == '-' || data[p] == '+' || IsDigit(data[p]) then
      var s := NumberScan(data, p);
      ValueScan(s.ok, s.text, false, s.pos)
    else
      var b := ScanBool(data, p);
      if b.ok then ValueScan(true, if b.value then "true" else "false", false, b.pos)
      else if At(data, p, "null") then ValueScan(true, "", false, p + 4)
      else ValueScan(false, "", false, p)
  }

  /** `skipJsonValue`: the position it leaves. Behind the end of the text it stays where it is. */
  function Skip(data: string, pos: nat): (r: nat)
    ensures pos <= r && (pos < |data| ==> pos < r)
    decreases if pos <= |data| then |data| - pos else 0, 0
  {
    var p := SkipBlanks(data, pos);
    if p >= |data| then p
    else if data[p] == '{' then SkipItems(data, p + 1, '}')
    else if data[p] == '[' then SkipItems(data, p + 1, ']')
    else if data[p] == '"' then StringScan(data, p).pos
    else if At(data, p, "true") || At(data, p, "false") || At(data, p, "null") then
      var q := ScanBool(data, p).pos;
      if At(data, q, "null") then q + 4 else q
    else
      var s := NumberScan(data, p);
      if s.ok then s.pos else s.pos + 1
  }

  /** The loop behind an opening brace or bracket. */
  function SkipItems(data: string, pos: nat, close: char): (r: nat)
    ensures pos <= r
    decreases if pos <= |data| then |data| - pos else 0, 1
  {
    if pos >= |data| then pos
    else
      var p := SkipBlanks(data, Skip(data, pos));
      if p < |data| && data[p] == close then p + 1
      else SkipItems(data, p + 1, close)
  }

  /** One round of that loop. */
  lemma ItemsStep(data: string, p: nat, close: char)
    ensures SkipItems(data, p, close) ==
      if p >= |data| then p
      else
        var q := SkipBlanks(data, Skip(data, p));
        if q < |data| && data[q] == close then q + 1 else SkipItems(data, q + 1, close)
  {
    hide Skip, SkipBlanks;
  }

  // ----- The scanners themselves -----

  method SkipWhitespace(data: string, pos0: nat) returns (pos: nat)
    ensures pos == SkipBlanks(data, pos0)
  {
    pos := pos0;
    while pos < |data| && IsSpace(data[pos])
      invariant SkipBlanks(data, pos) == SkipBlanks(data, pos0)
    {
      pos := pos + 1;
    }
  }

  method ConsumeChar(data: string, pos0: nat, expected: char) returns (ok: bool, pos: nat)
    ensures Consume(data, pos0, expected) == if ok then Some(pos) else None
    ensures !ok ==> pos == SkipBlanks(data, pos0)
  {
    pos := SkipWhitespace(data, pos0);
    if pos < |data| && data[pos] == expected {
      return true, pos + 1;
    }
    ok := false;
  }

  method ParseJsonString(data: string, pos0: nat) returns (ok: bool, out: string, pos: nat)
    ensures var r := StringScan(data, pos0); ok == r.ok && pos == r.pos && (ok ==> out == r.text)
  {
    out := "";
    pos := SkipWhitespace(data, pos0);
    if pos >= |data| || data[pos] != '"' {
      return false, out, pos;
    }
    pos := pos + 1;
    ghost var whole := StringTail(data, pos);
    assert "" + whole.text == whole.text;
    hide SkipBlanks, IsSpace, Unescape;
    while pos < |data|
      invariant pos <= |data|
      invariant whole == Prefixed(out, StringTail(data, pos))
      decreases |data| - pos
    {
      var c := data[pos];
      pos := pos + 1;
      if c == '"' {
        assert out + "" == out;
        return true, out, pos;
      }
      if c == '\\' && pos < |data| {
        PrefixedTwice(out, [Unescape(data[pos])], StringTail(data, pos + 1));
        out := out + [Unescape(data[pos])];
        pos := pos + 1;
      } else {
        PrefixedTwice(out, [c], StringTail(data, pos));
        out := out + [c];
      }
    }
    ok := false;
  }

  method SkipDigitRun(data: string, pos0: nat) returns (any: bool, pos: nat)
    requires pos0 <= |data|
    ensures pos == SkipDigits(data, pos0) && any == (pos > pos0)
  {
    pos := pos0;
    any := false;
    while pos < |data| && IsDigit(data[pos])
      invariant pos0 <= pos <= |data| && any == (pos > pos0)
      invariant SkipDigits(data, pos) == SkipDigits(data, pos0)
    {
      any := true;
      pos := pos + 1;
    }
  }

  /** The sign and the digits around the decimal point. */
  method ScanMantissa(data: string, start: nat) returns (hasDigits: bool, pos: nat)
    requires start <= |data|
    ensures var p1 := SkipSign(data, start);
      var p2 := SkipDigits(data, p1);
      pos == SkipFraction(data, p2) && hasDigits == (p2 > p1 || pos > p2 + 1)
    ensures start <= pos <= |data|
  {
    hide SkipDigits, IsDigit, AllDigits;
    pos := start;
    if pos < |data| && (data[pos] == '-' || data[pos] == '+') {
      pos := pos + 1;
    }
    hasDigits, pos := SkipDigitRun(data, pos);
    if pos < |data| && data[pos] == '.' {
      var more;
      more, pos := SkipDigitRun(data, pos + 1);
      hasDigits := hasDigits || more;
    }
  }

  method ParseJsonNumberAsString(data: string, pos0: nat) returns (ok: bool, out: string, pos: nat)
    requires pos0 <= |data|
    ensures var r := NumberScan(data, pos0); ok == r.ok && pos == r.pos && (ok ==> out == r.text)
  {
    hide SkipDigits, IsDigit, AllDigits, SkipFraction, SkipBlanks, IsSpace;
    out := "";
    var start := SkipWhitespace(data, pos0);
    var hasDigits;
    hasDigits, pos := ScanMantissa(data, start);
    if !hasDigits {
      return false, out, pos;
    }
    if pos < |data| && (data[pos] == 'e' || data[pos] == 'E') {
      pos := pos + 1;
      if pos < |data| && (data[pos] == '+' || data[pos] == '-') {
        pos := pos + 1;
      }
      var expDigits;
      expDigits, pos := SkipDigitRun(data, pos);
      if !expDigits {
        return false, out, pos;
      }
    }
    return true, data[start..pos], pos;
  }

  /** `data.compare(pos, n, literal) == 0`, which throws when `pos` is past the end. */
  method Compare(data: string, pos: nat, literal: string) returns (same: bool)
    requires pos <= |data|
    ensures same == At(data, pos, literal)
  {
    same := pos + |literal| <= |data| && data[pos..pos + |literal|] == literal;
  }

  method ParseJsonBool(data: string, pos0: nat) returns (ok: bool, out: bool, pos: nat)
    requires pos0 <= |data|
    ensures BoolScan(ok, out, pos) == ScanBool(data, pos0)
  {
    pos := SkipWhitespace(data, pos0);
    var isTrue := Compare(data, pos, "true");
    if isTrue {
      return true, true, pos + 4;
    }
    var isFalse := Compare(data, pos, "false");
    if isFalse {
      return true, false, pos + 5;
    }
    return false, false, pos;
  }

  method ParseJsonValueAsString(data: string, pos0: nat) returns (ok: bool, out: string, outIsString: bool, pos: nat)
    requires pos0 <= |data|
    ensures var r := ScanValue(data, pos0);
      ok == r.ok && pos == r.pos && (ok ==> out == r.text && outIsString == r.isString)
  {
    out, outIsString, ok := "", false, false;
    pos := SkipWhitespace(data, pos0);
    if pos >= |data| {
      return;
    }
    if data[pos] == '"' {
      outIsString := true;
      ok, out, pos := ParseJsonString(data, pos);
      return;
    }
    if data[pos] == '-' || data[pos] == '+' || IsDigit(data[pos]) {
      ok, out, pos := ParseJsonNumberAsString(data, pos);
      return;
    }
    var boolValue;
    ok, boolValue, pos := ParseJsonBool(data, pos);
    if ok {
      out := if boolValue then "true" else "false";
      return;
    }
    var isNull := Compare(data, pos, "null");
    if isNull {
      ok, pos := true, pos + 4;
    }
  }

  method SkipJsonValue(data: string, pos0: nat) returns (pos: nat)
    ensures pos == Skip(data, pos0)
    decreases if pos0 <= |data| then |data| - pos0 else 0, 0
  {
    hide At, IsSpace, StringScan, NumberScan, ScanBool;
    pos := SkipWhitespace(data, pos0);
    if pos >= |data| {
      return;
    }
    if data[pos] == '{' || data[pos] == '[' {
      var close := if data[pos] == '{' then '}' else ']';
      pos := pos + 1;
      ghost var end := SkipItems(data, pos, close);
      while pos < |data|
        invariant pos0 < pos
        invariant SkipItems(data, pos, close) == end
        decreases |data| - pos
      {
        hide Skip, SkipItems, SkipBlanks;
        ItemsStep(data, pos, close);
        pos := SkipJsonValue(data, pos);
        pos := SkipWhitespace(data, pos);
        if pos < |data| && data[pos] == ',' {
          pos := pos + 1;
          continue;
        }
        if pos < |data| && data[pos] == close {
          pos := pos + 1;
          return;
        }
        pos := pos + 1;
      }
      ItemsStep(data, pos, close);
      return;
    }
    if data[pos] == '"' {
      var ok, unused;
      ok, unused, pos := ParseJsonString(data, pos);
      return;
    }
    var isTrue := Compare(data, pos, "true");
    var isFalse := Compare(data, pos, "false");
    var isNull := Compare(data, pos, "null");
    if isTrue || isFalse || isNull {
      var ok, boolValue;
      ok, boolValue, pos := ParseJsonBool(data, pos);
      isNull := Compare(data, pos, "null");
      if isNull {
        pos := pos + 4;
      }
      return;
    }
    var ok, number;
    ok, number, pos := ParseJsonNumberAsString(data, pos);
    if ok {
      return;
    }
    pos := pos + 1;
  }
}
