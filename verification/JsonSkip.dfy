/** Skipping values the rules reader does not know (server/rules.hpp, lines 258-315): `Skip` on JSON
    texts, sections 3 to 7 of RFC 8259, and what that means for unknown members. */
module JsonSkip {
  import opened Text
  import opened Numbers
  import opened JsonReader
  import opened RuleReader
  import opened RoundTrip

  // ----- JSON texts -----

  /** A character of a string, or a backslash and the character behind it. */
  datatype Piece = Raw(c: char) | Escaped(c: char)

  /** JSON values with their blanks. Lists of items and members are never empty: the reader
      mistakes the closing bracket of an empty container for a value. */
  datatype Json =
    | Word(text: string)
    | Num(lexeme: Lexeme)
    | Str(body: seq<Piece>)
    | Arr(items: Items)
    | Obj(members: Members)

  datatype Items = Items(before: string, value: Json, after: string, more: MoreItems)

  datatype MoreItems = NoItem | MoreItems(items: Items)

  datatype Members = Members(before: string, key: seq<Piece>, beforeColon: string, member: Items, more: MoreMembers)

  datatype MoreMembers = NoMember | MoreMembers(members: Members)

  predicate ValidPieces(body: seq<Piece>) {
    forall i :: 0 <= i < |body| && body[i].Raw? ==> body[i].c != '"' && body[i].c != '\\'
  }

  predicate Valid(v: Json) {
    match v
    case Word(text) => text == "true" || text == "false" || text == "null"
    case Num(lexeme) => lexeme.Valid()
    case Str(body) => ValidPieces(body)
    case Arr(items) => ValidItems(items)
    case Obj(members) => ValidMembers(members)
  }

  predicate ValidItems(items: Items) {
    && Blank(items.before) && Valid(items.value) && Blank(items.after)
    && (items.more.MoreItems? ==> ValidItems(items.more.items))
  }

  /** The value of a member stands in an item list of its own. */
  predicate ValidMembers(m: Members) {
    && Blank(m.before) && ValidPieces(m.key) && Blank(m.beforeColon)
    && ValidItems(m.member) && m.member.more.NoItem?
    && (m.more.MoreMembers? ==> ValidMembers(m.more.members))
  }

  function PieceText(p: Piece): string {
    match p
    case Raw(c) => [c]
    case Escaped(c) => ['\\', c]
  }

  function BodyText(body: seq<Piece>): string {
    if body == [] then "" else PieceText(body[0]) + BodyText(body[1..])
  }

  /** The characters a string stands for, to this reader. */
  function Decoded(body: seq<Piece>): string {
    if body == [] then "" else [if body[0].Raw? then body[0].c else Unescape(body[0].c)] + Decoded(body[1..])
  }

  function StringText(body: seq<Piece>): string {
    "\"" + (BodyText(body) + "\"")
  }

  function JsonText(v: Json): string {
    match v
    case Word(text) => text
    case Num(lexeme) => lexeme.Text()
    case Str(body) => StringText(body)
    case Arr(items) => "[" + ItemsText(items)
    case Obj(members) => "{" + MembersText(members)
  }

  function ItemsText(items: Items): string {
    items.before + (JsonText(items.value) + (items.after +
      (if items.more.MoreItems? then "," + ItemsText(items.more.items) else "]")))
  }

  function MembersText(m: Members): string {
    m.before + (StringText(m.key) + (m.beforeColon + (":" +
      (m.member.before + (JsonText(m.member.value) + (m.member.after +
        (if m.more.MoreMembers? then "," + MembersText(m.more.members) else "}")))))))
  }

  // ----- Skipping them -----

  /** What may stand behind a value. */
  predicate Boundary(data: string, q: nat) {
    q >= |data| || data[q] == ',' || data[q] == ']' || data[q] == '}' || IsSpace(data[q])
  }

  lemma {:induction false} StringTailOfBody(data: string, p: nat, body: seq<Piece>)
    requires ValidPieces(body) && At(data, p, BodyText(body) + "\"")
    ensures StringTail(data, p) == Scan(true, Decoded(body), p + |BodyText(body)| + 1)
    decreases |body|
  {
    hide At;
    if body == [] {
      assert "" + "\"" == "\"";
      AtChar(data, p, "\"", 0);
    } else {
      var piece, tail := PieceText(body[0]), BodyText(body[1..]) + "\"";
      assert BodyText(body) + "\"" == piece + tail;
      AtSplit(data, p, piece, tail);
      AtChar(data, p, piece, 0);
      if |piece| == 2 {
        AtChar(data, p, piece, 1);
      }
      StringTailOfBody(data, p + |piece|, body[1..]);
    }
  }

  lemma StringScanned(data: string, p: nat, body: seq<Piece>)
    requires ValidPieces(body) && At(data, p, StringText(body))
    ensures p < |data| && data[p] == '"'
    ensures StringScan(data, p) == Scan(true, Decoded(body), p + |StringText(body)|)
  {
    hide At, StringTail, BodyText, ValidPieces;
    AtSplit(data, p, "\"", BodyText(body) + "\"");
    AtChar(data, p, "\"", 0);
    StringTailOfBody(data, p + 1, body);
  }

  lemma SkipThroughBlanks(data: string, p: nat, q: nat)
    requires SkipBlanks(data, p) == q && q < |data| && !IsSpace(data[q])
    ensures Skip(data, p) == Skip(data, q)
  {
    NoBlanks(data, q);
  }

  lemma WordSkipped(data: string, p: nat, text: string)
    requires (text == "true" || text == "false" || text == "null") && At(data, p, text) && Boundary(data, p + |text|)
    ensures p < |data| && !IsSpace(data[p]) && Skip(data, p) == p + |text|
  {
    hide At;
    AtChar(data, p, text, 0);
    NoBlanks(data, p);
    if At(data, p, "true") { AtChar(data, p, "true", 0); }
    if At(data, p, "false") { AtChar(data, p, "false", 0); }
    if At(data, p, "null") { AtChar(data, p, "null", 0); }
    if At(data, p + |text|, "null") { AtChar(data, p + |text|, "null", 0); }
  }

  /** Where no word begins. */
  lemma NoWord(data: string, p: nat)
    requires p < |data| && data[p] != 't' && data[p] != 'f' && data[p] != 'n'
    ensures !At(data, p, "true") && !At(data, p, "false") && !At(data, p, "null")
  {
    hide At;
    if At(data, p, "true") { AtChar(data, p, "true", 0); }
    if At(data, p, "false") { AtChar(data, p, "false", 0); }
    if At(data, p, "null") { AtChar(data, p, "null", 0); }
  }

  /** What is no container, string or word is skipped as a number, or as one character behind what was
      taken for the beginning of one. */
  lemma SkipsAsNumber(data: string, p: nat)
    requires p < |data| && !IsSpace(data[p]) && data[p] != '{' && data[p] != '[' && data[p] != '"'
    requires data[p] != 't' && data[p] != 'f' && data[p] != 'n'
    ensures var s := ScanNumber(data, p); Skip(data, p) == if s.ok then s.pos else s.pos + 1
  {
    hide At, ScanNumber, SkipItems, StringScan, ScanBool, SkipBlanks;
    NoBlanks(data, p);
    NoWord(data, p);
  }

  lemma NumberSkipped(data: string, p: nat, l: Lexeme)
    requires l.Valid() && At(data, p, l.Text()) && Boundary(data, p + |l.Text()|)
    ensures p < |data| && !IsSpace(data[p]) && Skip(data, p) == p + |l.Text()|
  {
    hide At, ScanNumber, Skip, Lexeme.Text, Lexeme.Valid;
    NumberStart(data, p, l);
    ScanLexeme(data, p, l);
    SkipsAsNumber(data, p);
  }

  /** One round of the item loop. */
  lemma ItemRound(data: string, p: nat, close: char, q: nat)
    requires p < |data| && SkipBlanks(data, Skip(data, p)) == q && q < |data|
    ensures SkipItems(data, p, close) == if data[q] == close then q + 1 else SkipItems(data, q + 1, close)
  {}

  /** `Skip` consumes exactly one value, whatever its nesting, when no container in it is empty. */
  lemma {:induction false} ValueSkipped(data: string, p: nat, v: Json)
    requires Valid(v) && At(data, p, JsonText(v)) && Boundary(data, p + |JsonText(v)|)
    ensures p < |data| && !IsSpace(data[p]) && Skip(data, p) == p + |JsonText(v)|
    decreases v
  {
    hide At, SkipItems, StringScan, SkipBlanks, ItemsText, MembersText;
    match v
    case Word(text) => WordSkipped(data, p, text);
    case Num(lexeme) => NumberSkipped(data, p, lexeme);
    case Str(body) =>
      StringScanned(data, p, body);
      NoBlanks(data, p);
    case Arr(items) =>
      AtSplit(data, p, "[", ItemsText(items));
      AtChar(data, p, "[", 0);
      NoBlanks(data, p);
      ItemsSkipped(data, p + 1, items);
    case Obj(members) =>
      AtSplit(data, p, "{", MembersText(members));
      AtChar(data, p, "{", 0);
      NoBlanks(data, p);
      MembersSkipped(data, p + 1, members);
  }

  /** A value between blanks, followed by something that is no blank. */
  lemma {:induction false} SpacedValueSkipped(data: string, p: nat, items: Items, follow: string)
    requires Blank(items.before) && Valid(items.value) && Blank(items.after)
    requires At(data, p, items.before + (JsonText(items.value) + (items.after + follow)))
    requires follow != "" && (follow[0] == ',' || follow[0] == ']' || follow[0] == '}')
    ensures var q := p + |items.before| + |JsonText(items.value)| + |items.after|;
      p < |data| && SkipBlanks(data, Skip(data, p)) == q && At(data, q, follow) && q < |data| && data[q] == follow[0]
    decreases items, 0
  {
    hide At, Skip, SkipBlanks, Blank, JsonText;
    var p1 := p + |items.before|;
    var p2 := p1 + |JsonText(items.value)|;
    var q := p2 + |items.after|;
    AtSplit(data, p, items.before, JsonText(items.value) + (items.after + follow));
    AtSplit(data, p1, JsonText(items.value), items.after + follow);
    AtSplit(data, p2, items.after, follow);
    AtChar(data, q, follow, 0);
    BlankBoundary(data, p2, items.after);
    ValueSkipped(data, p1, items.value);
    BlanksEnd(data, p, items.before);
    SkipThroughBlanks(data, p, p1);
    BlanksEnd(data, p2, items.after);
  }

  lemma BlankBoundary(data: string, p: nat, blanks: string)
    requires At(data, p, blanks) && Blank(blanks) && Boundary(data, p + |blanks|)
    ensures Boundary(data, p)
  {
    if blanks != "" {
      AtChar(data, p, blanks, 0);
    }
  }

  lemma {:induction false} ItemsSkipped(data: string, p: nat, items: Items)
    requires ValidItems(items) && At(data, p, ItemsText(items))
    ensures SkipItems(data, p, ']') == p + |ItemsText(items)|
    decreases items, 1
  {
    hide At, Skip, SkipBlanks, Blank, JsonText, SkipItems;
    var q := p + |items.before| + |JsonText(items.value)| + |items.after|;
    if items.more.MoreItems? {
      SpacedValueSkipped(data, p, items, "," + ItemsText(items.more.items));
      AtSplit(data, q, ",", ItemsText(items.more.items));
      ItemsSkipped(data, q + 1, items.more.items);
    } else {
      SpacedValueSkipped(data, p, items, "]");
    }
    ItemRound(data, p, ']', q);
  }

  lemma {:induction false} MembersSkipped(data: string, p: nat, m: Members)
    requires ValidMembers(m) && At(data, p, MembersText(m))
    ensures SkipItems(data, p, '}') == p + |MembersText(m)|
    decreases m, 1
  {
    hide At, Skip, SkipBlanks, Blank, JsonText, SkipItems, StringText, ValidPieces, MembersText;
    var follow := if m.more.MoreMembers? then "," + MembersText(m.more.members) else "}";
    var value := m.member.before + (JsonText(m.member.value) + (m.member.after + follow));
    MembersUnfold(m, value);
    var colon := p + |m.before| + |StringText(m.key)| + |m.beforeColon|;
    KeySkipped(data, p, m, value);
    ItemRound(data, p, '}', colon);
    SpacedValueSkipped(data, colon + 1, m.member, follow);
    var q := colon + 1 + |m.member.before| + |JsonText(m.member.value)| + |m.member.after|;
    ItemRound(data, colon + 1, '}', q);
    if m.more.MoreMembers? {
      AtSplit(data, q, ",", MembersText(m.more.members));
      MembersSkipped(data, q + 1, m.more.members);
    }
  }

  lemma MembersUnfold(m: Members, value: string)
    requires value == m.member.before + (JsonText(m.member.value) + (m.member.after +
        (if m.more.MoreMembers? then "," + MembersText(m.more.members) else "}")))
    ensures MembersText(m) == m.before + (StringText(m.key) + (m.beforeColon + (":" + value)))
  {}

  /** A quoted name and a colon behind it, blanks before either. */
  lemma KeyPlaces(data: string, p: nat, m: Members, value: string)
    requires Blank(m.before) && ValidPieces(m.key) && Blank(m.beforeColon)
    requires At(data, p, m.before + (StringText(m.key) + (m.beforeColon + (":" + value))))
    ensures var p1 := p + |m.before|;
      var p2 := p1 + |StringText(m.key)|;
      var q := p2 + |m.beforeColon|;
      && p1 < |data| && data[p1] == '"' && SkipBlanks(data, p) == SkipBlanks(data, p1) == p1
      && StringScan(data, p1) == Scan(true, Decoded(m.key), p2)
      && SkipBlanks(data, p2) == q && q < |data| && data[q] == ':' && At(data, q + 1, value)
  {
    hide At, SkipBlanks, Blank, StringText, ValidPieces, StringScan;
    var p1 := p + |m.before|;
    var p2 := p1 + |StringText(m.key)|;
    var q := p2 + |m.beforeColon|;
    AtSplit(data, p, m.before, StringText(m.key) + (m.beforeColon + (":" + value)));
    AtSplit(data, p1, StringText(m.key), m.beforeColon + (":" + value));
    AtSplit(data, p2, m.beforeColon, ":" + value);
    AtSplit(data, q, ":", value);
    AtChar(data, q, ":", 0);
    StringScanned(data, p1, m.key);
    BlanksEnd(data, p, m.before);
    BlanksEnd(data, p2, m.beforeColon);
    NoBlanks(data, p1);
  }

  /** A container skips over a name like over a value. */
  lemma KeySkipped(data: string, p: nat, m: Members, value: string)
    requires Blank(m.before) && ValidPieces(m.key) && Blank(m.beforeColon)
    requires At(data, p, m.before + (StringText(m.key) + (m.beforeColon + (":" + value))))
    ensures var q := p + |m.before| + |StringText(m.key)| + |m.beforeColon|;
      && p < |data| && SkipBlanks(data, Skip(data, p)) == q
      && q < |data| && data[q] == ':' && At(data, q + 1, value)
  {
    hide At, SkipBlanks, Blank, StringText, ValidPieces, StringScan, SkipItems;
    KeyPlaces(data, p, m, value);
  }

  /** An empty container, with or without blanks in it: its closing bracket is taken for a value, so
      more than the container is consumed, or the end of the text is overrun. */
  lemma EmptyContainerIsOverrun(data: string, p: nat, blanks: string, isObject: bool)
    requires Blank(blanks) && At(data, p, (if isObject then "{" else "[") + (blanks + (if isObject then "}" else "]")))
    ensures Skip(data, p) > p + |blanks| + 2
  {
    hide At, Skip, SkipItems, SkipBlanks, Blank;
    var open, close := if isObject then "{" else "[", if isObject then "}" else "]";
    var q := p + 1 + |blanks|;
    AtSplit(data, p, open, blanks + close);
    AtSplit(data, p + 1, blanks, close);
    AtChar(data, p, open, 0);
    AtChar(data, q, close, 0);
    BlanksEnd(data, p + 1, blanks);
    NoValue(data, q);
    SkipThroughBlanks(data, p + 1, q);
    Opened(data, p);
    MoreSkipped(data, p + 1, close[0]);
  }

  /** The item loop goes on at least one character behind its first item. */
  lemma MoreSkipped(data: string, p: nat, close: char)
    requires p < |data|
    ensures SkipItems(data, p, close) > Skip(data, p)
  {
    hide Skip;
  }

  /** A character no value starts with is skipped on its own. */
  lemma NoValue(data: string, p: nat)
    requires p < |data| && (data[p] == ',' || data[p] == '}' || data[p] == ']' || data[p] == 'x')
    ensures Skip(data, p) == p + 1
  {
    hide Skip;
    SkipsAsNumber(data, p);
  }

  lemma LastDigitSkipped(data: string, p: nat)
    requires p + 1 < |data| && IsDigit(data[p]) && data[p + 1] == ']'
    ensures Skip(data, p) == p + 1
  {
    hide Skip;
    assert SkipDigits(data, p + 1) == p + 1;
    SkipsAsNumber(data, p);
  }

  /** One round of the item loop behind which the loop goes on. */
  lemma ItemPassed(data: string, p: nat, close: char, q: nat)
    requires p < q < |data| && Skip(data, p) == q && !IsSpace(data[q]) && data[q] != close
    ensures SkipItems(data, p, close) == SkipItems(data, q + 1, close)
  {
    hide Skip;
    NoBlanks(data, q);
    ItemRound(data, p, close, q);
  }

  lemma LastItem(data: string, p: nat, close: char, q: nat)
    requires p < q < |data| && Skip(data, p) == q && !IsSpace(data[q]) && data[q] == close
    ensures SkipItems(data, p, close) == q + 1
  {
    hide Skip;
    NoBlanks(data, q);
    ItemRound(data, p, close, q);
  }

  lemma Opened(data: string, p: nat)
    requires p < |data|
    ensures data[p] == '[' ==> Skip(data, p) == SkipItems(data, p + 1, ']')
    ensures data[p] == '{' ==> Skip(data, p) == SkipItems(data, p + 1, '}')
  {
    hide SkipItems, At;
    if data[p] == '[' || data[p] == '{' {
      NoBlanks(data, p);
    }
  }

  /** An empty object inside need not lead astray: here the overrun ends at a brace in a later string,
      and the brackets happen to come out even. */
  lemma EmptyCanBeHarmless()
    ensures var data := "[[{}],\"x}]\",12]"; Skip(data, 0) == |data|
  {
    var data := "[[{}],\"x}]\",12]";
    hide Skip, SkipItems;
    Opened(data, 0);
    Opened(data, 1);
    Opened(data, 2);
    NoValue(data, 3);
    ItemPassed(data, 3, '}', 4);
    NoValue(data, 5);
    ItemPassed(data, 5, '}', 6);
    NoValue(data, 7);
    LastItem(data, 7, '}', 8);
    LastItem(data, 2, ']', 9);
    ItemPassed(data, 1, ']', 10);
    NoValue(data, 11);
    ItemPassed(data, 11, ']', 12);
    LastDigitSkipped(data, 13);
    LastItem(data, 13, ']', 14);
  }

  // ----- How far a skip can leave the text behind -----

  function Larger(m: nat, n: nat): nat {
    if m < n then n else m
  }

  /** How deep `Skip` descends: containers inside containers on the way. */
  function Depth(data: string, pos: nat): nat
    decreases if pos <= |data| then |data| - pos else 0, 0
  {
    var p := SkipBlanks(data, pos);
    if p >= |data| then 0
    else if data[p] == '{' then 1 + ItemsDepth(data, p + 1, '}')
    else if data[p] == '[' then 1 + ItemsDepth(data, p + 1, ']')
    else 0
  }

  function ItemsDepth(data: string, pos: nat, close: char): nat
    decreases if pos <= |data| then |data| - pos else 0, 1
  {
    if pos >= |data| then 0
    else
      var p := SkipBlanks(data, Skip(data, pos));
      Larger(Depth(data, pos), if p < |data| && data[p] == close then 0 else ItemsDepth(data, p + 1, close))
  }

  /** The nesting of a value: 0 for a scalar, one more than the deepest item for a container. */
  function Nesting(v: Json): nat {
    match v
    case Arr(items) => 1 + ItemsNesting(items)
    case Obj(members) => 1 + MembersNesting(members)
    case _ => 0
  }

  function ItemsNesting(items: Items): nat {
    Larger(Nesting(items.value), if items.more.MoreItems? then ItemsNesting(items.more.items) else 0)
  }

  function MembersNesting(m: Members): nat {
    Larger(Nesting(m.member.value), if m.more.MoreMembers? then MembersNesting(m.more.members) else 0)
  }

  lemma DepthRound(data: string, p: nat, close: char, q: nat)
    requires p < |data| && SkipBlanks(data, Skip(data, p)) == q && q < |data|
    ensures ItemsDepth(data, p, close) ==
      Larger(Depth(data, p), if data[q] == close then 0 else ItemsDepth(data, q + 1, close))
  {
    hide Skip, SkipBlanks, Depth;
  }

  lemma DepthFrom(data: string, p: nat, q: nat)
    requires SkipBlanks(data, p) == q && q < |data| && !IsSpace(data[q])
    ensures Depth(data, p) == Depth(data, q)
    ensures data[q] != '{' && data[q] != '[' ==> Depth(data, p) == 0
    ensures data[q] == '{' ==> Depth(data, p) == 1 + ItemsDepth(data, q + 1, '}')
    ensures data[q] == '[' ==> Depth(data, p) == 1 + ItemsDepth(data, q + 1, ']')
  {
    hide ItemsDepth;
    NoBlanks(data, q);
  }

  /** On a value without empty containers the depth is that value's nesting. */
  lemma {:induction false} DepthIsNesting(data: string, p: nat, v: Json)
    requires Valid(v) && At(data, p, JsonText(v)) && Boundary(data, p + |JsonText(v)|)
    ensures Depth(data, p) == Nesting(v)
    decreases v
  {
    hide At, ItemsDepth, Depth, Skip, SkipBlanks, ItemsText, MembersText, StringScan;
    ValueSkipped(data, p, v);
    NoBlanks(data, p);
    DepthFrom(data, p, p);
    match v
    case Word(text) => AtChar(data, p, text, 0);
    case Num(lexeme) => NumberStart(data, p, lexeme);
    case Str(body) => StringScanned(data, p, body);
    case Arr(items) =>
      AtSplit(data, p, "[", ItemsText(items));
      AtChar(data, p, "[", 0);
      ItemsDepthIs(data, p + 1, items);
    case Obj(members) =>
      AtSplit(data, p, "{", MembersText(members));
      AtChar(data, p, "{", 0);
      MembersDepthIs(data, p + 1, members);
  }

  lemma {:induction false} SpacedDepth(data: string, p: nat, items: Items, follow: string)
    requires Blank(items.before) && Valid(items.value) && Blank(items.after)
    requires At(data, p, items.before + (JsonText(items.value) + (items.after + follow)))
    requires follow != "" && (follow[0] == ',' || follow[0] == ']' || follow[0] == '}')
    ensures Depth(data, p) == Nesting(items.value)
    decreases items, 0
  {
    hide At, Skip, SkipBlanks, Blank, JsonText, Depth, Nesting;
    var p1 := p + |items.before|;
    var p2 := p1 + |JsonText(items.value)|;
    AtSplit(data, p, items.before, JsonText(items.value) + (items.after + follow));
    AtSplit(data, p1, JsonText(items.value), items.after + follow);
    AtSplit(data, p2, items.after, follow);
    AtChar(data, p2 + |items.after|, follow, 0);
    BlankBoundary(data, p2, items.after);
    ValueSkipped(data, p1, items.value);
    BlanksEnd(data, p, items.before);
    DepthFrom(data, p, p1);
    DepthIsNesting(data, p1, items.value);
  }

  lemma {:induction false} ItemsDepthIs(data: string, p: nat, items: Items)
    requires ValidItems(items) && At(data, p, ItemsText(items))
    ensures ItemsDepth(data, p, ']') == ItemsNesting(items)
    decreases items, 1
  {
    hide At, Skip, SkipBlanks, Blank, JsonText, Depth, ItemsDepth, Nesting;
    var follow := if items.more.MoreItems? then "," + ItemsText(items.more.items) else "]";
    var q := p + |items.before| + |JsonText(items.value)| + |items.after|;
    SpacedValueSkipped(data, p, items, follow);
    SpacedDepth(data, p, items, follow);
    DepthRound(data, p, ']', q);
    if items.more.MoreItems? {
      AtSplit(data, q, ",", ItemsText(items.more.items));
      ItemsDepthIs(data, q + 1, items.more.items);
    }
  }

  lemma {:induction false} MembersDepthIs(data: string, p: nat, m: Members)
    requires ValidMembers(m) && At(data, p, MembersText(m))
    ensures ItemsDepth(data, p, '}') == MembersNesting(m)
    decreases m, 1
  {
    hide At, Skip, SkipBlanks, Blank, JsonText, Depth, ItemsDepth, Nesting, StringText, ValidPieces, MembersText;
    var follow := if m.more.MoreMembers? then "," + MembersText(m.more.members) else "}";
    var value := m.member.before + (JsonText(m.member.value) + (m.member.after + follow));
    MembersUnfold(m, value);
    var colon := p + |m.before| + |StringText(m.key)| + |m.beforeColon|;
    KeySkipped(data, p, m, value);
    KeyPlaces(data, p, m, value);
    DepthFrom(data, p, p + |m.before|);
    DepthRound(data, p, '}', colon);
    SpacedValueSkipped(data, colon + 1, m.member, follow);
    SpacedDepth(data, colon + 1, m.member, follow);
    var q := colon + 1 + |m.member.before| + |JsonText(m.member.value)| + |m.member.after|;
    DepthRound(data, colon + 1, '}', q);
    if m.more.MoreMembers? {
      AtSplit(data, q, ",", MembersText(m.more.members));
      MembersDepthIs(data, q + 1, m.more.members);
    }
  }

  lemma NoBlanksBehind(data: string, p: nat)
    ensures p <= SkipBlanks(data, p) && (SkipBlanks(data, p) <= |data| || SkipBlanks(data, p) == p)
  {}

  /** Malformed text can be overrun, but by no more than its nesting depth plus one. */
  lemma {:induction false} SkipOverrun(data: string, p: nat)
    requires p <= |data|
    ensures Skip(data, p) <= |data| + 1 + Depth(data, p)
    decreases |data| - p, 0
  {
    hide At, SkipItems, ItemsDepth, StringScan, NumberScan, ScanBool, SkipBlanks;
    var q := SkipBlanks(data, p);
    NoBlanksBehind(data, p);
    if q < |data| && (data[q] == '{' || data[q] == '[') {
      ItemsOverrun(data, q + 1, if data[q] == '{' then '}' else ']');
    }
    WordLength(data, q);
  }

  lemma WordLength(data: string, q: nat)
    ensures q <= |data| && At(data, ScanBool(data, q).pos, "null") ==> ScanBool(data, q).pos + 4 <= |data|
  {}

  lemma {:induction false} ItemsOverrun(data: string, p: nat, close: char)
    requires p <= |data|
    ensures SkipItems(data, p, close) <= |data| + 2 + ItemsDepth(data, p, close)
    decreases |data| - p, 1
  {
    hide Skip, SkipBlanks, Depth;
    if p < |data| {
      SkipOverrun(data, p);
      var q := SkipBlanks(data, Skip(data, p));
      NoBlanksBehind(data, Skip(data, p));
      if q < |data| && data[q] != close {
        ItemsOverrun(data, q + 1, close);
      }
    }
  }

  function Brackets(n: nat): (r: string)
    ensures |r| == n
  {
    seq(n, i => '[')
  }

  /** When an item overruns the text, the loop adds one to it. */
  lemma EndedItems(data: string, p: nat, close: char)
    requires p < |data| <= Skip(data, p)
    ensures SkipItems(data, p, close) == Skip(data, p) + 1 && ItemsDepth(data, p, close) == Depth(data, p)
  {
    hide Skip, Depth;
    NoBlanksBehind(data, Skip(data, p));
    assert ItemsDepth(data, Skip(data, p) + 1, close) == 0;
  }

  lemma LoneMinus(data: string, p: nat)
    requires p + 1 == |data| && data[p] == '-'
    ensures Skip(data, p) == |data| + 1 && Depth(data, p) == 0
  {
    hide Skip;
    NoBlanks(data, p);
    SkipsAsNumber(data, p);
  }

  /** And by that much for every depth: brackets that are never closed around a lone minus sign. */
  lemma {:induction false} OverrunIsReached(n: nat, i: nat)
    requires i <= n
    ensures Depth(Brackets(n) + "-", i) == n - i
    ensures Skip(Brackets(n) + "-", i) == |Brackets(n) + "-"| + 1 + (n - i)
    decreases n - i
  {
    hide Skip, Depth, SkipItems, ItemsDepth;
    var data := Brackets(n) + "-";
    if i < n {
      NoBlanks(data, i);
      DepthFrom(data, i, i);
      Opened(data, i);
      OverrunIsReached(n, i + 1);
      EndedItems(data, i + 1, ']');
    } else {
      LoneMinus(data, n);
    }
  }

  // ----- Unknown members -----

  /** A member: its name, blanks, a colon and a value between blanks. */
  function MemberText(m: Members, follow: string): string {
    m.before + (StringText(m.key) + (m.beforeColon + (":" +
      (m.member.before + (JsonText(m.member.value) + (m.member.after + follow))))))
  }

  /** A member loop that ignores a member goes on right behind it, or behind the comma that follows. */
  lemma MemberPassed(data: string, p: nat, m: Members, rest: string, follow: string) returns (at: nat)
    requires ValidMembers(m) && At(data, p, MemberText(m, follow))
    requires follow == "," + rest || (follow == rest && rest != "" && rest[0] == '}')
    ensures var q := p + |MemberText(m, "")| + |follow| - |rest|;
      && NextMember(data, p) == Member(Decoded(m.key), at) && AfterItem(data, Skip(data, at)) == q
      && At(data, q, rest)
  {
    hide At, SkipBlanks, Blank, StringText, StringScan, ValidPieces, Decoded, JsonText, Skip;
    var value := m.member.before + (JsonText(m.member.value) + (m.member.after + follow));
    KeyPlaces(data, p, m, value);
    at := p + |m.before| + |StringText(m.key)| + |m.beforeColon| + 1;
    SpacedValueSkipped(data, at, m.member, follow);
    var q := at + |m.member.before| + |JsonText(m.member.value)| + |m.member.after|;
    if follow[0] == ',' {
      AtSplit(data, q, ",", rest);
    }
  }
}
