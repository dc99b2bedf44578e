// JSON values, the text JSON.stringify prints for them without indentation (strings
// escaped as section 7 of RFC 8259 requires), and a reader for that text.

module JsonText {
  import opened CodeUnits
  import opened JsonNumber
  import opened Prelude

  type Numeral = x: Num | x.Valid() witness Zero(false)

  datatype Json =
    | Null
    | Bool(b: bool)
    | Number(num: Numeral)
    | String(text: Text)
    | Array(items: Items)
    | Object(members: Members)

  datatype Items = NoItems | Item(head: Json, tail: Items)

  // Members in enumeration order.
  datatype Members = NoMembers | Member(key: Text, value: Json, rest: Members)

  const NULL_TEXT: Text := [0x6E, 0x75, 0x6C, 0x6C]
  const TRUE_TEXT: Text := [0x74, 0x72, 0x75, 0x65]
  const FALSE_TEXT: Text := [0x66, 0x61, 0x6C, 0x73, 0x65]
  const LOWER_U: CodeUnit := 0x75

  // ---- Strings -------------------------------------------------------------

  predicate IsHighSurrogate(c: CodeUnit) {
    0xD800 <= c <= 0xDBFF
  }

  predicate IsLowSurrogate(c: CodeUnit) {
    0xDC00 <= c <= 0xDFFF
  }

  // The one-letter escapes, as (unit, letter after the backslash).
  function ShortEscape(c: CodeUnit): Option<CodeUnit> {
    match c
    case 0x08 => Some(0x62)
    case 0x09 => Some(0x74)
    case 0x0A => Some(0x6E)
    case 0x0C => Some(0x66)
    case 0x0D => Some(0x72)
    case 0x22 => Some(QUOTE)
    case 0x5C => Some(BACKSLASH)
    case _ => None
  }

  function HexDigit(d: int): CodeUnit
    requires 0 <= d < 16
  {
    if d < 10 then 0x30 + d else 0x61 + d - 10
  }

  function UnicodeEscape(c: CodeUnit): (t: Text)
    ensures |t| == 6
  {
    [BACKSLASH, LOWER_U,
     HexDigit(c / 0x1000), HexDigit(c / 0x100 % 16), HexDigit(c / 0x10 % 16), HexDigit(c % 16)]
  }

  // A unit that is not half of a surrogate pair.
  function EscapeUnit(c: CodeUnit): Text {
    var short := ShortEscape(c);
    if short.Some? then [BACKSLASH, short.value]
    else if c < 0x20 || IsHighSurrogate(c) || IsLowSurrogate(c) then UnicodeEscape(c)
    else [c]
  }

  predicate StartsWithPair(s: Text) {
    |s| >= 2 && IsHighSurrogate(s[0]) && IsLowSurrogate(s[1])
  }

  // A surrogate pair is printed raw, a lone surrogate escaped.
  function EscapeAll(s: Text): Text {
    if s == [] then []
    else if StartsWithPair(s) then
      [s[0], s[1]] + EscapeAll(s[2..])
    else EscapeUnit(s[0]) + EscapeAll(s[1..])
  }

  function PrintString(s: Text): Text {
    [QUOTE] + EscapeAll(s) + [QUOTE]
  }

  function ReadShortEscape(letter: CodeUnit): Option<CodeUnit> {
    match letter
    case 0x62 => Some(0x08)
    case 0x74 => Some(0x09)
    case 0x6E => Some(0x0A)
    case 0x66 => Some(0x0C)
    case 0x72 => Some(0x0D)
    case 0x22 => Some(QUOTE)
    case 0x5C => Some(BACKSLASH)
    case 0x2F => Some(0x2F)
    case _ => None
  }

  function ReadHexDigit(c: CodeUnit): Option<int> {
    if 0x30 <= c <= 0x39 then Some(c - 0x30)
    else if 0x61 <= c <= 0x66 then Some(c - 0x61 + 10)
    else if 0x41 <= c <= 0x46 then Some(c - 0x41 + 10)
    else None
  }

  function ReadHex4(t: Text): (r: Option<CodeUnit>)
    requires |t| >= 4
  {
    match (ReadHexDigit(t[0]), ReadHexDigit(t[1]), ReadHexDigit(t[2]), ReadHexDigit(t[3]))
    case (Some(a), Some(b), Some(c), Some(d)) =>
      var u := a * 0x1000 + b * 0x100 + c * 0x10 + d;
      if 0 <= u < 0x1_0000 then Some(u) else None
    case _ => None
  }

  // One character of a string body: the unit it denotes and how many units it takes.
  function ReadUnit(t: Text): (r: Option<(CodeUnit, nat)>)
    requires t != []
    ensures r.Some? ==> 0 < r.value.1 <= |t|
  {
    if t[0] != BACKSLASH then Some((t[0], 1))
    else if |t| >= 6 && t[1] == LOWER_U then
      var u := ReadHex4(t[2..]);
      if u.Some? then Some((u.value, 6)) else None
    else if |t| >= 2 then
      var u := ReadShortEscape(t[1]);
      if u.Some? then Some((u.value, 2)) else None
    else None
  }

  // The rest of a string after its opening quote: its units, and what follows it.
  function ReadString(t: Text): (r: Option<(Text, Text)>)
    ensures r.Some? ==> |r.value.1| < |t|
  {
    if t == [] then None
    else if t[0] == QUOTE then Some(([], t[1..]))
    else match ReadUnit(t)
      case None => None
      case Some((u, n)) =>
        match ReadString(t[n..])
        case None => None
        case Some((s, rest)) => Some(([u] + s, rest))
  }

  lemma ReadEscapedUnit(c: CodeUnit, rest: Text)
    ensures var t := EscapeUnit(c);
            && t[0] != QUOTE
            && ReadUnit(t + rest) == Some((c, |t|))
  {
    var t := EscapeUnit(c);
    if ShortEscape(c).None? && |t| == 6 {
      var u := t + rest;
      assert u[2] == t[2] && u[3] == t[3] && u[4] == t[4] && u[5] == t[5];
      assert u[2..][0] == t[2] && u[2..][1] == t[3] && u[2..][2] == t[4] && u[2..][3] == t[5];
      HexRoundTrip(c);
    }
  }

  lemma HexRoundTrip(c: CodeUnit)
    ensures forall d {:trigger HexDigit(d)} :: 0 <= d < 16 ==> ReadHexDigit(HexDigit(d)) == Some(d)
    ensures c / 0x1000 * 0x1000 + c / 0x100 % 16 * 0x100 + c / 0x10 % 16 * 0x10 + c % 16 == c
  {
    HexPlaces(c);
    HexDigitsRead();
  }

  lemma HexDigitsRead()
    ensures forall d {:trigger HexDigit(d)} :: 0 <= d < 16 ==> ReadHexDigit(HexDigit(d)) == Some(d)
  {
  }

  lemma HexPlaces(n: nat)
    ensures n / 0x1000 == n / 0x10 / 0x10 / 0x10 && n / 0x100 == n / 0x10 / 0x10
    ensures n < 0x10000 ==>
      n / 0x1000 * 0x1000 + n / 0x100 % 16 * 0x100 + n / 0x10 % 16 * 0x10 + n % 16 == n
  {
    var high := n / 0x10;
    var higher := high / 0x10;
    assert n == 16 * high + n % 16 && high == 16 * higher + high % 16;
    assert higher == 16 * (higher / 16) + higher % 16;
  }

  lemma ReadStringStep(unit: Text, c: CodeUnit, after: Text, s: Text, rest: Text)
    requires unit != [] && unit[0] != QUOTE
    requires ReadUnit(unit + after) == Some((c, |unit|))
    requires ReadString(after) == Some((s, rest))
    ensures ReadString(unit + after) == Some(([c] + s, rest))
  {
    assert (unit + after)[|unit|..] == after;
  }

  lemma {:induction false} ReadEscaped(s: Text, rest: Text)
    ensures ReadString(EscapeAll(s) + [QUOTE] + rest) == Some((s, rest))
    decreases |s|, 1
  {
    if s == [] {
      assert ([QUOTE] + rest)[1..] == rest;
      assert EscapeAll(s) + [QUOTE] + rest == [QUOTE] + rest;
    } else if StartsWithPair(s) {
      ReadEscapedPair(s, rest);
    } else {
      ReadEscapedSingle(s, rest);
    }
  }

  lemma {:induction false} ReadEscapedSingle(s: Text, rest: Text)
    requires s != [] && !StartsWithPair(s)
    ensures ReadString(EscapeAll(s) + [QUOTE] + rest) == Some((s, rest))
    decreases |s|, 0
  {
    hide ReadString, ReadUnit, EscapeUnit;
    ReadEscaped(s[1..], rest);
    var unit, after := EscapeUnit(s[0]), EscapeAll(s[1..]) + [QUOTE] + rest;
    ReadEscapedUnit(s[0], after);
    ReadStringStep(unit, s[0], after, s[1..], rest);
    assert EscapeAll(s) + [QUOTE] + rest == unit + after;
    assert [s[0]] + s[1..] == s;
  }

  lemma {:induction false} ReadEscapedPair(s: Text, rest: Text)
    requires StartsWithPair(s)
    ensures ReadString(EscapeAll(s) + [QUOTE] + rest) == Some((s, rest))
    decreases |s|, 0
  {
    hide ReadString;
    ReadEscaped(s[2..], rest);
    var after := EscapeAll(s[2..]) + [QUOTE] + rest;
    ReadStringStep([s[1]], s[1], after, s[2..], rest);
    ReadStringStep([s[0]], s[0], [s[1]] + after, [s[1]] + s[2..], rest);
    assert EscapeAll(s) + [QUOTE] + rest == [s[0]] + ([s[1]] + after);
    assert [s[0]] + ([s[1]] + s[2..]) == s;
  }

  // ---- Values --------------------------------------------------------------

  function Print(v: Json): (t: Text)
    decreases v
  {
    match v
    case Null => NULL_TEXT
    case Bool(b) => if b then TRUE_TEXT else FALSE_TEXT
    case Number(x) => PrintNum(x)
    case String(s) => PrintString(s)
    case Array(NoItems) => [OPEN_BRACKET, CLOSE_BRACKET]
    case Array(items) => [OPEN_BRACKET] + PrintItems(items)
    case Object(NoMembers) => [OPEN_BRACE, CLOSE_BRACE]
    case Object(members) => [OPEN_BRACE] + PrintMembers(members)
  }

  // The items after an opening bracket or a comma, up to and with the closing bracket.
  function PrintItems(items: Items): Text
    requires items.Item?
    decreases items
  {
    Print(items.head) +
    (if items.tail.NoItems? then [CLOSE_BRACKET] else [COMMA] + PrintItems(items.tail))
  }

  function PrintMembers(members: Members): Text
    requires members.Member?
    decreases members
  {
    PrintString(members.key) + [COLON] + Print(members.value) +
    (if members.rest.NoMembers? then [CLOSE_BRACE] else [COMMA] + PrintMembers(members.rest))
  }

  function NumberSpan(t: Text): (n: nat)
    ensures n <= |t|
  {
    if t != [] && IsNumberUnit(t[0]) then 1 + NumberSpan(t[1..]) else 0
  }

  function ReadNumber(t: Text): (r: Option<(Json, Text)>)
    ensures r.Some? ==> |r.value.1| < |t|
  {
    var n := NumberSpan(t);
    var x := ReadNum(t[..n]);
    if n > 0 && x.Some? && x.value.Valid() then Some((Number(x.value), t[n..])) else None
  }

  function ReadLiteral(t: Text, literal: Text, v: Json): (r: Option<(Json, Text)>)
    requires literal != []
    ensures r.Some? ==> |r.value.1| < |t|
  {
    if |t| >= |literal| && t[..|literal|] == literal then Some((v, t[|literal|..])) else None
  }

  function ReadValue(t: Text): (r: Option<(Json, Text)>)
    ensures r.Some? ==> |r.value.1| < |t|
    decreases |t|, 0
  {
    if t == [] then None
    else if t[0] == NULL_TEXT[0] then ReadLiteral(t, NULL_TEXT, Null)
    else if t[0] == TRUE_TEXT[0] then ReadLiteral(t, TRUE_TEXT, Bool(true))
    else if t[0] == FALSE_TEXT[0] then ReadLiteral(t, FALSE_TEXT, Bool(false))
    else if t[0] == QUOTE then
      match ReadString(t[1..])
      case None => None
      case Some((s, rest)) => Some((String(s), rest))
    else if t[0] == OPEN_BRACKET then
      if |t| >= 2 && t[1] == CLOSE_BRACKET then Some((Array(NoItems), t[2..]))
      else match ReadItems(t[1..])
        case None => None
        case Some((items, rest)) => Some((Array(items), rest))
    else if t[0] == OPEN_BRACE then
      if |t| >= 2 && t[1] == CLOSE_BRACE then Some((Object(NoMembers), t[2..]))
      else match ReadMembers(t[1..])
        case None => None
        case Some((members, rest)) => Some((Object(members), rest))
    else ReadNumber(t)
  }

  function ReadItems(t: Text): (r: Option<(Items, Text)>)
    ensures r.Some? ==> |r.value.1| < |t|
    decreases |t|, 1
  {
    match ReadValue(t)
    case None => None
    case Some((v, after)) =>
      if after == [] then None
      else if after[0] == CLOSE_BRACKET then Some((Item(v, NoItems), after[1..]))
      else if after[0] == COMMA then
        match ReadItems(after[1..])
        case None => None
        case Some((items, rest)) => Some((Item(v, items), rest))
      else None
  }

  function ReadMembers(t: Text): (r: Option<(Members, Text)>)
    ensures r.Some? ==> |r.value.1| < |t|
    decreases |t|, 1
  {
    if t == [] || t[0] != QUOTE then None
    else match ReadString(t[1..])
      case None => None
      case Some((key, colon)) =>
        if colon == [] || colon[0] != COLON then None
        else match ReadValue(colon[1..])
          case None => None
          case Some((v, after)) =>
            if after == [] then None
            else if after[0] == CLOSE_BRACE then Some((Member(key, v, NoMembers), after[1..]))
            else if after[0] == COMMA then
              match ReadMembers(after[1..])
              case None => None
              case Some((members, rest)) => Some((Member(key, v, members), rest))
            else None
  }

  // ---- The reader inverts the printer --------------------------------------

  // What survives printing: everything, with -0 read back as 0.
  function PlusZero(v: Json): Json
    decreases v
  {
    match v
    case Number(x) => Number(x.Canonical())
    case Array(items) => Array(PlusZeroItems(items))
    case Object(members) => Object(PlusZeroMembers(members))
    case _ => v
  }

  function PlusZeroItems(items: Items): Items
    decreases items
  {
    match items
    case NoItems => NoItems
    case Item(head, tail) => Item(PlusZero(head), PlusZeroItems(tail))
  }

  function PlusZeroMembers(members: Members): Members
    decreases members
  {
    match members
    case NoMembers => NoMembers
    case Member(k, v, rest) => Member(k, PlusZero(v), PlusZeroMembers(rest))
  }

  lemma {:induction false} SpanOfNumber(t: Text, rest: Text)
    requires AllNumberUnits(t)
    requires rest == [] || !IsNumberUnit(rest[0])
    ensures NumberSpan(t + rest) == |t|
  {
    hide IsNumberUnit;
    if t == [] {
      assert t + rest == rest;
    } else {
      assert IsNumberUnit(t[0]) && AllNumberUnits(t[1..]);
      SpanOfNumber(t[1..], rest);
      assert (t + rest)[0] == t[0] && (t + rest)[1..] == t[1..] + rest;
    }
  }

  lemma ReadNumberToken(t: Text, x: Numeral, rest: Text)
    requires t != [] && AllNumberUnits(t)
    requires ReadNum(t) == Some(x)
    requires rest == [] || !IsNumberUnit(rest[0])
    ensures ReadNumber(t + rest) == Some((Number(x), rest))
  {
    SpanOfNumber(t, rest);
    assert (t + rest)[..|t|] == t;
    assert (t + rest)[|t|..] == rest;
  }

  lemma NumberStarts(t: Text)
    requires t != [] && (IsDigit(t[0]) || t[0] == MINUS)
    ensures ReadValue(t) == ReadNumber(t)
  {
    hide ReadItems, ReadMembers, ReadString, ReadNumber, ReadLiteral;
  }

  lemma ReadPrintedNumber(x: Numeral, rest: Text)
    requires rest == [] || !IsNumberUnit(rest[0])
    ensures ReadValue(PrintNum(x) + rest) == Some((Number(x.Canonical()), rest))
  {
    var t := PrintNum(x);
    PrintNumUnits(x);
    ReadPrintNum(x);
    ReadNumberToken(t, x.Canonical(), rest);
    NumberStarts(t + rest);
  }

  // An array or object text, given how what follows its opening unit is read.
  lemma ArrayStarts(body: Text, items: Items, rest: Text)
    requires body != [] && body[0] != CLOSE_BRACKET
    requires ReadItems(body) == Some((items, rest))
    ensures ReadValue([OPEN_BRACKET] + body) == Some((Array(items), rest))
  {
    hide ReadItems, ReadMembers, ReadString, ReadNumber, ReadLiteral;
    assert ([OPEN_BRACKET] + body)[1..] == body;
  }

  lemma ObjectStarts(body: Text, members: Members, rest: Text)
    requires body != [] && body[0] != CLOSE_BRACE
    requires ReadMembers(body) == Some((members, rest))
    ensures ReadValue([OPEN_BRACE] + body) == Some((Object(members), rest))
  {
    hide ReadItems, ReadMembers, ReadString, ReadNumber, ReadLiteral;
    assert ([OPEN_BRACE] + body)[1..] == body;
  }

  lemma EmptyStarts(rest: Text)
    ensures ReadValue([OPEN_BRACKET, CLOSE_BRACKET] + rest) == Some((Array(NoItems), rest))
    ensures ReadValue([OPEN_BRACE, CLOSE_BRACE] + rest) == Some((Object(NoMembers), rest))
  {
    hide ReadItems, ReadMembers, ReadString, ReadNumber, ReadLiteral;
    assert ([OPEN_BRACKET, CLOSE_BRACKET] + rest)[2..] == rest;
    assert ([OPEN_BRACE, CLOSE_BRACE] + rest)[2..] == rest;
  }

  lemma ReadLiteralToken(literal: Text, v: Json, rest: Text)
    requires literal != []
    ensures ReadLiteral(literal + rest, literal, v) == Some((v, rest))
  {
    assert (literal + rest)[..|literal|] == literal;
    assert (literal + rest)[|literal|..] == rest;
  }

  lemma ReadPrintedLiteral(v: Json, rest: Text)
    requires v.Null? || v.Bool?
    ensures ReadValue(Print(v) + rest) == Some((v, rest))
  {
    hide ReadItems, ReadMembers, ReadString, ReadNumber, ReadLiteral;
    ReadLiteralToken(Print(v), v, rest);
  }

  lemma ReadPrintedString(s: Text, rest: Text)
    ensures ReadValue(PrintString(s) + rest) == Some((String(s), rest))
  {
    hide ReadItems, ReadMembers, ReadString, ReadNumber, ReadLiteral, EscapeAll;
    var t := PrintString(s) + rest;
    ReadEscaped(s, rest);
    assert t[1..] == EscapeAll(s) + [QUOTE] + rest;
  }

  // What follows an opening bracket or brace never looks like the closing one.
  lemma PrintedItemsHead(items: Items, rest: Text)
    requires items.Item?
    ensures var t := PrintItems(items) + rest; t != [] && t[0] != CLOSE_BRACKET
  {
    hide PrintNum, PrintMembers, PrintItems;
    if items.head.Number? { PrintNumUnits(items.head.num); }
    assert Print(items.head) != [] && Print(items.head)[0] != CLOSE_BRACKET;
    PrintItemsStart(items);
  }

  lemma PrintItemsStart(items: Items)
    requires items.Item?
    ensures Print(items.head) <= PrintItems(items)
  {
    hide Print;
  }

  lemma PrintedMembersHead(members: Members, rest: Text)
    requires members.Member?
    ensures var t := PrintMembers(members) + rest; t != [] && t[0] == QUOTE
  {
    hide Print;
  }

  // Reading back a printed value gives the value (with -0 as 0) and leaves what follows.
  lemma {:induction false} ReadPrinted(v: Json, rest: Text)
    requires rest == [] || !IsNumberUnit(rest[0])
    ensures ReadValue(Print(v) + rest) == Some((PlusZero(v), rest))
    decreases v
  {
    hide ReadValue, ReadItems, ReadMembers, PrintItems, PrintMembers, PrintNum, PrintString;
    match v
    case Null => ReadPrintedLiteral(v, rest);
    case Bool(_) => ReadPrintedLiteral(v, rest);
    case Number(x) => ReadPrintedNumber(x, rest);
    case String(s) => ReadPrintedString(s, rest);
    case Array(items) =>
      if items.NoItems? {
        EmptyStarts(rest);
      } else {
        ReadPrintedItems(items, rest);
        PrintedItemsHead(items, rest);
        ArrayStarts(PrintItems(items) + rest, PlusZeroItems(items), rest);
        assert Print(v) + rest == [OPEN_BRACKET] + (PrintItems(items) + rest);
      }
    case Object(members) =>
      if members.NoMembers? {
        EmptyStarts(rest);
      } else {
        ReadPrintedMembers(members, rest);
        PrintedMembersHead(members, rest);
        ObjectStarts(PrintMembers(members) + rest, PlusZeroMembers(members), rest);
        assert Print(v) + rest == [OPEN_BRACE] + (PrintMembers(members) + rest);
      }
  }

  // One item, given how its value is read.
  lemma ReadItemToken(text: Text, v: Json, after: Text)
    requires ReadValue(text + after) == Some((v, after))
    requires after != []
    ensures ReadItems(text + after) ==
              if after[0] == CLOSE_BRACKET then Some((Item(v, NoItems), after[1..]))
              else if after[0] == COMMA then
                match ReadItems(after[1..])
                case None => None
                case Some((items, rest)) => Some((Item(v, items), rest))
              else None
  {
    hide ReadValue;
  }

  // What the last or a further item of an array prints to.
  function AfterItem(items: Items): (t: Text)
    ensures t != []
  {
    if items.NoItems? then [CLOSE_BRACKET] else [COMMA] + PrintItems(items)
  }

  lemma {:induction false} ReadPrintedItems(items: Items, rest: Text)
    requires items.Item?
    ensures ReadItems(PrintItems(items) + rest) == Some((PlusZeroItems(items), rest))
    decreases items
  {
    hide ReadValue, ReadItems, Print;
    var after := AfterItem(items.tail) + rest;
    var text := Print(items.head);
    ReadPrinted(items.head, after);
    ReadItemToken(text, PlusZero(items.head), after);
    assert PrintItems(items) + rest == text + after;
    hide PrintItems;
    if items.tail.NoItems? {
      assert after[1..] == rest;
    } else {
      assert after[1..] == PrintItems(items.tail) + rest;
      ReadPrintedItems(items.tail, rest);
    }
  }

  // One member, given how its key and its value are read.
  lemma ReadMemberToken(key: Text, text: Text, v: Json, after: Text)
    requires ReadValue(text + after) == Some((v, after))
    requires after != []
    ensures var t := PrintString(key) + [COLON] + text + after;
            ReadMembers(t) ==
              if after[0] == CLOSE_BRACE then Some((Member(key, v, NoMembers), after[1..]))
              else if after[0] == COMMA then
                match ReadMembers(after[1..])
                case None => None
                case Some((members, rest)) => Some((Member(key, v, members), rest))
              else None
  {
    hide ReadValue, ReadString, EscapeAll;
    var colon := [COLON] + (text + after);
    ReadEscaped(key, colon);
    var t := PrintString(key) + [COLON] + text + after;
    assert t[1..] == EscapeAll(key) + [QUOTE] + colon;
    assert colon[1..] == text + after;
  }

  // What the last or a further member of an object prints to.
  function AfterMember(members: Members): (t: Text)
    ensures t != []
  {
    if members.NoMembers? then [CLOSE_BRACE] else [COMMA] + PrintMembers(members)
  }

  lemma {:induction false} ReadPrintedMembers(members: Members, rest: Text)
    requires members.Member?
    ensures ReadMembers(PrintMembers(members) + rest) == Some((PlusZeroMembers(members), rest))
    decreases members
  {
    hide ReadValue, ReadMembers, Print, PrintString;
    var after := AfterMember(members.rest) + rest;
    var text := Print(members.value);
    ReadPrinted(members.value, after);
    ReadMemberToken(members.key, text, PlusZero(members.value), after);
    assert PrintMembers(members) + rest == PrintString(members.key) + [COLON] + text + after;
    hide PrintMembers;
    if members.rest.NoMembers? {
      assert after[1..] == rest;
    } else {
      assert after[1..] == PrintMembers(members.rest) + rest;
      ReadPrintedMembers(members.rest, rest);
    }
  }

  lemma {:induction false} PrintIgnoresZeroSign(v: Json)
    ensures Print(PlusZero(v)) == Print(v)
    decreases v
  {
    match v
    case Array(items) => if items.Item? { PrintItemsIgnoresZeroSign(items); }
    case Object(members) => if members.Member? { PrintMembersIgnoresZeroSign(members); }
    case _ =>
  }

  lemma {:induction false} PrintItemsIgnoresZeroSign(items: Items)
    requires items.Item?
    ensures PrintItems(PlusZeroItems(items)) == PrintItems(items)
    decreases items
  {
    PrintIgnoresZeroSign(items.head);
    if items.tail.Item? { PrintItemsIgnoresZeroSign(items.tail); }
  }

  lemma {:induction false} PrintMembersIgnoresZeroSign(members: Members)
    requires members.Member?
    ensures PrintMembers(PlusZeroMembers(members)) == PrintMembers(members)
    decreases members
  {
    PrintIgnoresZeroSign(members.value);
    if members.rest.Member? { PrintMembersIgnoresZeroSign(members.rest); }
  }
}
