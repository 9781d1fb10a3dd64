/** JSON.stringify as sequences of UTF-16 code units, proved against the reader
    of JsonReader. */
module JsonText {
  import opened Prelude
  import opened KeyOrder
  import opened Utf8
  import opened Json
  import opened JsonReader

  const QUOTE: U16 := 0x22
  const COMMA: U16 := 0x2C
  const COLON: U16 := 0x3A
  const BACKSLASH: U16 := 0x5C
  const LETTER_U: U16 := 0x75
  const OPEN_BRACKET: U16 := 0x5B
  const CLOSE_BRACKET: U16 := 0x5D
  const OPEN_BRACE: U16 := 0x7B
  const CLOSE_BRACE: U16 := 0x7D

  const NULL: Text := [0x6E, 0x75, 0x6C, 0x6C]
  const ZERO: Text := [0x30]

  // ---- strings ----

  function Hex(h: nat): (c: U16)
    requires h < 16
    ensures c != QUOTE && c != BACKSLASH
  {
    if h < 10 then 0x30 + h else 0x57 + h
  }

  /** `\uXXXX`, in lower case. */
  function UnicodeEscape(c: U16): Text {
    [BACKSLASH, LETTER_U, Hex(c / 4096), Hex(c / 256 % 16), Hex(c / 16 % 16), Hex(c % 16)]
  }

  /** The second unit of a two-unit escape, or 0 if the unit has none. */
  function ShortEscape(c: U16): U16 {
    if c == QUOTE || c == BACKSLASH then c
    else if c == 0x08 then 0x62
    else if c == 0x0C then 0x66
    else if c == 0x0A then 0x6E
    else if c == 0x0D then 0x72
    else if c == 0x09 then 0x74
    else 0
  }

  datatype Piece = Piece(text: Text, used: nat)

  /** How the first one or two units of a string are written: surrogate pairs
      stay, lone surrogates and control characters are escaped. */
  function FirstPiece(s: Text): (p: Piece)
    requires s != []
    ensures 1 <= p.used <= |s| && p.text != []
  {
    var c := s[0];
    if ShortEscape(c) != 0 then Piece([BACKSLASH, ShortEscape(c)], 1)
    else if c < 0x20 then Piece(UnicodeEscape(c), 1)
    else if IsHigh(c) && |s| > 1 && IsLow(s[1]) then Piece([c, s[1]], 2)
    else if IsHigh(c) || IsLow(c) then Piece(UnicodeEscape(c), 1)
    else Piece([c], 1)
  }

  /** Which form a character takes: a pair stays, seven units have an escape of
      two units, control characters and lone surrogates one of six in lower
      case, and all others stay. */
  lemma PieceForms(s: Text)
    requires s != []
    ensures var p, c := FirstPiece(s), s[0];
            var paired := |s| > 1 && 0xD800 <= c <= 0xDBFF && 0xDC00 <= s[1] <= 0xDFFF;
            var short := c in {8, 9, 10, 12, 13, 34, 92};
            && (p.used == 2 <==> paired)
            && (if paired then p.text == s[..2]
                else if short then |p.text| == 2
                else if c < 0x20 || 0xD800 <= c <= 0xDFFF then
                  |p.text| == 6 && forall i :: 2 <= i < 6 ==> 0x30 <= p.text[i] <= 0x39 || 0x61 <= p.text[i] <= 0x66
                else p.text == [c])
  {
    if FirstPiece(s).text == UnicodeEscape(s[0]) {
      HexIsLower(s[0]);
    }
  }

  lemma HexIsLower(c: U16)
    ensures var t := UnicodeEscape(c);
            forall i :: 2 <= i < 6 ==> 0x30 <= t[i] <= 0x39 || 0x61 <= t[i] <= 0x66
  {
  }

  function Escape(s: Text): Text {
    if s == [] then [] else FirstPiece(s).text + Escape(s[FirstPiece(s).used..])
  }

  function Quote(s: Text): Text {
    [QUOTE] + Escape(s) + [QUOTE]
  }

  lemma HexReads(c: U16)
    ensures FromHex(Hex(c / 4096), Hex(c / 256 % 16), Hex(c / 16 % 16), Hex(c % 16)) == Some(c)
  {
    assert c / 256 == c / 16 / 16 && c / 4096 == c / 256 / 16 && c / 4096 < 16;
    HexValueOf(c / 4096);
    HexValueOf(c / 256 % 16);
    HexValueOf(c / 16 % 16);
    HexValueOf(c % 16);
    assert c == 4096 * (c / 4096) + 256 * (c / 256 % 16) + 16 * (c / 16 % 16) + c % 16;
  }

  lemma HexValueOf(h: nat)
    requires h < 16
    ensures HexValue(Hex(h)) == Some(h)
  {
  }

  /** What follows a written piece is read after the units the piece is for. */
  lemma PieceReads(s: Text, more: Text)
    requires s != []
    ensures ReadChars(FirstPiece(s).text + more) ==
            if FirstPiece(s).used == 1 then Prepend(s[0], ReadChars(more))
            else Prepend(s[0], Prepend(s[1], ReadChars(more)))
  {
    var p := FirstPiece(s);
    if |p.text| == 6 {
      HexEscapeReads(s[0], more);
    } else if ShortEscape(s[0]) != 0 {
      ShortEscapeReads(s[0], more);
    } else if p.used == 2 {
      PairReads(s[0], s[1], more);
    } else {
      UnitReads(s[0], more);
    }
  }

  lemma PairReads(c: U16, d: U16, more: Text)
    requires IsHigh(c) && IsLow(d)
    ensures ReadChars([c, d] + more) == Prepend(c, Prepend(d, ReadChars(more)))
  {
    assert [c, d] + more == [c] + ([d] + more);
    UnitReads(c, [d] + more);
    UnitReads(d, more);
  }

  lemma UnitReads(c: U16, more: Text)
    requires c >= 0x20 && c != QUOTE && c != BACKSLASH
    ensures ReadChars([c] + more) == Prepend(c, ReadChars(more))
  {
    assert ([c] + more)[1..] == more;
  }

  lemma ShortEscapeReads(c: U16, more: Text)
    requires ShortEscape(c) != 0
    ensures ReadChars([BACKSLASH, ShortEscape(c)] + more) == Prepend(c, ReadChars(more))
  {
    assert ([BACKSLASH, ShortEscape(c)] + more)[2..] == more;
  }

  lemma HexEscapeReads(c: U16, more: Text)
    ensures ReadChars(UnicodeEscape(c) + more) == Prepend(c, ReadChars(more))
  {
    HexReads(c);
    assert (UnicodeEscape(c) + more)[6..] == more;
  }

  /** A string is read as it was before it was written, and reading stops at
      its closing quote. */
  lemma {:induction false} EscapeReads(s: Text, rest: Text)
    ensures ReadChars(Escape(s) + [QUOTE] + rest) == Got(s, rest)
    decreases |s|
  {
    if s == [] {
      assert Escape(s) + [QUOTE] + rest == [QUOTE] + rest;
      assert ([QUOTE] + rest)[1..] == rest;
    } else {
      var p := FirstPiece(s);
      var more := Escape(s[p.used..]) + [QUOTE] + rest;
      EscapeReads(s[p.used..], rest);
      Regroup(p.text, Escape(s[p.used..]), [QUOTE], rest);
      PieceReads(s, more);
      UnitsJoin(s, p.used, ReadChars(p.text + more), ReadChars(more), rest);
    }
  }

  lemma UnitsJoin(s: Text, n: nat, whole: Parsed<Text>, more: Parsed<Text>, rest: Text)
    requires 1 <= n <= 2 && n <= |s| && more == Got(s[n..], rest)
    requires whole == if n == 1 then Prepend(s[0], more) else Prepend(s[0], Prepend(s[1], more))
    ensures whole == Got(s, rest)
  {
    assert n == 1 ==> [s[0]] + s[1..] == s;
    assert n == 2 ==> [s[0]] + ([s[1]] + s[2..]) == s;
  }

  lemma Regroup(a: Text, b: Text, c: Text, d: Text)
    ensures a + b + c + d == a + (b + c + d)
  {
  }

  /** So a quoted string ends where it ends: its contents and the rest of the
      text are determined. */
  lemma EscapeUnique(s: Text, t: Text, x: Text, y: Text)
    requires Escape(s) + [QUOTE] + x == Escape(t) + [QUOTE] + y
    ensures s == t && x == y
  {
    EscapeReads(s, x);
    EscapeReads(t, y);
  }

  // ---- numbers ----

  predicate IsNumberUnit(c: U16) {
    0x30 <= c <= 0x39 || c == 0x2B || c == 0x2D || c == 0x2E || c == 0x45 || c == 0x65
  }

  /** Digits, signs, points and exponents, starting with a digit or a minus. */
  predicate IsNumeral(n: Text) {
    n != [] && (0x30 <= n[0] <= 0x39 || n[0] == 0x2D) && forall i :: 0 <= i < |n| ==> IsNumberUnit(n[i])
  }

  /** Every number that is written as itself has its text. */
  ghost predicate NumeralsOk(j: Json) {
    match j
    case Num(numeral) => IsNumeral(numeral)
    case Arr(items) => forall i :: 0 <= i < |items| ==> NumeralsOk(items[i])
    case Obj(members) => forall i :: 0 <= i < |members| ==> NumeralsOk(members[i].value)
    case _ => true
  }

  /** And every number is. */
  ghost predicate Plain(j: Json) {
    match j
    case Num(numeral) => IsNumeral(numeral)
    case Special(_) => false
    case Arr(items) => forall i :: 0 <= i < |items| ==> Plain(items[i])
    case Obj(members) => forall i :: 0 <= i < |members| ==> Plain(members[i].value)
    case _ => true
  }

  /** What can follow a value: the end, a comma or a closing bracket. */
  predicate Delimited(rest: Text) {
    rest == [] || rest[0] == COMMA || rest[0] == CLOSE_BRACKET || rest[0] == CLOSE_BRACE
  }

  lemma {:induction false} NumeralReads(n: Text, rest: Text)
    requires forall i :: 0 <= i < |n| ==> IsNumberUnit(n[i])
    requires Delimited(rest)
    ensures NumberLength(n + rest) == |n|
    decreases |n|
  {
    if n == [] {
      assert n + rest == rest;
    } else {
      assert (n + rest)[1..] == n[1..] + rest;
      NumeralReads(n[1..], rest);
    }
  }

  lemma NumeralUnique(n: Text, m: Text, x: Text, y: Text)
    requires IsNumeral(n) && IsNumeral(m) && Delimited(x) && Delimited(y)
    requires n + x == m + y
    ensures n == m && x == y
  {
    NumeralReads(n, x);
    NumeralReads(m, y);
    SplitAtSameLength(n, x, m, y);
  }

  // ---- values ----

  function Stringify(j: Json): Text
    decreases j, 1
  {
    match j
    case Null => NULL
    case Bool(b) => if b then [0x74, 0x72, 0x75, 0x65] else [0x66, 0x61, 0x6C, 0x73, 0x65]
    case Num(numeral) => numeral
    case Special(number) => if number == MinusZero then ZERO else NULL
    case Str(s) => Quote(s)
    case Arr(items) => [OPEN_BRACKET] + Items(items, true)
    case Obj(members) => [OPEN_BRACE] + Members(members, true)
  }

  function Separator(first: bool): Text {
    if first then [] else [COMMA]
  }

  /** The remaining items of an array and its closing bracket. */
  function Items(items: seq<Json>, first: bool): Text
    decreases items, 0
  {
    if items == [] then [CLOSE_BRACKET]
    else Separator(first) + Stringify(items[0]) + Items(items[1..], false)
  }

  /** The remaining members of an object and its closing brace. */
  function Members(members: seq<Member>, first: bool): Text
    decreases members, 0
  {
    if members == [] then [CLOSE_BRACE]
    else Separator(first)
         + Quote(members[0].key) + [COLON] + Stringify(members[0].value) + Members(members[1..], false)
  }

  /** The first unit of a value tells its kind. */
  predicate Heads(j: Json, c: U16) {
    match j
    case Null => c == 0x6E
    case Bool(b) => c == if b then 0x74 else 0x66
    case Num(_) => 0x30 <= c <= 0x39 || c == 0x2D
    case Special(_) => false
    case Str(_) => c == QUOTE
    case Arr(_) => c == OPEN_BRACKET
    case Obj(_) => c == OPEN_BRACE
  }

  lemma StringifyHead(j: Json, rest: Text)
    requires Plain(j)
    ensures Stringify(j) != [] && Heads(j, (Stringify(j) + rest)[0])
  {
  }

  lemma ListHeads(items: seq<Json>, members: seq<Member>, rest: Text)
    ensures Delimited(Items(items, false) + rest) && Delimited(Members(members, false) + rest)
  {
  }

  // ---- reading a plain value back ----

  /** The text after the first unit, and after that. */
  lemma Cut(c: U16, a: Text, rest: Text)
    ensures ([c] + a + rest)[0] == c && ([c] + a + rest)[1..] == a + rest
  {
    assert [c] + a + rest == [c] + (a + rest);
  }

  lemma {:induction false} PlainReads(j: Json, rest: Text)
    requires Plain(j) && Delimited(rest)
    ensures ReadValue(Stringify(j) + rest) == Got(j, rest)
    decreases j, 2
  {
    var t := Stringify(j) + rest;
    match j
    case Num(n) =>
      NumeralReads(n, rest);
    case Str(s) =>
      StringReads(s, rest);
    case Arr(items) =>
      if items != [] {
        ItemsRead(items, rest);
        StringifyHead(items[0], []);
      }
      BracketReads(items, Items(items, true), rest);
    case Obj(members) =>
      if members != [] {
        MembersRead(members, rest);
      }
      BraceReads(members, Members(members, true), rest);
    case Null =>
      WordStarts(NULL, "null", rest);
    case Bool(b) =>
      WordStarts(Stringify(j), if b then "true" else "false", rest);
  }

  lemma BracketReads(items: seq<Json>, inside: Text, rest: Text)
    requires inside != []
    requires if items == [] then inside == [CLOSE_BRACKET]
             else inside[0] != CLOSE_BRACKET && ReadItems(inside + rest) == Got(items, rest)
    ensures ReadValue([OPEN_BRACKET] + inside + rest) == Got(Arr(items), rest)
  {
    Cut(OPEN_BRACKET, inside, rest);
    assert items == [] ==> ([OPEN_BRACKET] + inside + rest)[2..] == rest;
  }

  lemma BraceReads(members: seq<Member>, inside: Text, rest: Text)
    requires inside != []
    requires if members == [] then inside == [CLOSE_BRACE]
             else inside[0] != CLOSE_BRACE && ReadMembers(inside + rest) == Got(members, rest)
    ensures ReadValue([OPEN_BRACE] + inside + rest) == Got(Obj(members), rest)
  {
    Cut(OPEN_BRACE, inside, rest);
    assert members == [] ==> ([OPEN_BRACE] + inside + rest)[2..] == rest;
  }

  lemma WordStarts(w: Text, s: string, rest: Text)
    requires |w| == |s| && forall i :: 0 <= i < |w| ==> Is(w[i], s[i])
    ensures StartsWith(w + rest, s) && (w + rest)[|s|..] == rest
  {
  }

  lemma StringReads(s: Text, rest: Text)
    ensures ReadValue(Quote(s) + rest) == Got(Str(s), rest)
    ensures Next(Quote(s) + rest, '\"') && ReadChars((Quote(s) + rest)[1..]) == Got(s, rest)
  {
    EscapeReads(s, rest);
    Regroup([QUOTE], Escape(s), [QUOTE], rest);
    assert (Quote(s) + rest)[1..] == Escape(s) + [QUOTE] + rest;
  }

  lemma {:induction false} ItemsRead(items: seq<Json>, rest: Text)
    requires items != [] && forall i :: 0 <= i < |items| ==> Plain(items[i])
    ensures ReadItems(Items(items, true) + rest) == Got(items, rest)
    decreases items, 1
  {
    var more := Items(items[1..], false) + rest;
    ListHeads(items[1..], [], rest);
    PlainReads(items[0], more);
    ItemsText(items, rest);
    if |items| > 1 {
      ItemsRead(items[1..], rest);
      AfterComma(items[1..], rest);
    }
    ItemsStep(items, Items(items, true) + rest, more, rest);
  }

  lemma ItemsText(items: seq<Json>, rest: Text)
    requires items != []
    ensures Items(items, true) + rest == Stringify(items[0]) + (Items(items[1..], false) + rest)
    ensures |items| == 1 ==> Items(items[1..], false) == [CLOSE_BRACKET]
  {
    assert |items| == 1 ==> items[1..] == [];
    Reassociate([], Stringify(items[0]), Items(items[1..], false), rest);
    assert Items(items, true) == [] + Stringify(items[0]) + Items(items[1..], false);
    assert [] + (Stringify(items[0]) + (Items(items[1..], false) + rest)) == Stringify(items[0]) + (Items(items[1..], false) + rest);
  }

  lemma ItemsStep(items: seq<Json>, t: Text, more: Text, rest: Text)
    requires items != [] && ReadValue(t) == Got(items[0], more)
    requires if |items| == 1 then more == [CLOSE_BRACKET] + rest
             else Next(more, ',') && ReadItems(more[1..]) == Got(items[1..], rest)
    ensures ReadItems(t) == Got(items, rest)
  {
    if |items| == 1 {
      assert more[1..] == rest && items == [items[0]];
    } else {
      assert items == [items[0]] + items[1..];
    }
  }

  lemma AfterComma(items: seq<Json>, rest: Text)
    requires items != []
    ensures Next(Items(items, false) + rest, ',')
    ensures (Items(items, false) + rest)[1..] == Items(items, true) + rest
  {
    Regroup([COMMA], Stringify(items[0]), Items(items[1..], false), rest);
    assert Items(items, false) + rest == [COMMA] + (Items(items, true) + rest);
  }

  lemma {:induction false} MembersRead(members: seq<Member>, rest: Text)
    requires members != [] && forall i :: 0 <= i < |members| ==> Plain(members[i].value)
    ensures ReadMembers(Members(members, true) + rest) == Got(members, rest)
    decreases members, 1
  {
    var more := Members(members[1..], false) + rest;
    ListHeads([], members[1..], rest);
    MemberReads(members[0], more);
    MembersText(members, rest);
    if |members| > 1 {
      MembersRead(members[1..], rest);
      AfterMemberComma(members[1..], rest);
    }
    MembersStep(members, Members(members, true) + rest, more, rest);
  }

  lemma MembersText(members: seq<Member>, rest: Text)
    requires members != []
    ensures Members(members, true) + rest
            == Quote(members[0].key) + ([COLON] + (Stringify(members[0].value) + (Members(members[1..], false) + rest)))
    ensures |members| == 1 ==> Members(members[1..], false) == [CLOSE_BRACE]
  {
    assert |members| == 1 ==> members[1..] == [];
    MemberText(members, true, rest);
    var m := Quote(members[0].key) + ([COLON] + (Stringify(members[0].value) + (Members(members[1..], false) + rest)));
    assert [] + m == m;
  }

  lemma MembersStep(members: seq<Member>, t: Text, more: Text, rest: Text)
    requires members != [] && ReadMember(t) == Got(members[0], more)
    requires if |members| == 1 then more == [CLOSE_BRACE] + rest
             else Next(more, ',') && ReadMembers(more[1..]) == Got(members[1..], rest)
    ensures ReadMembers(t) == Got(members, rest)
  {
    if |members| == 1 {
      assert more[1..] == rest && members == [members[0]];
    } else {
      assert members == [members[0]] + members[1..];
    }
  }

  lemma {:induction false} MemberReads(m: Member, rest: Text)
    requires Plain(m.value) && Delimited(rest)
    ensures ReadMember(Quote(m.key) + ([COLON] + (Stringify(m.value) + rest))) == Got(m, rest)
    decreases m, 3
  {
    var value := Stringify(m.value) + rest;
    StringReads(m.key, [COLON] + value);
    PlainReads(m.value, rest);
    assert ([COLON] + value)[1..] == value;
  }

  lemma MemberText(members: seq<Member>, first: bool, rest: Text)
    requires members != []
    ensures Members(members, first) + rest ==
            Separator(first)
            + (Quote(members[0].key) + ([COLON] + (Stringify(members[0].value) + (Members(members[1..], false) + rest))))
  {
    var s, k, v, m := Separator(first), Quote(members[0].key), Stringify(members[0].value), Members(members[1..], false);
    Reassociate([COLON], v, m, rest);
    Reassociate(s, k, [COLON] + v + m, rest);
    assert s + k + [COLON] + v + m == s + k + ([COLON] + v + m);
  }

  lemma Reassociate(a: Text, b: Text, c: Text, d: Text)
    ensures a + b + c + d == a + (b + (c + d))
  {
  }

  lemma AfterMemberComma(members: seq<Member>, rest: Text)
    requires members != []
    ensures Next(Members(members, false) + rest, ',')
    ensures (Members(members, false) + rest)[1..] == Members(members, true) + rest
  {
    var tail := Quote(members[0].key) + ([COLON] + (Stringify(members[0].value) + (Members(members[1..], false) + rest)));
    MemberText(members, false, rest);
    MembersText(members, rest);
    assert ([COMMA] + tail)[1..] == tail;
  }

  // ---- what is written for what ----

  /** The plain value a value is written as. */
  function Printed(j: Json): Json {
    match j
    case Special(number) => if number == MinusZero then Num([0x30]) else Null
    case Arr(items) => Arr(seq(|items|, i requires 0 <= i < |items| => Printed(items[i])))
    case Obj(members) =>
      Obj(seq(|members|, i requires 0 <= i < |members| => Member(members[i].key, Printed(members[i].value))))
    case _ => j
  }

  lemma {:induction false} PrintedIsPlain(j: Json)
    requires NumeralsOk(j)
    ensures Plain(Printed(j))
  {
    match j
    case Arr(items) =>
      forall i | 0 <= i < |items| ensures Plain(Printed(items[i])) {
        PrintedIsPlain(items[i]);
      }
    case Obj(members) =>
      forall i | 0 <= i < |members| ensures Plain(Printed(members[i].value)) {
        PrintedIsPlain(members[i].value);
      }
    case _ =>
  }

  lemma {:induction false} PrintedSameText(j: Json)
    ensures Stringify(Printed(j)) == Stringify(j)
    decreases j, 1
  {
    match j
    case Arr(items) =>
      PrintedSameItems(items, Printed(j).items, true);
    case Obj(members) =>
      PrintedSameMembers(members, Printed(j).members, true);
    case _ =>
  }

  lemma {:induction false} PrintedSameItems(xs: seq<Json>, ys: seq<Json>, first: bool)
    requires |xs| == |ys| && forall i :: 0 <= i < |xs| ==> ys[i] == Printed(xs[i])
    ensures Items(ys, first) == Items(xs, first)
    decreases xs, 0
  {
    if xs != [] {
      PrintedSameText(xs[0]);
      PrintedSameItems(xs[1..], ys[1..], false);
    }
  }

  lemma {:induction false} PrintedSameMembers(ms: seq<Member>, ns: seq<Member>, first: bool)
    requires |ms| == |ns|
    requires forall i :: 0 <= i < |ms| ==> ns[i] == Member(ms[i].key, Printed(ms[i].value))
    ensures Members(ns, first) == Members(ms, first)
    decreases ms, 0
  {
    if ms != [] {
      PrintedSameText(ms[0].value);
      PrintedSameMembers(ms[1..], ns[1..], false);
    }
  }

  /** Reading what was written for a value gives its printed form, whatever
      delimited text follows. */
  lemma StringifyReads(j: Json, rest: Text)
    requires NumeralsOk(j) && Delimited(rest)
    ensures ReadValue(Stringify(j) + rest) == Got(Printed(j), rest)
  {
    PrintedIsPlain(j);
    PrintedSameText(j);
    PlainReads(Printed(j), rest);
  }

  /** The text of a value is JSON, and read as a whole it is that value but for
      infinities, which become null, and minus zero, which becomes zero. */
  lemma StringifyIsJson(j: Json)
    requires NumeralsOk(j)
    ensures ReadJson(Stringify(j)) == Some(Printed(j))
  {
    StringifyReads(j, []);
    assert Stringify(j) + [] == Stringify(j);
  }

  /** So a written value before any delimiter determines what was written, and
      the rest of the text. */
  lemma StringifyUnique(a: Json, b: Json, x: Text, y: Text)
    requires NumeralsOk(a) && NumeralsOk(b) && Delimited(x) && Delimited(y)
    requires Stringify(a) + x == Stringify(b) + y
    ensures Printed(a) == Printed(b) && x == y
  {
    StringifyReads(a, x);
    StringifyReads(b, y);
  }

  /** Two values have one text exactly when they are the same but for
      infinities, written as null, and minus zero, written as zero. */
  lemma StringifyIff(a: Json, b: Json)
    requires NumeralsOk(a) && NumeralsOk(b)
    ensures Stringify(a) == Stringify(b) <==> Printed(a) == Printed(b)
  {
    PrintedSameText(a);
    PrintedSameText(b);
    if Stringify(a) == Stringify(b) {
      StringifyIsJson(a);
      StringifyIsJson(b);
    }
  }

  // ---- the text has no lone surrogates ----

  lemma {:induction false} EscapeWellFormed(s: Text)
    ensures WellFormed(Escape(s))
    decreases |s|
  {
    if s != [] {
      var p := FirstPiece(s);
      EscapeWellFormed(s[p.used..]);
      if IsHigh(p.text[0]) {
        assert p.text[2..] == [] && p.text[..2] == p.text;
        assert WellFormed(p.text);
      } else {
        NoSurrogatesWellFormed(p.text);
      }
      WellFormedAppend(p.text, Escape(s[p.used..]));
    }
  }

  lemma QuoteWellFormed(s: Text)
    ensures WellFormed(Quote(s))
  {
    EscapeWellFormed(s);
    NoSurrogatesWellFormed([QUOTE]);
    WellFormedAppend([QUOTE], Escape(s));
    WellFormedAppend([QUOTE] + Escape(s), [QUOTE]);
  }

  /** The text of any value has UTF-8 bytes of its own: every lone surrogate in
      a string or a key is escaped. */
  lemma {:induction false} StringifyWellFormed(j: Json)
    requires NumeralsOk(j)
    ensures WellFormed(Stringify(j))
    decreases j, 1
  {
    match j
    case Str(s) =>
      QuoteWellFormed(s);
    case Arr(items) =>
      ItemsWellFormed(items, true);
      NoSurrogatesWellFormed([OPEN_BRACKET]);
      WellFormedAppend([OPEN_BRACKET], Items(items, true));
    case Obj(members) =>
      MembersWellFormed(members, true);
      NoSurrogatesWellFormed([OPEN_BRACE]);
      WellFormedAppend([OPEN_BRACE], Members(members, true));
    case Num(numeral) =>
      forall c | c in numeral ensures IsNumberUnit(c) {
      }
      NoSurrogatesWellFormed(numeral);
    case _ =>
      NoSurrogatesWellFormed(Stringify(j));
  }

  lemma {:induction false} ItemsWellFormed(items: seq<Json>, first: bool)
    requires forall i :: 0 <= i < |items| ==> NumeralsOk(items[i])
    ensures WellFormed(Items(items, first))
    decreases items, 0
  {
    NoSurrogatesWellFormed([CLOSE_BRACKET]);
    if items != [] {
      StringifyWellFormed(items[0]);
      ItemsWellFormed(items[1..], false);
      NoSurrogatesWellFormed(Separator(first));
      WellFormedAppend(Separator(first), Stringify(items[0]));
      WellFormedAppend(Separator(first) + Stringify(items[0]), Items(items[1..], false));
    }
  }

  lemma {:induction false} MembersWellFormed(members: seq<Member>, first: bool)
    requires forall i :: 0 <= i < |members| ==> NumeralsOk(members[i].value)
    ensures WellFormed(Members(members, first))
    decreases members, 0
  {
    NoSurrogatesWellFormed([CLOSE_BRACE]);
    if members != [] {
      var separator, key := Separator(first), Quote(members[0].key);
      var value, rest := Stringify(members[0].value), Members(members[1..], false);
      NoSurrogatesWellFormed(separator);
      QuoteWellFormed(members[0].key);
      NoSurrogatesWellFormed([COLON]);
      StringifyWellFormed(members[0].value);
      MembersWellFormed(members[1..], false);
      WellFormedAppend(separator, key);
      WellFormedAppend(separator + key, [COLON]);
      WellFormedAppend(separator + key + [COLON], value);
      WellFormedAppend(separator + key + [COLON] + value, rest);
    }
  }
}
