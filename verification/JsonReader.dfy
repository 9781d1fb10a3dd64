/** A reader of JSON text after the grammar of sections 2 to 7 of RFC 8259, for
    texts without insignificant white space. It shares nothing with the writer
    but the values. A number is read as its text. */
module JsonReader {
  import opened Prelude
  import opened KeyOrder
  import opened Json

  datatype Parsed<+T> = Got(value: T, rest: Text) | NoParse

  predicate Is(c: U16, letter: char) {
    c == letter as int
  }

  /** The next unit is this one. */
  predicate Next(t: Text, letter: char) {
    t != [] && Is(t[0], letter)
  }

  predicate StartsWith(t: Text, s: string) {
    |s| <= |t| && forall i :: 0 <= i < |s| ==> Is(t[i], s[i])
  }

  // ---- strings ----

  function HexValue(c: U16): Option<nat> {
    if 0x30 <= c <= 0x39 then Some(c - 0x30)
    else if 0x41 <= c <= 0x46 then Some(c - 0x41 + 10)
    else if 0x61 <= c <= 0x66 then Some(c - 0x61 + 10)
    else None
  }

  /** The unit a two-unit escape stands for. */
  function Escaped(c: U16): Option<U16> {
    if Is(c, '\"') || Is(c, '\\') || Is(c, '/') then Some(c)
    else if Is(c, 'b') then Some(8)
    else if Is(c, 't') then Some(9)
    else if Is(c, 'n') then Some(10)
    else if Is(c, 'f') then Some(12)
    else if Is(c, 'r') then Some(13)
    else None
  }

  /** The unit four hexadecimal digits stand for. */
  function FromHex(a: U16, b: U16, c: U16, d: U16): Option<U16> {
    match (HexValue(a), HexValue(b), HexValue(c), HexValue(d))
    case (Some(w), Some(x), Some(y), Some(z)) =>
      var n := w * 4096 + x * 256 + y * 16 + z;
      if n < 0x1_0000 then Some(n) else None
    case _ => None
  }

  function Prepend(c: U16, more: Parsed<Text>): Parsed<Text> {
    if more.Got? then Got([c] + more.value, more.rest) else NoParse
  }

  /** The rest of a string after its opening quote. */
  function ReadChars(t: Text): (r: Parsed<Text>)
    ensures r.Got? ==> |r.rest| < |t|
    decreases |t|
  {
    if t == [] || t[0] < 0x20 then NoParse
    else if Is(t[0], '\"') then Got([], t[1..])
    else if !Is(t[0], '\\') then Prepend(t[0], ReadChars(t[1..]))
    else if |t| == 1 then NoParse
    else if Is(t[1], 'u') then
      if |t| < 6 then NoParse
      else
        match FromHex(t[2], t[3], t[4], t[5])
        case Some(c) => Prepend(c, ReadChars(t[6..]))
        case None => NoParse
    else
      match Escaped(t[1])
      case Some(c) => Prepend(c, ReadChars(t[2..]))
      case None => NoParse
  }

  // ---- numbers ----

  predicate IsDigit(c: U16) { 0x30 <= c <= 0x39 }

  /** How many units from the start can belong to a number. */
  function NumberLength(t: Text): (n: nat)
    ensures n <= |t|
  {
    if t == [] then 0
    else if IsDigit(t[0]) || Is(t[0], '-') || Is(t[0], '+') || Is(t[0], '.') || Is(t[0], 'e') || Is(t[0], 'E')
    then 1 + NumberLength(t[1..])
    else 0
  }

  // ---- values ----

  function ReadValue(t: Text): (r: Parsed<Json>)
    ensures r.Got? ==> |r.rest| < |t|
    decreases |t|, 0
  {
    if t == [] then NoParse
    else if Is(t[0], 'n') then (if StartsWith(t, "null") then Got(Null, t[4..]) else NoParse)
    else if Is(t[0], 't') then (if StartsWith(t, "true") then Got(Bool(true), t[4..]) else NoParse)
    else if Is(t[0], 'f') then (if StartsWith(t, "false") then Got(Bool(false), t[5..]) else NoParse)
    else if IsDigit(t[0]) || Is(t[0], '-') then Got(Num(t[..NumberLength(t)]), t[NumberLength(t)..])
    else if Is(t[0], '\"') then
      match ReadChars(t[1..])
      case Got(s, rest) => Got(Str(s), rest)
      case NoParse => NoParse
    else if Is(t[0], '[') then
      if Next(t[1..], ']') then Got(Arr([]), t[2..])
      else
        match ReadItems(t[1..])
        case Got(items, rest) => Got(Arr(items), rest)
        case NoParse => NoParse
    else if Is(t[0], '{') then
      if Next(t[1..], '}') then Got(Obj([]), t[2..])
      else
        match ReadMembers(t[1..])
        case Got(members, rest) => Got(Obj(members), rest)
        case NoParse => NoParse
    else NoParse
  }

  /** One or more values, separated by commas, and the closing bracket. */
  function ReadItems(t: Text): (r: Parsed<seq<Json>>)
    ensures r.Got? ==> |r.rest| < |t|
    decreases |t|, 1
  {
    match ReadValue(t)
    case NoParse => NoParse
    case Got(item, rest) =>
      if Next(rest, ']') then Got([item], rest[1..])
      else if Next(rest, ',') then
        match ReadItems(rest[1..])
        case Got(items, end) => Got([item] + items, end)
        case NoParse => NoParse
      else NoParse
  }

  /** A member: a string, a colon and a value. */
  function ReadMember(t: Text): (r: Parsed<Member>)
    ensures r.Got? ==> |r.rest| < |t|
    decreases |t|, 1
  {
    if !Next(t, '\"') then NoParse
    else
      match ReadChars(t[1..])
      case NoParse => NoParse
      case Got(key, rest) =>
        if !Next(rest, ':') then NoParse
        else
          match ReadValue(rest[1..])
          case NoParse => NoParse
          case Got(value, end) => Got(Member(key, value), end)
  }

  /** One or more members, separated by commas, and the closing brace. */
  function ReadMembers(t: Text): (r: Parsed<seq<Member>>)
    ensures r.Got? ==> |r.rest| < |t|
    decreases |t|, 2
  {
    match ReadMember(t)
    case NoParse => NoParse
    case Got(member, rest) =>
      if Next(rest, '}') then Got([member], rest[1..])
      else if Next(rest, ',') then
        match ReadMembers(rest[1..])
        case Got(members, end) => Got([member] + members, end)
        case NoParse => NoParse
      else NoParse
  }

  /** A whole text that is one value. */
  function ReadJson(t: Text): Option<Json> {
    match ReadValue(t)
    case Got(value, rest) => if rest == [] then Some(value) else None
    case NoParse => None
  }
}
