/** The UTF-8 bytes Node.js takes of a JavaScript string, and exactly which
    strings have the same bytes: section 3 of RFC 3629 for the encoding, and
    U+FFFD for each surrogate that is not part of a pair. */
module Utf8 {
  import opened Prelude
  import opened KeyOrder

  type Byte = n: nat | n < 0x100

  const REPLACEMENT: U16 := 0xFFFD

  predicate IsHigh(c: U16) { 0xD800 <= c < 0xDC00 }

  predicate IsLow(c: U16) { 0xDC00 <= c < 0xE000 }

  predicate PairAt0(t: Text) {
    |t| > 1 && IsHigh(t[0]) && IsLow(t[1])
  }

  /** How many units the first character of a string takes. */
  function Used(t: Text): (n: nat)
    requires t != []
    ensures 1 <= n <= |t|
  {
    if PairAt0(t) then 2 else 1
  }

  /** The first character's units, replaced if they are a lone surrogate. */
  function FirstUnits(t: Text): Text
    requires t != []
  {
    if PairAt0(t) then [t[0], t[1]]
    else if IsHigh(t[0]) || IsLow(t[0]) then [REPLACEMENT]
    else [t[0]]
  }

  /** The string with every lone surrogate replaced. */
  function Scrubbed(t: Text): Text {
    if t == [] then [] else FirstUnits(t) + Scrubbed(t[Used(t)..])
  }

  /** The number of a character written as one unit or a pair. */
  function Scalar(units: Text): (c: nat)
    requires units != []
    ensures c < 0x11_0000
  {
    if PairAt0(units) then
      var high: int, low: int := units[0], units[1];
      0x1_0000 + (high - 0xD800) * 0x400 + (low - 0xDC00)
    else units[0]
  }

  function Encode(c: nat): seq<Byte>
    requires c < 0x11_0000
  {
    if c < 0x80 then [c]
    else if c < 0x800 then [0xC0 + c / 0x40, 0x80 + c % 0x40]
    else if c < 0x1_0000 then [0xE0 + c / 0x1000, 0x80 + c / 0x40 % 0x40, 0x80 + c % 0x40]
    else [0xF0 + c / 0x4_0000, 0x80 + c / 0x1000 % 0x40, 0x80 + c / 0x40 % 0x40, 0x80 + c % 0x40]
  }

  function Bytes(t: Text): seq<Byte> {
    if t == [] then [] else Encode(Scalar(FirstUnits(t))) + Bytes(t[Used(t)..])
  }

  // ---- a decoder, after sections 3 and 4 of RFC 3629 ----

  predicate IsTail(b: Byte) {
    128 <= b < 192
  }

  /** The first character of a byte sequence and its length, if it starts with
      a well-formed one: the shortest form of a number that is no surrogate. */
  function DecodeFirst(bytes: seq<Byte>): Option<(nat, nat)> {
    if bytes == [] then None
    else
      var a: int, n := bytes[0], |bytes|;
      if a < 128 then Some((a, 1))
      else if 192 <= a < 224 && n >= 2 && IsTail(bytes[1]) then
        var b: int := bytes[1];
        var c := (a - 192) * 64 + (b - 128);
        if 128 <= c then Some((c, 2)) else None
      else if 224 <= a < 240 && n >= 3 && IsTail(bytes[1]) && IsTail(bytes[2]) then
        var b: int, d: int := bytes[1], bytes[2];
        var c := (a - 224) * 4096 + (b - 128) * 64 + (d - 128);
        if 2048 <= c && !(0xD800 <= c <= 0xDFFF) then Some((c, 3)) else None
      else if 240 <= a < 248 && n >= 4 && IsTail(bytes[1]) && IsTail(bytes[2]) && IsTail(bytes[3]) then
        var b: int, d: int, e: int := bytes[1], bytes[2], bytes[3];
        var c := (a - 240) * 262144 + (b - 128) * 4096 + (d - 128) * 64 + (e - 128);
        if 65536 <= c <= 0x10FFFF then Some((c, 4)) else None
      else None
  }

  /** The UTF-16 units of a character, section 2.1 of RFC 2781. */
  function UnitsOf(c: nat): Text
    requires c <= 0x10FFFF
  {
    if c < 65536 then [c] else [0xD800 + (c - 65536) / 1024, 0xDC00 + (c - 65536) % 1024]
  }

  function Decode(bytes: seq<Byte>): Option<Text>
    decreases |bytes|
  {
    if bytes == [] then Some([])
    else
      match DecodeFirst(bytes)
      case None => None
      case Some((c, n)) =>
        if c > 0x10FFFF then None
        else
          match Decode(bytes[n..])
          case None => None
          case Some(rest) => Some(UnitsOf(c) + rest)
  }

  lemma EncodeDecodes(c: nat, more: seq<Byte>)
    requires c < 0x11_0000 && !(0xD800 <= c <= 0xDFFF)
    ensures DecodeFirst(Encode(c) + more) == Some((c, |Encode(c)|))
  {
    Digits64(c);
    assert forall i :: 0 <= i < |Encode(c)| ==> (Encode(c) + more)[i] == Encode(c)[i];
  }

  lemma Digits64(c: nat)
    ensures c == 64 * (c / 64) + c % 64
    ensures c == 4096 * (c / 4096) + 64 * (c / 64 % 64) + c % 64
    ensures c == 262144 * (c / 262144) + 4096 * (c / 4096 % 64) + 64 * (c / 64 % 64) + c % 64
  {
    assert c / 4096 == c / 64 / 64 && c / 262144 == c / 4096 / 64;
  }

  lemma ScalarUnits(t: Text)
    requires t != []
    ensures var c := Scalar(FirstUnits(t));
            !(0xD800 <= c <= 0xDFFF) && UnitsOf(c) == FirstUnits(t)
  {
  }

  /** The bytes of any string are well formed, and decode to it but for its lone
      surrogates. */
  lemma {:induction false} BytesDecode(t: Text)
    ensures Decode(Bytes(t)) == Some(Scrubbed(t))
    decreases |t|
  {
    if t != [] {
      var c, more := Scalar(FirstUnits(t)), Bytes(t[Used(t)..]);
      BytesDecode(t[Used(t)..]);
      ScalarUnits(t);
      EncodeDecodes(c, more);
      assert (Encode(c) + more)[|Encode(c)|..] == more;
    }
  }

  // ---- which strings have the same bytes ----

  /** Replacing lone surrogates first does not change the bytes. */
  lemma {:induction false} ScrubbedKeepsBytes(t: Text)
    ensures Bytes(Scrubbed(t)) == Bytes(t)
    decreases |t|
  {
    if t != [] {
      var rest := t[Used(t)..];
      var units, out := FirstUnits(t), FirstUnits(t) + Scrubbed(rest);
      ScrubbedKeepsBytes(rest);
      assert out[|units|..] == Scrubbed(rest);
      assert Used(out) == |units| && FirstUnits(out) == units;
    }
  }

  /** Two strings have the same bytes exactly when they are equal up to lone
      surrogates. */
  lemma BytesIff(s: Text, t: Text)
    ensures Bytes(s) == Bytes(t) <==> Scrubbed(s) == Scrubbed(t)
  {
    BytesDecode(s);
    BytesDecode(t);
    ScrubbedKeepsBytes(s);
    ScrubbedKeepsBytes(t);
  }

  /** A surrogate unit with no partner next to it. */
  predicate LoneAt(t: Text, i: nat)
    requires i < |t|
  {
    || (0xD800 <= t[i] <= 0xDBFF && !(i + 1 < |t| && 0xDC00 <= t[i + 1] <= 0xDFFF))
    || (0xDC00 <= t[i] <= 0xDFFF && !(i > 0 && 0xD800 <= t[i - 1] <= 0xDBFF))
  }

  lemma FirstUnitsAt(t: Text, i: nat)
    requires t != [] && i < Used(t)
    ensures |FirstUnits(t)| == Used(t) && FirstUnits(t)[i] == if LoneAt(t, i) then 0xFFFD else t[i]
  {
  }

  lemma LoneLater(t: Text, i: nat)
    requires t != [] && Used(t) <= i < |t|
    ensures LoneAt(t[Used(t)..], i - Used(t)) <==> LoneAt(t, i)
  {
  }

  /** Unit by unit: U+FFFD for a lone surrogate, and all else as it was. */
  lemma {:induction false} ScrubbedAt(t: Text, i: nat)
    requires i < |t|
    ensures |Scrubbed(t)| == |t| && Scrubbed(t)[i] == if LoneAt(t, i) then 0xFFFD else t[i]
    decreases |t|
  {
    var n, rest := Used(t), t[Used(t)..];
    FirstUnitsAt(t, 0);
    if i < n {
      FirstUnitsAt(t, i);
      if rest != [] {
        ScrubbedAt(rest, 0);
      }
    } else {
      ScrubbedAt(rest, i - n);
      LoneLater(t, i);
    }
    LaterUnit(FirstUnits(t), Scrubbed(rest), i);
  }

  lemma LaterUnit(a: Text, b: Text, i: nat)
    requires i < |a| + |b|
    ensures (a + b)[i] == if i < |a| then a[i] else b[i - |a|]
  {
  }

  // ---- strings without lone surrogates ----

  predicate WellFormed(t: Text) {
    t == [] || (FirstUnits(t) == t[..Used(t)] && WellFormed(t[Used(t)..]))
  }

  lemma {:induction false} ScrubbedIfWellFormed(t: Text)
    requires WellFormed(t)
    ensures Scrubbed(t) == t
    decreases |t|
  {
    if t != [] {
      ScrubbedIfWellFormed(t[Used(t)..]);
      Rejoin(t, Used(t), FirstUnits(t), Scrubbed(t[Used(t)..]));
    }
  }

  lemma Rejoin(t: Text, n: nat, a: Text, b: Text)
    requires n <= |t| && a == t[..n] && b == t[n..]
    ensures a + b == t
  {
  }

  /** Appending leaves the first character alone, unless it completes a pair. */
  lemma FirstOfAppend(a: Text, b: Text)
    requires a != [] && (|a| > 1 || !IsHigh(a[0]) || b == [] || !IsLow(b[0]))
    ensures Used(a + b) == Used(a) && FirstUnits(a + b) == FirstUnits(a)
    ensures (a + b)[..Used(a)] == a[..Used(a)] && (a + b)[Used(a)..] == a[Used(a)..] + b
  {
  }

  lemma {:induction false} WellFormedAppend(a: Text, b: Text)
    requires WellFormed(a) && WellFormed(b)
    ensures WellFormed(a + b)
    decreases |a|
  {
    if a == [] {
      assert a + b == b;
    } else {
      WellFormedAppend(a[Used(a)..], b);
      FirstOfAppend(a, b);
    }
  }

  predicate NoSurrogates(t: Text) {
    forall c :: c in t ==> !IsHigh(c) && !IsLow(c)
  }

  lemma {:induction false} NoSurrogatesWellFormed(t: Text)
    requires NoSurrogates(t)
    ensures WellFormed(t)
    decreases |t|
  {
    if t != [] {
      assert t[0] in t;
      assert forall c :: c in t[1..] ==> c in t;
      NoSurrogatesWellFormed(t[1..]);
    }
  }

  /** A lone surrogate meets its replacement, but not across other units. */
  lemma {:induction false} ScrubbedAppend(a: Text, b: Text)
    requires b == [] || !IsLow(b[0])
    ensures Scrubbed(a + b) == Scrubbed(a) + Scrubbed(b)
    decreases |a|
  {
    if a == [] {
      assert a + b == b;
    } else {
      ScrubbedAppend(a[Used(a)..], b);
      FirstOfAppend(a, b);
      assert FirstUnits(a) + Scrubbed(a[Used(a)..]) + Scrubbed(b)
          == FirstUnits(a) + (Scrubbed(a[Used(a)..]) + Scrubbed(b));
    }
  }
}
