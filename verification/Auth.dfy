/** Request authentication (src/auth/validate.ts): the signed text and what a
    token is good for. The keyed digest is a parameter, as is the clock. */
module Auth {
  import opened Prelude
  import opened KeyOrder
  import opened Utf8

  const BAR: U16 := 0x7C
  const MINUS: U16 := 0x2D
  const CLOCK_SKEW_MS: real := 5000.0
  const MIN_TOKEN_LENGTH: nat := 32

  function Digits(n: nat): Text {
    if n < 10 then [0x30 + n] else Digits(n / 10) + [0x30 + n % 10]
  }

  /** A whole number below 10^21 as a string template prints it. */
  function Decimal(n: int): Text {
    if n < 0 then [MINUS] + Digits(-n) else Digits(n)
  }

  predicate Ascii(t: Text) {
    forall u :: u in t ==> u < 0x80
  }

  /** What the proofs need of the way a string template prints the numbers of
      the runtime: no two alike, in ASCII, and never with a bar. */
  ghost predicate PrintsApart(show: real -> Text, numbers: set<real>) {
    && (forall a, b :: a in numbers && b in numbers && show(a) == show(b) ==> a == b)
    && (forall a :: a in numbers ==> BAR !in show(a) && Ascii(show(a)))
  }

  /** The text a token signs. */
  function SignedText(show: real -> Text, taskId: Text, issuedAt: real, ttl: real): Text {
    taskId + [BAR] + show(issuedAt) + [BAR] + show(ttl)
  }

  function ValueOf(digits: Text): int {
    if digits == [] then 0
    else
      var unit: int := Last(digits);
      10 * ValueOf(Front(digits)) + unit - 0x30
  }

  lemma {:induction false} DigitsReadBack(n: nat)
    ensures ValueOf(Digits(n)) == n
    ensures forall i :: 0 <= i < |Digits(n)| ==> 0x30 <= Digits(n)[i] <= 0x39
    ensures Digits(n) != []
  {
    if n >= 10 {
      DigitsReadBack(n / 10);
      assert Front(Digits(n)) == Digits(n / 10);
    } else {
      assert Front(Digits(n)) == [];
    }
  }

  lemma DecimalInjective(a: int, b: int)
    requires Decimal(a) == Decimal(b)
    ensures a == b
  {
    DigitsReadBack(if a < 0 then -a else a);
    DigitsReadBack(if b < 0 then -b else b);
    assert Decimal(a)[0] == Decimal(b)[0];
    if a < 0 {
      assert Digits(-a) == Decimal(a)[1..] == Decimal(b)[1..] == Digits(-b);
    }
  }

  lemma DecimalHasNoBar(n: int)
    ensures BAR !in Decimal(n) && Ascii(Decimal(n))
  {
    DigitsReadBack(if n < 0 then -n else n);
  }

  /** What stands before and after the last `|` of a text. */
  function SplitLast(t: Text): Option<(Text, Text)> {
    if t == [] then None
    else if Last(t) == '|' as int then Some((Front(t), []))
    else
      match SplitLast(Front(t))
      case None => None
      case Some((before, after)) => Some((before, after + [Last(t)]))
  }

  lemma {:induction false} SplitLastOf(x: Text, n: Text)
    requires BAR !in n
    ensures SplitLast(x + [BAR] + n) == Some((x, n))
    decreases |n|
  {
    var t := x + [BAR] + n;
    if n == [] {
      assert t == x + [BAR];
      assert Front(t) == x;
    } else {
      SplitLastOf(x, Front(n));
      assert Front(t) == x + [BAR] + Front(n) && Last(t) == Last(n);
      assert Last(n) in n;
      assert n == Front(n) + [Last(n)];
    }
  }

  /** The three fields of a signed text: what stands before the last two bars,
      between them, and after them. */
  function FieldsOf(t: Text): Option<(Text, Text, Text)> {
    match SplitLast(t)
    case None => None
    case Some((before, last)) =>
      match SplitLast(before)
      case None => None
      case Some((first, middle)) => Some((first, middle, last))
  }

  /** The signed text is the task id, the time of issue and the time to live, in
      this order, whatever bars the task id holds. */
  lemma SignedTextFields(show: real -> Text, numbers: set<real>, taskId: Text, issuedAt: real, ttl: real)
    requires PrintsApart(show, numbers) && {issuedAt, ttl} <= numbers
    ensures FieldsOf(SignedText(show, taskId, issuedAt, ttl)) == Some((taskId, show(issuedAt), show(ttl)))
  {
    SplitLastOf(taskId + [BAR] + show(issuedAt), show(ttl));
    SplitLastOf(taskId, show(issuedAt));
  }

  /** Plain digits print any whole numbers apart. */
  lemma DecimalPrintsApart(show: real -> Text, numbers: set<real>)
    requires forall a :: a in numbers ==> a == a.Floor as real && show(a) == Decimal(a.Floor)
    ensures PrintsApart(show, numbers)
  {
    forall a | a in numbers ensures BAR !in show(a) && Ascii(show(a)) {
      DecimalHasNoBar(a.Floor);
    }
    forall a, b | a in numbers && b in numbers && show(a) == show(b) ensures a == b {
      DecimalInjective(a.Floor, b.Floor);
    }
  }

  /** Different requests sign different texts, even if a task id holds bars,
      however the runtime prints its numbers. */
  lemma SignedTextIsInjective(show: real -> Text, numbers: set<real>,
                              t: Text, i: real, l: real, t': Text, i': real, l': real)
    requires PrintsApart(show, numbers) && {i, l, i', l'} <= numbers
    requires SignedText(show, t, i, l) == SignedText(show, t', i', l')
    ensures t == t' && i == i' && l == l'
  {
    SignedTextFields(show, numbers, t, i, l);
    SignedTextFields(show, numbers, t', i', l');
  }

  lemma AsciiIsWellFormed(t: Text)
    requires Ascii(t)
    ensures Scrubbed(t) == t
  {
    NoSurrogatesWellFormed(t);
    ScrubbedIfWellFormed(t);
  }

  lemma AsciiAppend(a: Text, b: Text)
    requires Ascii(a) && Ascii(b)
    ensures Ascii(a + b)
  {
  }

  lemma Reassociate(t: Text, a: Text, b: Text, c: Text, d: Text)
    ensures t + (a + b + c + d) == t + a + b + c + d
  {
  }

  lemma SignedTextScrubbed(show: real -> Text, numbers: set<real>, t: Text, i: real, l: real)
    requires PrintsApart(show, numbers) && {i, l} <= numbers
    ensures Scrubbed(SignedText(show, t, i, l)) == SignedText(show, Scrubbed(t), i, l)
  {
    var tail := [BAR] + show(i) + [BAR] + show(l);
    AsciiAppend([BAR], show(i));
    AsciiAppend([BAR] + show(i), [BAR]);
    AsciiAppend([BAR] + show(i) + [BAR], show(l));
    AsciiIsWellFormed(tail);
    ScrubbedAppend(t, tail);
    Reassociate(t, [BAR], show(i), [BAR], show(l));
    Reassociate(Scrubbed(t), [BAR], show(i), [BAR], show(l));
  }

  /** What is signed are the text's bytes: two requests sign the same ones
      exactly when they are equal up to lone surrogates in the task id. */
  lemma SignedBytesIff(show: real -> Text, numbers: set<real>,
                       t: Text, i: real, l: real, t': Text, i': real, l': real)
    requires PrintsApart(show, numbers) && {i, l, i', l'} <= numbers
    ensures Bytes(SignedText(show, t, i, l)) == Bytes(SignedText(show, t', i', l'))
            <==> Scrubbed(t) == Scrubbed(t') && i == i' && l == l'
  {
    BytesIff(SignedText(show, t, i, l), SignedText(show, t', i', l'));
    SignedTextScrubbed(show, numbers, t, i, l);
    SignedTextScrubbed(show, numbers, t', i', l');
    if Bytes(SignedText(show, t, i, l)) == Bytes(SignedText(show, t', i', l')) {
      SignedTextIsInjective(show, numbers, Scrubbed(t), i, l, Scrubbed(t'), i', l');
    }
  }

  lemma LoneSurrogatesSignAlike(show: real -> Text, numbers: set<real>, i: real, l: real)
    requires PrintsApart(show, numbers) && {i, l} <= numbers
    ensures Bytes(SignedText(show, [0xD800], i, l)) == Bytes(SignedText(show, [0xD801], i, l))
  {
    assert Scrubbed([0xD800]) == [REPLACEMENT] + Scrubbed([]) == Scrubbed([0xD801]);
    SignedBytesIff(show, numbers, [0xD800], i, l, [0xD801], i, l);
  }

  // ---- validation ----

  datatype Envelope = Envelope(token: Text, issuedAt: real, ttl: real)

  datatype AuthResult =
    | Valid
    | InvalidFormat
    | Expired
    | IssuedInFuture
    | MissingAuthSecret
    | InvalidSignature
    | ComparisonThrew

  /** Strings of one length are compared as bytes, which throws, None here, if
      there are not as many of those. */
  function SecureCompare(a: Text, b: Text): Option<bool> {
    if |a| != |b| then Some(false)
    else if |Bytes(a)| != |Bytes(b)| then None
    else Some(Bytes(a) == Bytes(b))
  }

  lemma {:induction false} ScrubbedToAscii(t: Text)
    requires Ascii(Scrubbed(t))
    ensures Scrubbed(t) == t
    decreases |t|
  {
    if t != [] {
      var units, rest := FirstUnits(t), Scrubbed(t[Used(t)..]);
      assert units[0] == Scrubbed(t)[0] && units[0] in Scrubbed(t);
      assert units == t[..Used(t)];
      forall u | u in rest ensures u < 0x80 {
        assert u in units + rest;
      }
      ScrubbedToAscii(t[Used(t)..]);
      assert t == t[..Used(t)] + t[Used(t)..];
    }
  }

  /** Against an ASCII text the comparison succeeds exactly for that text. */
  lemma CompareIsEquality(a: Text, b: Text)
    requires Ascii(b)
    ensures SecureCompare(a, b) == Some(true) <==> a == b
  {
    BytesIff(a, b);
    AsciiIsWellFormed(b);
    if Scrubbed(a) == b {
      ScrubbedToAscii(a);
    }
  }

  /** `hmac(secret, bytes)` is the digest in base64; `secret` is None when unset
      or empty. */
  function Validate(hmac: (Text, seq<Byte>) -> Text, show: real -> Text, secret: Option<Text>, skip: bool,
                    auth: Envelope, taskId: Text, now: real): AuthResult {
    if |auth.token| < MIN_TOKEN_LENGTH || auth.ttl <= 0.0 then InvalidFormat
    else if now > auth.issuedAt + auth.ttl then Expired
    else if auth.issuedAt > now + CLOCK_SKEW_MS then IssuedInFuture
    else if skip then Valid
    else if secret.None? then MissingAuthSecret
    else
      match SecureCompare(auth.token, hmac(secret.value, Bytes(SignedText(show, taskId, auth.issuedAt, auth.ttl))))
      case None => ComparisonThrew
      case Some(equal) => if equal then Valid else InvalidSignature
  }

  /** Which refusal a request gets, from the first requirement it fails: form,
      expiry, a clock at most five seconds ahead, a configured secret, and a
      signature that can be compared and is the expected one. */
  lemma RefusalIffFirstFailure(hmac: (Text, seq<Byte>) -> Text, show: real -> Text, secret: Option<Text>, skip: bool,
                               auth: Envelope, taskId: Text, now: real)
    requires forall s, bytes :: Ascii(hmac(s, bytes))
    ensures var r := Validate(hmac, show, secret, skip, auth, taskId, now);
            var formed := |auth.token| >= 32 && auth.ttl > 0.0;
            var unexpired := now <= auth.issuedAt + auth.ttl;
            var issued := auth.issuedAt <= now + 5000.0;
            var checked := formed && unexpired && issued && !skip;
            && (r == InvalidFormat <==> !formed)
            && (r == Expired <==> formed && !unexpired)
            && (r == IssuedInFuture <==> formed && unexpired && !issued)
            && (r == MissingAuthSecret <==> checked && secret == None)
            && (r == ComparisonThrew || r == InvalidSignature ==> checked && secret != None)
            && (r == ComparisonThrew ==> !Ascii(auth.token))
            && (checked && secret != None ==>
                  var expected := hmac(secret.value, Bytes(SignedText(show, taskId, auth.issuedAt, auth.ttl)));
                  && (r == Valid <==> auth.token == expected)
                  && (r == ComparisonThrew <==> |auth.token| == |expected| && !Ascii(auth.token)))
  {
    if secret.Some? {
      var expected := hmac(secret.value, Bytes(SignedText(show, taskId, auth.issuedAt, auth.ttl)));
      CompareIsEquality(auth.token, expected);
      CompareThrowsIff(auth.token, expected);
    }
  }

  /** Against an ASCII text of its length, exactly a text that is not ASCII
      itself has another number of bytes. */
  lemma CompareThrowsIff(a: Text, b: Text)
    requires Ascii(b)
    ensures SecureCompare(a, b) == None <==> |a| == |b| && !Ascii(a)
  {
    BytesAtLeast(a);
    BytesAtLeast(b);
  }

  lemma AsciiParts(a: Text, b: Text)
    ensures Ascii(a + b) <==> Ascii(a) && Ascii(b)
  {
    assert forall u :: u in a ==> u in a + b;
    assert forall u :: u in b ==> u in a + b;
  }

  /** No unit takes less than a byte, and only ASCII takes no more. */
  lemma {:induction false} BytesAtLeast(t: Text)
    ensures |Bytes(t)| >= |t| && (|Bytes(t)| == |t| <==> Ascii(t))
    decreases |t|
  {
    if t != [] {
      var rest := t[Used(t)..];
      BytesAtLeast(rest);
      assert t == t[..Used(t)] + rest;
      AsciiParts(t[..Used(t)], rest);
      assert t[0] in t[..Used(t)];
      assert Used(t) == 1 ==> t[..1] == [t[0]];
    }
  }

  ghost predicate Fresh(auth: Envelope, now: real) {
    auth.issuedAt - CLOCK_SKEW_MS <= now <= auth.issuedAt + auth.ttl
  }

  /** For any token, minted or not: when it is valid. */
  lemma ValidExactly(hmac: (Text, seq<Byte>) -> Text, show: real -> Text, secret: Option<Text>, skip: bool,
                     auth: Envelope, taskId: Text, now: real)
    requires forall s, bytes :: Ascii(hmac(s, bytes))
    ensures Validate(hmac, show, secret, skip, auth, taskId, now) == Valid <==>
            && |auth.token| >= MIN_TOKEN_LENGTH && auth.ttl > 0.0 && Fresh(auth, now)
            && (skip || (secret.Some?
                         && auth.token == hmac(secret.value, Bytes(SignedText(show, taskId, auth.issuedAt, auth.ttl)))))
  {
    if secret.Some? {
      CompareIsEquality(auth.token, hmac(secret.value, Bytes(SignedText(show, taskId, auth.issuedAt, auth.ttl))));
    }
  }

  /** A token is good for the request it was minted for, up to lone surrogates
      in the task id, and no other, unless the digest collides on different
      bytes; and for that one within its time window. */
  lemma TokenBindsRequest(hmac: (Text, seq<Byte>) -> Text, show: real -> Text, numbers: set<real>, secret: Text,
                          auth: Envelope, taskId: Text, now: real,
                          mintedFor: Text, mintedAt: real, mintedTtl: real)
    requires PrintsApart(show, numbers) && {auth.issuedAt, auth.ttl, mintedAt, mintedTtl} <= numbers
    requires forall s, bytes :: Ascii(hmac(s, bytes))
    requires auth.token == hmac(secret, Bytes(SignedText(show, mintedFor, mintedAt, mintedTtl)))
    requires |auth.token| >= MIN_TOKEN_LENGTH && auth.ttl > 0.0
    ensures Validate(hmac, show, Some(secret), false, auth, taskId, now) == Valid <==>
            && Fresh(auth, now)
            && (|| (Scrubbed(taskId) == Scrubbed(mintedFor) && auth.issuedAt == mintedAt && auth.ttl == mintedTtl)
                || exists x, y :: x != y && hmac(secret, x) == hmac(secret, y)
                               && x == Bytes(SignedText(show, mintedFor, mintedAt, mintedTtl))
                               && y == Bytes(SignedText(show, taskId, auth.issuedAt, auth.ttl)))
  {
    ValidExactly(hmac, show, Some(secret), false, auth, taskId, now);
    SignedBytesIff(show, numbers, mintedFor, mintedAt, mintedTtl, taskId, auth.issuedAt, auth.ttl);
  }
}
