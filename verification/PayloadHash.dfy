/** Payload hashing (src/utils/hash.ts). */
module PayloadHash {
  import opened Prelude
  import opened KeyOrder
  import opened Utf8
  import opened Json
  import opened JsonText
  import opened JsonReader

  /** sortKeys, as written: recursion, with an object filled key by key. */
  method SortKeys(value: Json) returns (r: Json)
    ensures r == Canonical(value)
    decreases value
  {
    match value {
      case Arr(items) =>
        var sorted: seq<Json> := [];
        for i := 0 to |items|
          invariant sorted == Canonical(value).items[..i]
        {
          var item := SortKeys(items[i]);
          sorted := sorted + [item];
        }
        return Arr(sorted);
      case Obj(members) =>
        var keys := Sort(KeysOf(members));
        SortKeepsKeys(KeysOf(members));
        var sorted: seq<Member> := [];
        for i := 0 to |keys|
          invariant sorted == Canonical(value).members[..i]
        {
          assert keys[i] in KeysOf(members);
          var at := Position(members, keys[i]);
          var member := SortKeys(members[at].value);
          sorted := sorted + [Member(keys[i], member)];
        }
        return Obj(sorted);
      case _ =>
        return value;
    }
  }

  /** `sha256` stands for the digest of the text's UTF-8 bytes, about which
      nothing is assumed. */
  function HashPayload(payload: Json, sha256: seq<Byte> -> Text): Text {
    sha256(Bytes(Stringify(Canonical(payload))))
  }

  lemma {:induction false} CanonicalNumerals(j: Json)
    requires NumeralsOk(j)
    ensures NumeralsOk(Canonical(j))
  {
    match j
    case Arr(items) =>
      forall i | 0 <= i < |items| ensures NumeralsOk(Canonical(items[i])) {
        CanonicalNumerals(items[i]);
      }
    case Obj(members) =>
      var out := Canonical(j).members;
      forall k | 0 <= k < |out| ensures NumeralsOk(out[k].value) {
        var m := CanonicalFrom(members, out[k]);
        CanonicalNumerals(m.value);
      }
    case _ =>
  }

  lemma {:induction false} PrintedKeysDistinct(j: Json)
    requires KeysDistinct(j)
    ensures KeysDistinct(Printed(j))
  {
    match j
    case Arr(items) =>
      forall i | 0 <= i < |items| ensures KeysDistinct(Printed(items[i])) {
        PrintedKeysDistinct(items[i]);
      }
    case Obj(members) =>
      assert KeysOf(Printed(j).members) == KeysOf(members);
      forall i | 0 <= i < |members| ensures KeysDistinct(Printed(members[i].value)) {
        PrintedKeysDistinct(members[i].value);
      }
    case _ =>
  }

  /** Sorting keys and replacing what is not written as itself commute. */
  lemma {:induction false} PrintedCanonical(j: Json)
    ensures Printed(Canonical(j)) == Canonical(Printed(j))
  {
    match j
    case Arr(items) =>
      forall i | 0 <= i < |items| ensures Printed(Canonical(items[i])) == Canonical(Printed(items[i])) {
        PrintedCanonical(items[i]);
      }
    case Obj(members) =>
      var printed, keys := Printed(j).members, Sort(KeysOf(members));
      assert KeysOf(printed) == KeysOf(members);
      SortKeepsKeys(KeysOf(members));
      var xs, ys := Printed(Canonical(j)).members, Canonical(Printed(j)).members;
      forall i | 0 <= i < |keys| ensures xs[i] == ys[i] {
        assert keys[i] in KeysOf(members);
        PositionOfKeys(members, printed, keys[i]);
        PrintedCanonical(members[Position(members, keys[i])].value);
      }
    case _ =>
  }

  /** The hashed text is JSON of the payload as written, with its keys sorted. */
  lemma HashedTextIsPayload(payload: Json)
    requires KeysDistinct(payload) && NumeralsOk(payload)
    ensures var read := ReadJson(Stringify(Canonical(payload)));
            read.Some? && Equivalent(Printed(payload), read.value) && Canonical(read.value) == read.value
  {
    CanonicalNumerals(payload);
    StringifyIsJson(Canonical(payload));
    PrintedCanonical(payload);
    PrintedKeysDistinct(payload);
    CanonicalIsIdempotent(Printed(payload));
  }

  /** The hashed text identifies a payload exactly up to member order and up to
      what is written alike: infinities as null, minus zero as zero. */
  lemma SerializationIffEquivalent(a: Json, b: Json)
    requires KeysDistinct(a) && KeysDistinct(b) && NumeralsOk(a) && NumeralsOk(b)
    ensures Stringify(Canonical(a)) == Stringify(Canonical(b)) <==> Equivalent(Printed(a), Printed(b))
  {
    CanonicalNumerals(a);
    CanonicalNumerals(b);
    StringifyIff(Canonical(a), Canonical(b));
    PrintedCanonical(a);
    PrintedCanonical(b);
    PrintedKeysDistinct(a);
    PrintedKeysDistinct(b);
    CanonicalIffEquivalent(Printed(a), Printed(b));
  }

  /** Two payloads hash alike exactly when they are equal in that sense or
      their texts' bytes are a collision of the digest itself. */
  lemma HashIdentifiesPayload(a: Json, b: Json, sha256: seq<Byte> -> Text)
    requires KeysDistinct(a) && KeysDistinct(b) && NumeralsOk(a) && NumeralsOk(b)
    ensures HashPayload(a, sha256) == HashPayload(b, sha256) <==>
            || Equivalent(Printed(a), Printed(b))
            || (exists s, t :: s != t && sha256(s) == sha256(t)
                            && s == Bytes(Stringify(Canonical(a))) && t == Bytes(Stringify(Canonical(b))))
  {
    SerializationIffEquivalent(a, b);
    CanonicalNumerals(a);
    CanonicalNumerals(b);
    TextHasOwnBytes(Canonical(a), Canonical(b));
  }

  lemma TextHasOwnBytes(a: Json, b: Json)
    requires NumeralsOk(a) && NumeralsOk(b)
    ensures Bytes(Stringify(a)) == Bytes(Stringify(b)) <==> Stringify(a) == Stringify(b)
  {
    StringifyWellFormed(a);
    StringifyWellFormed(b);
    ScrubbedIfWellFormed(Stringify(a));
    ScrubbedIfWellFormed(Stringify(b));
    BytesIff(Stringify(a), Stringify(b));
  }

  /** A number too large for a double, and null, are different payloads with one
      hash, whatever the digest. */
  lemma OverflowHashesAsNull(sha256: seq<Byte> -> Text)
    ensures !Equivalent(Special(Infinity), Null)
    ensures HashPayload(Special(Infinity), sha256) == HashPayload(Null, sha256)
  {
  }
}
