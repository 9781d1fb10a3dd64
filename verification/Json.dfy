/** JSON payloads and their canonical form (src/utils/hash.ts, sortKeys). */
module Json {
  import opened Prelude
  import opened KeyOrder

  /** The numbers that are not written as themselves. */
  datatype SpecialNumber = MinusZero | Infinity | MinusInfinity

  /** Any other number is carried by its decimal text; an object lists its
      members in insertion order, as JavaScript objects do. */
  datatype Json =
    | Null
    | Bool(b: bool)
    | Num(numeral: Text)
    | Special(number: SpecialNumber)
    | Str(s: Text)
    | Arr(items: seq<Json>)
    | Obj(members: seq<Member>)

  datatype Member = Member(key: Text, value: Json)

  function KeysOf(members: seq<Member>): seq<Text> {
    seq(|members|, i requires 0 <= i < |members| => members[i].key)
  }

  /** Object keys are distinct, at every depth. */
  ghost predicate KeysDistinct(j: Json) {
    match j
    case Arr(items) => forall i :: 0 <= i < |items| ==> KeysDistinct(items[i])
    case Obj(members) => Distinct(KeysOf(members)) && forall i :: 0 <= i < |members| ==> KeysDistinct(members[i].value)
    case _ => true
  }

  /** Equal up to the order of object members, at every depth; section 1 of
      RFC 8259 calls an object unordered and an array ordered. */
  ghost predicate Equivalent(a: Json, b: Json) {
    match (a, b)
    case (Arr(xs), Arr(ys)) =>
      |xs| == |ys| && forall i :: 0 <= i < |xs| ==> Equivalent(xs[i], ys[i])
    case (Obj(ms), Obj(ns)) =>
      && |ms| == |ns|
      && forall m :: m in ms ==> exists n :: n in ns && n.key == m.key && Equivalent(m.value, n.value)
    case _ => a == b
  }

  function Position(members: seq<Member>, key: Text): (i: nat)
    requires key in KeysOf(members)
    ensures i < |members| && members[i].key == key
  {
    if members[0].key == key then 0
    else
      assert KeysOf(members)[1..] == KeysOf(members[1..]);
      1 + Position(members[1..], key)
  }

  lemma {:induction false} PositionOfKeys(ms: seq<Member>, ns: seq<Member>, key: Text)
    requires KeysOf(ms) == KeysOf(ns) && key in KeysOf(ms)
    ensures Position(ms, key) == Position(ns, key)
    decreases |ms|
  {
    assert KeysOf(ms)[0] == KeysOf(ns)[0];
    if ms[0].key != key {
      assert KeysOf(ms)[1..] == KeysOf(ms[1..]) && KeysOf(ns)[1..] == KeysOf(ns[1..]);
      PositionOfKeys(ms[1..], ns[1..], key);
    }
  }

  /** sortKeys: members in key order, everything below canonical too. */
  function Canonical(j: Json): Json {
    match j
    case Arr(items) => Arr(seq(|items|, i requires 0 <= i < |items| => Canonical(items[i])))
    case Obj(members) =>
      var keys := Sort(KeysOf(members));
      assert forall k :: k in keys ==> k in KeysOf(members) by { SortKeepsKeys(KeysOf(members)); }
      Obj(seq(|keys|, i requires 0 <= i < |keys| =>
        var at := Position(members, keys[i]);
        Member(keys[i], Canonical(members[at].value))))
    case _ => j
  }

  lemma {:induction false} SortKeepsKeys(keys: seq<Text>)
    ensures forall k :: k in Sort(keys) ==> k in keys
  {
    if keys != [] {
      SortKeepsKeys(keys[1..]);
      InsertKeepsKeys(keys[0], Sort(keys[1..]));
    }
  }

  lemma {:induction false} InsertKeepsKeys(key: Text, keys: seq<Text>)
    ensures forall k :: k in Insert(key, keys) ==> k == key || k in keys
  {
    if keys != [] && !Before(key, keys[0]) {
      InsertKeepsKeys(key, keys[1..]);
    }
  }

  lemma PositionIsUnique(members: seq<Member>, i: nat)
    requires Distinct(KeysOf(members)) && i < |members|
    ensures members[i].key in KeysOf(members) && Position(members, members[i].key) == i
  {
    var keys := KeysOf(members);
    assert keys[i] == members[i].key;
    var at := Position(members, keys[i]);
    assert keys[at] == keys[i];
  }

  // ---- what the canonical members are ----

  function CanonicalMember(m: Member): Member {
    Member(m.key, Canonical(m.value))
  }

  lemma CanonicalKeys(members: seq<Member>)
    requires Distinct(KeysOf(members))
    ensures var out := Canonical(Obj(members)).members;
            && |out| == |members|
            && KeysOf(out) == Sort(KeysOf(members))
            && Sorted(KeysOf(out)) && SameKeys(KeysOf(out), KeysOf(members)) && Distinct(KeysOf(out))
  {
    var keys := KeysOf(members);
    var out := Canonical(Obj(members)).members;
    SortSorts(keys);
    assert KeysOf(out) == Sort(keys);
    SortedIsDistinct(Sort(keys));
  }

  /** Every member is there, made canonical. */
  lemma CanonicalHas(members: seq<Member>, m: Member)
    requires Distinct(KeysOf(members)) && m in members
    ensures CanonicalMember(m) in Canonical(Obj(members)).members
  {
    var keys := KeysOf(members);
    var out := Canonical(Obj(members)).members;
    var i :| 0 <= i < |members| && members[i] == m;
    SortSorts(keys);
    assert keys[i] in keys;
    var j :| 0 <= j < |Sort(keys)| && Sort(keys)[j] == keys[i];
    PositionIsUnique(members, i);
    assert out[j] == CanonicalMember(m);
  }

  /** Nothing else is. */
  lemma CanonicalFrom(members: seq<Member>, c: Member) returns (m: Member)
    requires c in Canonical(Obj(members)).members
    ensures m in members && c == CanonicalMember(m)
  {
    var keys := KeysOf(members);
    var out := Canonical(Obj(members)).members;
    var j :| 0 <= j < |out| && out[j] == c;
    SortKeepsKeys(keys);
    assert Sort(keys)[j] in keys;
    m := members[Position(members, Sort(keys)[j])];
  }

  lemma SortedIsDistinct(keys: seq<Text>)
    requires Sorted(keys)
    ensures Distinct(keys)
  {
    forall i, j | 0 <= i < j < |keys| ensures keys[i] != keys[j] {
      BeforeIsStrict(keys[i], keys[j]);
    }
  }

  lemma {:induction false} CanonicalKeysDistinct(j: Json)
    requires KeysDistinct(j)
    ensures KeysDistinct(Canonical(j))
  {
    match j
    case Arr(items) =>
      forall i | 0 <= i < |items| ensures KeysDistinct(Canonical(items[i])) {
        CanonicalKeysDistinct(items[i]);
      }
    case Obj(members) =>
      CanonicalKeys(members);
      var out := Canonical(j).members;
      forall k | 0 <= k < |out| ensures KeysDistinct(out[k].value) {
        var m := CanonicalFrom(members, out[k]);
        CanonicalKeysDistinct(m.value);
      }
    case _ =>
  }

  lemma MemberKeysDistinct(members: seq<Member>, m: Member)
    requires KeysDistinct(Obj(members)) && m in members
    ensures KeysDistinct(m.value)
  {
  }

  // ---- the two directions ----

  lemma {:induction false} EquivalentHaveSameCanonical(a: Json, b: Json)
    requires KeysDistinct(a) && KeysDistinct(b) && Equivalent(a, b)
    ensures Canonical(a) == Canonical(b)
    decreases a
  {
    match (a, b)
    case (Arr(xs), Arr(ys)) =>
      forall i | 0 <= i < |xs| ensures Canonical(xs[i]) == Canonical(ys[i]) {
        EquivalentHaveSameCanonical(xs[i], ys[i]);
      }
    case (Obj(ms), Obj(ns)) =>
      forall m | m in ms
        ensures exists n :: n in ns && n.key == m.key && Canonical(m.value) == Canonical(n.value)
      {
        var n :| n in ns && n.key == m.key && Equivalent(m.value, n.value);
        EquivalentHaveSameCanonical(m.value, n.value);
      }
      SameMembersSameObject(ms, ns);
    case _ =>
  }

  /** Objects of one size whose members agree canonically, in whatever order,
      have one canonical form. */
  lemma SameMembersSameObject(ms: seq<Member>, ns: seq<Member>)
    requires Distinct(KeysOf(ms)) && Distinct(KeysOf(ns)) && |ms| == |ns|
    requires forall m :: m in ms ==> exists n :: n in ns && n.key == m.key && Canonical(m.value) == Canonical(n.value)
    ensures Canonical(Obj(ms)) == Canonical(Obj(ns))
  {
    CanonicalKeys(ms);
    CanonicalKeys(ns);
    var xs, ys := Canonical(Obj(ms)).members, Canonical(Obj(ns)).members;
    forall k | k in KeysOf(ms) ensures k in KeysOf(ns) {
      var i :| 0 <= i < |ms| && KeysOf(ms)[i] == k;
      var n :| n in ns && n.key == ms[i].key;
      KeyPresent(ns, n);
    }
    EqualSizeSameKeys(KeysOf(ms), KeysOf(ns));
    SortedIsUnique(KeysOf(xs), KeysOf(ys));
    forall i | 0 <= i < |xs| ensures xs[i] == ys[i] {
      var m := CanonicalFrom(ms, xs[i]);
      var n :| n in ns && n.key == m.key && Canonical(m.value) == Canonical(n.value);
      CanonicalHas(ns, n);
      assert xs[i] == CanonicalMember(n);
      SameKeySameMember(ys, i, xs[i]);
    }
  }

  lemma KeyPresent(members: seq<Member>, m: Member)
    requires m in members
    ensures m.key in KeysOf(members)
  {
    var i :| 0 <= i < |members| && members[i] == m;
    assert KeysOf(members)[i] == m.key;
  }

  lemma SameKeySameMember(members: seq<Member>, i: nat, m: Member)
    requires Distinct(KeysOf(members)) && i < |members| && m in members
    requires KeysOf(members)[i] == m.key
    ensures members[i] == m
  {
    var j :| 0 <= j < |members| && members[j] == m;
    assert KeysOf(members)[j] == m.key;
  }

  lemma EqualSizeSameKeys(xs: seq<Text>, ys: seq<Text>)
    requires Distinct(xs) && Distinct(ys) && |xs| == |ys|
    requires forall k :: k in xs ==> k in ys
    ensures SameKeys(xs, ys)
  {
    var a, b := set k | k in xs, set k | k in ys;
    DistinctSize(xs);
    DistinctSize(ys);
    SubsetOfSameSize(a, b);
    forall k | k in ys ensures k in xs {
      assert k in b;
    }
  }

  lemma {:induction false} DistinctSize(xs: seq<Text>)
    requires Distinct(xs)
    ensures |set k | k in xs| == |xs|
  {
    if xs != [] {
      DistinctSize(Front(xs));
      assert xs == Front(xs) + [Last(xs)];
      assert (set k | k in xs) == (set k | k in Front(xs)) + {Last(xs)};
    }
  }

  lemma {:induction false} SameCanonicalAreEquivalent(a: Json, b: Json)
    requires KeysDistinct(a) && KeysDistinct(b) && Canonical(a) == Canonical(b)
    ensures Equivalent(a, b)
    decreases a
  {
    match (a, b)
    case (Arr(xs), Arr(ys)) =>
      assert |Canonical(a).items| == |xs| && |Canonical(b).items| == |ys|;
      forall i | 0 <= i < |xs| ensures Equivalent(xs[i], ys[i]) {
        assert Canonical(a).items[i] == Canonical(xs[i]) && Canonical(b).items[i] == Canonical(ys[i]);
        SameCanonicalAreEquivalent(xs[i], ys[i]);
      }
    case (Obj(ms), Obj(ns)) =>
      CanonicalKeys(ms);
      CanonicalKeys(ns);
      forall m | m in ms
        ensures exists n :: n in ns && n.key == m.key && Equivalent(m.value, n.value)
      {
        CanonicalHas(ms, m);
        var n := CanonicalFrom(ns, CanonicalMember(m));
        MemberKeysDistinct(ms, m);
        MemberKeysDistinct(ns, n);
        SameCanonicalAreEquivalent(m.value, n.value);
      }
    case _ =>
  }

  /** sortKeys is a canonical form: two payloads get the same result exactly
      when they are equal up to member order at every depth. */
  lemma CanonicalIffEquivalent(a: Json, b: Json)
    requires KeysDistinct(a) && KeysDistinct(b)
    ensures Canonical(a) == Canonical(b) <==> Equivalent(a, b)
  {
    if Equivalent(a, b) {
      EquivalentHaveSameCanonical(a, b);
    }
    if Canonical(a) == Canonical(b) {
      SameCanonicalAreEquivalent(a, b);
    }
  }

  lemma {:induction false} CanonicalIsEquivalent(j: Json)
    requires KeysDistinct(j)
    ensures Equivalent(j, Canonical(j))
  {
    match j
    case Arr(items) =>
      forall i | 0 <= i < |items| ensures Equivalent(items[i], Canonical(j).items[i]) {
        CanonicalIsEquivalent(items[i]);
      }
    case Obj(members) =>
      CanonicalKeys(members);
      var out := Canonical(j).members;
      forall m | m in members
        ensures exists n :: n in out && n.key == m.key && Equivalent(m.value, n.value)
      {
        MemberKeysDistinct(members, m);
        CanonicalIsEquivalent(m.value);
        CanonicalHas(members, m);
        assert CanonicalMember(m).key == m.key;
      }
    case _ =>
  }

  /** It loses nothing but member order, and applying it twice changes nothing. */
  lemma CanonicalIsIdempotent(j: Json)
    requires KeysDistinct(j)
    ensures Canonical(Canonical(j)) == Canonical(j)
    ensures Equivalent(j, Canonical(j))
  {
    CanonicalIsEquivalent(j);
    CanonicalKeysDistinct(j);
    EquivalentHaveSameCanonical(j, Canonical(j));
  }
}
