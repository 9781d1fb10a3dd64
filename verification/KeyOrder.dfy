/** JavaScript strings as sequences of UTF-16 code units, and the order in which
    Array.prototype.sort puts them. */
module KeyOrder {
  import opened Prelude

  type Text = seq<U16>

  /** Code-unit order: the order `sort()` uses without a comparator. */
  predicate Before(a: Text, b: Text) {
    if b == [] then false
    else if a == [] then true
    else if a[0] != b[0] then a[0] < b[0]
    else Before(a[1..], b[1..])
  }

  /** The first unit in which the keys differ decides, and the shorter key is
      before any that it begins. */
  lemma {:induction false} BeforeAtFirstDifference(a: Text, b: Text)
    ensures Before(a, b) <==> exists k :: DiffersAt(a, b, k) && (k == |a| || (k < |b| && a[k] < b[k]))
  {
    if a != [] && b != [] && a[0] == b[0] {
      BeforeAtFirstDifference(a[1..], b[1..]);
      if k :| DiffersAt(a[1..], b[1..], k) && (k == |a[1..]| || (k < |b[1..]| && a[1..][k] < b[1..][k])) {
        assert forall i :: 1 <= i < k + 1 ==> a[i] == a[1..][i - 1] && b[i] == b[1..][i - 1];
        assert DiffersAt(a, b, k + 1);
      }
      if k :| DiffersAt(a, b, k) && (k == |a| || (k < |b| && a[k] < b[k])) {
        assert k > 0;
        assert DiffersAt(a[1..], b[1..], k - 1);
      }
    } else {
      assert DiffersAt(a, b, 0) || a == b == [];
      assert forall k :: DiffersAt(a, b, k) ==> k == 0;
    }
  }

  /** The keys agree before position `k` and not there. */
  ghost predicate DiffersAt(a: Text, b: Text, k: int) {
    && 0 <= k <= |a| && k <= |b| && (forall i :: 0 <= i < k ==> a[i] == b[i])
    && (k < |a| || k < |b|) && (k < |a| && k < |b| ==> a[k] != b[k])
  }

  lemma {:induction false} BeforeIsStrict(a: Text, b: Text)
    ensures !(Before(a, b) && Before(b, a))
    ensures a == b || Before(a, b) || Before(b, a)
    ensures !Before(a, a)
  {
    if a != [] && b != [] && a[0] == b[0] {
      BeforeIsStrict(a[1..], b[1..]);
      assert a == [a[0]] + a[1..] && b == [b[0]] + b[1..];
    }
    if a != [] {
      BeforeIsStrict(a[1..], a[1..]);
    }
  }

  lemma {:induction false} BeforeIsTransitive(a: Text, b: Text, c: Text)
    requires Before(a, b) && Before(b, c)
    ensures Before(a, c)
  {
    if a != [] && a[0] == b[0] == c[0] {
      BeforeIsTransitive(a[1..], b[1..], c[1..]);
    }
  }

  ghost predicate Sorted(keys: seq<Text>) {
    forall i, j :: 0 <= i < j < |keys| ==> Before(keys[i], keys[j])
  }

  function Insert(key: Text, keys: seq<Text>): seq<Text> {
    if keys == [] || Before(key, keys[0]) then [key] + keys else [keys[0]] + Insert(key, keys[1..])
  }

  function Sort(keys: seq<Text>): seq<Text> {
    if keys == [] then [] else Insert(keys[0], Sort(keys[1..]))
  }

  ghost predicate SameKeys(xs: seq<Text>, ys: seq<Text>) {
    forall k :: k in xs <==> k in ys
  }

  lemma {:induction false} InsertSorts(key: Text, keys: seq<Text>)
    requires Sorted(keys) && key !in keys
    ensures Sorted(Insert(key, keys)) && |Insert(key, keys)| == |keys| + 1
    ensures SameKeys(Insert(key, keys), [key] + keys)
  {
    if keys != [] {
      assert keys == [keys[0]] + keys[1..];
      if Before(key, keys[0]) {
        forall j | 0 < j < |keys| ensures Before(key, keys[j]) {
          BeforeIsTransitive(key, keys[0], keys[j]);
        }
      } else {
        InsertSorts(key, keys[1..]);
        BeforeIsStrict(key, keys[0]);
        var rest := Insert(key, keys[1..]);
        forall j | 0 <= j < |rest| ensures Before(keys[0], rest[j]) {
          assert rest[j] in [key] + keys[1..];
        }
      }
    }
  }

  lemma {:induction false} SortSorts(keys: seq<Text>)
    requires Distinct(keys)
    ensures Sorted(Sort(keys)) && |Sort(keys)| == |keys| && SameKeys(Sort(keys), keys)
  {
    if keys != [] {
      assert keys == [keys[0]] + keys[1..];
      SortSorts(keys[1..]);
      assert keys[0] !in keys[1..];
      InsertSorts(keys[0], Sort(keys[1..]));
    }
  }

  /** A strictly sorted sequence is determined by its elements, so any correct
      sort of distinct keys is this one. */
  lemma {:induction false} SortedIsUnique(xs: seq<Text>, ys: seq<Text>)
    requires Sorted(xs) && Sorted(ys) && SameKeys(xs, ys)
    ensures xs == ys
    decreases |xs|
  {
    if xs == [] {
      if ys != [] {
        NothingInEmpty(ys);
      }
    } else {
      assert xs[0] in ys;
      LeastIsFirst(xs, ys);
      LeastIsFirst(ys, xs);
      BeforeIsStrict(xs[0], ys[0]);
      var xt, yt := xs[1..], ys[1..];
      forall k ensures k in xt <==> k in yt {
        TailKeys(xs, k);
        TailKeys(ys, k);
      }
      SortedIsUnique(xt, yt);
    }
  }

  lemma NothingInEmpty(ys: seq<Text>)
    requires ys != []
    ensures !SameKeys([], ys)
  {
    assert ys[0] in ys;
  }

  lemma LeastIsFirst(xs: seq<Text>, ys: seq<Text>)
    requires Sorted(xs) && SameKeys(xs, ys) && xs != [] && ys != []
    ensures xs[0] == ys[0] || Before(xs[0], ys[0])
  {
    assert ys[0] in xs;
  }

  lemma TailKeys(xs: seq<Text>, k: Text)
    requires Sorted(xs) && xs != []
    ensures k in xs[1..] <==> k in xs && k != xs[0]
  {
    assert xs == [xs[0]] + xs[1..];
    BeforeIsStrict(xs[0], xs[0]);
  }
}
