/** Ordered enumeration of finite sets and sums over finite maps: the vocabulary shared by every module. */
module Collections {

  datatype Option<+T> = None | Some(value: T)

  /** m.get(k) of a dictionary. */
  function Get<K, V>(m: map<K, V>, k: K): Option<V> {
    if k in m then Some(m[k]) else None
  }

  /** Maps that answer every lookup alike are equal. */
  lemma SameMaps<K(!new), V>(a: map<K, V>, b: map<K, V>)
    requires forall k :: Get(a, k) == Get(b, k)
    ensures a == b
  {
    forall k ensures k in a <==> k in b {
      assert Get(a, k) == Get(b, k);
    }
    assert a.Keys == b.Keys;
    forall k | k in a ensures a[k] == b[k] {
      assert Get(a, k) == Get(b, k);
    }
  }

  lemma EmptySet(s: set<int>)
    ensures (forall e :: e !in s) ==> s == {}
  {
    assert (forall e :: e !in s) ==> s <= {};
  }

  lemma HeadIn(s: seq<int>)
    ensures s != [] ==> s[0] in s
  {
  }

  lemma {:induction false} MinExists(s: set<int>)
    requires s != {}
    ensures exists m :: m in s && forall x :: x in s ==> m <= x
  {
    EmptySet(s);
    var e :| e in s;
    if s != {e} {
      var rest := s - {e};
      MinExists(rest);
      var m :| m in rest && forall x :: x in rest ==> m <= x;
      var low := if m <= e then m else e;
      assert forall x :: x in s ==> x == e || x in rest;
      assert low in s && forall x :: x in s ==> low <= x;
    }
  }

  /** The least element: what a heap of identifiers pops. */
  function MinOf(s: set<int>): (m: int)
    requires s != {}
    ensures m in s
    ensures forall x :: x in s ==> m <= x
  {
    MinExists(s);
    var m :| m in s && forall x :: x in s ==> m <= x;
    m
  }

  ghost predicate Ascending(s: seq<int>) {
    forall i, j :: 0 <= i < j < |s| ==> s[i] < s[j]
  }

  /** sorted(s) of a set of identifiers. */
  function Sorted(s: set<int>): (r: seq<int>)
    ensures forall x :: x in r <==> x in s
    ensures Ascending(r)
    ensures |r| == |s|
  {
    if s == {} then []
    else
      var m := MinOf(s);
      var rest := Sorted(s - {m});
      assert forall x :: x in s ==> x == m || x in s - {m};
      assert |s| == |s - {m}| + 1;
      [m] + rest
  }

  /** The elements of a sequence. */
  function ToSet<T(!new)>(s: seq<T>): (r: set<T>)
    ensures forall x :: x in r <==> x in s
  {
    set x | x in s
  }

  lemma PrefixSet(s: seq<int>, i: nat)
    requires i < |s|
    ensures ToSet(s[..i + 1]) == ToSet(s[..i]) + {s[i]}
    ensures ToSet(s[..0]) == {} && ToSet(s[..|s|]) == ToSet(s)
  {
    assert s[..i + 1] == s[..i] + [s[i]];
    assert s[..|s|] == s;
  }

  lemma SortedSet(s: set<int>)
    ensures ToSet(Sorted(s)) == s && ToSet(Sorted(s)[..|Sorted(s)|]) == s && ToSet(Sorted(s)[..0]) == {}
  {
    assert Sorted(s)[..|Sorted(s)|] == Sorted(s);
  }

  /** The next key of an ascending enumeration has not been visited. */
  lemma FreshNext(s: seq<int>, i: nat)
    requires Ascending(s) && i < |s|
    ensures s[i] !in ToSet(s[..i])
  {
  }

  ghost predicate Distinct<T>(s: seq<T>) {
    forall i, j :: 0 <= i < j < |s| ==> s[i] != s[j]
  }

  /** A duplicate-free sequence over a finite set is no longer than the set. */
  lemma {:induction false} DistinctBound<T(!new)>(s: seq<T>, within: set<T>)
    requires Distinct(s)
    requires forall x :: x in s ==> x in within
    ensures |s| <= |within|
    ensures |s| == |within| ==> forall x :: x in within ==> x in s
    decreases |s|
  {
    if s == [] {
    } else {
      var rest := s[1..];
      forall x | x in rest ensures x in within - {s[0]} { }
      DistinctBound(rest, within - {s[0]});
      assert s[0] in within;
      assert |within - {s[0]}| == |within| - 1;
      if |s| == |within| {
        forall x | x in within ensures x in s {
          if x != s[0] { assert x in within - {s[0]}; assert x in rest; }
        }
      }
    }
  }

  /* ---- sums over dictionaries of numbers ---- */

  /** sum(m.values()): the order of the keys plays no part (SumRemove). */
  function SumMap(m: map<int, real>): real {
    if m == map[] then 0.0
    else
      var k := MinOf(m.Keys);
      m[k] + SumMap(m - {k})
  }

  lemma {:induction false} SumRemove(m: map<int, real>, k: int)
    requires k in m
    ensures SumMap(m) == m[k] + SumMap(m - {k})
    decreases |m|
  {
    var least := MinOf(m.Keys);
    if k != least {
      SumRemove(m - {least}, k);
      SumRemove(m - {k}, least);
      assert (m - {least}) - {k} == (m - {k}) - {least};
    }
  }

  /** The left-to-right fold over an enumeration of the keys. */
  function SumKeys(m: map<int, real>, keys: seq<int>): real
    requires forall k :: k in keys ==> k in m
  {
    if keys == [] then 0.0
    else
      var last := keys[|keys| - 1];
      SumKeys(m, keys[..|keys| - 1]) + m[last]
  }

  lemma SumKeysSnoc(m: map<int, real>, keys: seq<int>, i: nat)
    requires i < |keys| && forall k :: k in keys ==> k in m
    ensures SumKeys(m, keys[..i + 1]) == SumKeys(m, keys[..i]) + m[keys[i]]
  {
    assert keys[..i + 1][..i] == keys[..i];
  }

  /** Folding over any enumeration of the keys gives the sum of the dictionary. */
  lemma {:induction false} SumKeysIsSum(m: map<int, real>, keys: seq<int>)
    requires Distinct(keys) && forall k :: k in keys <==> k in m
    ensures SumKeys(m, keys) == SumMap(m)
    decreases |keys|
  {
    if keys == [] {
      EmptySet(m.Keys);
      assert m.Keys == {};
    } else {
      var n := |keys| - 1;
      var last := keys[n];
      assert last in keys;
      forall k ensures k in keys[..n] <==> k in m - {last} {
        if k in m - {last} { assert k in keys; }
        if k in keys[..n] { assert k in keys; }
      }
      SumKeysIsSum(m - {last}, keys[..n]);
      SumKeysSame(m, m - {last}, keys[..n]);
      SumRemove(m, last);
    }
  }

  lemma {:induction false} SumKeysSame(m: map<int, real>, n: map<int, real>, keys: seq<int>)
    requires forall k :: k in keys ==> k in m && k in n && m[k] == n[k]
    ensures SumKeys(m, keys) == SumKeys(n, keys)
  {
    if keys != [] {
      var last := keys[|keys| - 1];
      assert last in keys;
      SumKeysSame(m, n, keys[..|keys| - 1]);
    }
  }

  lemma SumInsert(m: map<int, real>, k: int, v: real)
    requires k !in m
    ensures SumMap(m[k := v]) == SumMap(m) + v
  {
    SumRemove(m[k := v], k);
    assert m[k := v] - {k} == m;
  }

  lemma SumUpdate(m: map<int, real>, k: int, v: real)
    requires k in m
    ensures SumMap(m[k := v]) == SumMap(m) - m[k] + v
  {
    SumRemove(m, k);
    SumRemove(m[k := v], k);
    assert m[k := v] - {k} == m - {k};
  }

  lemma {:induction false} SumAdd(a: map<int, real>, b: map<int, real>, c: map<int, real>)
    requires a.Keys == b.Keys == c.Keys
    requires forall k :: k in a ==> c[k] == a[k] + b[k]
    ensures SumMap(c) == SumMap(a) + SumMap(b)
    decreases |a|
  {
    if a == map[] {
      assert b == map[] && c == map[];
    } else {
      var k := MinOf(a.Keys);
      SumAdd(a - {k}, b - {k}, c - {k});
    }
  }

  /** Multiplication under a name, so that equal factors are seen to give equal products. */
  function Times(x: real, f: real): real {
    x * f
  }

  lemma Distribute(x: real, y: real, f: real)
    ensures Times(x + y, f) == Times(x, f) + Times(y, f)
  {
  }

  /** Every entry multiplied by f. */
  function Scaled(m: map<int, real>, f: real): (r: map<int, real>)
    ensures r.Keys == m.Keys
    ensures forall k :: k in m ==> r[k] == Times(m[k], f)
  {
    map k | k in m :: Times(m[k], f)
  }

  lemma {:induction false} SumScale(m: map<int, real>, f: real)
    ensures SumMap(Scaled(m, f)) == Times(SumMap(m), f)
    decreases |m|
  {
    if m == map[] {
      assert Scaled(m, f) == map[];
    } else {
      var k := MinOf(m.Keys);
      var rest := m - {k};
      SumScale(rest, f);
      assert Scaled(m, f) - {k} == Scaled(rest, f);
      SumRemove(Scaled(m, f), k);
      Distribute(m[k], SumMap(rest), f);
    }
  }

  lemma {:induction false} SumNonNegative(a: map<int, real>)
    requires forall k :: k in a ==> a[k] >= 0.0
    ensures SumMap(a) >= 0.0
    ensures forall k :: k in a ==> a[k] <= SumMap(a)
    decreases |a|
  {
    if a != map[] {
      var k := MinOf(a.Keys);
      SumNonNegative(a - {k});
      forall j | j in a ensures a[j] <= SumMap(a) {
        if j != k { assert j in a - {k}; assert (a - {k})[j] == a[j]; }
      }
    }
  }

  /** The entries of m whose key is in part. */
  function Restrict<V>(m: map<int, V>, part: set<int>): (r: map<int, V>)
    ensures r.Keys == m.Keys * part
    ensures forall k :: k in r ==> r[k] == m[k]
  {
    map k | k in m && k in part :: m[k]
  }

  /** Splitting a dictionary by a set of keys splits its sum. */
  lemma {:induction false} SumSplit(m: map<int, real>, part: set<int>)
    requires part <= m.Keys
    ensures SumMap(m) == SumMap(Restrict(m, part)) + SumMap(m - part)
    decreases |part|
  {
    if part == {} {
      assert Restrict(m, part) == map[];
      assert m - part == m;
    } else {
      var k := MinOf(part);
      SumSplit(m, part - {k});
      var inner := Restrict(m, part);
      SumRemove(inner, k);
      assert inner - {k} == Restrict(m, part - {k});
      SumRemove(m - (part - {k}), k);
      assert (m - (part - {k})) - {k} == m - part;
    }
  }

  lemma {:induction false} SumZeros(m: map<int, real>)
    requires forall k :: k in m ==> m[k] == 0.0
    ensures SumMap(m) == 0.0
    decreases |m|
  {
    if m != map[] {
      SumZeros(m - {MinOf(m.Keys)});
    }
  }

  /** Entries outside part that are zero do not change the sum. */
  lemma SumOverPart(m: map<int, real>, part: map<int, real>)
    requires part.Keys <= m.Keys
    requires forall k :: k in m ==> m[k] == if k in part then part[k] else 0.0
    ensures SumMap(m) == SumMap(part)
  {
    SumSplit(m, part.Keys);
    assert Restrict(m, part.Keys) == part;
    SumZeros(m - part.Keys);
  }
}
