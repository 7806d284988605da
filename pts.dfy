/** Points-to sets and the points-to graph `funcPtsGraph`: a map from a node
    to the set of object nodes it may point to. Entries are created on first
    `funcPtsGraph[n]` and sets only ever grow. */
module Pts {

  /** A node identity of the node factory. */
  type NodeIndex = nat

  type Graph = map<NodeIndex, set<NodeIndex>>

  /** The entry of `k`, or the empty set if `m` has none. */
  function Lookup<K, V>(m: map<K, set<V>>, k: K): set<V> {
    if k in m then m[k] else {}
  }

  /** `m[k].insert(s)`: creates the entry of `k` when absent, then adds `s`. */
  function Add<K, V>(m: map<K, set<V>>, k: K, s: set<V>): (r: map<K, set<V>>)
    ensures k in r && r[k] == Lookup(m, k) + s
    ensures r.Keys == m.Keys + {k}
    ensures forall j :: j in m && j != k ==> r[j] == m[j]
  {
    m[k := Lookup(m, k) + s]
  }

  /** The points-to set of `n` in `g`. */
  function PtsOf(g: Graph, n: NodeIndex): set<NodeIndex> {
    Lookup(g, n)
  }

  /** `funcPtsGraph[n].insert(s)`. */
  function Insert(g: Graph, n: NodeIndex, s: set<NodeIndex>): Graph {
    Add(g, n, s)
  }

  /** What the insertion reports: whether it added anything. */
  function Adds(g: Graph, n: NodeIndex, s: set<NodeIndex>): bool {
    !(s <= PtsOf(g, n))
  }

  /** `g2` extends `g1`: no entry lost, no set shrunk. */
  ghost predicate Le<K, V>(g1: map<K, set<V>>, g2: map<K, set<V>>) {
    forall n :: n in g1 ==> n in g2 && g1[n] <= g2[n]
  }

  lemma AddLe<K, V>(m: map<K, set<V>>, k: K, s: set<V>)
    ensures Le(m, Add(m, k, s))
  {}

  lemma LeLookup<K, V>(m1: map<K, set<V>>, m2: map<K, set<V>>, k: K)
    requires Le(m1, m2)
    ensures Lookup(m1, k) <= Lookup(m2, k)
  {}

  /** Some set of `g2` holds an element that `g1` did not have for it. */
  ghost predicate Grew(g1: Graph, g2: Graph) {
    exists n :: n in g2 && !(g2[n] <= PtsOf(g1, n))
  }

  /** The two graphs agree on every points-to set (entries may differ). */
  ghost predicate SamePts(g1: Graph, g2: Graph) {
    forall n :: PtsOf(g1, n) == PtsOf(g2, n)
  }

  /** Outside `t`, `g2` is `g1`: same entries and same sets. */
  ghost predicate SameOutside(g1: Graph, g2: Graph, t: set<NodeIndex>) {
    forall n :: n !in t ==> (n in g2 <==> n in g1) && PtsOf(g2, n) == PtsOf(g1, n)
  }

  // ---- one insertion

  lemma InsertLe(g: Graph, n: NodeIndex, s: set<NodeIndex>)
    ensures Le(g, Insert(g, n, s))
    ensures SameOutside(g, Insert(g, n, s), {n})
  {}

  /** The insertion reports exactly whether the graph grew. */
  lemma InsertGrew(g: Graph, n: NodeIndex, s: set<NodeIndex>)
    ensures Grew(g, Insert(g, n, s)) == Adds(g, n, s)
    ensures !Adds(g, n, s) ==> SamePts(g, Insert(g, n, s))
  {
    var r := Insert(g, n, s);
    if Adds(g, n, s) {
      assert n in r && !(r[n] <= PtsOf(g, n));
    } else {
      forall k ensures PtsOf(g, k) == PtsOf(r, k) {}
      NoGrowthSamePts(g, r);
    }
  }

  lemma NoGrowthSamePts(g1: Graph, g2: Graph)
    requires SamePts(g1, g2)
    ensures !Grew(g1, g2)
  {}

  // ---- composing insertions

  lemma LeRefl<K, V>(g: map<K, set<V>>)
    ensures Le(g, g)
  {}

  lemma LeTrans<K, V>(g1: map<K, set<V>>, g2: map<K, set<V>>, g3: map<K, set<V>>)
    requires Le(g1, g2) && Le(g2, g3)
    ensures Le(g1, g3)
  {}

  lemma LePts(g1: Graph, g2: Graph, n: NodeIndex)
    requires Le(g1, g2)
    ensures PtsOf(g1, n) <= PtsOf(g2, n)
  {}

  /** Growth survives later growth. */
  lemma GrewThenLe(g1: Graph, g2: Graph, g3: Graph)
    requires Grew(g1, g2) && Le(g2, g3)
    ensures Grew(g1, g3)
  {
    var n :| n in g2 && !(g2[n] <= PtsOf(g1, n));
    assert n in g3 && g2[n] <= g3[n];
  }

  /** Growth is judged on points-to sets only. */
  lemma GrewSamePts(g0: Graph, g1: Graph, g2: Graph)
    requires SamePts(g0, g1)
    ensures Grew(g1, g2) == Grew(g0, g2)
  {
    if Grew(g1, g2) {
      var n :| n in g2 && !(g2[n] <= PtsOf(g1, n));
      assert PtsOf(g1, n) == PtsOf(g0, n);
    }
    if Grew(g0, g2) {
      var n :| n in g2 && !(g2[n] <= PtsOf(g0, n));
      assert PtsOf(g1, n) == PtsOf(g0, n);
    }
  }

  lemma NotGrewSamePts(g1: Graph, g2: Graph)
    requires Le(g1, g2) && !Grew(g1, g2)
    ensures SamePts(g1, g2)
  {
    forall n ensures PtsOf(g1, n) == PtsOf(g2, n) {
      if n in g2 {
        assert g2[n] <= PtsOf(g1, n);
      }
    }
  }

  /** Growth over two steps is growth in one of them. */
  lemma GrewCompose(g0: Graph, g1: Graph, g2: Graph)
    requires Le(g0, g1) && Le(g1, g2)
    ensures Grew(g0, g2) == (Grew(g0, g1) || Grew(g1, g2))
  {
    if Grew(g0, g2) {
      var n :| n in g2 && !(g2[n] <= PtsOf(g0, n));
      if g2[n] <= PtsOf(g1, n) {
        assert n in g1 && !(g1[n] <= PtsOf(g0, n));
      }
    }
    if Grew(g0, g1) {
      GrewThenLe(g0, g1, g2);
    }
    if Grew(g1, g2) {
      var n :| n in g2 && !(g2[n] <= PtsOf(g1, n));
      assert PtsOf(g0, n) <= PtsOf(g1, n);
    }
  }

  /** Graphs with the same entries and the same sets are equal. */
  lemma GraphExt(a: Graph, b: Graph)
    requires a.Keys == b.Keys
    requires forall n :: PtsOf(a, n) == PtsOf(b, n)
    ensures a == b
  {
    forall n | n in a ensures a[n] == b[n] {
      assert PtsOf(a, n) == PtsOf(b, n);
    }
  }

  lemma SameOutsideTrans(g1: Graph, g2: Graph, g3: Graph, t: set<NodeIndex>)
    requires SameOutside(g1, g2, t) && SameOutside(g2, g3, t)
    ensures SameOutside(g1, g3, t)
  {}

  lemma SameOutsideWiden(g1: Graph, g2: Graph, t: set<NodeIndex>, u: set<NodeIndex>)
    requires SameOutside(g1, g2, t) && t <= u
    ensures SameOutside(g1, g2, u)
  {}

  /** Adds `v` to the entry of every key in `keys`, creating missing entries. */
  function Spread<K, V>(m: map<K, set<V>>, keys: set<K>, v: V): (r: map<K, set<V>>)
    ensures r.Keys == m.Keys + keys
    ensures forall k :: k in keys ==> r[k] == Lookup(m, k) + {v}
    ensures forall k :: k in m && k !in keys ==> r[k] == m[k]
  {
    map k | k in m.Keys + keys :: if k in keys then Lookup(m, k) + {v} else m[k]
  }

  /** The entry of one key after a spread. */
  lemma SpreadLookup<K, V>(m: map<K, set<V>>, keys: set<K>, v: V, k: K)
    ensures Lookup(Spread(m, keys, v), k) == Lookup(m, k) + (if k in keys then {v} else {})
  {}

  /** Spreading one more key is a single `Add`. */
  lemma SpreadAdd<K, V>(m: map<K, set<V>>, keys: set<K>, k: K, v: V)
    ensures Add(Spread(m, keys, v), k, {v}) == Spread(m, keys + {k}, v)
  {
    var a := Add(Spread(m, keys, v), k, {v});
    var b := Spread(m, keys + {k}, v);
    assert a.Keys == b.Keys;
    forall j | j in a.Keys ensures a[j] == b[j] {
      if j == k {
        assert a[j] == Lookup(m, k) + (if k in keys then {v} else {}) + {v};
      }
    }
  }

  // ---- ascending iteration over a points-to set

  /** The smallest element of a non-empty set. */
  ghost function Min(s: set<NodeIndex>): (m: NodeIndex)
    requires s != {}
    ensures m in s && forall x :: x in s ==> m <= x
  {
    var x :| x in s;
    if s == {x} then
      assert forall y :: y in s ==> y == x;
      x
    else
      var m' := Min(s - {x});
      assert forall y :: y in s ==> y == x || y in s - {x};
      if x <= m' then x else m'
  }

  /** The next element of an ascending walk over `s` (find_first / find_next). */
  method First(s: set<NodeIndex>) returns (m: NodeIndex)
    requires s != {}
    ensures m in s && forall x | x in s :: m <= x
    ensures Sorted(s) == [m] + Sorted(s - {m})
  {
    ghost var least := Min(s);
    m :| m in s && forall x | x in s :: m <= x;
    SortedUnfold(s, m);
  }

  /** The elements of `s` in the ascending order in which a bit-vector
      points-to set is walked with find_first / find_next. */
  ghost function Sorted(s: set<NodeIndex>): (r: seq<NodeIndex>)
    decreases |s|
  {
    if s == {} then []
    else
      var m := Min(s);
      assert |s - {m}| < |s| by {
        assert s == (s - {m}) + {m};
      }
      [m] + Sorted(s - {m})
  }

  lemma {:induction false} SortedContents(s: set<NodeIndex>)
    ensures forall x :: x in Sorted(s) <==> x in s
    ensures |Sorted(s)| == |s|
    decreases |s|
  {
    if s != {} {
      var m := Min(s);
      assert s == (s - {m}) + {m};
      SortedContents(s - {m});
    }
  }

  /** The walk ends with the largest element. */
  lemma {:induction false} SortedLastIsMax(s: set<NodeIndex>)
    ensures forall k | 0 <= k < |Sorted(s)| :: Sorted(s)[k] <= Sorted(s)[|Sorted(s)| - 1]
    decreases |s|
  {
    if s != {} {
      var m := Min(s);
      var t := s - {m};
      assert s == t + {m};
      var q := Sorted(t);
      var r := Sorted(s);
      assert r == [m] + q;
      if t != {} {
        SortedLastIsMax(t);
        SortedContents(t);
        assert q[|q| - 1] in t;
        forall k | 0 <= k < |r| ensures r[k] <= r[|r| - 1] {
          if k > 0 {
            assert r[k] == q[k - 1];
          }
        }
      }
    }
  }

  /** Where a member of `s` sits in the walk; it is the last element only
      if it is the largest. */
  lemma SortedIndexOf(s: set<NodeIndex>, p: NodeIndex) returns (k: nat)
    requires p in s
    ensures k < |Sorted(s)| && Sorted(s)[k] == p
    ensures k == |Sorted(s)| - 1 ==> forall q | q in s :: q <= p
  {
    SortedContents(s);
    SortedLastIsMax(s);
    var elems := Sorted(s);
    k :| 0 <= k < |elems| && elems[k] == p;
    forall q | q in s ensures q <= elems[|elems| - 1] {
      var j :| 0 <= j < |elems| && elems[j] == q;
    }
  }

  /** The next element of a walk is the smallest one not yet visited. */
  lemma SortedUnfold(s: set<NodeIndex>, m: NodeIndex)
    requires m in s && forall x :: x in s ==> m <= x
    ensures Sorted(s) == [m] + Sorted(s - {m})
  {
    assert Min(s) == m;
  }

  lemma SortedSingleton(x: NodeIndex)
    ensures Sorted({x}) == [x]
  {
    SortedUnfold({x}, x);
    assert {x} - {x} == {};
  }

  // ---- resuming a walk above a moved cursor

  /** The elements of `elems` above `c`, in order: what `find_next(c)` goes on to. */
  function Above(elems: seq<NodeIndex>, c: NodeIndex): (r: seq<NodeIndex>)
    ensures |r| <= |elems|
    ensures forall x :: x in r <==> x in elems && x > c
    decreases |elems|
  {
    if elems == [] then []
    else
      assert forall x :: x in elems <==> x == elems[0] || x in elems[1..];
      (if elems[0] > c then [elems[0]] else []) + Above(elems[1..], c)
  }

  /** A strictly ascending sequence, as every walk of a set is. */
  /** Nothing lies above a bound every element stays under. */
  lemma {:induction false} AboveNone(elems: seq<NodeIndex>, c: NodeIndex)
    requires forall x | x in elems :: x <= c
    ensures Above(elems, c) == []
    decreases |elems|
  {
    if elems != [] {
      assert elems[0] in elems;
      assert forall x | x in elems[1..] :: x in elems;
      AboveNone(elems[1..], c);
    }
  }

  ghost predicate Increasing(q: seq<NodeIndex>) {
    forall i, j | 0 <= i < j < |q| :: q[i] < q[j]
  }

  lemma IncreasingTail(q: seq<NodeIndex>)
    requires Increasing(q) && q != []
    ensures Increasing(q[1..])
    ensures forall x | x in q[1..] :: q[0] < x
  {
    forall x | x in q[1..] ensures q[0] < x {
      var j :| 0 <= j < |q[1..]| && q[1..][j] == x;
      assert q[j + 1] == x;
    }
  }

  lemma IncreasingCons(m: NodeIndex, q: seq<NodeIndex>)
    requires Increasing(q) && forall x | x in q :: m < x
    ensures Increasing([m] + q)
  {
    var r := [m] + q;
    forall i, j | 0 <= i < j < |r| ensures r[i] < r[j] {
      assert r[j] == q[j - 1];
      if i > 0 {
        assert r[i] == q[i - 1];
      } else {
        assert q[j - 1] in q;
      }
    }
  }

  lemma {:induction false} AboveIncreasing(q: seq<NodeIndex>, c: NodeIndex)
    requires Increasing(q)
    ensures Increasing(Above(q, c))
    decreases |q|
  {
    if q != [] {
      IncreasingTail(q);
      AboveIncreasing(q[1..], c);
      if q[0] > c {
        IncreasingCons(q[0], Above(q[1..], c));
      }
    }
  }

  lemma {:induction false} SortedIncreasing(s: set<NodeIndex>)
    ensures Increasing(Sorted(s))
    decreases |s|
  {
    if s != {} {
      var m := Min(s);
      var t := s - {m};
      assert s == t + {m};
      SortedIncreasing(t);
      SortedContents(t);
      assert Sorted(s) == [m] + Sorted(t);
      assert forall x | x in Sorted(t) :: m < x by {
        forall x | x in Sorted(t) ensures m < x {
          assert x in t;
          assert x in s && x != m;
          assert m <= x;
        }
      }
      IncreasingCons(m, Sorted(t));
    }
  }

  /** Walking the elements above `c` is the tail of the whole walk that lies above `c`. */
  /** The elements of `s` above `c`. */
  function Over(s: set<NodeIndex>, c: NodeIndex): (r: set<NodeIndex>)
    ensures forall x :: x in r <==> x in s && x > c
  {
    set x | x in s && x > c
  }

  lemma {:induction false} SortedAbove(s: set<NodeIndex>, c: NodeIndex)
    ensures Sorted(Over(s, c)) == Above(Sorted(s), c)
    decreases |s|
  {
    var f := Over(s, c);
    if s == {} {
      assert f == {};
    } else {
      var m := Min(s);
      var t := s - {m};
      assert s == t + {m};
      var ft := Over(t, c);
      SortedAbove(t, c);
    var q := Sorted(s);
      assert q == [m] + Sorted(t);
      assert q[1..] == Sorted(t);
      if m > c {
        assert f - {m} == ft;
        SortedUnfold(f, m);
      } else {
        assert f == ft;
      }
    }
  }
}
