/** Values and list operations shared by every part of the query engine:
    optional values (a dictionary key that may be missing), results (an
    exception the engine raises), and the few built-in list operations the
    engine relies on. */
module Common {

  datatype Option<+T> = None | Some(value: T) {
    /** `d.get(key, default)` for a key that may be missing. */
    function GetOr(default: T): T {
      match this
      case Some(v) => v
      case None => default
    }
  }

  /** A computation that either yields a value or raises an error. */
  datatype Result<+T, +E> = Ok(value: T) | Err(error: E)

  /** `list(range(n))` */
  function Range(n: nat): (r: seq<nat>)
    ensures |r| == n
    ensures forall i :: 0 <= i < n ==> r[i] == i
    ensures forall i: nat :: i in r <==> i < n
  {
    if n == 0 then [] else Range(n - 1) + [n - 1]
  }

  /** `set(range(n))` */
  function RangeSet(n: nat): (r: set<nat>)
    ensures forall i: nat :: i in r <==> i < n
  {
    set i | i in Range(n)
  }

  lemma {:induction false} RangeSetSize(n: nat)
    ensures |RangeSet(n)| == n
  {
    if n > 0 {
      RangeSetSize(n - 1);
      assert RangeSet(n) == RangeSet(n - 1) + {n - 1};
    } else {
      assert RangeSet(0) == {};
    }
  }

  /** `s.count(x)` */
  function Count<T(==)>(s: seq<T>, x: T): nat {
    if s == [] then 0 else Count(s[..|s| - 1], x) + (if s[|s| - 1] == x then 1 else 0)
  }

  lemma {:induction false} CountAppend<T>(a: seq<T>, b: seq<T>, x: T)
    ensures Count(a + b, x) == Count(a, x) + Count(b, x)
  {
    if b != [] {
      assert (a + b)[..|a + b| - 1] == a + b[..|b| - 1];
      CountAppend(a, b[..|b| - 1], x);
    } else {
      assert a + b == a;
    }
  }

  lemma CountSnoc<T>(s: seq<T>, a: T, x: T)
    ensures Count(s + [a], x) == Count(s, x) + (if a == x then 1 else 0)
  {
    assert (s + [a])[..|s|] == s;
  }

  lemma {:induction false} CountPositive<T>(s: seq<T>, x: T)
    ensures Count(s, x) > 0 <==> x in s
  {
    if s != [] {
      CountPositive(s[..|s| - 1], x);
      assert s == s[..|s| - 1] + [s[|s| - 1]];
    }
  }

  /** Concatenation of a list of lists, in order (`for xs in ss: out.extend(xs)`). */
  function Flatten<T>(ss: seq<seq<T>>): seq<T> {
    if ss == [] then [] else Flatten(ss[..|ss| - 1]) + ss[|ss| - 1]
  }

  lemma {:induction false} FlattenMembership<T>(ss: seq<seq<T>>, x: T)
    ensures x in Flatten(ss) <==> exists i :: 0 <= i < |ss| && x in ss[i]
  {
    if ss != [] {
      var n := |ss| - 1;
      FlattenMembership(ss[..n], x);
      if x in ss[n] {
        assert x in Flatten(ss);
      }
      if x in Flatten(ss[..n]) {
        var i :| 0 <= i < n && x in ss[..n][i];
        assert x in ss[i];
      }
    }
  }

  /** No element occurs twice. */
  ghost predicate Distinct<T>(s: seq<T>) {
    forall i, j :: 0 <= i < j < |s| ==> s[i] != s[j]
  }

  lemma DistinctPrepend<T>(a: T, t: seq<T>)
    ensures Distinct([a] + t) <==> a !in t && Distinct(t)
  {
    if Distinct([a] + t) {
      forall i, j | 0 <= i < j < |t| ensures t[i] != t[j] {
        assert t[i] == ([a] + t)[i + 1] && t[j] == ([a] + t)[j + 1];
      }
      forall k | 0 <= k < |t| ensures t[k] != a {
        assert ([a] + t)[0] == a && ([a] + t)[k + 1] == t[k];
      }
    }
    if a !in t && Distinct(t) {
      forall i, j | 0 <= i < j < |t| + 1 ensures ([a] + t)[i] != ([a] + t)[j] {
        assert ([a] + t)[j] == t[j - 1];
      }
    }
  }

  lemma DistinctAppendOne<T>(p: seq<T>, a: T)
    ensures Distinct(p + [a]) <==> a !in p && Distinct(p)
  {
    if Distinct(p + [a]) {
      forall i, j | 0 <= i < j < |p| ensures p[i] != p[j] {
        assert p[i] == (p + [a])[i] && p[j] == (p + [a])[j];
      }
      forall k | 0 <= k < |p| ensures p[k] != a {
        assert (p + [a])[k] == p[k] && (p + [a])[|p|] == a;
      }
    }
    if a !in p && Distinct(p) {
      forall i, j | 0 <= i < j < |p| + 1 ensures (p + [a])[i] != (p + [a])[j] {
        assert (p + [a])[i] == p[i];
      }
    }
  }

  /** The set of elements of a list. */
  function Elements<T>(s: seq<T>): set<T> {
    set x | x in s
  }

  /** A list without repeats has as many elements as its set of elements. */
  lemma {:induction false} DistinctCardinality<T>(s: seq<T>)
    requires Distinct(s)
    ensures |Elements(s)| == |s|
  {
    if s != [] {
      var n := |s| - 1;
      DistinctCardinality(s[..n]);
      assert s[n] !in s[..n];
      assert Elements(s) == Elements(s[..n]) + {s[n]};
    }
  }

  function Min(a: nat, b: nat): nat {
    if a <= b then a else b
  }
}
