/** Values shared by every part of the backend model: optional values, the
    failures a route answers or a service throws, JavaScript truthiness of
    request fields, and small sequence helpers with their lemmas. */
module Common {

  datatype Option<+T> = None | Some(value: T)

  /** A failure as the backend produces it: an HTTP answer with its status
      code and error text, or an `Error` a service throws at its caller. */
  datatype Failure = Http(code: nat, message: string) | Thrown(message: string)

  datatype Result<+T> = Ok(value: T) | Fail(failure: Failure)

  const BAD_REQUEST: nat := 400
  const UNAUTHORIZED: nat := 401
  const NOT_FOUND: nat := 404
  const SERVER_ERROR: nat := 500

  /** The generic answer of every route's catch block. */
  const INTERNAL_ERROR := Http(SERVER_ERROR, "Erreur interne du serveur")

  /** True when a failure is an HTTP answer with the given status code. */
  predicate IsStatus<T>(r: Result<T>, code: nat) {
    r.Fail? && r.failure.Http? && r.failure.code == code
  }

  /** JavaScript truthiness of an optional string field of a request:
      an absent field and the empty string are both falsy. */
  predicate Present(s: Option<string>) {
    s.Some? && s.value != ""
  }

  function Min(a: int, b: int): int {
    if a <= b then a else b
  }

  /** The elements of `s` that satisfy `p`, in their original order. */
  function Filter<T>(s: seq<T>, p: T -> bool): (r: seq<T>)
    ensures |r| <= |s|
    ensures forall i :: 0 <= i < |r| ==> r[i] in s && p(r[i])
    ensures forall i :: 0 <= i < |s| && p(s[i]) ==> s[i] in r
  {
    if s == [] then [] else (if p(s[0]) then [s[0]] else []) + Filter(s[1..], p)
  }

  lemma {:induction false} FilterAppend<T>(a: seq<T>, b: seq<T>, p: T -> bool)
    ensures Filter(a + b, p) == Filter(a, p) + Filter(b, p)
  {
    if a == [] {
      assert a + b == b;
    } else {
      assert (a + b)[1..] == a[1..] + b;
      FilterAppend(a[1..], b, p);
    }
  }

  /** Filtering keeps nothing when no element qualifies. */
  lemma {:induction false} FilterNone<T>(s: seq<T>, p: T -> bool)
    requires forall i :: 0 <= i < |s| ==> !p(s[i])
    ensures Filter(s, p) == []
  {
    if s != [] {
      FilterNone(s[1..], p);
    }
  }

  /** Filtering keeps everything when every element qualifies. */
  lemma {:induction false} FilterAll<T>(s: seq<T>, p: T -> bool)
    requires forall i :: 0 <= i < |s| ==> p(s[i])
    ensures Filter(s, p) == s
  {
    if s != [] {
      FilterAll(s[1..], p);
      assert s == [s[0]] + s[1..];
    }
  }

  /** A stricter filter keeps no more elements. */
  lemma {:induction false} FilterMonotone<T>(s: seq<T>, p: T -> bool, q: T -> bool)
    requires forall i :: 0 <= i < |s| && p(s[i]) ==> q(s[i])
    ensures |Filter(s, p)| <= |Filter(s, q)|
  {
    if s != [] {
      FilterMonotone(s[1..], p, q);
    }
  }

  /** Filtering by a stricter condition after a weaker one is filtering by
      the stricter one alone. */
  lemma {:induction false} FilterOfFilter<T>(s: seq<T>, p: T -> bool, q: T -> bool)
    requires forall i :: 0 <= i < |s| && q(s[i]) ==> p(s[i])
    ensures Filter(Filter(s, p), q) == Filter(s, q)
  {
    if s != [] {
      FilterOfFilter(s[1..], p, q);
      if p(s[0]) {
        var t := [s[0]] + Filter(s[1..], p);
        assert Filter(s, p) == t;
        assert t[0] == s[0] && t[1..] == Filter(s[1..], p);
      } else {
        assert Filter(s, p) == Filter(s[1..], p);
        assert Filter(s, q) == Filter(s[1..], q);
      }
    }
  }

  /** True when `key` strictly increases along `s`. */
  predicate Increasing<T>(s: seq<T>, key: T -> int) {
    forall i, j :: 0 <= i < j < |s| ==> key(s[i]) < key(s[j])
  }

  /** An element below everything of an increasing sequence can go in front. */
  lemma IncreasingCons<T>(x: T, s: seq<T>, key: T -> int)
    requires Increasing(s, key)
    requires forall j :: 0 <= j < |s| ==> key(x) < key(s[j])
    ensures Increasing([x] + s, key)
  {
    var f := [x] + s;
    forall i, j | 0 <= i < j < |f| ensures key(f[i]) < key(f[j]) {
      assert f[j] == s[j - 1];
      if 0 < i {
        assert f[i] == s[i - 1];
      }
    }
  }

  /** Filtering keeps the order of what it keeps. */
  lemma {:induction false} FilterIncreasing<T>(s: seq<T>, p: T -> bool, key: T -> int)
    requires Increasing(s, key)
    ensures Increasing(Filter(s, p), key)
  {
    if s != [] {
      FilterIncreasing(s[1..], p, key);
      var rest := Filter(s[1..], p);
      forall j | 0 <= j < |rest| ensures key(s[0]) < key(rest[j]) {
        var k :| 0 <= k < |s[1..]| && s[1..][k] == rest[j];
        assert s[k + 1] == rest[j];
      }
      if p(s[0]) {
        IncreasingCons(s[0], rest, key);
      }
    }
  }

  /** The number of elements of `s` that satisfy `p`: what a `count` query returns. */
  function Count<T>(s: seq<T>, p: T -> bool): nat {
    |Filter(s, p)|
  }

  /** The positions of `s` whose element satisfies `p`. */
  ghost function Positions<T>(s: seq<T>, p: T -> bool): set<nat> {
    set i | 0 <= i < |s| && p(s[i])
  }

  /** A `count` query counts the positions whose element satisfies `p`. */
  lemma {:induction false} CountIsPositions<T>(s: seq<T>, p: T -> bool)
    ensures Count(s, p) == |Positions(s, p)|
  {
    if s != [] {
      var n := |s| - 1;
      CountIsPositions(s[..n], p);
      CountLast(s, p);
      PositionsLast(s, p);
    }
  }

  /** The count of a non-empty sequence is the count without its last element,
      plus one when the last element qualifies. */
  lemma CountLast<T>(s: seq<T>, p: T -> bool)
    requires s != []
    ensures Count(s, p) == Count(s[..|s| - 1], p) + if p(s[|s| - 1]) then 1 else 0
  {
    var n := |s| - 1;
    assert s == s[..n] + [s[n]];
    FilterAppend(s[..n], [s[n]], p);
    assert Filter([s[n]], p) == if p(s[n]) then [s[n]] else [];
  }

  /** The positions of a non-empty sequence are those without its last
      element, plus the last one when its element qualifies. */
  lemma PositionsLast<T>(s: seq<T>, p: T -> bool)
    requires s != []
    ensures |Positions(s, p)| == |Positions(s[..|s| - 1], p)| + if p(s[|s| - 1]) then 1 else 0
  {
    var n := |s| - 1;
    var before := Positions(s[..n], p);
    var after := Positions(s, p);
    forall i ensures i in after <==> i in before || (i == n && p(s[n])) {
      if 0 <= i < n {
        assert s[..n][i] == s[i];
      }
    }
    if p(s[n]) {
      assert after == before + {n};
    } else {
      assert after == before;
    }
  }

  /** `s` read back to front. */
  function Reverse<T>(s: seq<T>): (r: seq<T>)
    ensures |r| == |s|
    ensures forall i :: 0 <= i < |s| ==> r[i] == s[|s| - 1 - i]
  {
    seq(|s|, i requires 0 <= i < |s| => s[|s| - 1 - i])
  }

  lemma ReverseReverse<T>(s: seq<T>)
    ensures Reverse(Reverse(s)) == s
  {
  }

  lemma ReverseMembership<T>(s: seq<T>, x: T)
    ensures x in Reverse(s) <==> x in s
  {
    if x in s {
      var i :| 0 <= i < |s| && s[i] == x;
      assert Reverse(s)[|s| - 1 - i] == x;
    }
  }

  /** Reversing a slice of the reversed sequence gives back a slice of the
      original, counted from its far end. */
  lemma ReverseSlice<T>(s: seq<T>, a: nat, b: nat)
    requires a <= b <= |s|
    ensures Reverse(Reverse(s)[a..b]) == s[|s| - b..|s| - a]
  {
  }

  /** The first element of `s` that satisfies `p`, as a `findFirst` query
      returns it. */
  function First<T>(s: seq<T>, p: T -> bool): (r: Option<T>)
    ensures r.None? <==> forall i :: 0 <= i < |s| ==> !p(s[i])
    ensures r.Some? ==> r.value in s && p(r.value)
  {
    if s == [] then None else if p(s[0]) then Some(s[0]) else First(s[1..], p)
  }

  /** Searching a concatenation finds the match of the first part if there
      is one, and otherwise searches the second part. */
  lemma {:induction false} FirstAppend<T>(a: seq<T>, b: seq<T>, p: T -> bool)
    ensures First(a + b, p) == if First(a, p).Some? then First(a, p) else First(b, p)
  {
    if a == [] {
      assert a + b == b;
    } else {
      assert (a + b)[0] == a[0];
      assert (a + b)[1..] == a[1..] + b;
      FirstAppend(a[1..], b, p);
    }
  }

  /** The newest-first order of a filtered query holds exactly the rows that
      pass the filter. */
  lemma NewestFirst<T>(s: seq<T>, p: T -> bool)
    ensures forall k :: 0 <= k < |Reverse(Filter(s, p))| ==>
      Reverse(Filter(s, p))[k] in s && p(Reverse(Filter(s, p))[k])
    ensures forall i :: 0 <= i < |s| && p(s[i]) ==> s[i] in Reverse(Filter(s, p))
  {
    var f := Filter(s, p);
    forall x | x in f ensures x in Reverse(f) {
      ReverseMembership(f, x);
    }
  }

  /** A key that increases along `s` decreases along its reverse. */
  lemma ReverseIncreasing<T>(s: seq<T>, key: T -> int)
    requires Increasing(s, key)
    ensures forall i, j :: 0 <= i < j < |s| ==> key(Reverse(s)[i]) > key(Reverse(s)[j])
  {
  }

  /** The last element of a sequence, if any. */
  function Last<T>(s: seq<T>): (r: Option<T>)
    ensures r.Some? <==> s != []
    ensures r.Some? ==> r.value == s[|s| - 1]
  {
    if s == [] then None else Some(s[|s| - 1])
  }
}
