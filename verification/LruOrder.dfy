/** What an LRU list of block indices does on a request, oldest first, and what a history of requests leaves. */
module LruOrder {
  import opened Sequences

  function LastN<T>(s: seq<T>, n: nat): (r: seq<T>)
    ensures |r| <= n && |r| <= |s|
  {
    if |s| <= n then s else s[|s| - n..]
  }

  /** A request finds its block or not, once the list is down to its maximum. */
  predicate Hit(q: seq<int>, max: nat, i: int) { i in LastN(q, max) }

  function Requested(q: seq<int>, max: nat, i: int): (r: seq<int>)
    requires max > 0
  {
    var t := LastN(q, max);
    if i in t then Without(t, i) + [i] else LastN(t, max - 1) + [i]
  }

  /** A request and the maximum in force. */
  datatype Request = Request(index: int, max: nat)

  ghost predicate Sound(log: seq<Request>) { forall k :: 0 <= k < |log| ==> log[k].max > 0 }

  /** The list that a history leaves. */
  ghost function Cached(log: seq<Request>): (q: seq<int>)
    requires Sound(log)
  {
    if log == [] then [] else Requested(Cached(Init(log)), Last(log).max, Last(log).index)
  }

  lemma CachedSnoc(log: seq<Request>, r: Request)
    requires Sound(log) && r.max > 0
    ensures Sound(log + [r]) && Cached(log + [r]) == Requested(Cached(log), r.max, r.index)
  {
    assert Init(log + [r]) == log && Last(log + [r]) == r;
  }

  /** The distinct indices requested, in the order of their last requests. */
  function Recent(log: seq<Request>): (q: seq<int>) {
    if log == [] then [] else Without(Recent(Init(log)), Last(log).index) + [Last(log).index]
  }

  /** The indices requested after the last request of i. */
  function Since(log: seq<Request>, i: int): (r: set<int>) {
    if log == [] || Last(log).index == i then {} else {Last(log).index} + Since(Init(log), i)
  }

  predicate Asked(log: seq<Request>, i: int) { exists k :: 0 <= k < |log| && log[k].index == i }

  lemma {:induction false} RecentIsDistinct(log: seq<Request>)
    ensures Distinct(Recent(log))
    ensures forall i :: i in Recent(log) <==> Asked(log, i)
  {
    if log != [] {
      RecentIsDistinct(Init(log));
      var i := Last(log).index;
      WithoutMembers(Recent(Init(log)), i);
      WithoutDistinct(Recent(Init(log)), i);
      InitLast(log);
      forall j ensures j in Recent(log) <==> Asked(log, j) {
        assert j in Recent(log) <==> j in Without(Recent(Init(log)), i) || j == i;
        assert Asked(log, j) <==> Asked(Init(log), j) || j == i;
      }
    }
  }

  ghost predicate IsSuffix<T>(q: seq<T>, s: seq<T>) { |q| <= |s| && s[|s| - |q|..] == q }

  lemma SuffixMembers<T>(q: seq<T>, s: seq<T>)
    requires IsSuffix(q, s)
    ensures forall x :: x in q ==> x in s
  {
  }

  lemma TailIsSuffix<T>(q: seq<T>, s: seq<T>)
    requires IsSuffix(q, s) && q != []
    ensures IsSuffix(q[1..], s)
  {
  }

  lemma SuffixOfAppend<T>(a: seq<T>, b: seq<T>)
    ensures IsSuffix(b, a + b)
  {
  }

  /** A request finds its index in the part of the list that is kept: it moves to the end. */
  lemma HitMoves(a: seq<int>, t: seq<int>, i: int)
    requires Distinct(a + t) && i in t
    ensures IsSuffix(Without(t, i) + [i], Without(a + t, i) + [i])
    ensures |Without(t, i) + [i]| == |t|
  {
    var k :| 0 <= k < |t| && t[k] == i;
    assert (a + t)[|a| + k] == i && forall j :: 0 <= j < |a| ==> (a + t)[j] == a[j];
    assert i !in a;
    assert Distinct(t) by {
      assert forall j :: 0 <= j < |t| ==> t[j] == (a + t)[|a| + j];
    }
    WithoutAppend(a, t, i);
    WithoutAbsent(a, i);
    WithoutDistinct(t, i);
    SuffixOfAppend(a, Without(t, i) + [i]);
    assert Without(a + t, i) + [i] == a + (Without(t, i) + [i]);
  }

  /** A request does not find it: the index is new at the end, and the kept part may lose its oldest. */
  lemma MissAppends(a: seq<int>, t: seq<int>, max: nat, i: int)
    requires i !in t && max > 0
    ensures IsSuffix(LastN(t, max - 1) + [i], Without(a + t, i) + [i])
  {
    assert Without(a + t, i) == Without(a, i) + t by {
      WithoutAppend(a, t, i);
      WithoutAbsent(t, i);
    }
    EndIsSuffix(Without(a, i), t, max - 1, i);
  }

  lemma EndIsSuffix(a: seq<int>, t: seq<int>, n: nat, i: int)
    ensures IsSuffix(LastN(t, n) + [i], (a + t) + [i])
  {
    var kept := LastN(t, n);
    var lost := t[..|t| - |kept|];
    SuffixOfAppend(a + lost, kept + [i]);
    assert (a + t) + [i] == (a + lost) + (kept + [i]);
  }

  lemma RequestKeepsSuffix(q: seq<int>, recent: seq<int>, max: nat, i: int)
    requires Distinct(recent) && IsSuffix(q, recent) && max > 0
    ensures IsSuffix(Requested(q, max, i), Without(recent, i) + [i])
    ensures |Requested(q, max, i)|
         == var n := |LastN(q, max)|; if i in LastN(q, max) then n else (if n < max then n else max - 1) + 1
  {
    var t := LastN(q, max);
    var a := recent[..|recent| - |t|];
    assert recent == a + t;
    if i in t {
      HitMoves(a, t, i);
    } else {
      MissAppends(a, t, max, i);
    }
  }

  /** Whatever the maxima were: what is left are the most recently requested distinct indices, at most the
      last maximum of them. */
  lemma {:induction false} CachedIsRecent(log: seq<Request>)
    requires Sound(log)
    ensures IsSuffix(Cached(log), Recent(log))
    ensures log != [] ==> |Cached(log)| <= Last(log).max
  {
    if log != [] {
      CachedIsRecent(Init(log));
      RecentIsDistinct(Init(log));
      RequestKeepsSuffix(Cached(Init(log)), Recent(Init(log)), Last(log).max, Last(log).index);
    }
  }

  /** With a constant maximum m, all of the m most recently requested distinct indices are there. */
  lemma {:induction false} CachedIsLastN(log: seq<Request>, m: nat)
    requires Sound(log) && m > 0 && forall k :: 0 <= k < |log| ==> log[k].max == m
    ensures Cached(log) == LastN(Recent(log), m)
  {
    if log != [] {
      var recent, i := Recent(Init(log)), Last(log).index;
      CachedIsLastN(Init(log), m);
      RecentIsDistinct(Init(log));
      OneMore(recent, m, i);
    }
  }

  lemma OneMore(recent: seq<int>, m: nat, i: int)
    requires Distinct(recent) && m > 0
    ensures Requested(LastN(recent, m), m, i) == LastN(Without(recent, i) + [i], m)
  {
    WithoutDistinct(recent, i);
    assert IsSuffix(LastN(recent, m), recent);
    RequestKeepsSuffix(LastN(recent, m), recent, m, i);
    assert i in recent && i !in LastN(recent, m) ==> |recent| > m;
    SuffixIsLastN(Requested(LastN(recent, m), m, i), Without(recent, i) + [i], m);
  }

  lemma SuffixIsLastN<T>(q: seq<T>, s: seq<T>, m: nat)
    requires IsSuffix(q, s) && |q| == if |s| < m then |s| else m
    ensures q == LastN(s, m)
  {
  }

  // ----- What being among the m most recent means -----

  lemma WithoutAround(a: seq<int>, i: int, b: seq<int>, x: int)
    requires i != x
    ensures Without(a + ([i] + b), x) + [x] == Without(a, x) + [i] + (Without(b, x) + [x])
  {
    WithoutAppend(a, [i] + b, x);
    WithoutAppend([i], b, x);
    assert Without([i], x) == [i];
  }

  lemma MovedElements(b: seq<int>, x: int)
    ensures Elements(Without(b, x) + [x]) == Elements(b) + {x}
  {
    WithoutMembers(b, x);
  }

  /** The indices after i in the recency order are those requested since its last request. */
  lemma {:induction false} AfterIsSince(log: seq<Request>, i: int) returns (p: nat)
    requires Asked(log, i)
    ensures p < |Recent(log)| && Recent(log)[p] == i
    ensures Elements(Recent(log)[p + 1..]) == Since(log, i)
  {
    var before, x := Recent(Init(log)), Last(log).index;
    if x == i {
      p := |Recent(log)| - 1;
    } else {
      assert Asked(Init(log), i) by {
        var k :| 0 <= k < |log| && log[k].index == i;
        assert Init(log)[k].index == i;
      }
      var q := AfterIsSince(Init(log), i);
      var a, b := before[..q], before[q + 1..];
      assert before == a + ([i] + b);
      WithoutAround(a, i, b, x);
      p := |Without(a, x)|;
      assert Recent(log)[p + 1..] == Without(b, x) + [x];
      MovedElements(b, x);
    }
  }

  /** With a constant maximum m, a request hits exactly when its index was requested before and fewer than m
      other indices have been requested since. */
  lemma HitIff(log: seq<Request>, m: nat, i: int)
    requires Sound(log) && m > 0 && forall k :: 0 <= k < |log| ==> log[k].max == m
    ensures Hit(Cached(log), m, i) <==> Asked(log, i) && |Since(log, i)| < m
  {
    CachedIsLastN(log, m);
    RecentIsDistinct(log);
    var recent := Recent(log);
    assert LastN(LastN(recent, m), m) == LastN(recent, m);
    if Asked(log, i) {
      var p := AfterIsSince(log, i);
      DistinctCount(recent[p + 1..]);
      InLastN(recent, p, m);
    }
  }

  lemma InLastN<T>(s: seq<T>, p: nat, m: nat)
    requires Distinct(s) && p < |s|
    ensures s[p] in LastN(s, m) <==> |s| - p <= m
  {
    var t := LastN(s, m);
    var d := |s| - |t|;
    if p >= d {
      assert t[p - d] == s[p];
    }
    if s[p] in t {
      var k :| 0 <= k < |t| && t[k] == s[p];
      assert s[d + k] == s[p];
    }
  }
}
