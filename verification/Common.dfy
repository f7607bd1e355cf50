/** Small datatypes shared by the whole model. */
module Common {
  /** A value that may be absent. */
  datatype Option<+T> = None | Some(value: T)

  /** The outcome of an operation that may raise. */
  datatype Result<+T, +E> = Ok(value: T) | Raised(error: E) {
    predicate IsFailure() {
      Raised?
    }

    function PropagateFailure<U>(): Result<U, E>
      requires Raised?
    {
      Raised(error)
    }

    function Extract(): T
      requires Ok?
    {
      value
    }
  }

  /** The outcome of an effect that may raise. */
  datatype Outcome<+E> = Pass | Fail(error: E) {
    predicate IsFailure() {
      Fail?
    }

    function PropagateFailure(): Outcome<E>
      requires Fail?
    {
      this
    }
  }

  /** The value stored for a key, if any. */
  function Lookup<K, V>(m: map<K, V>, k: K): Option<V> {
    if k in m then Some(m[k]) else None
  }

  function Last<T>(s: seq<T>): T
    requires s != []
  {
    s[|s| - 1]
  }

  function Front<T>(s: seq<T>): seq<T>
    requires s != []
  {
    s[..|s| - 1]
  }

  /** The elements of `s` that satisfy `p`, in their order. */
  function Filter<T(!new)>(p: T -> bool, s: seq<T>): (r: seq<T>)
    ensures forall x :: x in r <==> x in s && p(x)
    ensures |r| <= |s|
  {
    if s == [] then []
    else if p(s[0]) then [s[0]] + Filter(p, s[1..])
    else Filter(p, s[1..])
  }

  lemma {:induction false} FilterAll<T(!new)>(p: T -> bool, s: seq<T>)
    requires forall x :: x in s ==> p(x)
    ensures Filter(p, s) == s
  {
    if s != [] {
      FilterAll(p, s[1..]);
    }
  }

  lemma {:induction false} FilterSame<T(!new)>(p: T -> bool, q: T -> bool, s: seq<T>)
    requires forall x :: x in s ==> (p(x) <==> q(x))
    ensures Filter(p, s) == Filter(q, s)
  {
    if s != [] {
      FilterSame(p, q, s[1..]);
    }
  }

  lemma {:induction false} FilterTwice<T(!new)>(p: T -> bool, q: T -> bool, both: T -> bool, s: seq<T>)
    requires forall x :: x in s ==> (both(x) <==> p(x) && q(x))
    ensures Filter(p, Filter(q, s)) == Filter(both, s)
  {
    if s != [] {
      FilterTwice(p, q, both, s[1..]);
      if q(s[0]) {
        assert ([s[0]] + Filter(q, s[1..]))[1..] == Filter(q, s[1..]);
      }
    }
  }

  /** The sequence without `x`, order kept. */
  function Without(s: seq<string>, x: string): (r: seq<string>)
    ensures forall y :: y in r <==> y in s && y != x
    ensures |r| <= |s| && (x !in s ==> r == s)
  {
    if s == [] then []
    else if s[0] == x then Without(s[1..], x)
    else [s[0]] + Without(s[1..], x)
  }

  lemma {:induction false} SubsetSize<T>(a: set<T>, b: set<T>)
    requires a <= b
    ensures |a| <= |b|
  {
    if a != {} {
      var x :| x in a;
      SubsetSize(a - {x}, b - {x});
    }
  }

  lemma OnlyElement<T>(s: set<T>, x: T, y: T)
    requires |s| == 1 && x in s && y in s
    ensures x == y
  {
    assert |s - {x}| == 0;
  }

  function Elements<T>(s: seq<T>): set<T> {
    set x | x in s
  }

  ghost predicate Distinct<T>(s: seq<T>) {
    forall i, j :: 0 <= i < j < |s| ==> s[i] != s[j]
  }
}

/** Clock readings, and logs of them. */
module Clock {
  import opened Common

  /** A reading of a clock that never goes back, or a duration. */
  type Time = real

  /** A log of readings, none negative, none later than the next one or than `now`. */
  ghost predicate Ordered(log: seq<Time>, now: Time) {
    log != [] ==> 0.0 <= Last(log) <= now && Ordered(Front(log), Last(log))
  }

  lemma OrderedAppend(log: seq<Time>, t: Time)
    requires Ordered(log, t) && 0.0 <= t
    ensures Ordered(log + [t], t)
  {
    assert Front(log + [t]) == log;
  }

  lemma {:induction false} OrderedTail(log: seq<Time>, now: Time)
    requires log != [] && Ordered(log, now)
    ensures Ordered(log[1..], now)
  {
    if |log| > 1 {
      OrderedTail(Front(log), Last(log));
      assert Front(log[1..]) == Front(log)[1..];
    }
  }

  lemma {:induction false} OrderedIndex(log: seq<Time>, now: Time, i: nat, j: nat)
    requires Ordered(log, now) && i <= j < |log|
    ensures 0.0 <= log[i] <= log[j] <= now
  {
    if j < |log| - 1 {
      OrderedIndex(Front(log), Last(log), i, j);
    } else if i < j {
      OrderedIndex(Front(log), Last(log), i, j - 1);
    }
  }

  lemma {:induction false} OrderedPrefix(log: seq<Time>, now: Time, i: nat)
    requires Ordered(log, now) && i < |log|
    ensures Ordered(log[..i + 1], log[i])
  {
    if i == |log| - 1 {
      assert log[..i + 1] == log;
    } else {
      OrderedPrefix(Front(log), Last(log), i);
      assert Front(log)[..i + 1] == log[..i + 1];
    }
  }

  /** How many readings of a log are later than `cutoff`. */
  function CountAfter(log: seq<Time>, cutoff: Time): nat {
    if log == [] then 0 else CountAfter(Front(log), cutoff) + if Last(log) > cutoff then 1 else 0
  }

  lemma CountAfterAppend(log: seq<Time>, t: Time, cutoff: Time)
    ensures CountAfter(log + [t], cutoff) == CountAfter(log, cutoff) + if t > cutoff then 1 else 0
  {
    assert Front(log + [t]) == log;
  }

  lemma {:induction false} CountAfterDropFirst(log: seq<Time>, cutoff: Time)
    requires log != []
    ensures CountAfter(log, cutoff) == CountAfter(log[1..], cutoff) + if log[0] > cutoff then 1 else 0
  {
    if |log| > 1 {
      CountAfterDropFirst(Front(log), cutoff);
      assert Front(log[1..]) == Front(log)[1..];
    }
  }

  /** Once the oldest reading of a log counts, all of them do. */
  lemma {:induction false} CountAfterAll(log: seq<Time>, now: Time, cutoff: Time)
    requires Ordered(log, now)
    requires log != [] ==> log[0] > cutoff
    ensures CountAfter(log, cutoff) == |log|
  {
    if log != [] {
      OrderedIndex(log, now, 0, |log| - 1);
      CountAfterAll(Front(log), Last(log), cutoff);
    }
  }

  lemma {:induction false} CountAfterBound(log: seq<Time>, cutoff: Time)
    ensures CountAfter(log, cutoff) <= |log|
  {
    if log != [] {
      CountAfterBound(Front(log), cutoff);
    }
  }

  /** A later cutoff counts no more readings. */
  lemma {:induction false} CountAfterAntitone(log: seq<Time>, lo: Time, hi: Time)
    requires lo <= hi
    ensures CountAfter(log, hi) <= CountAfter(log, lo)
  {
    if log != [] {
      CountAfterAntitone(Front(log), lo, hi);
    }
  }

  lemma OrderedLater(log: seq<Time>, now: Time, t: Time)
    requires Ordered(log, now) && now <= t
    ensures Ordered(log, t)
  {
  }

  /** How many readings lie after `lo` and not after `hi`. */
  function CountIn(log: seq<Time>, lo: Time, hi: Time): nat {
    if log == [] then 0 else CountIn(Front(log), lo, hi) + if lo < Last(log) <= hi then 1 else 0
  }

  lemma {:induction false} CountInAll(log: seq<Time>, now: Time, lo: Time)
    requires Ordered(log, now)
    ensures CountIn(log, lo, now) == CountAfter(log, lo)
  {
    if log != [] {
      OrderedLater(Front(log), Last(log), now);
      CountInAll(Front(log), now, lo);
    }
  }
}

/** The order of strings by code points, as Python compares them. */
module Ordering {
  predicate StringLess(a: string, b: string) {
    b != [] && (a == [] || a[0] < b[0] || (a[0] == b[0] && StringLess(a[1..], b[1..])))
  }

  lemma {:induction false} StringLessTotal(a: string, b: string)
    ensures StringLess(a, b) || a == b || StringLess(b, a)
    ensures !(StringLess(a, b) && StringLess(b, a)) && !StringLess(a, a)
  {
    if a != [] {
      StringLessTotal(a[1..], a[1..]);
      if b != [] {
        StringLessTotal(a[1..], b[1..]);
        assert a == [a[0]] + a[1..] && b == [b[0]] + b[1..];
      }
    }
  }

  lemma {:induction false} StringLessTransitive(a: string, b: string, c: string)
    requires StringLess(a, b) && StringLess(b, c)
    ensures StringLess(a, c)
  {
    if a != [] && a[0] == b[0] && b[0] == c[0] {
      StringLessTransitive(a[1..], b[1..], c[1..]);
    }
  }

  /** The strings agree up to a place where the first ends or has the smaller character. */
  ghost predicate PartAt(a: string, b: string, k: nat) {
    k <= |a| && k < |b| && a[..k] == b[..k] && (k < |a| ==> a[k] < b[k])
  }

  lemma {:induction false} StringLessMeaning(a: string, b: string)
    ensures StringLess(a, b) <==> exists k: nat :: PartAt(a, b, k)
  {
    if b == [] {
    } else if a == [] || a[0] < b[0] {
      assert PartAt(a, b, 0);
    } else if a[0] == b[0] {
      StringLessMeaning(a[1..], b[1..]);
      if k: nat :| PartAt(a[1..], b[1..], k) {
        assert a[..k + 1] == [a[0]] + a[1..][..k] && b[..k + 1] == [b[0]] + b[1..][..k];
        assert PartAt(a, b, k + 1);
      }
      if k: nat :| PartAt(a, b, k) {
        assert a[1..][..k - 1] == a[..k][1..] && b[1..][..k - 1] == b[..k][1..];
        assert PartAt(a[1..], b[1..], k - 1);
      }
    } else {
      forall k: nat ensures !PartAt(a, b, k) {
        if 0 < k <= |a| && k < |b| {
          assert a[..k][0] == a[0] && b[..k][0] == b[0];
        }
      }
    }
  }
}
