/** Sorting strings: the order in which simultaneous work is walked, so that a sequence of
    reports is reproducible (internal/fix/message.go, slicesSortByClOrdID). */
module Ordering {

  predicate Below(a: string, b: string) {
    if a == [] then b != []
    else if b == [] then false
    else a[0] < b[0] || (a[0] == b[0] && Below(a[1..], b[1..]))
  }

  lemma {:induction false} BelowTotal(a: string, b: string)
    ensures Below(a, b) || a == b || Below(b, a)
    ensures !(Below(a, b) && Below(b, a))
  {
    if a != [] && b != [] && a[0] == b[0] {
      BelowTotal(a[1..], b[1..]);
      assert a == [a[0]] + a[1..] && b == [b[0]] + b[1..];
    }
  }

  lemma {:induction false} BelowTransitive(a: string, b: string, c: string)
    requires Below(a, b) && Below(b, c)
    ensures Below(a, c)
  {
    if a != [] && a[0] == b[0] && b[0] == c[0] {
      BelowTransitive(a[1..], b[1..], c[1..]);
    }
  }

  /** Strictly increasing, and so without repetition. */
  predicate Increasing(s: seq<string>) {
    forall i, j :: 0 <= i < j < |s| ==> Below(s[i], s[j])
  }

  ghost predicate Enumerates(s: seq<string>, xs: set<string>) {
    Increasing(s) && forall x :: x in s <==> x in xs
  }

  lemma IncreasingIsDistinct(s: seq<string>)
    requires Increasing(s)
    ensures forall i, j :: 0 <= i < j < |s| ==> s[i] != s[j]
  {
    forall i, j | 0 <= i < j < |s|
      ensures s[i] != s[j]
    {
      BelowTotal(s[i], s[j]);
    }
  }

  method InsertInOrder(s: seq<string>, x: string) returns (t: seq<string>)
    requires Increasing(s) && x !in s
    ensures Increasing(t) && forall y :: y in t <==> y in s || y == x
  {
    var i := 0;
    while i < |s| && Below(s[i], x)
      invariant 0 <= i <= |s|
      invariant forall j :: 0 <= j < i ==> Below(s[j], x)
    {
      i := i + 1;
    }
    forall j | i <= j < |s|
      ensures Below(x, s[j])
    {
      BelowTotal(s[i], x);
      if i < j {
        BelowTransitive(x, s[i], s[j]);
      }
    }
    t := s[..i] + [x] + s[i..];
  }

  method Sorted(xs: set<string>) returns (s: seq<string>)
    ensures Enumerates(s, xs)
  {
    s := [];
    var rest := xs;
    while rest != {}
      invariant rest <= xs && Enumerates(s, xs - rest)
      decreases |rest|
    {
      var x :| x in rest;
      s := InsertInOrder(s, x);
      rest := rest - {x};
    }
  }

  lemma TheFirstIsIn(s: seq<string>)
    requires s != []
    ensures s[0] in s
  {
  }

  lemma EnumeratesNothing(s: seq<string>, xs: set<string>)
    requires Enumerates(s, xs) && xs == {}
    ensures s == []
  {
    if s != [] {
      TheFirstIsIn(s);
      assert false;
    }
  }

  /** There is only one order to walk a set in. */
  lemma {:induction false} EnumerationIsUnique(s: seq<string>, t: seq<string>, xs: set<string>)
    requires Enumerates(s, xs) && Enumerates(t, xs)
    ensures s == t
    decreases |s|
  {
    if s == [] {
      assert xs == {};
      EnumeratesNothing(t, xs);
    } else {
      assert s[0] in xs && s[0] in t;
      assert t[0] in xs && t[0] in s;
      FirstIsLeast(s, t[0]);
      FirstIsLeast(t, s[0]);
      BelowTotal(s[0], t[0]);
      IncreasingIsDistinct(s);
      IncreasingIsDistinct(t);
      var ys := xs - {s[0]};
      assert s == [s[0]] + s[1..] && t == [t[0]] + t[1..];
      assert Enumerates(s[1..], ys) && Enumerates(t[1..], ys);
      EnumerationIsUnique(s[1..], t[1..], ys);
    }
  }

  lemma FirstIsLeast(s: seq<string>, x: string)
    requires Increasing(s) && x in s
    ensures x == s[0] || Below(s[0], x)
  {
  }
}
