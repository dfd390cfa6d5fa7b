/** The venue's identifiers, rendered as strings (internal/fix/engine.go, idMinter): every
    id a run mints is distinct, and no two runs started at different instants share one. */
module Ids {

  function Digit(d: nat): (c: char)
    requires d < 36
    ensures c != '-' && (d < 10 ==> c != 'x')
  {
    if d < 10 then '0' + d as char else 'a' + (d - 10) as char
  }

  /** strconv.FormatInt for a natural number. */
  function FormatNat(n: nat, base: nat): (s: string)
    requires 2 <= base <= 36
    ensures s != []
    ensures '-' !in s
    ensures base <= 10 ==> 'x' !in s
  {
    if n < base then [Digit(n)]
    else
      Smaller(n, base);
      FormatNat(n / base, base) + [Digit(n % base)]
  }

  lemma Smaller(n: nat, base: nat)
    requires 2 <= base <= n
    ensures 0 <= n / base < n && 0 <= n % base < base
  {
    assert n == n / base * base + n % base;
  }

  function FormatInt(n: int, base: nat): string
    requires 2 <= base <= 36
  {
    if n < 0 then "-" + FormatNat(-n, base) else FormatNat(n, base)
  }

  lemma DigitInjective(d: nat, e: nat)
    requires d < 36 && e < 36 && Digit(d) == Digit(e)
    ensures d == e
  {
  }

  lemma SameDigits(m: nat, n: nat, base: nat)
    requires base > 0 && m / base == n / base && m % base == n % base
    ensures m == n
  {
    assert m == m / base * base + m % base;
    assert n == n / base * base + n % base;
  }

  lemma LongForm(n: nat, base: nat)
    requires 2 <= base <= 36 && n >= base
    ensures var s := FormatNat(n, base);
            |s| > 1 && s[..|s| - 1] == FormatNat(n / base, base) && s[|s| - 1] == Digit(n % base)
  {
  }

  lemma {:induction false} FormatNatInjective(m: nat, n: nat, base: nat)
    requires 2 <= base <= 36 && FormatNat(m, base) == FormatNat(n, base)
    ensures m == n
    decreases |FormatNat(m, base)|
  {
    if m >= base {
      LongForm(m, base);
    } else {
      ShortForm(m, base);
    }
    if n >= base {
      LongForm(n, base);
    } else {
      ShortForm(n, base);
    }
    if m < base && n < base {
      DigitInjective(m, n);
    } else if m >= base && n >= base {
      DigitInjective(m % base, n % base);
      FormatNatInjective(m / base, n / base, base);
      SameDigits(m, n, base);
    }
  }

  lemma ShortForm(n: nat, base: nat)
    requires 2 <= base <= 36 && n < base
    ensures |FormatNat(n, base)| == 1 && FormatNat(n, base)[0] == Digit(n)
  {
  }

  lemma SignsDiffer(m: int, n: int, base: nat)
    requires 2 <= base <= 36 && m < 0 <= n
    ensures FormatInt(m, base) != FormatInt(n, base)
  {
    assert FormatInt(m, base)[0] == '-';
    assert FormatInt(n, base)[0] in FormatNat(n, base);
  }

  lemma FormatIntInjective(m: int, n: int, base: nat)
    requires 2 <= base <= 36 && FormatInt(m, base) == FormatInt(n, base)
    ensures m == n
  {
    if m < 0 && n < 0 {
      assert FormatInt(m, base)[1..] == FormatNat(-m, base);
      assert FormatInt(n, base)[1..] == FormatNat(-n, base);
      FormatNatInjective(-m, -n, base);
    } else if m >= 0 && n >= 0 {
      FormatNatInjective(m, n, base);
    } else if m < 0 {
      SignsDiffer(m, n, base);
    } else {
      SignsDiffer(n, m, base);
    }
  }

  /** The two shapes of an execution id: a report that belongs to no order's own sequence,
      and the k-th report of one order. */
  datatype Stamp = Counted(n: nat) | OfOrder(serial: nat, k: nat)

  function RunOf(start: int): string { FormatInt(start, 36) }

  function OrderId(start: int, serial: nat): string {
    "SIMV-" + RunOf(start) + "-" + FormatNat(serial, 10)
  }

  function Tail(stamp: Stamp): string {
    match stamp
    case Counted(n) => "x" + FormatNat(n, 10)
    case OfOrder(serial, k) => FormatNat(serial, 10) + "-" + FormatNat(k, 10)
  }

  function ExecId(start: int, stamp: Stamp): (id: string)
    ensures id != ""
  {
    match stamp
    case Counted(_) => "SIMV-" + RunOf(start) + "-" + Tail(stamp)
    case OfOrder(serial, k) => OrderId(start, serial) + "-" + FormatNat(k, 10)
  }

  lemma DashesDiffer(a: string, b: string, c: string, d: string)
    requires '-' !in c && |a| < |c|
    ensures a + "-" + b != c + "-" + d
  {
    assert (a + "-" + b)[|a|] == '-';
    assert (c + "-" + d)[|a|] == c[|a|] && c[|a|] in c;
  }

  /** Two strings cut at their first dash have the same pieces. */
  lemma SplitAtDash(a: string, b: string, c: string, d: string)
    requires a + "-" + b == c + "-" + d && '-' !in a && '-' !in c
    ensures a == c && b == d
  {
    var s := a + "-" + b;
    if |a| < |c| {
      DashesDiffer(a, b, c, d);
    } else if |c| < |a| {
      DashesDiffer(c, d, a, b);
    } else {
      assert a == s[..|a|] == c;
      assert b == s[|a| + 1..] == d;
    }
  }

  lemma ShapesDiffer(n: nat, serial: nat, k: nat)
    ensures Tail(Counted(n)) != Tail(OfOrder(serial, k))
  {
    assert Tail(Counted(n))[0] == 'x';
    assert Tail(OfOrder(serial, k))[0] in FormatNat(serial, 10);
  }

  lemma TailInjective(s: Stamp, t: Stamp)
    requires Tail(s) == Tail(t)
    ensures s == t
  {
    match (s, t)
    case (Counted(m), Counted(n)) =>
      assert Tail(s)[1..] == FormatNat(m, 10) && Tail(t)[1..] == FormatNat(n, 10);
      FormatNatInjective(m, n, 10);
    case (OfOrder(a, j), OfOrder(b, k)) =>
      SplitAtDash(FormatNat(a, 10), FormatNat(j, 10), FormatNat(b, 10), FormatNat(k, 10));
      FormatNatInjective(a, b, 10);
      FormatNatInjective(j, k, 10);
    case (Counted(m), OfOrder(b, k)) => ShapesDiffer(m, b, k);
    case (OfOrder(a, j), Counted(n)) => ShapesDiffer(n, a, j);
  }

  lemma ExecIdShape(start: int, stamp: Stamp)
    ensures ExecId(start, stamp) == "SIMV-" + (RunOf(start) + "-" + Tail(stamp))
  {
    if stamp.OfOrder? {
      var s, k := FormatNat(stamp.serial, 10), FormatNat(stamp.k, 10);
      assert OrderId(start, stamp.serial) + "-" + k == "SIMV-" + (RunOf(start) + "-" + (s + "-" + k));
    } else {
      assert ExecId(start, stamp) == "SIMV-" + (RunOf(start) + "-" + Tail(stamp));
    }
  }

  /** A rendered execution id determines the run that minted it and the report it names. */
  lemma ExecIdInjective(start: int, s: Stamp, start': int, t: Stamp)
    requires ExecId(start, s) == ExecId(start', t)
    ensures start == start' && s == t
  {
    ExecIdShape(start, s);
    ExecIdShape(start', t);
    var x, y := RunOf(start) + "-" + Tail(s), RunOf(start') + "-" + Tail(t);
    assert x == ("SIMV-" + x)[5..] && y == ("SIMV-" + y)[5..];
    RunsAgree(start, Tail(s), start', Tail(t));
    TailInjective(s, t);
  }

  lemma RunSignsDiffer(start: int, a: string, start': int, b: string)
    requires start < 0 <= start'
    ensures RunOf(start) + "-" + a != RunOf(start') + "-" + b
  {
    assert (RunOf(start) + "-" + a)[0] == '-';
    assert (RunOf(start') + "-" + b)[0] == RunOf(start')[0] && RunOf(start')[0] in FormatNat(start', 36);
  }

  lemma RunsAgree(start: int, a: string, start': int, b: string)
    requires RunOf(start) + "-" + a == RunOf(start') + "-" + b
    ensures start == start' && a == b
  {
    var m, n := RunOf(start), RunOf(start');
    if start >= 0 && start' >= 0 {
      SplitAtDash(m, a, n, b);
    } else if start < 0 && start' < 0 {
      assert m + "-" + a == "-" + (FormatNat(-start, 36) + "-" + a);
      assert n + "-" + b == "-" + (FormatNat(-start', 36) + "-" + b);
      assert (m + "-" + a)[1..] == FormatNat(-start, 36) + "-" + a;
      assert (n + "-" + b)[1..] == FormatNat(-start', 36) + "-" + b;
      SplitAtDash(FormatNat(-start, 36), a, FormatNat(-start', 36), b);
    } else if start < 0 {
      RunSignsDiffer(start, a, start', b);
    } else {
      RunSignsDiffer(start', b, start, a);
    }
    FormatIntInjective(start, start', 36);
  }
}
