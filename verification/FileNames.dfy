/** Names of log files and their order.

    The writer names its n-th file with fmt.Sprintf("wal-%06d.log", n) and the reader
    puts names in byte order (pkg/wal/wal.go).  `SortsNumerically` says exactly how
    long that is the order in which the files were written.
 */
module FileNames {

  // ---------- byte order on strings ----------

  predicate Less(a: string, b: string) {
    if b == "" then false
    else if a == "" then true
    else a[0] < b[0] || (a[0] == b[0] && Less(a[1..], b[1..]))
  }

  lemma {:induction false} LessTotal(a: string, b: string)
    ensures Less(a, b) || a == b || Less(b, a)
    decreases |a|
  {
    if a != "" && b != "" {
      LessTotal(a[1..], b[1..]);
      assert a == [a[0]] + a[1..] && b == [b[0]] + b[1..];
    }
  }

  lemma {:induction false} LessTransitive(a: string, b: string, c: string)
    requires Less(a, b) && Less(b, c)
    ensures Less(a, c)
    decreases |a|
  {
    if a != "" && a[0] == b[0] == c[0] { LessTransitive(a[1..], b[1..], c[1..]); }
  }

  lemma {:induction false} LessIrreflexive(a: string)
    ensures !Less(a, a)
    decreases |a|
  {
    if a != "" { LessIrreflexive(a[1..]); }
  }

  lemma {:induction false} LessPrefixed(p: string, a: string, b: string)
    ensures Less(p + a, p + b) <==> Less(a, b)
    decreases |p|
  {
    if p == "" {
      assert p + a == a && p + b == b;
    } else {
      LessPrefixed(p[1..], a, b);
      assert (p + a)[1..] == p[1..] + a && (p + b)[1..] == p[1..] + b;
    }
  }

  lemma {:induction false} LessExtended(a: string, b: string, s: string, t: string)
    requires |a| == |b| && (Less(a, b) || (a == b && Less(s, t)))
    ensures Less(a + s, b + t)
    decreases |a|
  {
    if a == "" {
      assert a + s == s && b + t == t;
    } else {
      assert (a + s)[1..] == a[1..] + s && (b + t)[1..] == b[1..] + t;
      if a[0] == b[0] { LessExtended(a[1..], b[1..], s, t); }
    }
  }

  // ---------- decimal numbers ----------

  function Digit(d: nat): char
    requires d < 10
  {
    '0' + d as char
  }

  function Power10(w: nat): nat {
    if w == 0 then 1 else 10 * Power10(w - 1)
  }

  /** n in `width` decimal digits, leading zeros included. */
  function Fixed(n: nat, width: nat): (s: string)
    ensures |s| == width
  {
    if width == 0 then "" else Fixed(n / 10, width - 1) + [Digit(n % 10)]
  }

  function Width(n: nat): (w: nat)
    ensures w >= 1 && n < Power10(w)
  {
    if n < 10 then 1 else 1 + Width(n / 10)
  }

  function Parse(s: string): nat {
    if s == "" then 0
    else
      var c := s[|s| - 1];
      10 * Parse(s[..|s| - 1]) + (if '0' <= c <= '9' then (c - '0') as nat else 0)
  }

  lemma {:induction false} ParseFixed(n: nat, width: nat)
    requires n < Power10(width)
    ensures Parse(Fixed(n, width)) == n
    decreases width
  {
    if width > 0 {
      ParseFixed(n / 10, width - 1);
      assert Fixed(n, width)[..width - 1] == Fixed(n / 10, width - 1);
    }
  }

  lemma {:induction false} FixedOrder(a: nat, b: nat, width: nat)
    requires a < b < Power10(width)
    ensures Less(Fixed(a, width), Fixed(b, width))
    decreases width
  {
    if a / 10 < b / 10 {
      FixedOrder(a / 10, b / 10, width - 1);
    }
    LessExtended(Fixed(a / 10, width - 1), Fixed(b / 10, width - 1), [Digit(a % 10)], [Digit(b % 10)]);
  }

  // ---------- numbers after a separator ----------

  lemma {:induction false} DigitsOnly(n: nat, width: nat, c: char)
    requires c < '0'
    ensures c !in Fixed(n, width)
    decreases width
  {
    if width > 0 { DigitsOnly(n / 10, width - 1, c); }
  }

  lemma SameTail(p: string, a: string, b: string)
    requires p + a == p + b
    ensures a == b
  {
    assert a == (p + a)[|p|..] == b;
  }

  /** Strings split at their last separator in one way only. */
  lemma SplitAtLast(c: char, p: string, x: string, q: string, y: string)
    requires p + [c] + x == q + [c] + y && c !in x && c !in y
    ensures p == q && x == y
  {
    SeparatorBefore(c, p, x, q, y);
    SeparatorBefore(c, q, y, p, x);
    var s := p + [c] + x;
    assert x == s[|s| - |x|..] == y;
    assert p == s[..|s| - |x| - 1] == q;
  }

  lemma SeparatorBefore(c: char, p: string, x: string, q: string, y: string)
    requires p + [c] + x == q + [c] + y && c !in y
    ensures |x| >= |y|
  {
    var s := p + [c] + x;
    assert s[|s| - |x| - 1] == c;
    assert forall m :: |s| - |y| <= m < |s| ==> s[m] == y[m - (|s| - |y|)];
  }

  // ---------- file names ----------

  const FIRST_LONG_NAME := 1_000_000

  function Digits(n: nat): string {
    Fixed(n, if n < FIRST_LONG_NAME then 6 else Width(n))
  }

  function FileName(n: nat): string {
    "wal-" + Digits(n) + ".log"
  }

  /** fileSeqOf in scheduler/internal/server/sync.go. */
  function FileSeqOf(name: string): nat {
    if |name| < 8 then 0 else Parse(name[4..|name| - 4])
  }

  lemma Power10Of6()
    ensures Power10(6) == FIRST_LONG_NAME
  {
    assert Power10(3) == 1000;
  }

  lemma FileSeqOfName(n: nat)
    ensures FileSeqOf(FileName(n)) == n
  {
    Power10Of6();
    var name := FileName(n);
    assert name[4..|name| - 4] == Digits(n);
    ParseFixed(n, if n < FIRST_LONG_NAME then 6 else Width(n));
  }

  lemma FirstName()
    ensures FileName(1) == "wal-000001.log"
  {
    assert Fixed(1, 6) == "000001";
  }

  lemma NameOrder(a: nat, b: nat)
    requires a < b < FIRST_LONG_NAME
    ensures Less(FileName(a), FileName(b))
  {
    Power10Of6();
    FixedOrder(a, b, 6);
    LessExtended(Digits(a), Digits(b), ".log", ".log");
    assert FileName(a) == "wal-" + (Digits(a) + ".log") && FileName(b) == "wal-" + (Digits(b) + ".log");
    LessPrefixed("wal-", Digits(a) + ".log", Digits(b) + ".log");
  }

  /** The first seven-digit name sorts before the last six-digit one. */
  lemma LongNameOvertakes()
    ensures Less(FileName(1_000_000), FileName(999_999))
  {
    var a, b := Digits(1_000_000), Digits(999_999);
    assert a[0] == '1' by { LeadingDigit(1_000_000, 7, 1); }
    assert b[0] == '9' by { LeadingDigit(999_999, 6, 9); }
    assert Less(a + ".log", b + ".log");
    assert FileName(1_000_000) == "wal-" + (a + ".log") && FileName(999_999) == "wal-" + (b + ".log");
    LessPrefixed("wal-", a + ".log", b + ".log");
  }

  lemma {:induction false} LeadingDigit(n: nat, width: nat, d: nat)
    requires width >= 1 && d < 10 && d * Power10(width - 1) <= n < (d + 1) * Power10(width - 1)
    ensures Fixed(n, width)[0] == Digit(d)
    decreases width
  {
    if width > 1 {
      var p := Power10(width - 2);
      var t := d * p;
      assert d * (10 * p) == 10 * t && (d + 1) * (10 * p) == 10 * t + 10 * p && (d + 1) * p == t + p;
      LeadingDigit(n / 10, width - 1, d);
    }
  }

  /** Byte order is writing order for n files exactly below a million of them. */
  lemma SortsNumerically(n: nat)
    ensures (forall a, b :: 1 <= a < b <= n ==> Less(FileName(a), FileName(b))) <==> n < FIRST_LONG_NAME
  {
    if n < FIRST_LONG_NAME {
      forall a, b | 1 <= a < b <= n
        ensures Less(FileName(a), FileName(b))
      {
        NameOrder(a, b);
      }
    } else {
      LongNameOvertakes();
      LessAsymmetric(FileName(1_000_000), FileName(999_999));
    }
  }

  lemma LessAsymmetric(a: string, b: string)
    requires Less(a, b)
    ensures !Less(b, a)
  {
    if Less(b, a) {
      LessTransitive(a, b, a);
      LessIrreflexive(a);
    }
  }

  // ---------- sorting a directory ----------

  ghost predicate Ascending(s: seq<string>) {
    forall i, j :: 0 <= i < j < |s| ==> Less(s[i], s[j])
  }

  /** sort.Strings on the distinct names of a directory. */
  method Sorted(names: set<string>) returns (s: seq<string>)
    ensures Ascending(s) && forall x :: x in s <==> x in names
  {
    s := [];
    var rest := names;
    while rest != {}
      invariant Ascending(s) && rest <= names
      invariant forall x :: x in names <==> x in s || x in rest
      invariant forall x, y :: x in s && y in rest ==> Less(x, y)
      decreases rest
    {
      var least := Least(rest);
      rest := rest - {least};
      s := s + [least];
    }
  }

  method Least(names: set<string>) returns (least: string)
    requires names != {}
    ensures least in names && forall x :: x in names && x != least ==> Less(least, x)
  {
    least :| least in names;
    var rest := names - {least};
    while rest != {}
      invariant least in names && rest <= names
      invariant forall x :: x in names && x != least ==> x in rest || Less(least, x)
      decreases rest
    {
      var y :| y in rest;
      rest := rest - {y};
      LessTotal(least, y);
      if Less(y, least) {
        forall x | x in names && Less(least, x)
          ensures Less(y, x)
        {
          LessTransitive(y, least, x);
        }
        least := y;
      }
    }
  }
}
