/** Key derivation of the dataset cache: a dataset kind and a list of years
    become the name of the pickle file that holds that dataset. */
module CacheKey {

  /** The period a list of years is filed under: the year itself when the list
      has one element, the range from its least to its greatest year otherwise. */
  datatype Period = Single(year: int) | Span(lo: int, hi: int)

  /** Python's `min` over a non-empty list of years. */
  function Min(years: seq<int>): (m: int)
    requires |years| > 0
    ensures m in years
    ensures forall y :: y in years ==> m <= y
  {
    if |years| == 1 then years[0]
    else
      var rest := Min(years[1..]);
      assert years == [years[0]] + years[1..];
      if years[0] <= rest then years[0] else rest
  }

  /** Python's `max` over a non-empty list of years. */
  function Max(years: seq<int>): (m: int)
    requires |years| > 0
    ensures m in years
    ensures forall y :: y in years ==> y <= m
  {
    if |years| == 1 then years[0]
    else
      var rest := Max(years[1..]);
      assert years == [years[0]] + years[1..];
      if rest < years[0] then years[0] else rest
  }

  predicate IsDigit(c: char) {
    '0' <= c <= '9'
  }

  function DigitChar(d: nat): (c: char)
    requires d < 10
    ensures IsDigit(c)
  {
    ('0' as int + d) as char
  }

  /** The number a string of decimal digits spells, most significant first. */
  function DigitsValue(s: string): int {
    if s == [] then 0 else DigitsValue(s[..|s| - 1]) * 10 + (s[|s| - 1] as int - '0' as int)
  }

  /** Decimal digits of a natural number: they spell the number, and only
      zero itself starts with a zero. */
  function NatDigits(n: nat): (s: string)
    ensures |s| > 0
    ensures forall i :: 0 <= i < |s| ==> IsDigit(s[i])
    ensures DigitsValue(s) == n
    ensures s[0] == '0' ==> s == "0"
  {
    if n < 10 then
      [DigitChar(n)]
    else
      var prefix := NatDigits(n / 10);
      var s := prefix + [DigitChar(n % 10)];
      assert s[..|s| - 1] == prefix;
      s
  }

  /** Python's `str` on an int: a minus sign for negative numbers, then the
      digits of the magnitude without leading zeros. */
  function IntText(x: int): (s: string)
    ensures |s| > 0
    ensures s[0] == '-' <==> x < 0
    ensures x >= 0 ==> IsDigit(s[0])
    ensures forall i :: 0 < i < |s| ==> IsDigit(s[i])
    ensures x >= 0 ==> DigitsValue(s) == x && (s[0] == '0' ==> s == "0")
    ensures x < 0 ==> DigitsValue(s[1..]) == -x && s[1] != '0'
  {
    if x < 0 then
      var s := "-" + NatDigits(-x);
      assert s[1..] == NatDigits(-x);
      s
    else
      NatDigits(x)
  }

  /** The period descriptor of get_cache_path: `len(years) > 1` decides,
      so a repeated single year is still a range. */
  function PeriodOf(years: seq<int>): (p: Period)
    requires |years| > 0
    ensures p.Single? <==> |years| == 1
    ensures p.Single? ==> p.year == years[0]
    ensures p.Span? ==> p.lo in years && p.hi in years && forall y :: y in years ==> p.lo <= y <= p.hi
  {
    if |years| > 1 then Span(Min(years), Max(years)) else Single(years[0])
  }

  function PeriodText(p: Period): (t: string)
    ensures |t| > 0 && '_' !in t
  {
    match p
    case Single(y) => IntText(y)
    case Span(lo, hi) =>
      var t := IntText(lo) + "-" + IntText(hi);
      assert forall i :: 0 <= i < |t| ==> t[i] == '-' || IsDigit(t[i]) by {
        forall i | 0 <= i < |t| ensures t[i] == '-' || IsDigit(t[i]) {
          if i < |IntText(lo)| {
            assert t[i] == IntText(lo)[i];
          } else if i > |IntText(lo)| {
            assert t[i] == IntText(hi)[i - |IntText(lo)| - 1];
          }
        }
      }
      t
  }

  /** The cache file name `{kind}_{period}.pkl` inside the cache directory:
      the kind, an underscore, then a descriptor without underscores, then
      the extension. */
  function CacheFileName(kind: string, years: seq<int>): (name: string)
    requires |years| > 0
    ensures |name| > |kind| + 4
    ensures name[..|kind|] == kind && name[|kind|] == '_'
    ensures name[|name| - 4..] == ".pkl"
    ensures forall i :: |kind| < i < |name| ==> name[i] != '_'
  {
    var t := PeriodText(PeriodOf(years));
    Framed(kind, t);
    kind + "_" + t + ".pkl"
  }

  /** The layout of `kind + "_" + t + ".pkl"` for a descriptor `t` without
      underscores. */
  lemma Framed(kind: string, t: string)
    requires '_' !in t
    ensures var name := kind + "_" + t + ".pkl";
      |name| == |kind| + |t| + 5 &&
      name[..|kind|] == kind && name[|kind|] == '_' &&
      name[|name| - 4..] == ".pkl" &&
      forall i :: |kind| < i < |name| ==> name[i] != '_'
  {
    var head := kind + "_";
    var name := head + t + ".pkl";
    assert name[..|kind|] == kind;
    assert name[|name| - 4..] == ".pkl";
    forall i | |kind| < i < |name| ensures name[i] != '_' {
      if i < |head| + |t| {
        assert name[i] == t[i - |head|];
      } else {
        assert name[i] == ".pkl"[i - |head| - |t|];
      }
    }
  }

  /** A one-year list is filed under that year alone. */
  lemma SingleYearName(kind: string, y: int)
    ensures CacheFileName(kind, [y]) == kind + "_" + IntText(y) + ".pkl"
  {
  }

  /** A longer list is filed under its least and greatest year. */
  lemma RangeName(kind: string, years: seq<int>)
    requires |years| > 1
    ensures CacheFileName(kind, years) == kind + "_" + IntText(Min(years)) + "-" + IntText(Max(years)) + ".pkl"
  {
    var lo, hi := IntText(Min(years)), IntText(Max(years));
    var prefix := kind + "_";
    assert PeriodText(PeriodOf(years)) == lo + "-" + hi;
    Regroup(prefix, lo + "-", hi);
    Regroup(prefix, lo, "-");
  }

  lemma Regroup(a: string, b: string, c: string)
    ensures a + (b + c) == a + b + c
  {
  }

  /** Lists of more than one year with the same least and greatest year share a
      file, whatever years lie between. */
  lemma SameRangeSameName(kind: string, a: seq<int>, b: seq<int>)
    requires |a| > 1 && |b| > 1
    requires Min(a) == Min(b) && Max(a) == Max(b)
    ensures CacheFileName(kind, a) == CacheFileName(kind, b)
  {
  }

  lemma {:induction false} DigitCharInjective(a: nat, b: nat)
    requires a < 10 && b < 10
    requires DigitChar(a) == DigitChar(b)
    ensures a == b
  {
    assert DigitChar(a) as int == '0' as int + a;
    assert DigitChar(b) as int == '0' as int + b;
  }

  /** Different numbers have different decimal texts. */
  lemma {:induction false} NatDigitsInjective(a: nat, b: nat)
    requires NatDigits(a) == NatDigits(b)
    ensures a == b
  {
    var s := NatDigits(a);
    if a < 10 && b < 10 {
      DigitCharInjective(a, b);
    } else if a >= 10 && b >= 10 {
      var n := |s| - 1;
      assert s[..n] == NatDigits(a / 10) && s[..n] == NatDigits(b / 10);
      NatDigitsInjective(a / 10, b / 10);
      assert s[n] == DigitChar(a % 10) && s[n] == DigitChar(b % 10);
      DigitCharInjective(a % 10, b % 10);
    }
  }

  lemma {:induction false} IntTextInjective(a: int, b: int)
    requires IntText(a) == IntText(b)
    ensures a == b
  {
    if a < 0 {
      assert b < 0;
      assert IntText(a)[1..] == NatDigits(-a) && IntText(b)[1..] == NatDigits(-b);
      NatDigitsInjective(-a, -b);
    } else {
      assert b >= 0;
      NatDigitsInjective(a, b);
    }
  }

  /** In `a + [sep] + b`, where `a` is non-empty and has no separator after its
      first character, the separator at index `|a|` is the first one after
      index 0. */
  lemma SeparatorIsFirst(a: string, b: string, sep: char)
    requires |a| > 0
    requires forall i :: 0 < i < |a| ==> a[i] != sep
    ensures (a + [sep] + b)[|a|] == sep
    ensures forall i :: 0 < i < |a| ==> (a + [sep] + b)[i] != sep
  {
    var s := a + [sep] + b;
    forall i | 0 < i < |a| ensures s[i] != sep {
      assert s[i] == a[i];
    }
  }

  /** Splitting `a + [sep] + b` is unique when neither `a` nor `c` contains the
      separator after their first character. */
  lemma SplitAtFirst(a: string, b: string, c: string, d: string, sep: char)
    requires a + [sep] + b == c + [sep] + d
    requires |a| > 0 && |c| > 0
    requires forall i :: 0 < i < |a| ==> a[i] != sep
    requires forall i :: 0 < i < |c| ==> c[i] != sep
    ensures a == c && b == d
  {
    var s := a + [sep] + b;
    SeparatorIsFirst(a, b, sep);
    SeparatorIsFirst(c, d, sep);
    assert |a| == |c|;
    assert a == s[..|a|] == c;
    assert b == s[|a| + 1..] == d;
  }

  /** A single year's text never reads as a range: a range has a dash after
      its first character, a year's text does not. */
  lemma SingleIsNotSpan(y: int, lo: int, hi: int)
    ensures PeriodText(Single(y)) != PeriodText(Span(lo, hi))
  {
    var t := PeriodText(Span(lo, hi));
    assert t[|IntText(lo)|] == '-';
  }

  /** Different periods have different descriptors; in particular a single
      year and the range from that year to itself differ. */
  lemma {:induction false} PeriodTextInjective(p: Period, q: Period)
    requires PeriodText(p) == PeriodText(q)
    ensures p == q
  {
    if p.Single? && q.Single? {
      IntTextInjective(p.year, q.year);
    } else if p.Span? && q.Span? {
      SplitAtFirst(IntText(p.lo), IntText(p.hi), IntText(q.lo), IntText(q.hi), '-');
      IntTextInjective(p.lo, q.lo);
      IntTextInjective(p.hi, q.hi);
    } else if p.Single? {
      SingleIsNotSpan(p.year, q.lo, q.hi);
    } else {
      SingleIsNotSpan(q.year, p.lo, p.hi);
    }
  }

  /** The file name determines the dataset kind and the period, even when the
      kind itself contains underscores: the file name is injective in
      (kind, least year, greatest year) for ranges and in (kind, year) for a
      single year. */
  lemma NameInjective(kind1: string, years1: seq<int>, kind2: string, years2: seq<int>)
    requires |years1| > 0 && |years2| > 0
    requires CacheFileName(kind1, years1) == CacheFileName(kind2, years2)
    ensures kind1 == kind2 && PeriodOf(years1) == PeriodOf(years2)
  {
    var name := CacheFileName(kind1, years1);
    // The underscore after the kind is the last one in the name.
    assert name[|kind1|] == '_' && name[|kind2|] == '_';
    assert |kind1| == |kind2|;
    assert kind1 == name[..|kind1|] == kind2;
    var t1, t2 := PeriodText(PeriodOf(years1)), PeriodText(PeriodOf(years2));
    assert name == kind1 + "_" + t1 + ".pkl" == kind2 + "_" + t2 + ".pkl";
    assert |t1| == |t2|;
    assert t1 == name[|kind1| + 1..|name| - 4] == t2;
    PeriodTextInjective(PeriodOf(years1), PeriodOf(years2));
  }

  /** `[y, y]` is filed as the range `y-y`, not as the single year `y`. */
  lemma RepeatedYearIsRange(kind: string, y: int)
    ensures CacheFileName(kind, [y, y]) != CacheFileName(kind, [y])
  {
    if CacheFileName(kind, [y, y]) == CacheFileName(kind, [y]) {
      NameInjective(kind, [y, y], kind, [y]);
    }
  }
}
