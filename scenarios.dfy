/** Concrete uses of the dataset cache, and a client that shows what two
    consecutive getter calls on one data manager amount to. */
module Scenarios {

  import opened Wrappers
  import opened CacheKey
  import opened Freshness
  import opened Cache

  lemma DigitChars()
    ensures DigitChar(0) == '0' && DigitChar(2) == '2' && DigitChar(4) == '4'
  {
  }

  lemma YearTexts()
    ensures IntText(2020) == "2020" && IntText(2022) == "2022" && IntText(2024) == "2024"
  {
    DigitChars();
    assert NatDigits(2) == "2";
    assert NatDigits(20) == "20";
    assert NatDigits(202) == "202";
    assert NatDigits(2020) == "2020";
    assert NatDigits(2022) == "2022";
    assert NatDigits(2024) == "2024";
  }

  lemma WeeklyRange()
    ensures Min([2022, 2023, 2024]) == 2022 && Max([2022, 2023, 2024]) == 2024
  {
    assert [2022, 2023, 2024][1..] == [2023, 2024];
    assert [2023, 2024][1..] == [2024];
  }

  /** Three seasons of weekly data are filed under their first and last year. */
  lemma WeeklyFileName()
    ensures CacheFileName(WeeklyKind, [2022, 2023, 2024]) == "weekly_2022-2024.pkl"
  {
    var years := [2022, 2023, 2024];
    WeeklyRange();
    YearTexts();
    RangeName(WeeklyKind, years);
    Spelled(WeeklyKind, IntText(Min(years)), IntText(Max(years)));
  }

  lemma Spelled(kind: string, lo: string, hi: string)
    requires kind == "weekly" && lo == "2022" && hi == "2024"
    ensures kind + "_" + lo + "-" + hi + ".pkl" == "weekly_2022-2024.pkl"
  {
  }

  /** One draft year is filed under that year. */
  lemma DraftFileName()
    ensures CacheFileName(DraftKind, [2020]) == "draft_2020.pkl"
  {
    YearTexts();
    SingleYearName(DraftKind, 2020);
  }

  /** An empty cache: the weekly getter fetches once and files the result
      under `weekly_2022-2024.pkl`, stamped with the current time. */
  lemma WeeklyFromEmptyCache<P>(now: int, fetch: seq<int> -> Option<P>, p: P)
    requires fetch([2022, 2023, 2024]) == Some(p)
    ensures GetOrFetch(Dir(true, map[]), WeeklyKind, [2022, 2023, 2024], false, now, fetch)
         == GetOutcome(Ok(p), Dir(true, map["weekly_2022-2024.pkl" := Entry(Pickled(p), now)]), true)
  {
    WeeklyFileName();
  }

  /** A ten-day-old draft file is stale: the getter fetches again and
      overwrites it, leaving the other files alone. */
  lemma StaleDraftIsRefetched<P>(d: Dir<P>, now: int, stored: P, fetched: P, fetch: seq<int> -> Option<P>)
    requires d.present
    requires "draft_2020.pkl" in d.files
    requires d.files["draft_2020.pkl"] == Entry(Pickled(stored), now - 10 * SecondsPerDay)
    requires fetch([2020]) == Some(fetched)
    ensures GetOrFetch(d, DraftKind, [2020], false, now, fetch)
         == GetOutcome(Ok(fetched), Dir(true, d.files["draft_2020.pkl" := Entry(Pickled(fetched), now)]), true)
  {
    DraftFileName();
  }

  /** Two consecutive calls for the same dataset at the same moment: once the
      first has succeeded, the second is served from the cache, returns the
      same data, and the remote source has been called at most once. */
  method GetTwice<P>(m: DataManager<P>, kind: string, years: seq<int>, now: int,
                     fetch1: seq<int> -> Option<P>, fetch2: seq<int> -> Option<P>)
    returns (first: Result<P>, second: Result<P>)
    requires m.Valid()
    modifies m
    ensures m.Valid()
    ensures first.Ok? ==> second == first && |m.fetchLog| <= |old(m.fetchLog)| + 1
    ensures first.Ok? ==> m.State() == GetOrFetch(old(m.State()), kind, years, false, now, fetch1).after
  {
    ghost var d := m.State();
    first := m.GetData(kind, years, now, fetch1);
    second := m.GetData(kind, years, now, fetch2);
    if first.Ok? {
      SecondGetServedFromCache(d, kind, years, years, false, now, fetch1, fetch2);
    }
  }
}
