/** The freshness rule of the dataset cache: a stored file may be reused while
    it is younger than a maximum age. Times are whole seconds of local wall-clock
    time, as the naive `datetime` values of the source are: both the file's
    modification time and the current time are read on the local clock. */
module Freshness {

  import opened Wrappers

  const SecondsPerDay: int := 86400

  /** The maximum age the dataset getters use: they never pass their own. */
  const DefaultMaxAgeDays: int := 7

  /** `now - mtime < timedelta(days=maxAgeDays)`: the comparison is strict, and
      a file whose time lies in the future is fresh. */
  predicate IsFresh(mtime: int, now: int, maxAgeDays: int) {
    now - mtime < maxAgeDays * SecondsPerDay
  }

  /** is_cache_valid: `mtime` is the modification time of the cache file, or
      None when the file does not exist. */
  predicate IsCacheValid(mtime: Option<int>, now: int, maxAgeDays: int := DefaultMaxAgeDays)
    ensures IsCacheValid(mtime, now, maxAgeDays) ==> mtime.Some? && now - mtime.value < maxAgeDays * SecondsPerDay
  {
    match mtime
    case None => false
    case Some(t) => IsFresh(t, now, maxAgeDays)
  }

  /** A missing file is never valid, whatever the clock and the maximum age. */
  lemma MissingNeverValid(now: int, maxAgeDays: int)
    ensures !IsCacheValid(None, now, maxAgeDays)
  {
  }

  /** A file is valid exactly while its age is below the maximum age. */
  lemma ValidIffYounger(mtime: int, now: int, maxAgeDays: int)
    ensures IsCacheValid(Some(mtime), now, maxAgeDays) <==> now - mtime < maxAgeDays * SecondsPerDay
  {
  }

  /** A file written at `now` is valid at `now` for any positive maximum age. */
  lemma FreshWhenJustWritten(t: int, maxAgeDays: int)
    requires maxAgeDays > 0
    ensures IsCacheValid(Some(t), t, maxAgeDays)
  {
  }

  /** The boundary is exclusive: at exactly the maximum age a file is stale. */
  lemma StaleAtMaxAge(t: int, maxAgeDays: int)
    ensures !IsCacheValid(Some(t), t + maxAgeDays * SecondsPerDay, maxAgeDays)
  {
  }

  /** Staleness is permanent as the clock moves forward, and freshness holds at
      every earlier moment. */
  lemma StaleStaysStale(t: int, now: int, later: int, maxAgeDays: int)
    requires now <= later
    ensures !IsFresh(t, now, maxAgeDays) ==> !IsFresh(t, later, maxAgeDays)
    ensures IsFresh(t, later, maxAgeDays) ==> IsFresh(t, now, maxAgeDays)
  {
  }
}
