# NFL dataset cache, modelled in Dafny

This project models the on-disk dataset cache of `NFLDataManager` in
`nfl_data_manager.py`. The manager fetches NFL datasets (weekly player stats,
play-by-play, draft picks) from a remote source. It keeps each result as a
pickle file in a cache directory so that later sessions can reuse it.

- **Key derivation** (`CacheKey`). A dataset kind and a non-empty list of years
  give the file name `{kind}_{year}.pkl` when the list has one element. Otherwise
  they give `{kind}_{min}-{max}.pkl`. Python's `str` on integers is modelled
  exactly, including the minus sign. The model proves that the name determines
  the kind and the period. This holds even when the kind contains underscores.
  It also proves that `[y]` and `[y, y]` get different files. An empty list
  raises `IndexError` at `years[0]`; the getters return `Err(NoYears)` for it
  and change nothing.
- **Freshness** (`Freshness`). A file is valid when it exists and
  `now - mtime < max_age_days` days. Times are whole seconds and a day is 86400
  seconds of local wall-clock time, as the code's naive `datetime` values are.
  The getters always use the default of 7 days.
- **Get-or-fetch** (`Cache.GetOrFetch`, `Cache.DataManager.GetData` and the
  three getters). On a fresh hit without forced refresh, the stored file is
  unpickled and returned. Otherwise the remote fetcher is called once. Its
  result overwrites the file, stamped with the current time, and is returned.
- **Maintenance** (`Cache.DataManager.ListCachedFiles`, `ClearCache`). The
  listing walks the directory in Python's sorted string order
  (`NameOrder`). Clearing asks a y/N question when `confirm` is set. It then
  empties an existing directory and leaves a missing one alone.

The directory is the value `Dir(present, files)`: it says whether the
directory exists, and it maps each file name to its blob and modification time.
A blob is either a pickled payload or bytes that pickle cannot read back. The
payload is a type parameter, so a pickle round trip is the identity. The class
`Cache.DataManager` holds this state in fields. Its methods are proved equal to
the specification functions `GetOrFetch` and `ClearCacheSpec`. It also keeps a
ghost log of the remote calls, so fetch counts can be stated.

The remote fetcher is a parameter `fetch: seq<int> -> Option<P>`. It is the
`nfl_data_py` call of the dataset kind, with its other arguments bound (the
weekly `columns`, the play-by-play `include_participation=False`). `None`
stands for an exception from that call. The clock is a parameter `now`. The
answer typed at the prompt is a parameter `response`.

### Behaviour as the code has it

- A write that fails raises. The fetched data is then not returned. The only
  write failure modelled is a missing cache directory (`open(..., 'wb')`
  raises). A corrupt fresh file also raises (`Cache.CorruptFreshEntryFails`).
  It is not treated as a miss.
- `clear_cache` on a missing directory prints a message and creates nothing.
- The key ignores every fetch argument except the years. It also ignores the
  intermediate years. So a second call with other `columns`, or with
  `[2020, 2024]` after `[2020, 2022, 2024]`, is served the first call's data
  (`Cache.SecondGetServedFromCache`).
- A failed fetch is not remembered. The next call fetches again
  (`Cache.FailedFetchIsRetriedNextCall`).

## Model

| member | source | states |
|---|---|---|
| CacheKey.Min | nfl_data_manager.py:21 | `min(years)` is an element of the list and no element is below it |
| CacheKey.Max | nfl_data_manager.py:21 | `max(years)` is an element of the list and no element is above it |
| CacheKey.NatDigits | nfl_data_manager.py:21 | the decimal text of a natural number is all digits, spells that number (`DigitsValue`), and has no leading zero |
| CacheKey.IntText | nfl_data_manager.py:21 | `str` of a year starts with `-` exactly for negative years; the digits after it spell the magnitude, with no leading zero |
| CacheKey.PeriodOf | nfl_data_manager.py:21 | one year gives that year; more than one, even repeated, give the range from the least to the greatest element |
| CacheKey.PeriodText | nfl_data_manager.py:21 | the period descriptor is non-empty and has no underscore; `PeriodTextInjective` proves that different periods give different descriptors |
| CacheKey.CacheFileName | nfl_data_manager.py:19-22 | the name is the kind, an underscore, a descriptor without underscores and `.pkl`; `NameInjective` proves that the name determines kind and period |
| CacheKey.IntTextInjective | nfl_data_manager.py:21 | different years have different texts |
| CacheKey.SingleYearName | nfl_data_manager.py:21-22 | a one-year list is filed as `{kind}_{year}.pkl` |
| CacheKey.RangeName | nfl_data_manager.py:21-22 | a longer list is filed as `{kind}_{min}-{max}.pkl` |
| CacheKey.SameRangeSameName | nfl_data_manager.py:21 | two lists of more than one year with equal min and max share a file, whatever lies between |
| CacheKey.PeriodTextInjective | nfl_data_manager.py:21 | different periods have different descriptors; a single year never reads as a range |
| CacheKey.NameInjective | nfl_data_manager.py:21-22 | equal file names imply equal kinds and equal periods, even for kinds containing `_` |
| CacheKey.RepeatedYearIsRange | nfl_data_manager.py:21 | `[y, y]` is filed apart from `[y]`, because the length test decides the form |
| Freshness.IsCacheValid | nfl_data_manager.py:24-30 | valid implies the file exists and is younger than the maximum age; `ValidIffYounger` proves the converse |
| Freshness.MissingNeverValid | nfl_data_manager.py:26-27 | a file that does not exist is never valid |
| Freshness.ValidIffYounger | nfl_data_manager.py:29-30 | an existing file is valid exactly when `now - mtime` is below the maximum age |
| Freshness.FreshWhenJustWritten | nfl_data_manager.py:24-30 | a file is valid at its own write time for every positive maximum age |
| Freshness.StaleAtMaxAge | nfl_data_manager.py:24-30 | at exactly the maximum age a file is stale, because the comparison is strict |
| Freshness.StaleStaysStale | nfl_data_manager.py:29-30 | a stale file stays stale as time goes on, and a fresh file was fresh earlier |
| NameOrder.Less | nfl_data_manager.py:100 | Python's `<` on strings is irreflexive and puts a proper prefix first; `LessTransitive` and `LessTotal` make it a strict total order |
| NameOrder.LessTotal | nfl_data_manager.py:100 | Python's string order puts any two different names one before the other |
| NameOrder.Insert | nfl_data_manager.py:100 | inserting a new name into a sorted list keeps it sorted and adds exactly that name |
| NameOrder.Sort | nfl_data_manager.py:100 | `sorted` of distinct names is strictly increasing and holds the same names |
| NameOrder.SortedUnique | nfl_data_manager.py:100 | a set of names has exactly one strictly sorted arrangement |
| Cache.MtimeOf | nfl_data_manager.py:26-29 | a time exactly for the files that exist, and it is that file's modification time |
| Cache.Load | nfl_data_manager.py:38-39 | unpickling succeeds exactly on pickled content and gives the stored payload; otherwise it raises |
| Cache.Store | nfl_data_manager.py:45-46 | the written file holds the payload stamped `now`; every other file and the directory's existence are unchanged |
| Cache.GetOrFetch | nfl_data_manager.py:19-48 | fetches exactly when the years are non-empty and the refresh is forced or the file is not valid; without a fetch or on an error nothing changes; a success returns what the fetcher gave; an empty list fails with `NoYears` |
| Cache.StoreThenLoad | nfl_data_manager.py:36-48 | a file just written is fresh and unpickles to the payload written |
| Cache.GetFreshHit | nfl_data_manager.py:36-39 | fresh and not forced: the stored file's content is returned, no fetch, the directory is unchanged |
| Cache.GetMiss | nfl_data_manager.py:41-48 | forced, missing or stale: one fetch; on success the key's file becomes the payload stamped `now` and the payload is returned; on failure nothing is written and the error propagates |
| Cache.ForceRefreshFetches | nfl_data_manager.py:36 | a forced refresh always calls the fetcher |
| Cache.GetTouchesOnlyItsKey | nfl_data_manager.py:44-46 | a getter changes no file but its own and neither creates nor removes the directory |
| Cache.SecondGetServedFromCache | nfl_data_manager.py:32-48 | after a successful call, the same call at the same time, with any year list of the same period and any fetcher, returns the same data without fetching and changes nothing |
| Cache.FailedFetchIsRetriedNextCall | nfl_data_manager.py:41-42 | a failed fetch writes nothing, so the same call fetches again |
| Cache.EmptyYearsFails | nfl_data_manager.py:21 | an empty year list raises before anything is read or fetched, and the directory is unchanged |
| Cache.CorruptFreshEntryFails | nfl_data_manager.py:36-39 | a fresh file that pickle cannot read makes the getter fail without fetching |
| Cache.Confirms | nfl_data_manager.py:111-112 | a confirming answer is one character long; `ConfirmsIff` names the two answers |
| Cache.ClearCacheSpec | nfl_data_manager.py:108-122 | cancels exactly when asked and not confirmed; clears exactly when it proceeds and the directory exists, leaving it existing and empty; otherwise nothing changes |
| Cache.ConfirmsIff | nfl_data_manager.py:111-112 | the prompt proceeds exactly on the answers `y` and `Y` |
| Cache.ClearDeclinedChangesNothing | nfl_data_manager.py:110-114 | any other answer cancels and leaves the directory as it was |
| Cache.ClearEmpties | nfl_data_manager.py:116-122 | once it proceeds, an existing directory ends up existing and empty, a missing one stays missing, and clearing again changes nothing |
| Cache.ListsInOrder | nfl_data_manager.py:95-106 | a listing in sorted order is empty exactly when the directory has no files; `ListingIsUnique` proves there is only one |
| Cache.ListingIsUnique | nfl_data_manager.py:95-106 | a directory has exactly one listing in sorted order |
| Cache.DataManager.constructor | nfl_data_manager.py:14-17 | the directory exists afterwards; files already on disk are kept; the directory defaults to `nfl_data_cache` |
| Cache.DataManager.GetData | nfl_data_manager.py:32-48 | result and new directory are those of `GetOrFetch`, with `forceRefresh` defaulting to false; the fetch log grows by this call exactly when it fetched |
| Cache.DataManager.GetWeeklyData | nfl_data_manager.py:32-48 | `GetData` for the kind `weekly` |
| Cache.DataManager.GetPbpData | nfl_data_manager.py:50-66 | `GetData` for the kind `pbp` |
| Cache.DataManager.GetDraftData | nfl_data_manager.py:68-84 | `GetData` for the kind `draft` |
| Cache.DataManager.ListDir | nfl_data_manager.py:95 | `os.listdir` names every file of the directory exactly once |
| Cache.DataManager.ListCachedFiles | nfl_data_manager.py:86-106 | no directory exactly when it is missing (and then no files), no files, or every file once in sorted name order with its modification time |
| Cache.DataManager.ClearCache | nfl_data_manager.py:108-122 | outcome and new directory are those of `ClearCacheSpec`; no fetch happens |
| Scenarios.WeeklyFileName | nfl_data_manager.py:21-22 | weekly data for 2022, 2023 and 2024 is filed as `weekly_2022-2024.pkl` |
| Scenarios.DraftFileName | nfl_data_manager.py:21-22 | draft data for 2020 is filed as `draft_2020.pkl` |
| Scenarios.WeeklyFromEmptyCache | nfl_data_manager.py:32-48 | from an empty cache, the weekly getter fetches once and files the result under `weekly_2022-2024.pkl` |
| Scenarios.StaleDraftIsRefetched | nfl_data_manager.py:68-84 | a ten-day-old `draft_2020.pkl` is fetched again and overwritten |
| Scenarios.GetTwice | nfl_data_manager.py:32-48 | two consecutive calls on one manager: once the first succeeds, the second returns the same data and at most one fetch happened |

## Left out

- Remote fetching through `nfl_data_py`: this foreign library is not part of this model. It is an abstract function parameter.
- Pickle and pandas DataFrames: the payload is an opaque type parameter, and unpickling a pickled payload gives it back.
- Wall clock and float modification times: these are integer seconds supplied by the caller. A fetch takes no time, so a file written during a call is stamped with the time the freshness check used.
- `os.path.join` and `data_dir` in paths: files are keyed by their bare name inside the one cache directory.
- Write failures other than a missing directory (disk full, permission denied): the model has no such state.
- File sizes and the display formatting of `list_cached_files` (megabytes, `strftime`, printed lines): the listing keeps only names, modification times and their order.
- Non-ASCII case mapping in `str.lower`: only ASCII capitals are lowered. No other character lower-cases to `y`, so the y/N decision is unchanged.
- Printed messages, and `main()`: demonstration output only.
- session_manager.py, new_project.py and template_cleanup.py: these are not part of this model. They hold environment probing, interactive menus and template scaffolding, and no cache logic.
- CacheKey.CacheFileName: requires a non-empty list, because `years[0]` raises `IndexError` on an empty one before any name exists; that exception is modelled in `Cache.GetOrFetch` and `Cache.DataManager.GetData` as `Err(NoYears)`.
- Daylight-saving and time-zone shifts: the code compares naive local datetimes, so across a clock change the seven-day boundary moves by the shift; the model counts whole seconds of local wall-clock time and does not model the calendar.
- Cache.ClearCacheSpec and Cache.DataManager.ClearCache: `EOFError` from `input()` with no input, and failures of `shutil.rmtree` or `os.makedirs`, are not modelled; the prompt always yields a line and both calls succeed.
- Concurrent access to the cache directory: the code takes no locks, so calls are modelled one at a time.
