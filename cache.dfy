/** The dataset cache of the NFL data manager: one pickle file per dataset
    kind and period in a cache directory, reused while fresh and otherwise
    fetched from the remote source and overwritten. */
module Cache {

  import opened Wrappers
  import opened CacheKey
  import opened Freshness
  import opened NameOrder

  /** The contents of a cache file: a pickled payload, or bytes that pickle
      cannot read back. */
  datatype Blob<P> = Pickled(payload: P) | Corrupt

  /** A cache file and its modification time in seconds. */
  datatype Entry<P> = Entry(blob: Blob<P>, mtime: int)

  /** The cache directory: whether it exists, and its files by name. */
  datatype Dir<P> = Dir(present: bool, files: map<string, Entry<P>>)

  /** A directory that does not exist holds no files. */
  predicate WellFormed<P>(d: Dir<P>) {
    !d.present ==> d.files == map[]
  }

  /** The exceptions a dataset getter lets through: an empty year list
      (IndexError at `years[0]`), the remote fetch failed, pickle could not
      read a fresh file, or the file could not be opened for writing because
      the cache directory is gone. */
  datatype Failure = NoYears | FetchFailed | CorruptEntry | CacheDirMissing

  datatype Result<T> = Ok(value: T) | Err(failure: Failure)

  /** What one getter call returns, the directory it leaves, and whether it
      called the remote fetcher. */
  datatype GetOutcome<P> = GetOutcome(result: Result<P>, after: Dir<P>, fetched: bool)

  const DefaultDataDir: string := "nfl_data_cache"
  const WeeklyKind: string := "weekly"
  const PbpKind: string := "pbp"
  const DraftKind: string := "draft"

  /** `os.path.getmtime` of a file, or None when `os.path.exists` is false. */
  function MtimeOf<P>(d: Dir<P>, name: string): (t: Option<int>)
    ensures t.Some? <==> name in d.files
    ensures t.Some? ==> t.value == d.files[name].mtime
  {
    if name in d.files then Some(d.files[name].mtime) else None
  }

  /** `pickle.load` of a cache file. */
  function Load<P>(b: Blob<P>): (r: Result<P>)
    ensures r.Ok? <==> b.Pickled?
    ensures r.Ok? ==> r.value == b.payload
    ensures r.Err? ==> r.failure == CorruptEntry
  {
    match b
    case Pickled(p) => Ok(p)
    case Corrupt => Err(CorruptEntry)
  }

  /** `pickle.dump` into a file opened with 'wb': the file is replaced whole
      and its modification time becomes the current time. */
  function Store<P>(d: Dir<P>, name: string, p: P, now: int): (after: Dir<P>)
    ensures after.present == d.present
    ensures name in after.files && after.files[name] == Entry(Pickled(p), now)
    ensures forall n :: n != name ==> (n in after.files <==> n in d.files)
    ensures forall n :: n != name && n in d.files ==> after.files[n] == d.files[n]
  {
    d.(files := d.files[name := Entry(Pickled(p), now)])
  }

  /** The algorithm shared by get_weekly_data, get_pbp_data and get_draft_data.
      `fetch` is the remote call for this kind with its other arguments bound;
      None stands for an exception raised by it. */
  function GetOrFetch<P>(d: Dir<P>, kind: string, years: seq<int>, forceRefresh: bool, now: int,
                         fetch: seq<int> -> Option<P>): (o: GetOutcome<P>)
    ensures o.fetched <==>
      |years| > 0 && (forceRefresh || !IsCacheValid(MtimeOf(d, CacheFileName(kind, years)), now))
    ensures !o.fetched || o.result.Err? ==> o.after == d
    ensures o.fetched && o.result.Ok? ==> fetch(years) == Some(o.result.value)
    ensures |years| == 0 ==> o.result == Err(NoYears)
  {
    if |years| == 0 then GetOutcome(Err(NoYears), d, false)
    else
      var name := CacheFileName(kind, years);
      if !forceRefresh && IsCacheValid(MtimeOf(d, name), now) then
        GetOutcome(Load(d.files[name].blob), d, false)
      else
        match fetch(years)
        case None => GetOutcome(Err(FetchFailed), d, true)
        case Some(p) =>
          if d.present then GetOutcome(Ok(p), Store(d, name, p, now), true)
          else GetOutcome(Err(CacheDirMissing), d, true)
  }

  /** Writing a payload and reading it back at the same moment gives the
      payload: the new file is fresh and unpickles to what was stored. */
  lemma StoreThenLoad<P>(d: Dir<P>, name: string, p: P, now: int)
    ensures var after := Store(d, name, p, now);
      IsCacheValid(MtimeOf(after, name), now, DefaultMaxAgeDays) && Load(after.files[name].blob) == Ok(p)
  {
  }

  /** A fresh hit without forced refresh returns what the file unpickles to,
      calls nobody and changes nothing. */
  lemma GetFreshHit<P>(d: Dir<P>, kind: string, years: seq<int>, now: int, fetch: seq<int> -> Option<P>)
    requires |years| > 0
    requires IsCacheValid(MtimeOf(d, CacheFileName(kind, years)), now, DefaultMaxAgeDays)
    ensures CacheFileName(kind, years) in d.files
    ensures GetOrFetch(d, kind, years, false, now, fetch)
         == GetOutcome(Load(d.files[CacheFileName(kind, years)].blob), d, false)
  {
  }

  /** A forced refresh, a missing file or a stale file calls the fetcher once;
      on success the file under the key is replaced by the fetched payload
      stamped `now` and that payload is returned; on a failed fetch or a
      missing directory the exception propagates and nothing is written. */
  lemma GetMiss<P>(d: Dir<P>, kind: string, years: seq<int>, forceRefresh: bool, now: int,
                   fetch: seq<int> -> Option<P>)
    requires |years| > 0
    requires forceRefresh || !IsCacheValid(MtimeOf(d, CacheFileName(kind, years)), now, DefaultMaxAgeDays)
    ensures var o := GetOrFetch(d, kind, years, forceRefresh, now, fetch);
      o.fetched &&
      (fetch(years).None? ==> o.result == Err(FetchFailed) && o.after == d) &&
      (fetch(years).Some? && d.present ==>
         o.result == Ok(fetch(years).value) &&
         o.after == Dir(true, d.files[CacheFileName(kind, years) := Entry(Pickled(fetch(years).value), now)])) &&
      (fetch(years).Some? && !d.present ==> o.result == Err(CacheDirMissing) && o.after == d)
  {
  }

  /** A forced refresh always goes to the remote source. */
  lemma ForceRefreshFetches<P>(d: Dir<P>, kind: string, years: seq<int>, now: int, fetch: seq<int> -> Option<P>)
    requires |years| > 0
    ensures GetOrFetch(d, kind, years, true, now, fetch).fetched
  {
  }

  /** A getter touches no file but its own, never creates the directory, and
      keeps the directory well formed. */
  lemma GetTouchesOnlyItsKey<P>(d: Dir<P>, kind: string, years: seq<int>, forceRefresh: bool, now: int,
                                fetch: seq<int> -> Option<P>)
    requires |years| > 0 && WellFormed(d)
    ensures var o := GetOrFetch(d, kind, years, forceRefresh, now, fetch);
      WellFormed(o.after) && o.after.present == d.present &&
      (forall n :: n != CacheFileName(kind, years) ==>
         (n in o.after.files <==> n in d.files) && (n in d.files ==> o.after.files[n] == d.files[n]))
  {
  }

  /** A successful getter call leaves behind a file that the next call for the
      same kind and period at the same moment serves without fetching. This
      holds for any year list with the same period, so intermediate years are
      not looked at, and for any fetcher, so arguments not in the key (the
      weekly columns) do not change the answer. */
  lemma {:induction false} SecondGetServedFromCache<P>(d: Dir<P>, kind: string, years1: seq<int>, years2: seq<int>,
                                                       forceRefresh: bool, now: int,
                                                       fetch1: seq<int> -> Option<P>, fetch2: seq<int> -> Option<P>)
    requires |years1| > 0 && |years2| > 0
    requires PeriodOf(years1) == PeriodOf(years2)
    requires GetOrFetch(d, kind, years1, forceRefresh, now, fetch1).result.Ok?
    ensures var first := GetOrFetch(d, kind, years1, forceRefresh, now, fetch1);
      var second := GetOrFetch(first.after, kind, years2, false, now, fetch2);
      !second.fetched && second.result == first.result && second.after == first.after
  {
    var name := CacheFileName(kind, years1);
    assert CacheFileName(kind, years2) == name;
    var first := GetOrFetch(d, kind, years1, forceRefresh, now, fetch1);
    if first.fetched {
      StoreThenLoad(d, name, fetch1(years1).value, now);
    }
    GetFreshHit(first.after, kind, years2, now, fetch2);
  }

  /** A failed fetch is not remembered: nothing was written, so the same call
      again goes to the remote source again. */
  lemma FailedFetchIsRetriedNextCall<P>(d: Dir<P>, kind: string, years: seq<int>, forceRefresh: bool,
                                        now: int, fetch1: seq<int> -> Option<P>, fetch2: seq<int> -> Option<P>)
    requires |years| > 0
    requires GetOrFetch(d, kind, years, forceRefresh, now, fetch1).result == Err(FetchFailed)
    ensures var first := GetOrFetch(d, kind, years, forceRefresh, now, fetch1);
      first.fetched && first.after == d && GetOrFetch(first.after, kind, years, forceRefresh, now, fetch2).fetched
  {
  }

  /** An empty year list raises at `years[0]`: nothing is fetched and
      nothing changes. */
  lemma EmptyYearsFails<P>(d: Dir<P>, kind: string, forceRefresh: bool, now: int, fetch: seq<int> -> Option<P>)
    ensures GetOrFetch(d, kind, [], forceRefresh, now, fetch) == GetOutcome(Err(NoYears), d, false)
  {
  }

  /** A fresh file that pickle cannot read raises: the getter does not fall
      back to fetching. */
  lemma CorruptFreshEntryFails<P>(d: Dir<P>, kind: string, years: seq<int>, now: int, fetch: seq<int> -> Option<P>)
    requires |years| > 0
    requires CacheFileName(kind, years) in d.files
    requires d.files[CacheFileName(kind, years)].blob == Corrupt
    requires IsFresh(d.files[CacheFileName(kind, years)].mtime, now, DefaultMaxAgeDays)
    ensures GetOrFetch(d, kind, years, false, now, fetch) == GetOutcome(Err(CorruptEntry), d, false)
  {
  }

  /** The outcome of clear_cache: the prompt was declined, the directory was
      emptied, or there was no directory. */
  datatype ClearOutcome = Cancelled | Cleared | NoDirectory

  datatype ClearResult<P> = ClearResult(outcome: ClearOutcome, after: Dir<P>)

  /** `str.lower` on the characters that have a lower-case form in ASCII. */
  function LowerChar(c: char): char {
    if 'A' <= c <= 'Z' then (c as int + 32) as char else c
  }

  function Lower(s: string): (r: string)
    ensures |r| == |s|
  {
    seq(|s|, i requires 0 <= i < |s| => LowerChar(s[i]))
  }

  /** The answer to the y/N prompt is a yes when it lower-cases to "y". */
  predicate Confirms(response: string)
    ensures Confirms(response) ==> |response| == 1
  {
    Lower(response) == "y"
  }

  /** Exactly the answers "y" and "Y" confirm; anything else, including the
      empty answer and "yes", declines. */
  lemma ConfirmsIff(response: string)
    ensures Confirms(response) <==> response == "y" || response == "Y"
  {
    if Confirms(response) {
      assert |response| == 1 && LowerChar(response[0]) == Lower(response)[0] == 'y';
      assert response == [response[0]];
    } else {
      assert Lower("y")[0] == 'y' && Lower("Y")[0] == 'y';
      assert Lower("y") == "y" && Lower("Y") == "y";
    }
  }

  /** clear_cache: ask when `confirm` is set and stop unless confirmed; then
      remove the directory and create it again empty, if it exists. */
  function ClearCacheSpec<P>(d: Dir<P>, confirm: bool, response: string): (r: ClearResult<P>)
    ensures r.outcome == Cancelled <==> confirm && !Confirms(response)
    ensures r.outcome == Cleared <==> (!confirm || Confirms(response)) && d.present
    ensures r.outcome == Cleared ==> r.after == Dir(true, map[])
    ensures r.outcome != Cleared ==> r.after == d
  {
    if confirm && !Confirms(response) then ClearResult(Cancelled, d)
    else if d.present then ClearResult(Cleared, Dir(true, map[]))
    else ClearResult(NoDirectory, d)
  }

  /** A declined prompt changes nothing. */
  lemma ClearDeclinedChangesNothing<P>(d: Dir<P>, response: string)
    requires response != "y" && response != "Y"
    ensures ClearCacheSpec(d, true, response) == ClearResult(Cancelled, d)
  {
    ConfirmsIff(response);
  }

  /** Once it proceeds, an existing directory ends up existing and empty, and
      a missing directory stays missing; clearing again changes nothing more. */
  lemma {:induction false} ClearEmpties<P>(d: Dir<P>, confirm: bool, response: string)
    requires !confirm || response == "y" || response == "Y"
    ensures var r := ClearCacheSpec(d, confirm, response);
      (d.present ==> r == ClearResult(Cleared, Dir(true, map[]))) &&
      (!d.present ==> r == ClearResult(NoDirectory, d)) &&
      ClearCacheSpec(r.after, false, "").after == r.after
  {
    ConfirmsIff(response);
  }

  /** A line of list_cached_files: the file name and its modification time. */
  datatype FileInfo = FileInfo(name: string, mtime: int)

  datatype Listing = NoCacheDirectory | NoCachedFiles | Files(infos: seq<FileInfo>)

  function NamesOf(infos: seq<FileInfo>): (names: seq<string>)
    ensures |names| == |infos|
  {
    seq(|infos|, i requires 0 <= i < |infos| => infos[i].name)
  }

  /** The listing walks every file of the directory once, in sorted name
      order, with that file's modification time. */
  ghost predicate ListsInOrder<P>(infos: seq<FileInfo>, files: map<string, Entry<P>>)
    ensures ListsInOrder(infos, files) ==> (infos == [] <==> files == map[])
  {
    var names := NamesOf(infos);
    var walks := StrictlySorted(names) &&
      (forall n :: n in names <==> n in files) &&
      (forall i :: 0 <= i < |infos| ==> infos[i].name in files && infos[i].mtime == files[infos[i].name].mtime);
    assert walks && infos == [] ==> files.Keys == {};
    assert walks && infos != [] ==> names[0] in names && names[0] in files;
    walks
  }

  /** A directory has exactly one listing. */
  lemma ListingIsUnique<P>(a: seq<FileInfo>, b: seq<FileInfo>, files: map<string, Entry<P>>)
    requires ListsInOrder(a, files) && ListsInOrder(b, files)
    ensures a == b
  {
    var na, nb := NamesOf(a), NamesOf(b);
    SortedUnique(na, nb);
    forall i | 0 <= i < |a| ensures a[i] == b[i] {
      assert a[i].name == na[i] == nb[i] == b[i].name;
    }
  }

  /** NFLDataManager: the cache directory `dataDir`, its current contents,
      and, for the proofs, the log of remote fetches made so far. */
  class DataManager<P> {
    const dataDir: string
    var dirExists: bool
    var files: map<string, Entry<P>>
    ghost var fetchLog: seq<(string, seq<int>)>

    function State(): Dir<P>
      reads this
    {
      Dir(dirExists, files)
    }

    ghost predicate Valid()
      reads this
    {
      WellFormed(State())
    }

    /** `os.makedirs(data_dir, exist_ok=True)`: a directory already on disk
        keeps its files, a missing one is created empty. */
    constructor (onDisk: Dir<P>, dataDir: string := DefaultDataDir)
      requires WellFormed(onDisk)
      ensures Valid() && this.dataDir == dataDir
      ensures State() == Dir(true, onDisk.files)
      ensures fetchLog == []
    {
      this.dataDir := dataDir;
      dirExists := true;
      files := onDisk.files;
      fetchLog := [];
    }

    /** The get-or-fetch algorithm at the current time `now`; `fetch` is the
        remote call of the dataset kind. */
    method GetData(kind: string, years: seq<int>, now: int, fetch: seq<int> -> Option<P>,
                   forceRefresh: bool := false)
      returns (result: Result<P>)
      requires Valid()
      modifies this
      ensures Valid()
      ensures var o := GetOrFetch(old(State()), kind, years, forceRefresh, now, fetch);
        result == o.result && State() == o.after &&
        fetchLog == old(fetchLog) + (if o.fetched then [(kind, years)] else [])
    {
      if |years| == 0 {
        return Err(NoYears);
      }
      var name := CacheFileName(kind, years);
      if !forceRefresh && IsCacheValid(MtimeOf(State(), name), now) {
        result := Load(files[name].blob);
        return;
      }
      var data := fetch(years);
      fetchLog := fetchLog + [(kind, years)];
      match data
      case None =>
        result := Err(FetchFailed);
      case Some(p) =>
        if dirExists {
          files := files[name := Entry(Pickled(p), now)];
          result := Ok(p);
        } else {
          result := Err(CacheDirMissing);
        }
    }

    /** get_weekly_data; the `columns` argument is bound inside `fetch`. */
    method GetWeeklyData(years: seq<int>, now: int, fetch: seq<int> -> Option<P>, forceRefresh: bool := false)
      returns (result: Result<P>)
      requires Valid()
      modifies this
      ensures Valid()
      ensures var o := GetOrFetch(old(State()), WeeklyKind, years, forceRefresh, now, fetch);
        result == o.result && State() == o.after &&
        fetchLog == old(fetchLog) + (if o.fetched then [(WeeklyKind, years)] else [])
    {
      result := GetData(WeeklyKind, years, now, fetch, forceRefresh);
    }

    /** get_pbp_data. */
    method GetPbpData(years: seq<int>, now: int, fetch: seq<int> -> Option<P>, forceRefresh: bool := false)
      returns (result: Result<P>)
      requires Valid()
      modifies this
      ensures Valid()
      ensures var o := GetOrFetch(old(State()), PbpKind, years, forceRefresh, now, fetch);
        result == o.result && State() == o.after &&
        fetchLog == old(fetchLog) + (if o.fetched then [(PbpKind, years)] else [])
    {
      result := GetData(PbpKind, years, now, fetch, forceRefresh);
    }

    /** get_draft_data. */
    method GetDraftData(years: seq<int>, now: int, fetch: seq<int> -> Option<P>, forceRefresh: bool := false)
      returns (result: Result<P>)
      requires Valid()
      modifies this
      ensures Valid()
      ensures var o := GetOrFetch(old(State()), DraftKind, years, forceRefresh, now, fetch);
        result == o.result && State() == o.after &&
        fetchLog == old(fetchLog) + (if o.fetched then [(DraftKind, years)] else [])
    {
      result := GetData(DraftKind, years, now, fetch, forceRefresh);
    }

    /** `os.listdir`: the names of the directory's files, each once, in an
        order the file system chooses. */
    method ListDir() returns (names: seq<string>)
      ensures Distinct(names)
      ensures forall n :: n in names <==> n in files
    {
      names := [];
      var rest := files.Keys;
      while rest != {}
        invariant rest <= files.Keys
        invariant Distinct(names)
        invariant forall n :: n in names <==> n in files && n !in rest
        decreases rest
      {
        var n :| n in rest;
        names := names + [n];
        rest := rest - {n};
      }
    }

    /** list_cached_files, without the display formatting: what it reports,
        file by file in sorted name order. */
    method ListCachedFiles() returns (listing: Listing)
      requires Valid()
      ensures listing == NoCacheDirectory <==> !dirExists
      ensures listing == NoCacheDirectory ==> files == map[]
      ensures dirExists && files == map[] ==> listing == NoCachedFiles
      ensures dirExists && files != map[] ==> listing.Files? && ListsInOrder(listing.infos, files)
    {
      if !dirExists {
        return NoCacheDirectory;
      }
      var names := ListDir();
      if |names| == 0 {
        assert files.Keys == {};
        return NoCachedFiles;
      }
      assert names[0] in files;
      var sorted := Sort(names);
      var infos: seq<FileInfo> := [];
      for i := 0 to |sorted|
        invariant |infos| == i
        invariant forall j :: 0 <= j < i ==> infos[j] == FileInfo(sorted[j], files[sorted[j]].mtime)
      {
        infos := infos + [FileInfo(sorted[i], files[sorted[i]].mtime)];
      }
      assert NamesOf(infos) == sorted;
      return Files(infos);
    }

    /** clear_cache; `response` is the line typed at the prompt, read only
        when `confirm` is set. */
    method ClearCache(confirm: bool, response: string) returns (outcome: ClearOutcome)
      requires Valid()
      modifies this
      ensures Valid()
      ensures ClearResult(outcome, State()) == ClearCacheSpec(old(State()), confirm, response)
      ensures fetchLog == old(fetchLog)
    {
      if confirm {
        if Lower(response) != "y" {
          return Cancelled;
        }
      }
      if dirExists {
        files := map[];
        return Cleared;
      } else {
        return NoDirectory;
      }
    }
  }
}
