/**
 * The options of a sheet (`config`) and the cache freshness test
 * (`getCache`) of src/Google/Spreadsheet/Sheet.php. The file system and
 * the clock are inputs: whether the cache file exists, its modification
 * time and its stored grid, and the current time.
 */
module Cache {
  import opened Wrappers
  import opened Table

  /** An option value as PHP holds it: a boolean, an integer or a string. */
  datatype OptionValue = Flag(b: bool) | Number(n: int) | Text(s: string)

  type Options = map<string, OptionValue>

  /** The options a new sheet starts with. */
  function DefaultOptions(): (o: Options)
    ensures o.Keys == {"cache", "cache_dir", "cache_expires"}
    ensures o["cache"] == Flag(false) && o["cache_expires"] == Number(600)
  {
    map["cache" := Flag(false), "cache_dir" := Text("cache"), "cache_expires" := Number(600)]
  }

  /**
   * `config`: the given pairs in order, each overwriting an option that
   * already exists and ignored otherwise.
   */
  function Configure(options: Options, given: seq<(string, OptionValue)>): (r: Options)
    ensures r.Keys == options.Keys
    decreases |given|
  {
    if given == [] then options
    else
      var prior := Configure(options, given[..|given| - 1]);
      var (key, value) := given[|given| - 1];
      if key in prior then prior[key := value] else prior
  }

  /** The last value given for `key`, if any. */
  function LastGiven(given: seq<(string, OptionValue)>, key: string): (r: Option<OptionValue>)
    ensures r.Some? ==> (key, r.value) in given
    ensures r.None? ==> forall p :: p in given ==> p.0 != key
    decreases |given|
  {
    if given == [] then None
    else if given[|given| - 1].0 == key then Some(given[|given| - 1].1)
    else
      var prior := LastGiven(given[..|given| - 1], key);
      assert forall p :: p in given ==> p in given[..|given| - 1] || p == given[|given| - 1];
      prior
  }

  /** Each existing option ends with the last value given for it, or keeps its value. */
  lemma {:induction false} ConfigureLastWins(options: Options, given: seq<(string, OptionValue)>, key: string)
    requires key in options
    ensures Configure(options, given)[key] == LastGiven(given, key).GetOr(options[key])
    decreases |given|
  {
    if given != [] {
      ConfigureLastWins(options, given[..|given| - 1], key);
    }
  }

  /** PHP truthiness of an option value. */
  predicate Truthy(v: OptionValue)
  {
    match v
    case Flag(b) => b
    case Number(n) => n != 0
    case Text(s) => s != "" && s != "0"
  }

  /**
   * `$age < $expires` under PHP comparison: numerically against an integer,
   * as booleans against a boolean; a string limit is never met here.
   */
  predicate YoungerThan(age: int, expires: OptionValue)
  {
    match expires
    case Number(n) => age < n
    case Flag(b) => age == 0 && b
    case Text(_) => false
  }

  /** `$this->options['cache']` is set and truthy. */
  predicate CacheOn(options: Options)
  {
    "cache" in options && Truthy(options["cache"])
  }

  /** What a cache file holds: nothing, or the saved grid and its modification time. */
  datatype CacheFile = Missing | Stored(mtime: int, values: Grid)

  /**
   * `getCache(true)`: caching is on, the file exists, and it is younger than
   * `cache_expires` at time `now`.
   */
  predicate IsFresh(options: Options, file: CacheFile, now: int)
  {
    && CacheOn(options)
    && file.Stored?
    && "cache_expires" in options && YoungerThan(now - file.mtime, options["cache_expires"])
  }

  /** `getCache()`: the stored grid when the cache is fresh, null otherwise. */
  function GetCache(options: Options, file: CacheFile, now: int): (r: Option<Grid>)
    ensures r.Some? <==> IsFresh(options, file, now)
    ensures r.Some? ==> file.Stored? && r.value == file.values
  {
    if IsFresh(options, file, now) then Some(file.values) else None
  }

  /** With the default options no cache file is ever used. */
  lemma DefaultsNeverUseCache(file: CacheFile, now: int)
    ensures !IsFresh(DefaultOptions(), file, now)
  {
  }

  /** Turning `cache` off makes every cache file unusable, whatever its age. */
  lemma DisablingCacheNeverUsesIt(options: Options, given: seq<(string, OptionValue)>, file: CacheFile, now: int)
    requires "cache" in options
    requires LastGiven(given, "cache").Some? && !Truthy(LastGiven(given, "cache").value)
    ensures !IsFresh(Configure(options, given), file, now)
  {
    ConfigureLastWins(options, given, "cache");
  }

  /** A file at least `cache_expires` seconds old is not used, even though it is still stored. */
  lemma ExpiredFileNotUsed(options: Options, file: CacheFile, now: int, expires: int)
    requires "cache_expires" in options && options["cache_expires"] == Number(expires)
    requires file.Stored? && now - file.mtime >= expires
    ensures GetCache(options, file, now) == None
  {
  }

  /**
   * With an integer limit, a file fresh at `now` is fresh at every earlier
   * time, and stays unused from the moment it expires.
   */
  lemma FreshnessIsAWindow(options: Options, file: CacheFile, now: int, earlier: int, expires: int)
    requires "cache_expires" in options && options["cache_expires"] == Number(expires)
    requires earlier <= now
    ensures IsFresh(options, file, now) ==> IsFresh(options, file, earlier)
    ensures !IsFresh(options, file, earlier) && file.Stored? && earlier - file.mtime >= expires
      ==> !IsFresh(options, file, now)
  {
  }
}
