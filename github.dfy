/**
 * The repository data source: the record type, the filter/sort pipeline run on
 * a successful response, the free-text search, the language colour table, the
 * relative-date label, and the `GitHubService` object with its in-memory cache.
 */
module GitHub {
  import opened Basics
  import opened Text
  import opened Seqs

  /** One repository as listed by the hosting API; `updatedAt` is in epoch milliseconds. */
  datatype Repository = Repository(
    id: int,
    name: string,
    fullName: string,
    description: Option<string>,
    htmlUrl: string,
    stargazersCount: int,
    forksCount: int,
    language: Option<string>,
    updatedAt: int,
    fork: bool,
    topics: seq<string>,
    visibility: string)

  const Username: string := "gsaikrishna8"

  /** The single key under which the repository list is cached. */
  const CacheKey: string := "repos-" + Username

  /** Five minutes, in milliseconds. */
  const CacheDuration: int := 5 * 60 * 1000

  datatype CacheEntry = CacheEntry(data: seq<Repository>, timestamp: int)

  /** The HTTP response to the listing request: its status code and its decoded body. */
  datatype Response = Response(status: int, body: seq<Repository>) {
    /** `response.ok`: a 2xx status. */
    predicate Ok() {
      200 <= status <= 299
    }
  }

  /** The error thrown for a non-2xx response, carrying its status code. */
  datatype FetchError = ApiError(status: int)

  /**
   * The thrown error's message: the fixed prefix, then the status in decimal,
   * which reads back as the status (after a minus sign when it is negative).
   */
  function ErrorMessage(e: FetchError): (m: string)
    ensures |m| > 18 && m[..18] == "GitHub API error: "
    ensures e.status >= 0 ==>
      (forall i :: 18 <= i < |m| ==> IsDigit(m[i])) && DigitsValue(m[18..]) == e.status
    ensures e.status < 0 ==>
      |m| > 19 && m[18] == '-' && (forall i :: 19 <= i < |m| ==> IsDigit(m[i])) && DigitsValue(m[19..]) == -e.status
  {
    var m := "GitHub API error: " + IntToString(e.status);
    assert m[18..] == IntToString(e.status);
    assert e.status < 0 ==> m[19..] == IntToString(e.status)[1..];
    m
  }

  // ---------------------------------------------------------------------------
  // The cache
  // ---------------------------------------------------------------------------

  /** What a cache read at time `now` yields: the stored data while it is younger than five minutes. */
  function Lookup(cache: map<string, CacheEntry>, key: string, now: int): Option<seq<Repository>> {
    if key in cache && now - cache[key].timestamp < CacheDuration then Some(cache[key].data) else None
  }

  /**
   * After storing `data` at time `now`, a read of the same key is a hit exactly
   * until `now + CacheDuration`, and reads of every other key are unaffected.
   */
  lemma StoreThenLookup(cache: map<string, CacheEntry>, key: string, data: seq<Repository>, now: int, t: int, other: string)
    requires other != key
    ensures Lookup(cache[key := CacheEntry(data, now)], key, t) == if t < now + CacheDuration then Some(data) else None
    ensures Lookup(cache[key := CacheEntry(data, now)], other, t) == Lookup(cache, other, t)
  {
  }

  // ---------------------------------------------------------------------------
  // The pipeline applied to a successful response
  // ---------------------------------------------------------------------------

  /** The records that are displayed at all: not forks, and public. */
  predicate IsListed(r: Repository) {
    !r.fork && r.visibility == "public"
  }

  function Listed(repos: seq<Repository>): seq<Repository> {
    Filter(repos, IsListed)
  }

  /** `a` was updated no earlier than `b`. */
  predicate UpdatedNoEarlier(a: Repository, b: Repository) {
    a.updatedAt >= b.updatedAt
  }

  /** Most recently updated first. */
  predicate NewestFirst(repos: seq<Repository>) {
    Ordered(repos, UpdatedNoEarlier)
  }

  /**
   * Inserts `x` in front of the first record that is not newer than it; a record
   * that comes later in the input therefore stays behind earlier records with
   * the same time, as in a stable sort.
   */
  function InsertNewestFirst(x: Repository, s: seq<Repository>): (r: seq<Repository>)
    ensures multiset(r) == multiset(s) + multiset{x}
    ensures |r| == |s| + 1
  {
    if s == [] || s[0].updatedAt <= x.updatedAt then [x] + s
    else
      assert s == [s[0]] + s[1..];
      [s[0]] + InsertNewestFirst(x, s[1..])
  }

  /** Prefixing a record no older than every element keeps a list newest first. */
  lemma ConsNewestFirst(y: Repository, t: seq<Repository>)
    requires NewestFirst(t)
    requires forall k :: 0 <= k < |t| ==> UpdatedNoEarlier(y, t[k])
    ensures NewestFirst([y] + t)
  {
    var r := [y] + t;
    forall i, j | 0 <= i < j < |r| ensures UpdatedNoEarlier(r[i], r[j]) {
      if i == 0 {
        assert r[j] == t[j - 1];
      } else {
        assert r[i] == t[i - 1] && r[j] == t[j - 1];
      }
    }
  }

  lemma TailNewestFirst(s: seq<Repository>)
    requires s != [] && NewestFirst(s)
    ensures NewestFirst(s[1..])
    ensures forall k :: 0 <= k < |s[1..]| ==> UpdatedNoEarlier(s[0], s[1..][k])
  {
    forall i, j | 0 <= i < j < |s[1..]| ensures UpdatedNoEarlier(s[1..][i], s[1..][j]) {
      assert s[1..][i] == s[i + 1] && s[1..][j] == s[j + 1];
    }
    forall k | 0 <= k < |s[1..]| ensures UpdatedNoEarlier(s[0], s[1..][k]) {
      assert s[1..][k] == s[k + 1];
    }
  }

  /** Inserting into a newest-first list keeps it newest first. */
  lemma {:induction false} InsertKeepsNewestFirst(x: Repository, s: seq<Repository>)
    requires NewestFirst(s)
    ensures NewestFirst(InsertNewestFirst(x, s))
  {
    if s == [] {
      ConsNewestFirst(x, s);
    } else {
      TailNewestFirst(s);
      if s[0].updatedAt <= x.updatedAt {
        forall k | 0 <= k < |s| ensures UpdatedNoEarlier(x, s[k]) {
          if k > 0 {
            assert s[k] == s[1..][k - 1];
          }
        }
        ConsNewestFirst(x, s);
      } else {
        var rest := InsertNewestFirst(x, s[1..]);
        InsertKeepsNewestFirst(x, s[1..]);
        forall k | 0 <= k < |rest| ensures UpdatedNoEarlier(s[0], rest[k]) {
          assert rest[k] in multiset(rest);
          if rest[k] != x {
            assert rest[k] in multiset(s[1..]);
            var m :| 0 <= m < |s[1..]| && s[1..][m] == rest[k];
          }
        }
        ConsNewestFirst(s[0], rest);
      }
    }
  }

  /** `repos.sort((a, b) => b.updated_at - a.updated_at)`: a stable newest-first sort. */
  function SortNewestFirst(repos: seq<Repository>): (r: seq<Repository>)
    ensures NewestFirst(r)
    ensures multiset(r) == multiset(repos)
  {
    if repos == [] then []
    else
      assert repos == [repos[0]] + repos[1..];
      var rest := SortNewestFirst(repos[1..]);
      InsertKeepsNewestFirst(repos[0], rest);
      InsertNewestFirst(repos[0], rest)
  }

  /** What a successful fetch returns and caches: the listed records, newest first. */
  function Fetched(body: seq<Repository>): seq<Repository> {
    SortNewestFirst(Listed(body))
  }

  /**
   * The fetched list holds exactly the non-fork public records of the response,
   * each as many times as it occurs there, and is ordered newest first.
   */
  lemma FetchedSpec(body: seq<Repository>)
    ensures NewestFirst(Fetched(body))
    ensures forall r :: multiset(Fetched(body))[r] == if IsListed(r) then multiset(body)[r] else 0
  {
    forall r ensures multiset(Fetched(body))[r] == if IsListed(r) then multiset(body)[r] else 0 {
      FilterCount(body, IsListed, r);
    }
  }

  // ---------------------------------------------------------------------------
  // Search
  // ---------------------------------------------------------------------------

  /** Some topic of `r` contains `term`, ignoring case. */
  predicate TopicMatches(r: Repository, term: string) {
    exists t :: t in r.topics && Contains(Lower(t), term)
  }

  /** The record's name, description, language or one of its topics contains `term`, ignoring case. */
  predicate Matches(r: Repository, term: string) {
    Contains(Lower(r.name), term) ||
    (r.description.Some? && Contains(Lower(r.description.value), term)) ||
    (r.language.Some? && Contains(Lower(r.language.value), term)) ||
    TopicMatches(r, term)
  }

  /**
   * The search filter: a blank query keeps everything; otherwise the query is
   * lower-cased (but not trimmed) and records matching it are kept in order.
   */
  function Search(repos: seq<Repository>, query: string): seq<Repository> {
    if Blank(query) then repos
    else Filter(repos, (r: Repository) => Matches(r, Lower(query)))
  }

  /**
   * A blank query returns the list unchanged; any query returns an
   * order-preserving subsequence, and a non-blank one keeps exactly the matching
   * records with their multiplicity.
   */
  lemma SearchSpec(repos: seq<Repository>, query: string)
    ensures Blank(query) ==> Search(repos, query) == repos
    ensures IsSubsequence(Search(repos, query), repos)
    ensures !Blank(query) ==>
      forall r :: multiset(Search(repos, query))[r] == if Matches(r, Lower(query)) then multiset(repos)[r] else 0
  {
    var f := (r: Repository) => Matches(r, Lower(query));
    FilterIsSubsequence(repos, f);
    forall r ensures multiset(Filter(repos, f))[r] == if f(r) then multiset(repos)[r] else 0 {
      FilterCount(repos, f, r);
    }
    if Blank(query) {
      SubsequenceOfSelf(repos);
    }
  }

  lemma LowerOfLowerCase(s: string)
    requires forall i :: 0 <= i < |s| ==> !('A' <= s[i] <= 'Z')
    ensures Lower(s) == s
  {
  }

  /** A public, non-fork record named "api" with no description, language or topics. */
  const ApiRecord: Repository := Repository(1, "api", "u/api", None, "", 0, 0, None, 0, false, [], "public")

  /** The query "api" finds the record named "api". */
  lemma SearchFindsByName()
    ensures Search([ApiRecord], "api") == [ApiRecord]
  {
    BlankIff("api");
    assert !IsSpace("api"[0]);
    assert !Blank("api");
    LowerOfLowerCase("api");
    assert Lower("api") == "api";
    assert OccursAt("api", "api", 0);
    assert Contains(Lower(ApiRecord.name), "api");
    var f := (r: Repository) => Matches(r, Lower("api"));
    assert f(ApiRecord);
    assert [ApiRecord][1..] == [];
    assert Filter([ApiRecord], f) == [ApiRecord] + Filter([], f);
  }

  /** The query is not trimmed: with a trailing space, "api " no longer finds the record named "api". */
  lemma SearchDoesNotTrimQuery()
    ensures Search([ApiRecord], "api ") == []
  {
    BlankIff("api ");
    assert !IsSpace("api "[0]);
    LowerOfLowerCase("api ");
    assert !Contains("api", "api ");
    assert !Matches(ApiRecord, "api ");
  }

  // ---------------------------------------------------------------------------
  // Language colours
  // ---------------------------------------------------------------------------

  const DefaultColor: string := "#6b7280"

  const LanguageColors: map<string, string> := map[
    "JavaScript" := "#f7df1e",
    "TypeScript" := "#3178c6",
    "Python" := "#3776ab",
    "Java" := "#ed8b00",
    "C++" := "#00599c",
    "C" := "#a8b9cc",
    "PHP" := "#777bb4",
    "Ruby" := "#cc342d",
    "Go" := "#00add8",
    "Rust" := "#dea584",
    "Swift" := "#fa7343",
    "Kotlin" := "#f18e33",
    "Dart" := "#0175c2",
    "Shell" := "#89e051",
    "HTML" := "#e34c26",
    "CSS" := "#1572b6",
    "Vue" := "#4fc08d",
    "React" := "#61dafb",
    "Angular" := "#dd0031"
  ]

  predicate IsHexDigit(c: char) {
    '0' <= c <= '9' || 'a' <= c <= 'f'
  }

  /** A CSS colour of the form `#rrggbb` in lower case. */
  predicate IsHexColor(s: string) {
    |s| == 7 && s[0] == '#' && forall i :: 1 <= i < 7 ==> IsHexDigit(s[i])
  }

  /**
   * `colors[language || ''] || '#6b7280'`: the colour of a listed language, and the
   * neutral default for a missing, empty or unlisted one. Every answer is a
   * `#rrggbb` colour, and no listed language shares the default.
   */
  function LanguageColor(language: Option<string>): (color: string)
    ensures IsHexColor(color)
    ensures color == DefaultColor <==> language.None? || language.value !in LanguageColors
    ensures language.Some? && language.value in LanguageColors ==> color == LanguageColors[language.value]
  {
    var key := if language.Some? then language.value else "";
    if key in LanguageColors then LanguageColors[key] else DefaultColor
  }

  lemma LanguageColorExamples()
    ensures LanguageColor(Some("Rust")) == "#dea584"
    ensures LanguageColor(None) == DefaultColor
    ensures LanguageColor(Some("")) == DefaultColor
    ensures LanguageColor(Some("Cobol")) == DefaultColor
  {
  }

  // ---------------------------------------------------------------------------
  // Relative update date
  // ---------------------------------------------------------------------------

  const MsPerDay: int := 1000 * 60 * 60 * 24

  /** `Math.floor((now - date) / MsPerDay)`: whole days elapsed, rounded down. */
  function ElapsedDays(now: int, date: int): (days: int)
    ensures days * MsPerDay <= now - date < (days + 1) * MsPerDay
  {
    (now - date) / MsPerDay
  }

  /** The bucket a day count falls into; `n` is what the label prints. */
  datatype Age = Today | Yesterday | Days(n: int) | Months(n: int) | Years(n: int)

  function AgeOf(days: int): Age {
    if days == 0 then Today
    else if days == 1 then Yesterday
    else if days < 30 then Days(days)
    else if days < 365 then Months(days / 30)
    else Years(days / 365)
  }

  function AgeLabel(a: Age): string {
    match a
    case Today => "Updated today"
    case Yesterday => "Updated yesterday"
    case Days(n) => "Updated " + IntToString(n) + " days ago"
    case Months(n) => "Updated " + IntToString(n) + " month" + (if n > 1 then "s" else "") + " ago"
    case Years(n) => "Updated " + IntToString(n) + " year" + (if n > 1 then "s" else "") + " ago"
  }

  /** `formatDate` as written: the label for a record updated at `date`, read at `now`. */
  function FormatDate(now: int, date: int): string {
    AgeLabel(AgeOf(ElapsedDays(now, date)))
  }

  /**
   * The buckets: months are whole 30-day periods and lie between 1 and 12, years
   * are whole 365-day periods and are at least 1, and every count below 30 other
   * than 0 and 1 is printed as it is.
   */
  lemma AgeBuckets(days: int)
    ensures AgeOf(days) == Today <==> days == 0
    ensures AgeOf(days) == Yesterday <==> days == 1
    ensures AgeOf(days).Days? <==> days < 30 && days != 0 && days != 1
    ensures AgeOf(days).Days? ==> AgeOf(days).n == days
    ensures AgeOf(days).Months? <==> 30 <= days < 365
    ensures AgeOf(days).Months? ==> var m := AgeOf(days).n;
      1 <= m <= 12 && m * 30 <= days < (m + 1) * 30
    ensures AgeOf(days).Years? <==> 365 <= days
    ensures AgeOf(days).Years? ==> var y := AgeOf(days).n;
      1 <= y && y * 365 <= days < (y + 1) * 365
  {
  }

  /** The unit word is singular exactly when the printed count is 1. */
  lemma UnitSingularIffOne(n: nat)
    requires n >= 1
    ensures AgeLabel(Months(n)) == "Updated " + NatToString(n) + (if n == 1 then " month ago" else " months ago")
    ensures AgeLabel(Years(n)) == "Updated " + NatToString(n) + (if n == 1 then " year ago" else " years ago")
  {
    var digits := "Updated " + NatToString(n);
    if n == 1 {
      assert " month" + "" + " ago" == " month ago";
      assert " year" + "" + " ago" == " year ago";
    } else {
      assert " month" + "s" + " ago" == " months ago";
      assert " year" + "s" + " ago" == " years ago";
    }
    assert AgeLabel(Months(n)) == digits + (" month" + (if n > 1 then "s" else "") + " ago");
    assert AgeLabel(Years(n)) == digits + (" year" + (if n > 1 then "s" else "") + " ago");
  }

  /** A record updated exactly `k` days before `now` is `k` days old. */
  lemma ElapsedWholeDays(now: int, k: int)
    ensures ElapsedDays(now, now - k * MsPerDay) == k
  {
    var d := ElapsedDays(now, now - k * MsPerDay);
    assert d * MsPerDay <= k * MsPerDay < (d + 1) * MsPerDay;
  }

  /** The boundary cases of the relative date label. */
  lemma FormatDateBoundaries(now: int)
    ensures FormatDate(now, now) == "Updated today"
    ensures FormatDate(now, now - MsPerDay) == "Updated yesterday"
    ensures FormatDate(now, now - 29 * MsPerDay) == "Updated 29 days ago"
    ensures FormatDate(now, now - 30 * MsPerDay) == "Updated 1 month ago"
    ensures FormatDate(now, now - 364 * MsPerDay) == "Updated 12 months ago"
    ensures FormatDate(now, now - 365 * MsPerDay) == "Updated 1 year ago"
  {
    ElapsedWholeDays(now, 0);
    ElapsedWholeDays(now, 1);
    ElapsedWholeDays(now, 29);
    ElapsedWholeDays(now, 30);
    ElapsedWholeDays(now, 364);
    ElapsedWholeDays(now, 365);
    assert NatToString(29) == "29";
    assert NatToString(12) == "12";
  }

  /**
   * As written, a record whose update time lies up to a day after `now` (the
   * reader's clock running behind the server's; one millisecond is enough) is
   * labelled with a negative day count, because the elapsed days are rounded
   * down to -1.
   */
  lemma FormatDateFutureDate(now: int, date: int)
    requires now < date <= now + MsPerDay
    ensures FormatDate(now, date) == "Updated -1 days ago"
  {
    assert ElapsedDays(now, date) == -1;
    assert NatToString(1) == "1";
  }

  /** The label with the day count clamped at zero: an update time ahead of `now` reads "today". */
  function FormatDateClamped(now: int, date: int): string {
    var days := ElapsedDays(now, date);
    AgeLabel(AgeOf(if days < 0 then 0 else days))
  }

  /** Every relative-date label is one of the fixed words or a non-negative count. */
  lemma {:induction false} AgeLabelHasNoSign(a: Age)
    requires a.Days? || a.Months? || a.Years? ==> a.n >= 0
    ensures '-' !in AgeLabel(a)
  {
    if a.Days? || a.Months? || a.Years? {
      var digits := NatToString(a.n);
      assert forall i :: 0 <= i < |digits| ==> digits[i] != '-';
    }
  }

  /**
   * The clamped label never carries a minus sign, reads "Updated today" for any
   * update time ahead of `now`, and agrees with the label as written otherwise.
   */
  lemma FormatDateClampedSpec(now: int, date: int)
    ensures '-' !in FormatDateClamped(now, date)
    ensures date > now ==> FormatDateClamped(now, date) == "Updated today"
    ensures date <= now ==> FormatDateClamped(now, date) == FormatDate(now, date)
  {
    var days := ElapsedDays(now, date);
    AgeLabelHasNoSign(AgeOf(if days < 0 then 0 else days));
  }

  // ---------------------------------------------------------------------------
  // The service object
  // ---------------------------------------------------------------------------

  /**
   * `GitHubService`: the in-memory cache is its only state. The clock reading
   * `now` and the HTTP response are passed in; `requested` reports whether the
   * network would have been asked.
   */
  class GitHubService {
    var cache: map<string, CacheEntry>

    constructor()
      ensures cache == map[]
    {
      cache := map[];
    }

    /** `getCachedData`: the stored data exactly while the entry is younger than five minutes. */
    method GetCachedData(key: string, now: int) returns (data: Option<seq<Repository>>)
      ensures data.Some? <==> key in cache && now - cache[key].timestamp < CacheDuration
      ensures data.Some? ==> data.value == cache[key].data
      ensures data == Lookup(cache, key, now)
    {
      if key in cache && now - cache[key].timestamp < CacheDuration {
        data := Some(cache[key].data);
      } else {
        data := None;
      }
    }

    /** `setCachedData`: stores `data` stamped with `now`, replacing any earlier entry for `key`. */
    method SetCachedData(key: string, data: seq<Repository>, now: int)
      modifies this
      ensures cache == old(cache)[key := CacheEntry(data, now)]
    {
      cache := cache[key := CacheEntry(data, now)];
    }

    /**
     * `fetchRepositories`: a fresh cache entry is returned as it is, with no
     * request and no change to the cache. Otherwise the request is made; a non-2xx
     * status raises `ApiError` and caches nothing, and a success caches and
     * returns the listed records newest first.
     */
    method FetchRepositories(now: int, response: Response) returns (result: Result<seq<Repository>, FetchError>, requested: bool)
      modifies this
      ensures old(Lookup(cache, CacheKey, now)).Some? ==>
        !requested && result == Ok(old(Lookup(cache, CacheKey, now)).value) && cache == old(cache)
      ensures old(Lookup(cache, CacheKey, now)).None? ==> requested
      ensures old(Lookup(cache, CacheKey, now)).None? && !response.Ok() ==>
        result == Err(ApiError(response.status)) && cache == old(cache)
      ensures old(Lookup(cache, CacheKey, now)).None? && response.Ok() ==>
        result == Ok(Fetched(response.body)) &&
        cache == old(cache)[CacheKey := CacheEntry(Fetched(response.body), now)]
    {
      var cached := GetCachedData(CacheKey, now);
      if cached.Some? {
        return Ok(cached.value), false;
      }
      requested := true;
      if !response.Ok() {
        return Err(ApiError(response.status)), requested;
      }
      var repos := Fetched(response.body);
      SetCachedData(CacheKey, repos, now);
      result := Ok(repos);
    }

    /**
     * `searchRepositories`: fetches (possibly from the cache) and applies the
     * search filter; a fetch error is passed on unchanged.
     */
    method SearchRepositories(query: string, now: int, response: Response)
      returns (result: Result<seq<Repository>, FetchError>, requested: bool)
      modifies this
      ensures old(Lookup(cache, CacheKey, now)).Some? ==>
        !requested && result == Ok(Search(old(Lookup(cache, CacheKey, now)).value, query)) && cache == old(cache)
      ensures old(Lookup(cache, CacheKey, now)).None? ==> requested
      ensures old(Lookup(cache, CacheKey, now)).None? && !response.Ok() ==>
        result == Err(ApiError(response.status)) && cache == old(cache)
      ensures old(Lookup(cache, CacheKey, now)).None? && response.Ok() ==>
        result == Ok(Search(Fetched(response.body), query)) &&
        cache == old(cache)[CacheKey := CacheEntry(Fetched(response.body), now)]
    {
      var all;
      all, requested := FetchRepositories(now, response);
      if all.Err? {
        return Err(all.error), requested;
      }
      result := Ok(Search(all.value, query));
    }
  }
}
