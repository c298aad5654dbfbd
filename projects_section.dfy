/**
 * The view query layer of the projects section: the language list offered as
 * filter badges, the composed search and language filters, the six-card display
 * window with its show-more control, and the view state they read.
 */
module ProjectsSection {
  import opened Basics
  import opened Text
  import opened Seqs
  import opened GitHub

  /** Cards shown before "Show More" is pressed. */
  const DefaultDisplayCount: nat := 6

  // ---------------------------------------------------------------------------
  // Available languages
  // ---------------------------------------------------------------------------

  /** Some record of `repos` has language `lang`. */
  predicate UsesLanguage(repos: seq<Repository>, lang: string) {
    exists k :: 0 <= k < |repos| && repos[k].language == Some(lang)
  }

  /** `repos.map(r => r.language).filter(Boolean)`: the non-null, non-empty languages in record order. */
  function Languages(repos: seq<Repository>): (langs: seq<string>)
    ensures forall l :: l in langs <==> l != "" && UsesLanguage(repos, l)
  {
    if repos == [] then []
    else
      var rest := Languages(repos[1..]);
      assert forall l :: UsesLanguage(repos, l) <==> repos[0].language == Some(l) || UsesLanguage(repos[1..], l) by {
        forall l ensures UsesLanguage(repos, l) <==> repos[0].language == Some(l) || UsesLanguage(repos[1..], l) {
          if UsesLanguage(repos[1..], l) {
            var k :| 0 <= k < |repos[1..]| && repos[1..][k].language == Some(l);
            assert repos[k + 1] == repos[1..][k];
          }
          if UsesLanguage(repos, l) && repos[0].language != Some(l) {
            var k :| 0 <= k < |repos| && repos[k].language == Some(l);
            assert repos[1..][k - 1] == repos[k];
          }
        }
      }
      match repos[0].language
      case Some(l) => if l != "" then [l] + rest else rest
      case None => rest
  }

  /** No value occurs twice. */
  predicate Distinct(s: seq<string>) {
    forall i, j :: 0 <= i < j < |s| ==> s[i] != s[j]
  }

  /** `s.filter((x, i, arr) => arr.indexOf(x) === i)`: each value at its first occurrence. */
  function FirstOccurrences(s: seq<string>): (r: seq<string>)
    ensures forall x :: x in r <==> x in s
    ensures Distinct(r)
  {
    if s == [] then []
    else
      var init := FirstOccurrences(s[..|s| - 1]);
      var last := s[|s| - 1];
      assert s == s[..|s| - 1] + [last];
      if last in s[..|s| - 1] then init else init + [last]
  }

  /** Inserts `x` in front of the first element not less than it. */
  function InsertString(x: string, s: seq<string>): (r: seq<string>)
    ensures multiset(r) == multiset(s) + multiset{x}
    ensures |r| == |s| + 1 && (r[0] == x || (s != [] && r[0] == s[0]))
  {
    if s == [] || !LexLess(s[0], x) then [x] + s
    else
      assert s == [s[0]] + s[1..];
      [s[0]] + InsertString(x, s[1..])
  }

  /** `s.sort()` on strings: a stable sort in the default string order. */
  function SortStrings(s: seq<string>): (r: seq<string>)
    ensures multiset(r) == multiset(s)
  {
    if s == [] then []
    else
      assert s == [s[0]] + s[1..];
      InsertString(s[0], SortStrings(s[1..]))
  }

  /** Each element is strictly less than the next one. */
  predicate Ascending(s: seq<string>) {
    forall i :: 0 < i < |s| ==> LexLess(s[i - 1], s[i])
  }

  lemma {:induction false} InsertKeepsAscending(x: string, s: seq<string>)
    requires Ascending(s) && x !in s
    ensures Ascending(InsertString(x, s))
  {
    if s != [] {
      if !LexLess(s[0], x) {
        LexLessTotal(x, s[0]);
        var r := [x] + s;
        forall i | 0 < i < |r| ensures LexLess(r[i - 1], r[i]) {
          if i > 1 {
            assert r[i - 1] == s[i - 2] && r[i] == s[i - 1];
          }
        }
      } else {
        InsertKeepsAscending(x, s[1..]);
        var rest := InsertString(x, s[1..]);
        var r := [s[0]] + rest;
        forall i | 0 < i < |r| ensures LexLess(r[i - 1], r[i]) {
          if i == 1 {
            if rest[0] != x {
              assert rest[0] == s[1];
            }
          } else {
            assert r[i - 1] == rest[i - 2] && r[i] == rest[i - 1];
          }
        }
      }
    }
  }

  /** Sorting distinct strings yields a strictly ascending list. */
  lemma {:induction false} SortDistinctAscending(s: seq<string>)
    requires Distinct(s)
    ensures Ascending(SortStrings(s))
  {
    if s != [] {
      assert Distinct(s[1..]) by {
        forall i, j | 0 <= i < j < |s[1..]| ensures s[1..][i] != s[1..][j] {
          assert s[1..][i] == s[i + 1] && s[1..][j] == s[j + 1];
        }
      }
      SortDistinctAscending(s[1..]);
      var rest := SortStrings(s[1..]);
      assert s[0] !in s[1..];
      assert s[0] !in multiset(rest);
      InsertKeepsAscending(s[0], rest);
    }
  }

  /** An ascending list is ordered between every pair of positions, not only neighbours. */
  lemma {:induction false} AscendingPairwise(s: seq<string>)
    requires Ascending(s)
    ensures forall i, j :: 0 <= i < j < |s| ==> LexLess(s[i], s[j])
  {
    if |s| > 1 {
      AscendingPairwise(s[1..]);
      forall i, j | 0 <= i < j < |s| ensures LexLess(s[i], s[j]) {
        if i == 0 {
          if j > 1 {
            assert LexLess(s[1..][0], s[1..][j - 1]);
            LexLessTransitive(s[0], s[1], s[j]);
          }
        } else {
          assert LexLess(s[1..][i - 1], s[1..][j - 1]);
        }
      }
    }
  }

  /** `availableLanguages` */
  function AvailableLanguages(repos: seq<Repository>): seq<string> {
    SortStrings(FirstOccurrences(Languages(repos)))
  }

  /**
   * The language list is strictly ascending (hence free of duplicates) and holds
   * exactly the non-empty languages that some record has.
   */
  lemma AvailableLanguagesSpec(repos: seq<Repository>)
    ensures var langs := AvailableLanguages(repos);
      forall i, j :: 0 <= i < j < |langs| ==> LexLess(langs[i], langs[j])
    ensures forall l :: l in AvailableLanguages(repos) <==> l != "" && UsesLanguage(repos, l)
  {
    var unique := FirstOccurrences(Languages(repos));
    SortDistinctAscending(unique);
    AscendingPairwise(SortStrings(unique));
    forall l ensures l in AvailableLanguages(repos) <==> l in unique {
      assert l in AvailableLanguages(repos) <==> l in multiset(SortStrings(unique));
    }
  }

  // ---------------------------------------------------------------------------
  // Filtering
  // ---------------------------------------------------------------------------

  /** `repo.language === selectedLanguage`: an exact, case-sensitive match. */
  predicate InLanguage(r: Repository, lang: string) {
    r.language == Some(lang)
  }

  /** `filteredRepositories`: the search filter, then the language filter when a language is selected. */
  function FilteredRepositories(repos: seq<Repository>, searchQuery: string, selectedLanguage: string): seq<Repository> {
    var searched := Search(repos, searchQuery);
    if selectedLanguage == "" then searched
    else Filter(searched, (r: Repository) => InLanguage(r, selectedLanguage))
  }

  /** The search filter as a predicate on one record (a blank query passes everything). */
  predicate PassesSearch(r: Repository, searchQuery: string) {
    Blank(searchQuery) || Matches(r, Lower(searchQuery))
  }

  /** The language filter as a predicate on one record (no selection passes everything). */
  predicate PassesLanguage(r: Repository, selectedLanguage: string) {
    selectedLanguage == "" || InLanguage(r, selectedLanguage)
  }

  /** Both filters together are one filter by the conjunction of the two predicates. */
  lemma FilteredIsConjunction(repos: seq<Repository>, searchQuery: string, selectedLanguage: string)
    ensures FilteredRepositories(repos, searchQuery, selectedLanguage) ==
      Filter(repos, (r: Repository) => PassesSearch(r, searchQuery) && PassesLanguage(r, selectedLanguage))
  {
    var both := (r: Repository) => PassesSearch(r, searchQuery) && PassesLanguage(r, selectedLanguage);
    var search := (r: Repository) => Matches(r, Lower(searchQuery));
    var language := (r: Repository) => InLanguage(r, selectedLanguage);
    if Blank(searchQuery) {
      if selectedLanguage == "" {
        FilterAll(repos, both);
      } else {
        FilterFilter(repos, (r: Repository) => true, language, both);
        FilterAll(repos, (r: Repository) => true);
      }
    } else {
      if selectedLanguage == "" {
        FilterFilter(repos, search, (r: Repository) => true, both);
        FilterAll(Filter(repos, search), (r: Repository) => true);
      } else {
        FilterFilter(repos, search, language, both);
      }
    }
  }

  /**
   * The filtered list is an order-preserving subsequence of the records, holds
   * exactly the records passing both filters with their multiplicity, and is the
   * same whichever filter is applied first.
   */
  lemma FilteredSpec(repos: seq<Repository>, searchQuery: string, selectedLanguage: string)
    ensures IsSubsequence(FilteredRepositories(repos, searchQuery, selectedLanguage), repos)
    ensures forall r :: multiset(FilteredRepositories(repos, searchQuery, selectedLanguage))[r] ==
                        if PassesSearch(r, searchQuery) && PassesLanguage(r, selectedLanguage) then multiset(repos)[r] else 0
    ensures FilteredRepositories(repos, searchQuery, selectedLanguage) ==
      Filter(Filter(repos, (r: Repository) => PassesLanguage(r, selectedLanguage)), (r: Repository) => PassesSearch(r, searchQuery))
  {
    var both := (r: Repository) => PassesSearch(r, searchQuery) && PassesLanguage(r, selectedLanguage);
    var search := (r: Repository) => PassesSearch(r, searchQuery);
    var language := (r: Repository) => PassesLanguage(r, selectedLanguage);
    FilteredIsConjunction(repos, searchQuery, selectedLanguage);
    FilterIsSubsequence(repos, both);
    forall r ensures multiset(Filter(repos, both))[r] == if both(r) then multiset(repos)[r] else 0 {
      FilterCount(repos, both, r);
    }
    FilterFilter(repos, language, search, both);
  }

  /** With a blank search and no language selected, nothing is filtered out. */
  lemma FilteredWithoutFilters(repos: seq<Repository>, searchQuery: string)
    requires Blank(searchQuery)
    ensures FilteredRepositories(repos, searchQuery, "") == repos
  {
  }

  /** With a language selected, every remaining record has exactly that language. */
  lemma FilteredLanguageExact(repos: seq<Repository>, searchQuery: string, selectedLanguage: string)
    requires selectedLanguage != ""
    ensures forall r :: r in FilteredRepositories(repos, searchQuery, selectedLanguage) ==> r.language == Some(selectedLanguage)
  {
  }

  /** Filtering a newest-first list leaves it newest first. */
  lemma FilteredNewestFirst(repos: seq<Repository>, searchQuery: string, selectedLanguage: string)
    requires NewestFirst(repos)
    ensures NewestFirst(FilteredRepositories(repos, searchQuery, selectedLanguage))
  {
    FilteredIsConjunction(repos, searchQuery, selectedLanguage);
    FilterKeepsOrder(repos, (r: Repository) => PassesSearch(r, searchQuery) && PassesLanguage(r, selectedLanguage), UpdatedNoEarlier);
  }

  // ---------------------------------------------------------------------------
  // Display window
  // ---------------------------------------------------------------------------

  /** `displayedRepositories`: everything when `showAll`, otherwise the first six. */
  function DisplayedRepositories(filtered: seq<Repository>, showAll: bool): seq<Repository> {
    if showAll then filtered else Take(filtered, DefaultDisplayCount)
  }

  /**
   * The window is the whole list when `showAll`; otherwise it is the first
   * `min(6, |filtered|)` records and, on a newest-first list, no hidden record is
   * newer than a shown one.
   */
  lemma DisplayedSpec(filtered: seq<Repository>, showAll: bool)
    ensures showAll ==> DisplayedRepositories(filtered, showAll) == filtered
    ensures !showAll ==> var shown := DisplayedRepositories(filtered, showAll);
      |shown| == (if |filtered| < 6 then |filtered| else 6) && shown == filtered[..|shown|]
    ensures !showAll && NewestFirst(filtered) ==> var n := |DisplayedRepositories(filtered, showAll)|;
      forall i, j :: 0 <= i < n <= j < |filtered| ==> filtered[i].updatedAt >= filtered[j].updatedAt
  {
    if !showAll && NewestFirst(filtered) {
      var n := |DisplayedRepositories(filtered, showAll)|;
      forall i, j | 0 <= i < n <= j < |filtered| ensures filtered[i].updatedAt >= filtered[j].updatedAt {
        assert UpdatedNoEarlier(filtered[i], filtered[j]);
      }
    }
  }

  /** The show-more button: present when more than six records pass the filters. */
  function ShowMoreLabel(filtered: seq<Repository>, showAll: bool): Option<string> {
    if |filtered| > DefaultDisplayCount then
      Some(if showAll then "Show Less" else "Show More (" + IntToString(|filtered| - DefaultDisplayCount) + " more)")
    else None
  }

  /**
   * The button exists exactly when more than six records pass the filters, and
   * while collapsed it advertises exactly the number of hidden records.
   */
  lemma ShowMoreSpec(filtered: seq<Repository>, showAll: bool)
    ensures ShowMoreLabel(filtered, showAll).Some? <==> |filtered| > 6
    ensures ShowMoreLabel(filtered, showAll).Some? && !showAll ==>
      var hidden := |filtered| - |DisplayedRepositories(filtered, false)|;
      hidden > 0 && ShowMoreLabel(filtered, showAll) == Some("Show More (" + NatToString(hidden) + " more)")
    ensures ShowMoreLabel(filtered, showAll).Some? && showAll ==> ShowMoreLabel(filtered, showAll) == Some("Show Less")
  {
  }

  // ---------------------------------------------------------------------------
  // View state
  // ---------------------------------------------------------------------------

  /** The section's view state: the search box, the selected language badge and the show-all toggle. */
  class ProjectsView {
    var searchQuery: string
    var selectedLanguage: string
    var showAll: bool

    constructor()
      ensures searchQuery == "" && selectedLanguage == "" && !showAll
    {
      searchQuery, selectedLanguage, showAll := "", "", false;
    }

    /** `hasActiveFilters`: a non-blank search or a selected language. */
    predicate HasActiveFilters()
      reads this
    {
      !Blank(searchQuery) || selectedLanguage != ""
    }

    function Filtered(repos: seq<Repository>): seq<Repository>
      reads this
    {
      FilteredRepositories(repos, searchQuery, selectedLanguage)
    }

    function Displayed(repos: seq<Repository>): seq<Repository>
      reads this
    {
      DisplayedRepositories(Filtered(repos), showAll)
    }

    /** Typing in the search box. */
    method SetSearchQuery(query: string)
      modifies this
      ensures searchQuery == query
      ensures selectedLanguage == old(selectedLanguage) && showAll == old(showAll)
    {
      searchQuery := query;
    }

    /** Clicking a language badge, or "All" (the empty string). */
    method SelectLanguage(language: string)
      modifies this
      ensures selectedLanguage == language
      ensures searchQuery == old(searchQuery) && showAll == old(showAll)
    {
      selectedLanguage := language;
    }

    /** The show-more / show-less button. */
    method ToggleShowAll()
      modifies this
      ensures showAll == !old(showAll)
      ensures searchQuery == old(searchQuery) && selectedLanguage == old(selectedLanguage)
    {
      showAll := !showAll;
    }

    /**
     * `clearFilters`: resets all three fields; afterwards no filter is active and
     * the view shows the first six records of the full list.
     */
    method ClearFilters()
      modifies this
      ensures searchQuery == "" && selectedLanguage == "" && !showAll
      ensures !HasActiveFilters()
      ensures forall repos :: Displayed(repos) == Take(repos, DefaultDisplayCount)
    {
      searchQuery, selectedLanguage, showAll := "", "", false;
      BlankIff("");
      forall repos ensures Displayed(repos) == Take(repos, DefaultDisplayCount) {
        FilteredWithoutFilters(repos, "");
      }
    }
  }
}
