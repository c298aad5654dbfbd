# Portfolio site: repository data source, project views and contact form

A Dafny model of the logic underneath a single-page portfolio site. The rendering and the hard-coded text are not modelled. Four pieces of logic are:

- **Repository data source** (`GitHub`, from `src/services/github.ts`). `GitHubService` keeps an in-memory cache, a map from key to (data, timestamp) that stays fresh for five minutes. `fetchRepositories` answers from a fresh entry without a request. Otherwise it takes the HTTP response: a non-2xx status raises an error carrying the status and caches nothing. A success keeps the non-fork public records, sorts them newest first, caches them under `repos-gsaikrishna8` and returns them. `searchRepositories` filters the fetched list by a case-insensitive substring. `getLanguageColor` is a 19-entry colour table with a neutral default. `formatDate` turns an age in days into "today", "yesterday", days, 30-day months or 365-day years.
- **View query layer** (`ProjectsSection`, from `src/components/ProjectsSection.tsx`). It builds the sorted list of distinct languages, composes the search filter with the exact-language filter, shows the first six cards unless "show all" is on, and owns the view state (search text, selected language, show-all) that `clearFilters` resets.
- **Card presentation rules** (`ProjectCard`, from `src/components/ProjectCard.tsx`). The title turns hyphens into spaces and capitalises each word start, as the regex `\b\w` finds them. At most five topic badges are shown, plus a `+N` overflow badge.
- **Contact form** (`ContactForm`, from `src/pages/Index.tsx`). It covers the e-mail shape check `^[^\s@]+@[^\s@]+\.[^\s@]+$`, the required-field and error-message rules on submit, per-field error clearing while typing, the check when the e-mail field loses focus, and the single expanded experience entry.

Shared helpers sit in `Text` and `Seqs`. `Text` models what the code takes from the JavaScript runtime: `trim`, `\s`, ASCII case mapping, `includes`, decimal printing and the default string order of `sort`. `Seqs` models `filter` and `slice`. `Basics` holds `Option` and `Result`.

Modelling choices:
- Time is an integer count of milliseconds. The clock reading `now` is a parameter.
- The HTTP response is an input value `Response(status, body)`. It is ok when the status is 2xx, as `response.ok` is.
- `FetchRepositories` also returns `requested`, which says whether the network would have been asked.
- An empty cached list still counts as a hit, because an empty array is truthy in JavaScript.
- Object state becomes Dafny classes: the service's cache, the projects section's view state and the page's form state. Their methods state the complete new state.
- `Array.prototype.sort` is stable, so the newest-first sort is a stable insertion sort. Records with equal times keep their input order.

Details of the code's behaviour that the model follows:
- The language list also drops empty-string languages, because of `.filter(Boolean)`.
- The search query is lower-cased but not trimmed. Only the blank test trims it.
- Nothing forces the selected language to be one of the available languages.

## Model

| member | source | states |
|---|---|---|
| `Text.IsSpace` | src/services/github.ts:71 | the white-space set of `trim` and of the regex class `\s`: tab, line feed, vertical tab, form feed, carriage return, space, no-break space, the line and paragraph separators, the Unicode space separators and the byte-order mark |
| `Text.Trim` | src/services/github.ts:71 | `trim`: leading and trailing white space removed; its properties are those of `Text.TrimStart` and `Text.TrimEnd` |
| `Text.Blank` | src/services/github.ts:71 | `!s.trim()`: the trimmed text is empty; characterised by `Text.BlankIff` |
| `Text.UpperChar` | src/components/ProjectCard.tsx:48 | `l.toUpperCase()` on one character: a lower-case ASCII letter becomes its capital and every other character is kept; `ProjectCard.UpperCharFacts` shows it keeps the word class and is idempotent |
| `Text.Lower` | src/services/github.ts:75 | `toLowerCase`: same length, each character mapped by the ASCII lower-case map |
| `Text.IntToString` | src/services/github.ts:121 | a template-literal integer is decimal digits with no leading zero that read back as the number, after a `-` exactly when it is negative |
| `Text.BlankIff` | src/services/github.ts:71 | `!query.trim()` holds exactly when every character is JavaScript white space |
| `Text.TrimStart` | src/services/github.ts:71 | drops exactly the leading white space: the result is a suffix that does not start with a space, and everything removed is space |
| `Text.TrimEnd` | src/services/github.ts:71 | drops exactly the trailing white space: the result is a prefix that does not end with a space, and everything removed is space |
| `Text.Contains` | src/services/github.ts:76-80 | `includes`: true exactly when the term occurs in the text at some position |
| `Text.NatToString` | src/services/github.ts:121 | the numeral printed in a label is all digits, has no leading zero, and its digits read back as the number |
| `Text.LexLess` | src/components/ProjectsSection.tsx:40 | the default order of `sort` on strings: character by character, a proper prefix first; a strict total order by `Text.LexLessIrreflexive`, `Text.LexLessTransitive` and `Text.LexLessTotal` |
| `Text.LexLessTotal` | src/components/ProjectsSection.tsx:40 | the default sort order ranks any two different strings one way or the other |
| `Text.LexLessTransitive` | src/components/ProjectsSection.tsx:40 | the default sort order is transitive |
| `Text.LexLessIrreflexive` | src/components/ProjectsSection.tsx:40 | no string sorts before itself |
| `Seqs.Filter` | src/components/ProjectsSection.tsx:51-61 | `filter`: no longer than its input, and every kept element is in the input and satisfies the predicate; the other lemmas in `Seqs` characterise it fully |
| `Seqs.FilterIsSubsequence` | src/components/ProjectsSection.tsx:51-61 | `filter` returns an order-preserving subsequence |
| `Seqs.FilterCount` | src/components/ProjectsSection.tsx:51-61 | `filter` keeps each satisfying element with its full multiplicity and drops every other one |
| `Seqs.FilterAll` | src/components/ProjectsSection.tsx:49 | a filter that passes everything returns the list itself |
| `Seqs.FilterFilter` | src/components/ProjectsSection.tsx:49-62 | two successive filters equal one filter by the conjunction |
| `Seqs.FilterCommutes` | src/components/ProjectsSection.tsx:49-62 | the order of two filters does not matter |
| `Seqs.FilterKeepsOrder` | src/components/ProjectsSection.tsx:45-65 | filtering keeps any order that held between all pairs, such as newest first |
| `Seqs.Take` | src/components/ProjectsSection.tsx:69 | `slice(0, n)` is the prefix of length `min(n, length)` |
| `GitHub.Response.Ok` | src/services/github.ts:47 | `response.ok`: the status is between 200 and 299 |
| `GitHub.ErrorMessage` | src/services/github.ts:47-49 | the thrown message is "GitHub API error: " followed by decimal digits (after a `-` for a negative status) that read back as exactly the status code |
| `GitHub.Lookup` | src/services/github.ts:23-29 | what a cache read at `now` yields: the stored data while `now - timestamp < 300000`; its behaviour after a store is `GitHub.StoreThenLookup` |
| `GitHub.StoreThenLookup` | src/services/github.ts:21-33 | after a store at `now`, reads of that key hit exactly before `now + 300000`, and other keys are unaffected |
| `GitHub.GitHubService.constructor` | src/services/github.ts:20 | the service starts with an empty cache |
| `GitHub.GitHubService.GetCachedData` | src/services/github.ts:23-29 | returns the stored data exactly when an entry exists and `now - timestamp < 300000`, otherwise nothing |
| `GitHub.GitHubService.SetCachedData` | src/services/github.ts:31-33 | the key now maps to (data, now); every other entry is unchanged |
| `GitHub.GitHubService.FetchRepositories` | src/services/github.ts:35-66 | fresh cache: returns the cached list, makes no request, leaves the cache alone; non-2xx: fails with the status and caches nothing; success: returns and caches the listed records, newest first, stamped `now` |
| `GitHub.GitHubService.SearchRepositories` | src/services/github.ts:68-82 | same cache and error behaviour as the fetch; on success, returns the search filter applied to the fetched list |
| `GitHub.InsertNewestFirst` | src/services/github.ts:56 | insertion adds exactly the one record to the list's contents |
| `GitHub.InsertKeepsNewestFirst` | src/services/github.ts:56 | inserting into a newest-first list keeps it newest first |
| `GitHub.SortNewestFirst` | src/services/github.ts:56 | the sort returns a permutation of its input that is non-increasing in update time |
| `GitHub.IsListed` | src/services/github.ts:55 | a record is kept when it is not a fork and its visibility is "public" |
| `GitHub.Listed` | src/services/github.ts:55 | the fork and visibility filter, keeping order; its contents are stated by `GitHub.FetchedSpec` |
| `GitHub.Fetched` | src/services/github.ts:54-56 | the success path's list: non-fork public records, sorted newest first; proved correct by `GitHub.FetchedSpec` |
| `GitHub.FetchedSpec` | src/services/github.ts:54-56 | the fetched list holds exactly the non-fork public records, each as often as in the response, ordered newest first |
| `GitHub.TopicMatches` | src/services/github.ts:80 | `topics.some(...)`: some topic, lower-cased, contains the term |
| `GitHub.Matches` | src/services/github.ts:76-80 | the search predicate: the lower-cased name, description, language or a topic contains the term; a missing description or language does not match |
| `GitHub.Search` | src/services/github.ts:71-81 | the search filter on a fetched list; proved correct by `GitHub.SearchSpec` |
| `GitHub.SearchSpec` | src/services/github.ts:71-81 | a blank query returns the list unchanged; a non-blank one keeps exactly the records whose name, description, language or a topic contains the lower-cased query, in order |
| `GitHub.SearchFindsByName` | src/services/github.ts:75-77 | the query "api" finds a record named "api" |
| `GitHub.SearchDoesNotTrimQuery` | src/services/github.ts:71-75 | the query is not trimmed: "api " does not find that record |
| `GitHub.LanguageColor` | src/services/github.ts:84-108 | every answer is a `#rrggbb` colour; a listed language gets its table colour; the default `#6b7280` is returned exactly for a missing, empty or unlisted language |
| `GitHub.LanguageColorExamples` | src/services/github.ts:95-107 | Rust is `#dea584`; null, "" and Cobol get the default |
| `GitHub.ElapsedDays` | src/services/github.ts:111-114 | the day count is the elapsed time divided by a day and rounded down |
| `GitHub.ElapsedWholeDays` | src/services/github.ts:114 | exactly `k` days back is `k` days old |
| `GitHub.AgeBuckets` | src/services/github.ts:116-128 | 0 is today and 1 is yesterday; other counts below 30 print as they are; 30 to 364 days print whole months between 1 and 12; 365 and more print whole years of at least 1 |
| `GitHub.UnitSingularIffOne` | src/services/github.ts:122-128 | the unit word is singular exactly when the count is 1 |
| `GitHub.AgeOf` | src/services/github.ts:116-128 | the branch a day count takes: 0, 1, below 30, below 365, otherwise; months are whole 30-day and years whole 365-day periods; bounds in `GitHub.AgeBuckets` |
| `GitHub.AgeLabel` | src/services/github.ts:116-128 | the text of each branch, with the plural `s` for counts above 1; stated by `GitHub.UnitSingularIffOne` and `GitHub.AgeLabelHasNoSign` |
| `GitHub.FormatDate` | src/services/github.ts:110-128 | `formatDate` as written: the day count rounded down, then bucketed and printed; its labels are pinned by `GitHub.AgeBuckets`, `GitHub.FormatDateBoundaries` and `GitHub.FormatDateFutureDate` |
| `GitHub.FormatDateBoundaries` | src/services/github.ts:110-128 | 0, 1, 29, 30, 364 and 365 days give "today", "yesterday", "29 days", "1 month", "12 months" and "1 year" |
| `GitHub.FormatDateFutureDate` | src/services/github.ts:114-121 | as written, any update time from 1 ms up to one day in the future is labelled "Updated -1 days ago" |
| `GitHub.AgeLabelHasNoSign` | src/services/github.ts:116-128 | a label whose count is non-negative contains no minus sign |
| `GitHub.FormatDateClamped` | src/services/github.ts:110-128 | the corrected label, counting a future update time as 0 days; proved correct by `GitHub.FormatDateClampedSpec` |
| `GitHub.FormatDateClampedSpec` | src/services/github.ts:110-128 | the corrected label never shows a minus sign, reads "Updated today" for any future time, and otherwise agrees with the original |
| `ProjectsSection.Languages` | src/components/ProjectsSection.tsx:36-38 | the mapped, truthy languages are exactly the non-empty languages some record has |
| `ProjectsSection.FirstOccurrences` | src/components/ProjectsSection.tsx:39 | the `indexOf` filter keeps the same set of values with no duplicates |
| `ProjectsSection.InsertString` | src/components/ProjectsSection.tsx:40 | insertion adds exactly one string to the contents |
| `ProjectsSection.SortStrings` | src/components/ProjectsSection.tsx:40 | the string sort returns a permutation of its input |
| `ProjectsSection.InsertKeepsAscending` | src/components/ProjectsSection.tsx:40 | inserting a new string into a strictly ascending list keeps it strictly ascending |
| `ProjectsSection.SortDistinctAscending` | src/components/ProjectsSection.tsx:39-40 | sorting the de-duplicated strings gives a strictly ascending list |
| `ProjectsSection.AscendingPairwise` | src/components/ProjectsSection.tsx:40 | a list ascending between neighbours is ascending between every pair |
| `ProjectsSection.AvailableLanguages` | src/components/ProjectsSection.tsx:35-42 | the language list: truthy languages, first occurrences, sorted; proved correct by `ProjectsSection.AvailableLanguagesSpec` |
| `ProjectsSection.AvailableLanguagesSpec` | src/components/ProjectsSection.tsx:35-42 | the language list is strictly ascending, so it has no duplicates, and holds exactly the non-empty languages that occur |
| `ProjectsSection.InLanguage` | src/components/ProjectsSection.tsx:61 | `repo.language === selectedLanguage`: the record has exactly that language, so a record without a language never passes |
| `ProjectsSection.FilteredRepositories` | src/components/ProjectsSection.tsx:45-65 | the search filter when the query is not blank, then the exact-language filter when a language is selected; proved correct by `ProjectsSection.FilteredSpec` |
| `ProjectsSection.FilteredIsConjunction` | src/components/ProjectsSection.tsx:45-65 | the two conditional filters equal one filter by (passes search and passes language) |
| `ProjectsSection.FilteredSpec` | src/components/ProjectsSection.tsx:45-65 | the result is an order-preserving subsequence holding exactly the records that pass both filters, and applying the language filter first gives the same list |
| `ProjectsSection.FilteredWithoutFilters` | src/components/ProjectsSection.tsx:49-64 | a blank search with no language selected returns every record |
| `ProjectsSection.FilteredLanguageExact` | src/components/ProjectsSection.tsx:60-62 | with a language selected, every kept record has exactly that language |
| `ProjectsSection.FilteredNewestFirst` | src/components/ProjectsSection.tsx:45-65 | filtering a newest-first list leaves it newest first |
| `ProjectsSection.DisplayedRepositories` | src/components/ProjectsSection.tsx:67-69 | the whole filtered list under show-all, otherwise its first six; proved correct by `ProjectsSection.DisplayedSpec` |
| `ProjectsSection.DisplayedSpec` | src/components/ProjectsSection.tsx:67-69 | show-all gives the whole list; otherwise the first `min(6, n)` records, and on a newest-first list no hidden record is newer than a shown one |
| `ProjectsSection.ShowMoreLabel` | src/components/ProjectsSection.tsx:249-256 | the show-more button's text, absent when at most six records pass; proved correct by `ProjectsSection.ShowMoreSpec` |
| `ProjectsSection.ProjectsView.HasActiveFilters` | src/components/ProjectsSection.tsx:85 | a non-blank search or a selected language; `ProjectsSection.ProjectsView.ClearFilters` makes it false |
| `ProjectsSection.ShowMoreSpec` | src/components/ProjectsSection.tsx:249-256 | the button exists exactly when more than 6 records pass; collapsed, it advertises exactly the number of hidden records; expanded, it reads "Show Less" |
| `ProjectsSection.ProjectsView.Filtered` | src/components/ProjectsSection.tsx:45-65 | the filtered list computed from the view's current search text and selected language |
| `ProjectsSection.ProjectsView.Displayed` | src/components/ProjectsSection.tsx:67-69 | the display window of the filtered list under the view's current show-all flag; after `ProjectsSection.ProjectsView.ClearFilters` it is the first six records |
| `ProjectsSection.ProjectsView.constructor` | src/components/ProjectsSection.tsx:15-17 | starts with an empty search, no language and show-all off |
| `ProjectsSection.ProjectsView.SetSearchQuery` | src/components/ProjectsSection.tsx:133 | typing changes only the search text |
| `ProjectsSection.ProjectsView.SelectLanguage` | src/components/ProjectsSection.tsx:178-194 | a badge click changes only the selected language ("" for All) |
| `ProjectsSection.ProjectsView.ToggleShowAll` | src/components/ProjectsSection.tsx:253 | the button flips show-all and nothing else |
| `ProjectsSection.ProjectsView.ClearFilters` | src/components/ProjectsSection.tsx:79-85 | resets to ("", "", false); afterwards no filter is active and the view shows the first six records of the full list |
| `ProjectCard.IsWordChar` | src/components/ProjectCard.tsx:48 | the regex class `\w`: ASCII letters, digits and `_` |
| `ProjectCard.ReplaceHyphens` | src/components/ProjectCard.tsx:48 | every hyphen becomes a space and nothing else changes |
| `ProjectCard.CapitalizeFrom` | src/components/ProjectCard.tsx:48 | the left-to-right `\b\w` replacement keeps the length and upper-cases exactly the word characters that follow a non-word character, given what preceded the text; every other character is kept |
| `ProjectCard.CapitalizeWords` | src/components/ProjectCard.tsx:48 | the `\b\w` replacement on a whole string, with no word character before it; characterised by `ProjectCard.CapitalizeWordsAt` |
| `ProjectCard.CapitalizeWordsAt` | src/components/ProjectCard.tsx:48 | exactly the positions where `\b\w` matches are upper-cased; every other character is kept |
| `ProjectCard.Title` | src/components/ProjectCard.tsx:48 | hyphens to spaces, then `\b\w` upper-cased; proved correct by `ProjectCard.TitleShape` and `ProjectCard.TitleCapitalizesWordStarts` |
| `ProjectCard.TitleShape` | src/components/ProjectCard.tsx:48 | the title is as long as the name, each character is kept, upper-cased, or (a hyphen) made a space, and the title has no hyphen |
| `ProjectCard.TitleCapitalizesWordStarts` | src/components/ProjectCard.tsx:48 | a lower-case letter is upper-cased exactly when it is first or follows a non-word character; `_`, digits and letters count as word characters; letters inside a word are unchanged |
| `ProjectCard.UpperCharFacts` | src/components/ProjectCard.tsx:48 | upper-casing keeps a character's word class and is idempotent |
| `ProjectCard.TitleIdempotent` | src/components/ProjectCard.tsx:48 | deriving the title twice gives the same result as once |
| `ProjectCard.ShownTopics` | src/components/ProjectCard.tsx:62 | `topics.slice(0, 5)`; proved correct by `ProjectCard.TopicBadgesSpec` |
| `ProjectCard.OverflowBadge` | src/components/ProjectCard.tsx:71-75 | the `+N` badge for more than five topics; proved correct by `ProjectCard.TopicBadgesSpec` |
| `ProjectCard.HasExtendedContent` | src/components/ProjectCard.tsx:18 | the expand control exists when the record has at least one topic |
| `ProjectCard.TopicBadgesSpec` | src/components/ProjectCard.tsx:18-74 | the first five topics are shown in order (all of them when there are fewer than five); the `+N` badge appears exactly when topics are hidden and reads `+(topics.length - 5)`, the number hidden; the expand control exists exactly when there are topics |
| `ProjectCard.Card` | src/components/ProjectCard.tsx:15-74 | the values one card shows; its date label is `GitHub.FormatDate` as written, not the corrected label; its properties are `ProjectCard.CardSpec` |
| `ProjectCard.CardSpec` | src/components/ProjectCard.tsx:15-48 | a card's title has no hyphen; its date label has no negative count when the update time is not ahead of `now`, and reads "Updated -1 days ago" when it is up to a day ahead; it shows a `#rrggbb` colour dot exactly for a non-empty language |
| `ContactForm.Plain` | src/pages/Index.tsx:52 | the regex class `[^\s@]`: neither JavaScript white space nor `@` |
| `ContactForm.ValidateEmail` | src/pages/Index.tsx:51-54 | the regex test, as a split of the address into the parts the regex matches; characterised by `ContactForm.ValidateEmailIffShape` and `ContactForm.ValidateEmailStructure` |
| `ContactForm.ValidateEmailIffShape` | src/pages/Index.tsx:51-54 | an address is valid exactly when it is `L@A.B` with `L`, `A`, `B` non-empty and free of white space and `@` |
| `ContactForm.PlainSlice` | src/pages/Index.tsx:52 | a slice whose characters all lack white space and `@` matches `[^\s@]*` |
| `ContactForm.ValidateEmailStructure` | src/pages/Index.tsx:51-54 | valid exactly when there is no white space and one `@`, not first, and the domain after it has a `.` that is neither its first nor last character |
| `ContactForm.ValidateEmailRejectsSurroundingSpace` | src/pages/Index.tsx:64-68 | the untrimmed address is checked, so leading or trailing white space is rejected |
| `ContactForm.ValidEmailNotBlank` | src/pages/Index.tsx:64-68 | a valid address is never blank, so the two e-mail errors cannot both apply |
| `ContactForm.SubmitErrors` | src/pages/Index.tsx:58-68 | the errors object built on submit; proved correct by `ContactForm.SubmitErrorsSpec` |
| `ContactForm.SubmitErrorsSpec` | src/pages/Index.tsx:56-72 | "Name is required" exactly for a blank name; "Email is required" exactly for a blank address; "Please enter a valid email" exactly for a non-blank invalid one; no errors exactly for a non-blank name and a valid address; the message is never examined |
| `ContactForm.WithField` | src/pages/Index.tsx:87 | the change sets the named field to the value and leaves the other fields as they were |
| `ContactForm.HasError` | src/pages/Index.tsx:88 | `formErrors[field]` is truthy: the field has an error that is not the empty string |
| `ContactForm.ErrorsAfterInput` | src/pages/Index.tsx:88-90 | a non-empty error on the changed field becomes ""; otherwise, and for every other field, the errors are unchanged |
| `ContactForm.ErrorsAfterEmailBlur` | src/pages/Index.tsx:402-406 | a non-empty invalid address sets the e-mail error; the name error is never touched; otherwise nothing changes |
| `ContactForm.ToggleExpanded` | src/pages/Index.tsx:93-95 | the entry is open afterwards exactly when it was not open before; otherwise none is open |
| `ContactForm.ToggleTwice` | src/pages/Index.tsx:93-95 | clicking the same entry twice restores a closed or open-on-it state |
| `ContactForm.IndexPage.constructor` | src/pages/Index.tsx:23-29 | empty form, no errors, nothing expanded |
| `ContactForm.IndexPage.HandleFormSubmit` | src/pages/Index.tsx:56-84 | records the errors of the submitted contents; succeeds exactly for a non-blank name and a valid address, and then clears all three fields |
| `ContactForm.IndexPage.HandleInputChange` | src/pages/Index.tsx:86-91 | updates only the changed field and clears only that field's shown error |
| `ContactForm.IndexPage.HandleEmailBlur` | src/pages/Index.tsx:402-406 | applies the blur rule to the current address and leaves the form contents and the name error untouched |
| `ContactForm.IndexPage.ToggleExperience` | src/pages/Index.tsx:93-95 | opens the entry exactly when it was not the open one, and changes nothing else |

## Left out

- The `fetch` call and `response.json()` are not modelled; the response is an input value. Transport errors thrown by the HTTP client are also left out: nothing in the model can produce them, and they would pass through unchanged.
- The `console.error` call on failure is logging only.
- react-query behaviour is library code: `staleTime`, `retry`, `retryDelay`, `refetch` and the refresh button that calls it.
- Concurrency is out: overlapping fetches racing to overwrite the cache. The model is single-threaded.
- The service reads the clock twice, once for the lookup (`src/services/github.ts:25`) and again when it stores the entry after the response has arrived (`src/services/github.ts:32`). The model merges the two readings into the call's single `now`. A model entry therefore expires five minutes after the call starts, while a real one expires five minutes after the response arrives.
- Reading the clock and parsing ISO-8601 dates are out; times are integer milliseconds, and an unparseable date (NaN) is not represented.
- Case mapping covers ASCII letters only. JavaScript's full Unicode `toLowerCase` and `toUpperCase` are not modelled. The title transform is unaffected, because `\w` is ASCII-only.
- `SortStrings` compares characters by code point. JavaScript compares UTF-16 code units, and the two orders differ only between characters above U+FFFF and those in U+E000–U+FFFF.
- `SortNewestFirst`: stability is part of the definition, since records with equal times keep their input order, but no lemma states it.
- The lookup `colors[language || '']` would also find prototype keys such as "toString". That JavaScript quirk is not modelled.
- The unique `id` of each record is an assumption about the remote API; the code does not check it.
- The card's `isExpanded` toggle only switches the CSS visibility of the topic badges. It is not modelled.
- Rendering is not modelled: JSX, CSS classes, icons, skeleton placeholders, the "Showing X of Y" line and the empty-state texts. Neither are `toast`, `window.open`, the shake animation driven by `setTimeout`, or the static skills, experience and education content.
- `ContactForm.IndexPage.HandleEmailBlur` reads the address from the form state rather than from the DOM event; the input is controlled, so the two agree.
- The cache's `data: any` is typed as a repository list, the only thing the code stores in it.

## Findings

| source | as written | input that shows it | evidently intended | confidence | as-written member | corrected member |
|---|---|---|---|---|---|---|
| src/services/github.ts:114-121 | `Math.floor` rounds a negative elapsed time down to -1 day, and -1 falls into the "N days ago" branch | an update time 1 ms after `now` (the reader's clock slightly behind the server's) gives "Updated -1 days ago" | an update time in the future reads "Updated today" | medium (not executed) | `GitHub.FormatDateFutureDate` | `GitHub.FormatDateClampedSpec` |

The card model (`ProjectCard.Card`) uses the label as written, `GitHub.FormatDate`, as `src/components/ProjectCard.tsx:16` does; `ProjectCard.CardSpec` shows the negative label reaching the card. The corrected label is `GitHub.FormatDateClamped`.
