/**
 * The presentation rules of one project card: the title derived from the
 * repository name, the topic badges with their overflow count, and the values
 * the card shows beside them.
 */
module ProjectCard {
  import opened Basics
  import opened Text
  import opened GitHub

  // ---------------------------------------------------------------------------
  // Title
  // ---------------------------------------------------------------------------

  /** The regex class `\w`: ASCII letters, digits and `_`. */
  predicate IsWordChar(c: char) {
    'a' <= c <= 'z' || 'A' <= c <= 'Z' || '0' <= c <= '9' || c == '_'
  }

  /** `s.replace(/-/g, ' ')` */
  function ReplaceHyphens(s: string): (r: string)
    ensures |r| == |s|
    ensures forall i :: 0 <= i < |s| ==> r[i] == if s[i] == '-' then ' ' else s[i]
  {
    seq(|s|, i requires 0 <= i < |s| => if s[i] == '-' then ' ' else s[i])
  }

  /** `\b\w` matches at position `i`: a word character at the start or after a non-word character. */
  predicate StartsWord(s: string, i: int)
    requires 0 <= i < |s|
  {
    IsWordChar(s[i]) && (i == 0 || !IsWordChar(s[i - 1]))
  }

  /** Position `i` opens a word when the character before `s` is a word character iff `afterWord`. */
  predicate OpensWord(s: string, i: int, afterWord: bool)
    requires 0 <= i < |s|
  {
    IsWordChar(s[i]) && !(if i == 0 then afterWord else IsWordChar(s[i - 1]))
  }

  /**
   * `s.replace(/\b\w/g, l => l.toUpperCase())`, as the regex engine scans it from
   * left to right; `afterWord` says whether the previous character was a word character.
   * Exactly the positions that open a word are upper-cased; every other character is kept.
   */
  function CapitalizeFrom(s: string, afterWord: bool): (r: string)
    ensures |r| == |s|
    ensures forall i :: 0 <= i < |s| ==>
      r[i] == if OpensWord(s, i, afterWord) then UpperChar(s[i]) else s[i]
  {
    if s == [] then []
    else
      var c := if IsWordChar(s[0]) && !afterWord then UpperChar(s[0]) else s[0];
      var rest := CapitalizeFrom(s[1..], IsWordChar(s[0]));
      assert forall i :: 1 <= i < |s| ==>
        OpensWord(s[1..], i - 1, IsWordChar(s[0])) == OpensWord(s, i, afterWord) by {
        forall i | 1 <= i < |s|
          ensures OpensWord(s[1..], i - 1, IsWordChar(s[0])) == OpensWord(s, i, afterWord)
        {
          assert s[1..][i - 1] == s[i];
          if i > 1 {
            assert s[1..][i - 2] == s[i - 1];
          }
        }
      }
      [c] + rest
  }

  /** The replacement applied to a whole string, with nothing before it. */
  function CapitalizeWords(s: string): string {
    CapitalizeFrom(s, false)
  }

  /** Exactly the characters where `\b\w` matches are upper-cased; everything else is kept. */
  lemma CapitalizeWordsAt(s: string)
    ensures |CapitalizeWords(s)| == |s|
    ensures forall i :: 0 <= i < |s| ==>
      CapitalizeWords(s)[i] == if StartsWord(s, i) then UpperChar(s[i]) else s[i]
  {
    forall i | 0 <= i < |s| ensures CapitalizeWords(s)[i] == if StartsWord(s, i) then UpperChar(s[i]) else s[i] {
      assert OpensWord(s, i, false) == StartsWord(s, i);
    }
  }

  /** The card title: hyphens become spaces, then each word starts with a capital. */
  function Title(name: string): string {
    CapitalizeWords(ReplaceHyphens(name))
  }

  /**
   * The title is as long as the name; each character is kept, upper-cased, or
   * (for a hyphen) replaced by a space; the title has no hyphen.
   */
  lemma TitleShape(name: string)
    ensures |Title(name)| == |name|
    ensures forall i :: 0 <= i < |name| ==>
      if name[i] == '-' then Title(name)[i] == ' ' else Title(name)[i] in {name[i], UpperChar(name[i])}
    ensures '-' !in Title(name)
  {
    CapitalizeWordsAt(ReplaceHyphens(name));
  }

  /**
   * A lower-case letter is upper-cased exactly when it opens a word: it is first,
   * or follows a character that is not a letter, digit or `_` (a hyphen counts as
   * a separator). A letter inside a word is never changed.
   */
  lemma TitleCapitalizesWordStarts(name: string, i: int)
    requires 0 <= i < |name| && 'a' <= name[i] <= 'z'
    ensures Title(name)[i] == UpperChar(name[i]) <==> i == 0 || !IsWordChar(name[i - 1])
    ensures !(i == 0 || !IsWordChar(name[i - 1])) ==> Title(name)[i] == name[i]
  {
    CapitalizeWordsAt(ReplaceHyphens(name));
  }

  /** Upper-casing keeps a character's word class and is idempotent. */
  lemma UpperCharFacts(c: char)
    ensures IsWordChar(UpperChar(c)) == IsWordChar(c)
    ensures UpperChar(UpperChar(c)) == UpperChar(c)
  {
  }

  /** Deriving the title from a title changes nothing. */
  lemma TitleIdempotent(name: string)
    ensures Title(Title(name)) == Title(name)
  {
    var t := Title(name);
    TitleShape(name);
    var d := ReplaceHyphens(name);
    CapitalizeWordsAt(d);
    assert ReplaceHyphens(t) == t;
    CapitalizeWordsAt(t);
    forall i | 0 <= i < |t| ensures IsWordChar(t[i]) == IsWordChar(d[i]) {
      UpperCharFacts(d[i]);
    }
    forall i | 0 <= i < |t| ensures CapitalizeWords(t)[i] == t[i] {
      UpperCharFacts(d[i]);
    }
  }

  // ---------------------------------------------------------------------------
  // Topics
  // ---------------------------------------------------------------------------

  const MaxTopicBadges: nat := 5

  /** `topics.slice(0, 5)` */
  function ShownTopics(topics: seq<string>): seq<string> {
    if |topics| <= MaxTopicBadges then topics else topics[..MaxTopicBadges]
  }

  /** The `+N` badge, present when some topics are not shown. */
  function OverflowBadge(topics: seq<string>): Option<string> {
    if |topics| > MaxTopicBadges then Some("+" + IntToString(|topics| - MaxTopicBadges)) else None
  }

  /** `hasExtendedContent`: the expand control exists when the record has topics. */
  predicate HasExtendedContent(topics: seq<string>) {
    |topics| > 0
  }

  /**
   * The first five topics (all of them when there are fewer) are shown in order;
   * the overflow badge appears exactly when topics are hidden and reads
   * `+(topics.length - 5)`, the number hidden.
   */
  lemma TopicBadgesSpec(topics: seq<string>)
    ensures |ShownTopics(topics)| == if |topics| < 5 then |topics| else 5
    ensures ShownTopics(topics) == topics[..|ShownTopics(topics)|]
    ensures |topics| <= 5 ==> ShownTopics(topics) == topics
    ensures OverflowBadge(topics).Some? <==> |ShownTopics(topics)| < |topics|
    ensures OverflowBadge(topics).Some? ==>
      OverflowBadge(topics) == Some("+" + NatToString(|topics| - |ShownTopics(topics)|))
    ensures |topics| > 5 ==> OverflowBadge(topics) == Some("+" + NatToString(|topics| - 5))
    ensures HasExtendedContent(topics) <==> topics != []
  {
  }

  // ---------------------------------------------------------------------------
  // The values a card shows
  // ---------------------------------------------------------------------------

  /** Derived values of one card; `languageColor` is absent when no language dot is drawn. */
  datatype CardView = CardView(
    title: string,
    languageColor: Option<string>,
    dateLabel: string,
    topicBadges: seq<string>,
    overflowBadge: Option<string>,
    hasExtendedContent: bool)

  /** The card of `repo` read at time `now`; the date label is `formatDate` as written. */
  function Card(repo: Repository, now: int): CardView {
    CardView(
      Title(repo.name),
      if repo.language.Some? && repo.language.value != "" then Some(LanguageColor(repo.language)) else None,
      FormatDate(now, repo.updatedAt),
      ShownTopics(repo.topics),
      OverflowBadge(repo.topics),
      HasExtendedContent(repo.topics))
  }

  /**
   * A card shows no hyphen in its title, no negative age for an update time
   * that is not ahead of `now` (but "Updated -1 days ago" for one up to a day
   * ahead), and a colour exactly for a named language.
   */
  lemma CardSpec(repo: Repository, now: int)
    ensures '-' !in Card(repo, now).title
    ensures repo.updatedAt <= now ==> '-' !in Card(repo, now).dateLabel
    ensures now < repo.updatedAt <= now + MsPerDay ==> Card(repo, now).dateLabel == "Updated -1 days ago"
    ensures Card(repo, now).languageColor.Some? <==> repo.language.Some? && repo.language.value != ""
    ensures Card(repo, now).languageColor.Some? ==> IsHexColor(Card(repo, now).languageColor.value)
  {
    TitleShape(repo.name);
    FormatDateClampedSpec(now, repo.updatedAt);
    if now < repo.updatedAt <= now + MsPerDay {
      FormatDateFutureDate(now, repo.updatedAt);
    }
  }
}
