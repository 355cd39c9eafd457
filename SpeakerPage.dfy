/** The icon a speaker's link gets from its title. */
module SpeakerPage {
  import opened Strings

  datatype LinkIcon = RssFeed | Raven | BusinessCenter | WebTraffic

  /** `titleToIcon`: the first of "blog", "twitter", "linkedin" found in the
      lower-cased title decides; any other title gets the web icon. */
  function TitleToIcon(title: string): (icon: LinkIcon)
    ensures icon == RssFeed <==> Contains(Lowercase(title), "blog")
    ensures icon == Raven <==> !Contains(Lowercase(title), "blog") && Contains(Lowercase(title), "twitter")
    ensures icon == BusinessCenter <==>
      && !Contains(Lowercase(title), "blog") && !Contains(Lowercase(title), "twitter")
      && Contains(Lowercase(title), "linkedin")
  {
    var lower := Lowercase(title);
    if Contains(lower, "blog") then RssFeed
    else if Contains(lower, "twitter") then Raven
    else if Contains(lower, "linkedin") then BusinessCenter
    else WebTraffic
  }

  lemma LowercaseAppend(a: string, b: string)
    ensures Lowercase(a + b) == Lowercase(a) + Lowercase(b)
  {
  }

  /** A title that has `word` in any mix of cases, where `word` is one of
      the markers, contains the marker once lower-cased. */
  lemma {:induction false} MarkerInAnyCase(before: string, word: string, after: string, marker: string)
    requires Lowercase(word) == marker
    ensures Contains(Lowercase(before + word + after), marker)
  {
    LowercaseAppend(before + word, after);
    LowercaseAppend(before, word);
    var s := Lowercase(before + word + after);
    assert s == Lowercase(before) + marker + Lowercase(after);
    assert s[|before|..|before| + |marker|] == marker;
    assert OccursAt(s, marker, |before|);
  }

  /** A blog link is recognised in any case, whatever else its title names. */
  lemma BlogWinsInAnyCase(before: string, word: string, after: string)
    requires Lowercase(word) == "blog"
    ensures TitleToIcon(before + word + after) == RssFeed
  {
    MarkerInAnyCase(before, word, after, "blog");
  }

  /** A Twitter link is recognised in any case unless the title also names a
      blog; a LinkedIn mention does not change that. */
  lemma TwitterBeatsLinkedIn(before: string, word: string, after: string)
    requires Lowercase(word) == "twitter"
    requires !Contains(Lowercase(before + word + after), "blog")
    ensures TitleToIcon(before + word + after) == Raven
  {
    MarkerInAnyCase(before, word, after, "twitter");
  }

  /** Titles that agree up to case get the same icon. */
  lemma IconIgnoresCase(a: string, b: string)
    requires Lowercase(a) == Lowercase(b)
    ensures TitleToIcon(a) == TitleToIcon(b)
  {
  }
}
