/** The full-name heuristic of the customer consolidation: a freeform
    `FullName` becomes an optional title, a given name, a surname, an
    optional suffix and a flag asking for manual review. The parser is
    total: every string, the empty one included, yields a result. */
module Names {
  import opened Optional
  import opened Seqs
  import opened Words

  datatype ParsedName = ParsedName(
    title: Option<string>,
    givenName: string,
    surname: string,
    suffix: Option<string>,
    manualReviewNeeded: bool)

  /** Titles recognised on the first word, compared case-sensitively. */
  const KnownTitles: seq<string> := ["Mr", "Mr.", "Ms", "Ms.", "Mrs", "Mrs.", "Dr", "Dr."]

  /** Suffixes recognised on the last word, compared case-sensitively. */
  const KnownSuffixes: seq<string> := ["Jr", "Jr.", "II", "III", "111", "MD"]

  /** `is_name_title`: a known title is one whitespace-free word, so it can
      only ever match a whole token of the split, and it is never also a
      suffix, so a lone word is not taken as both. */
  predicate IsNameTitle(name: string)
    ensures IsNameTitle(name) ==> IsWord(name) && !IsNameSuffix(name)
  {
    name in KnownTitles
  }

  /** `is_name_suffix`: a known suffix is one whitespace-free word. */
  predicate IsNameSuffix(name: string)
    ensures IsNameSuffix(name) ==> IsWord(name)
  {
    name in KnownSuffixes
  }

  /** The words an optional part contributes: none, or the one it holds. */
  function OptWord(o: Option<string>): seq<string>
  {
    if o.Some? then [o.value] else []
  }

  /** The words left after the title and suffix are removed, recovered
      from the given name and the surname. */
  function RemainingWords(p: ParsedName): seq<string>
  {
    Split(p.givenName) + (if p.surname == "" then [] else [p.surname])
  }

  /** Removes a known title from the front of the word list. */
  function StripTitle(words: seq<string>): (Option<string>, seq<string>)
  {
    if |words| >= 1 && IsNameTitle(words[0]) then (Some(words[0]), words[1..])
    else (None, words)
  }

  /** Removes a known suffix from the end of the word list. */
  function StripSuffix(words: seq<string>): (Option<string>, seq<string>)
  {
    if |words| >= 1 && IsNameSuffix(Last(words)) then (Some(Last(words)), words[..|words| - 1])
    else (None, words)
  }

  /** The parser on an already split word list: title first, then suffix,
      then all but the last remaining word form the given name and the
      last one the surname; only exactly two remaining words are taken as
      unambiguous. */
  function ParseWords(words: seq<string>): (p: ParsedName)
    ensures p.title.Some? ==> IsNameTitle(p.title.value)
    ensures p.suffix.Some? ==> IsNameSuffix(p.suffix.value)
  {
    var (title, afterTitle) := StripTitle(words);
    var (suffix, rest) := StripSuffix(afterTitle);
    if |rest| > 0 then
      ParsedName(title, JoinSpaced(rest[..|rest| - 1]), Last(rest), suffix, |rest| != 2)
    else
      ParsedName(title, "", "", suffix, true)
  }

  /** The name heuristic applied to a freeform full name. */
  function ParseFullname(fullname: string): (p: ParsedName)
    ensures p.title.Some? ==> IsNameTitle(p.title.value)
    ensures p.suffix.Some? ==> IsNameSuffix(p.suffix.value)
  {
    ParseWords(Split(fullname))
  }

  /** The title is taken exactly when the first word is a known title, and
      the suffix exactly when the last word left after that is a known
      suffix; neither fires on an empty word list. */
  lemma ParseTitleSuffix(fullname: string)
    ensures var ws := Split(fullname);
            var p := ParseFullname(fullname);
            && (p.title.Some? <==> |ws| > 0 && IsNameTitle(ws[0]))
            && (p.title.Some? ==> p.title.value == ws[0])
            && var afterTitle := if p.title.Some? then ws[1..] else ws;
               && (p.suffix.Some? <==> |afterTitle| > 0 && IsNameSuffix(Last(afterTitle)))
               && (p.suffix.Some? ==> p.suffix.value == Last(afterTitle))
  {
  }

  /** No word is lost or invented: title, remaining words and suffix put
      back together are the words of the full name. The given name is the
      remaining words but the last, joined by single spaces, the surname is
      the last one (empty when none remain), and review is asked for
      exactly when the count of remaining words is not two. */
  lemma ParseRecomposes(fullname: string)
    ensures var p := ParseFullname(fullname);
            && OptWord(p.title) + RemainingWords(p) + OptWord(p.suffix) == Split(fullname)
            && JoinSpaced(Split(p.givenName)) == p.givenName
            && (p.surname == "" <==> RemainingWords(p) == [])
            && (p.surname != "" ==> p.surname == Last(RemainingWords(p)))
            && (p.manualReviewNeeded <==> |RemainingWords(p)| != 2)
  {
    var ws := Split(fullname);
    var (title, afterTitle) := StripTitle(ws);
    var (suffix, rest) := StripSuffix(afterTitle);
    assert OptWord(title) + afterTitle == ws;
    assert rest + OptWord(suffix) == afterTitle;
    RemainingAfterStrip(rest, title, suffix);
  }

  /** The given name and surname built from the words `rest` left after
      stripping give those words back. */
  lemma RemainingAfterStrip(rest: seq<string>, title: Option<string>, suffix: Option<string>)
    requires forall i :: 0 <= i < |rest| ==> IsWord(rest[i])
    ensures var p := if |rest| > 0
                     then ParsedName(title, JoinSpaced(rest[..|rest| - 1]), Last(rest), suffix, |rest| != 2)
                     else ParsedName(title, "", "", suffix, true);
            && RemainingWords(p) == rest
            && JoinSpaced(Split(p.givenName)) == p.givenName
            && (p.surname == "" <==> rest == [])
  {
    if |rest| > 0 {
      var given := rest[..|rest| - 1];
      SplitJoin(given);
      assert given + [Last(rest)] == rest;
    } else {
      assert Split("") == [];
    }
  }

  /** The unambiguous case: an optional title, two words and an optional
      suffix, written with single spaces, parse to exactly those parts
      without review, provided a missing title or suffix is not stood in
      for by the two words themselves. */
  lemma ParseTwoWords(title: Option<string>, given: string, surname: string, suffix: Option<string>)
    requires title.Some? ==> IsNameTitle(title.value)
    requires suffix.Some? ==> IsNameSuffix(suffix.value)
    requires IsWord(given) && IsWord(surname)
    requires title.None? ==> !IsNameTitle(given)
    requires suffix.None? ==> !IsNameSuffix(surname)
    ensures ParseFullname(JoinSpaced(OptWord(title) + [given, surname] + OptWord(suffix)))
         == ParsedName(title, given, surname, suffix, false)
  {
    var ws := OptWord(title) + [given, surname] + OptWord(suffix);
    SplitJoin(ws);
    var (t, afterTitle) := StripTitle(ws);
    assert t == title && afterTitle == [given, surname] + OptWord(suffix);
    var (s, rest) := StripSuffix(afterTitle);
    assert s == suffix && rest == [given, surname];
    assert rest[..1] == [given];
    SplitJoin([given]);
  }

  /** A blank full name (empty or all whitespace) gives no title, no
      suffix, empty name parts and asks for review. */
  lemma ParseBlank(fullname: string)
    requires forall i :: 0 <= i < |fullname| ==> IsSpace(fullname[i])
    ensures ParseFullname(fullname) == ParsedName(None, "", "", None, true)
  {
    SplitEmptyIffBlank(fullname);
  }
}
