/** The two rule matchers and the tag templating they share. Both matchers update the
    `Program` they are given in place and return it, or return None and leave it alone. */
module Matching {
  import opened Strings
  import opened Stamps
  import opened Programs
  import opened Rules

  /** `datetime.strftime(start, template)`, given the start stamp and the template. */
  type Strftime = (string, string) -> string

  /** The names `weekdays[start_time.weekday()]` picks from, Monday first. */
  const WeekdayNames: seq<string> := ["月曜日", "火曜日", "水曜日", "木曜日", "金曜日", "土曜日", "日曜日"]

  const PfmTag := "{pfm}"
  const AlbumTag := "{album}"
  const TitleTag := "{title}"
  const ArtistTag := "{artist}"

  /** The placeholder substitution `_replace_tag` applies to the formatted template:
      `{pfm}` always, `{album}`, `{title}`, `{artist}` only when that field is non-empty. */
  function Substitute(v: string, pfm: string, album: string, title: string, artist: string): string {
    var v := ReplaceAll(v, PfmTag, pfm);
    var v := if album != "" then ReplaceAll(v, AlbumTag, album) else v;
    var v := if title != "" then ReplaceAll(v, TitleTag, title) else v;
    if artist != "" then ReplaceAll(v, ArtistTag, artist) else v
  }

  /** Text without a `{` holds no placeholder, so the substitution leaves it alone. */
  lemma SubstitutePlain(v: string, pfm: string, album: string, title: string, artist: string)
    requires '{' !in v
    ensures Substitute(v, pfm, album, title, artist) == v
  {
    NotSubstringWithoutChar(PfmTag, v, '{');
    ReplaceAllAbsent(v, PfmTag, pfm);
    NotSubstringWithoutChar(AlbumTag, v, '{');
    ReplaceAllAbsent(v, AlbumTag, album);
    NotSubstringWithoutChar(TitleTag, v, '{');
    ReplaceAllAbsent(v, TitleTag, title);
    NotSubstringWithoutChar(ArtistTag, v, '{');
    ReplaceAllAbsent(v, ArtistTag, artist);
  }

  /** `_replace_tag`: the template is date-formatted first, then the placeholders are
      substituted, so a formatted template without a `{` is the result as it stands,
      whatever the fields hold. */
  function ReplaceTag(strftime: Strftime, start: string, pfm: string, album: string, title: string,
                      artist: string, template: string): (r: string)
    ensures '{' !in strftime(start, template) ==> r == strftime(start, template)
  {
    var v := strftime(start, template);
    if '{' !in v then
      SubstitutePlain(v, pfm, album, title, artist);
      Substitute(v, pfm, album, title, artist)
    else
      Substitute(v, pfm, album, title, artist)
  }

  /** With every field empty only `{pfm}` is touched: the other placeholders stay literally. */
  lemma ReplaceTagEmptyFields(strftime: Strftime, start: string, template: string)
    ensures ReplaceTag(strftime, start, "", "", "", "", template)
            == ReplaceAll(strftime(start, template), PfmTag, "")
  {
  }

  /** `{pfm}` is replaced even by an empty performer: a template that formats to `{pfm}`
      alone yields `''`. */
  lemma ReplaceTagDropsPfm(strftime: Strftime, start: string, template: string)
    requires strftime(start, template) == PfmTag
    ensures ReplaceTag(strftime, start, "", "", "", "", template) == ""
  {
    var v := PfmTag;
    assert IsPrefix(PfmTag, v);
    assert v[|PfmTag|..] == [];
  }

  /** `{pfm}` is always filled: a template that formats to `{pfm}` yields the performer
      text, empty or not. */
  lemma ReplaceTagPfm(strftime: Strftime, start: string, pfm: string, album: string, title: string,
                      artist: string, template: string)
    requires strftime(start, template) == PfmTag && '{' !in pfm
    ensures ReplaceTag(strftime, start, pfm, album, title, artist, template) == pfm
  {
    var v := strftime(start, template);
    ReplaceAllWhole(PfmTag, pfm);
    var v1 := ReplaceAll(v, PfmTag, pfm);
    assert v1 == pfm;
    ReplaceAllLacking(pfm, AlbumTag, album, '{');
    var v2 := if album != "" then ReplaceAll(v1, AlbumTag, album) else v1;
    assert v2 == pfm;
    ReplaceAllLacking(pfm, TitleTag, title, '{');
    var v3 := if title != "" then ReplaceAll(v2, TitleTag, title) else v2;
    assert v3 == pfm;
    ReplaceAllLacking(pfm, ArtistTag, artist, '{');
    assert Substitute(v, pfm, album, title, artist)
        == if artist != "" then ReplaceAll(v3, ArtistTag, artist) else v3;
  }

  /** `{album}` is filled by a non-empty album and otherwise stays literally, whatever the
      other fields hold. */
  lemma ReplaceTagAlbum(strftime: Strftime, start: string, pfm: string, album: string, title: string,
                        artist: string, template: string)
    requires strftime(start, template) == AlbumTag && '{' !in album
    ensures ReplaceTag(strftime, start, pfm, album, title, artist, template)
            == if album != "" then album else AlbumTag
  {
    var v := strftime(start, template);
    assert 'p' !in v && 't' !in v && 'r' !in v;
    ReplaceAllLacking(v, PfmTag, pfm, 'p');
    var v1 := ReplaceAll(v, PfmTag, pfm);
    assert v1 == v;
    var v2 := if album != "" then ReplaceAll(v1, AlbumTag, album) else v1;
    var w := if album != "" then album else v;
    assert v2 == w by {
      if album != "" {
        ReplaceAllWhole(AlbumTag, album);
      }
    }
    ReplaceAllLacking(w, TitleTag, title, if album != "" then '{' else 't');
    var v3 := if title != "" then ReplaceAll(v2, TitleTag, title) else v2;
    assert v3 == w;
    ReplaceAllLacking(w, ArtistTag, artist, if album != "" then '{' else 'r');
    assert Substitute(v, pfm, album, title, artist)
        == if artist != "" then ReplaceAll(v3, ArtistTag, artist) else v3;
  }

  /** `{title}` is filled by a non-empty title and otherwise stays literally. */
  lemma ReplaceTagTitle(strftime: Strftime, start: string, pfm: string, album: string, title: string,
                        artist: string, template: string)
    requires strftime(start, template) == TitleTag && '{' !in title
    ensures ReplaceTag(strftime, start, pfm, album, title, artist, template)
            == if title != "" then title else TitleTag
  {
    var v := strftime(start, template);
    assert 'p' !in v && 'a' !in v;
    ReplaceAllLacking(v, PfmTag, pfm, 'p');
    var v1 := ReplaceAll(v, PfmTag, pfm);
    assert v1 == v;
    ReplaceAllLacking(v, AlbumTag, album, 'a');
    var v2 := if album != "" then ReplaceAll(v1, AlbumTag, album) else v1;
    assert v2 == v;
    var v3 := if title != "" then ReplaceAll(v2, TitleTag, title) else v2;
    var w := if title != "" then title else v;
    assert v3 == w by {
      if title != "" {
        ReplaceAllWhole(TitleTag, title);
      }
    }
    ReplaceAllLacking(w, ArtistTag, artist, if title != "" then '{' else 'a');
    assert Substitute(v, pfm, album, title, artist)
        == if artist != "" then ReplaceAll(v3, ArtistTag, artist) else v3;
  }

  /** `{artist}` is filled by a non-empty artist and otherwise stays literally. */
  lemma ReplaceTagArtist(strftime: Strftime, start: string, pfm: string, album: string, title: string,
                         artist: string, template: string)
    requires strftime(start, template) == ArtistTag && '{' !in artist
    ensures ReplaceTag(strftime, start, pfm, album, title, artist, template)
            == if artist != "" then artist else ArtistTag
  {
    var v := strftime(start, template);
    assert 'p' !in v && 'l' !in v;
    ReplaceAllLacking(v, PfmTag, pfm, 'p');
    var v1 := ReplaceAll(v, PfmTag, pfm);
    assert v1 == v;
    ReplaceAllLacking(v, AlbumTag, album, 'l');
    var v2 := if album != "" then ReplaceAll(v1, AlbumTag, album) else v1;
    assert v2 == v;
    ReplaceAllLacking(v, TitleTag, title, 'l');
    var v3 := if title != "" then ReplaceAll(v2, TitleTag, title) else v2;
    assert v3 == v;
    ReplaceAllWhole(ArtistTag, artist);
    assert Substitute(v, pfm, album, title, artist)
        == if artist != "" then ReplaceAll(v3, ArtistTag, artist) else v3;
  }

  // ---- match conditions; they read only fields no rule writes ----

  /** Some word occurs in the raw title or the performer text. */
  predicate WordsMatch(e: Entry, words: seq<string>) {
    exists i :: 0 <= i < |words| && (IsSubstring(words[i], e.radikoTitle) || IsSubstring(words[i], e.pfm))
  }

  /** `'' in s` holds for every s, so an empty word picks every program. */
  lemma EmptyWordMatchesAll(e: Entry, words: seq<string>)
    requires "" in words
    ensures WordsMatch(e, words)
  {
    var i :| 0 <= i < |words| && words[i] == "";
    assert IsPrefix(words[i], e.radikoTitle);
  }

  /** The weekday check: true when the rule gives no `radiko_dayw`. */
  predicate SameWeekday(e: Entry, rule: Rule)
    requires rule.TitleRule? && ValidStamp(e.startTime)
  {
    rule.dayw.Some? ==> WeekdayNames[Weekday(e.startTime)] == rule.dayw.value
  }

  predicate TitleMatch(e: Entry, rule: Rule)
    requires rule.TitleRule? && ValidStamp(e.startTime)
  {
    e.station == rule.station && IsPrefix(rule.radikoTitle, e.radikoTitle) && SameWeekday(e, rule)
  }

  /** Does `rule` pick the program? A keyword rule ignores its `stations`. */
  predicate Matches(e: Entry, rule: Rule)
    requires ValidStamp(e.startTime)
  {
    if rule.WordsRule? then WordsMatch(e, rule.words) else TitleMatch(e, rule)
  }

  /** The `found_by` a match by this rule records. */
  function Kind(rule: Rule): Provenance {
    if rule.WordsRule? then ByWords else ByTitle
  }

  // ---- what a match writes ----

  /** The fields after a keyword match; the filename template sees the artist, album and
      title just written. */
  function WordsTags(e: Entry, t: Tags, strftime: Strftime): (r: Tags)
    ensures r.artist == e.pfm && r.album == e.titleKey && r.title == e.titleKey
    ensures r.storageDir == e.titleKey && r.foundBy == ByWords && r.artwork == t.artwork
    ensures r.filename == ReplaceTag(strftime, e.startTime, e.pfm, r.album, r.title, r.artist,
                                     e.titleKey + "_%Y%m%d") + ".m4a"
  {
    var filename := ReplaceTag(strftime, e.startTime, e.pfm, e.titleKey, e.titleKey, e.pfm,
                               e.titleKey + "_%Y%m%d") + ".m4a";
    Tags(filename, t.artwork, e.titleKey, e.pfm, e.titleKey, e.titleKey, ByWords)
  }

  /** The fields after a title match, written in the source's order: each template sees
      the values written before it and, for a field not yet written, its previous value. */
  function TitleTags(e: Entry, t: Tags, rule: Rule, strftime: Strftime): (r: Tags)
    requires rule.TitleRule?
    ensures r.foundBy == ByTitle && r.artwork == t.artwork
    ensures r.artist == ReplaceTag(strftime, e.startTime, e.pfm, t.album, t.title, t.artist, rule.artist)
    ensures r.album == ReplaceTag(strftime, e.startTime, e.pfm, t.album, t.title, r.artist, rule.album)
    ensures r.title == ReplaceTag(strftime, e.startTime, e.pfm, r.album, t.title, r.artist, rule.title)
    ensures r.filename == ReplaceTag(strftime, e.startTime, e.pfm, r.album, r.title, r.artist, rule.filename) + ".m4a"
    ensures r.storageDir == ReplaceTag(strftime, e.startTime, e.pfm, r.album, r.title, r.artist, rule.storageDir)
  {
    var start := e.startTime;
    var artist := ReplaceTag(strftime, start, e.pfm, t.album, t.title, t.artist, rule.artist);
    var album := ReplaceTag(strftime, start, e.pfm, t.album, t.title, artist, rule.album);
    var title := ReplaceTag(strftime, start, e.pfm, album, t.title, artist, rule.title);
    var filename := ReplaceTag(strftime, start, e.pfm, album, title, artist, rule.filename) + ".m4a";
    var storageDir := ReplaceTag(strftime, start, e.pfm, album, title, artist, rule.storageDir);
    Tags(filename, t.artwork, album, artist, title, storageDir, ByTitle)
  }

  /** A title rule whose formatted templates hold no placeholder writes them as they are,
      whatever the program held before. */
  lemma TitleTagsPlain(e: Entry, t: Tags, rule: Rule, strftime: Strftime)
    requires rule.TitleRule?
    requires '{' !in strftime(e.startTime, rule.artist) && '{' !in strftime(e.startTime, rule.album)
    requires '{' !in strftime(e.startTime, rule.title) && '{' !in strftime(e.startTime, rule.filename)
    requires '{' !in strftime(e.startTime, rule.storageDir)
    ensures var s := e.startTime;
            TitleTags(e, t, rule, strftime)
            == Tags(strftime(s, rule.filename) + ".m4a", t.artwork, strftime(s, rule.album),
                    strftime(s, rule.artist), strftime(s, rule.title), strftime(s, rule.storageDir), ByTitle)
  {
  }

  /** One rule of `_filter_programs`' inner loop, on values. */
  function ApplyRule(e: Entry, t: Tags, rule: Rule, strftime: Strftime): (r: Tags)
    requires ValidStamp(e.startTime)
    ensures Matches(e, rule) ==> r.foundBy == Kind(rule)
    ensures !Matches(e, rule) ==> r == t
  {
    if !Matches(e, rule) then t
    else if rule.WordsRule? then WordsTags(e, t, strftime)
    else TitleTags(e, t, rule, strftime)
  }

  /** All rules in list order, on the same program. */
  function RunRules(e: Entry, t: Tags, rules: seq<Rule>, strftime: Strftime): Tags
    requires ValidStamp(e.startTime)
    decreases |rules|
  {
    if |rules| == 0 then t
    else ApplyRule(e, RunRules(e, t, rules[..|rules| - 1], strftime), rules[|rules| - 1], strftime)
  }

  predicate AnyMatch(e: Entry, rules: seq<Rule>)
    requires ValidStamp(e.startTime)
  {
    exists i :: 0 <= i < |rules| && Matches(e, rules[i])
  }

  /** A program no rule picks keeps its fields. */
  lemma {:induction false} RunRulesUnmatched(e: Entry, t: Tags, rules: seq<Rule>, strftime: Strftime)
    requires ValidStamp(e.startTime) && !AnyMatch(e, rules)
    ensures RunRules(e, t, rules, strftime) == t
    decreases |rules|
  {
    if |rules| > 0 {
      var init := rules[..|rules| - 1];
      assert forall i :: 0 <= i < |init| ==> init[i] == rules[i];
      RunRulesUnmatched(e, t, init, strftime);
    }
  }

  /** Because every rule works on the same object, `found_by` names the LAST rule that
      matched, whatever matched before it. */
  lemma {:induction false} RunRulesLastMatch(e: Entry, t: Tags, rules: seq<Rule>, strftime: Strftime, i: nat)
    requires ValidStamp(e.startTime)
    requires i < |rules| && Matches(e, rules[i])
    requires forall j :: i < j < |rules| ==> !Matches(e, rules[j])
    ensures RunRules(e, t, rules, strftime).foundBy == Kind(rules[i])
    decreases |rules|
  {
    if i < |rules| - 1 {
      var init := rules[..|rules| - 1];
      assert forall j :: 0 <= j < |init| ==> init[j] == rules[j];
      RunRulesLastMatch(e, t, init, strftime, i);
    }
  }

  /** A keyword rule matching last overwrites everything a title rule wrote before it. */
  lemma {:induction false} RunRulesWordsLast(e: Entry, t: Tags, rules: seq<Rule>, strftime: Strftime, i: nat)
    requires ValidStamp(e.startTime)
    requires i < |rules| && rules[i].WordsRule? && Matches(e, rules[i])
    requires forall j :: i < j < |rules| ==> !Matches(e, rules[j])
    ensures RunRules(e, t, rules, strftime) == WordsTags(e, t, strftime)
    decreases |rules|
  {
    var init := rules[..|rules| - 1];
    assert forall j :: 0 <= j < |init| ==> init[j] == rules[j];
    if i < |rules| - 1 {
      RunRulesWordsLast(e, t, init, strftime, i);
    } else {
      RunRulesKeepsArtwork(e, t, init, strftime);
    }
  }

  /** No matcher writes `artwork`. */
  lemma {:induction false} RunRulesKeepsArtwork(e: Entry, t: Tags, rules: seq<Rule>, strftime: Strftime)
    requires ValidStamp(e.startTime)
    ensures RunRules(e, t, rules, strftime).artwork == t.artwork
    decreases |rules|
  {
    if |rules| > 0 {
      RunRulesKeepsArtwork(e, t, rules[..|rules| - 1], strftime);
    }
  }

  // ---- the matchers ----

  /** `_recording_by_words`: scans the words in order and stops at the first that occurs. */
  method RecordingByWords(pg: Program, rule: Rule, strftime: Strftime) returns (r: Program?)
    requires rule.WordsRule? && ValidStamp(pg.startTime)
    modifies pg
    ensures WordsMatch(pg.AsEntry(), rule.words) ==>
              r == pg && pg.AsTags() == WordsTags(pg.AsEntry(), old(pg.AsTags()), strftime)
    ensures !WordsMatch(pg.AsEntry(), rule.words) ==> r == null && pg.AsTags() == old(pg.AsTags())
  {
    ghost var e := pg.AsEntry();
    var words := rule.words;
    var i := 0;
    while i < |words| && !(IsSubstring(words[i], pg.radikoTitle) || IsSubstring(words[i], pg.pfm))
      invariant 0 <= i <= |words|
      invariant forall j :: 0 <= j < i ==>
                  !(IsSubstring(words[j], e.radikoTitle) || IsSubstring(words[j], e.pfm))
    {
      i := i + 1;
    }
    if i == |words| {
      return null;
    }
    assert WordsMatch(e, words);
    pg.artist := pg.pfm;
    pg.album := pg.titleKey;
    pg.title := pg.titleKey;
    pg.filename := ReplaceTag(strftime, pg.startTime, pg.pfm, pg.album, pg.title, pg.artist,
                              pg.titleKey + "_%Y%m%d") + ".m4a";
    pg.storageDir := pg.titleKey;
    pg.foundBy := ByWords;
    return pg;
  }

  /** The tag writes of a title match, one field after the other, each reading the fields
      written before it. */
  method WriteTitleTags(pg: Program, rule: Rule, strftime: Strftime)
    requires rule.TitleRule?
    modifies pg
    ensures pg.AsTags() == TitleTags(pg.AsEntry(), old(pg.AsTags()), rule, strftime)
  {
    var start := pg.startTime;
    pg.artist := ReplaceTag(strftime, start, pg.pfm, pg.album, pg.title, pg.artist, rule.artist);
    pg.album := ReplaceTag(strftime, start, pg.pfm, pg.album, pg.title, pg.artist, rule.album);
    pg.title := ReplaceTag(strftime, start, pg.pfm, pg.album, pg.title, pg.artist, rule.title);
    pg.filename := ReplaceTag(strftime, start, pg.pfm, pg.album, pg.title, pg.artist, rule.filename) + ".m4a";
    pg.storageDir := ReplaceTag(strftime, start, pg.pfm, pg.album, pg.title, pg.artist, rule.storageDir);
    pg.foundBy := ByTitle;
  }

  /** `_recording_by_title`. */
  method RecordingByTitle(pg: Program, rule: Rule, strftime: Strftime) returns (r: Program?)
    requires rule.TitleRule? && ValidStamp(pg.startTime)
    modifies pg
    ensures TitleMatch(pg.AsEntry(), rule) ==>
              r == pg && pg.AsTags() == TitleTags(pg.AsEntry(), old(pg.AsTags()), rule, strftime)
    ensures !TitleMatch(pg.AsEntry(), rule) ==> r == null && pg.AsTags() == old(pg.AsTags())
  {
    ghost var e, t := pg.AsEntry(), pg.AsTags();
    var sameWeekday := true;
    if rule.dayw.Some? {
      var weekday := WeekdayNames[Weekday(pg.startTime)];
      sameWeekday := weekday == rule.dayw.value;
    }
    assert sameWeekday == SameWeekday(e, rule);
    if pg.station == rule.station && IsPrefix(rule.radikoTitle, pg.radikoTitle) && sameWeekday {
      WriteTitleTags(pg, rule, strftime);
      return pg;
    }
    return null;
  }

  /** The dispatch in `_filter_programs`: a rule with `words` goes to the keyword matcher. */
  method Recording(pg: Program, rule: Rule, strftime: Strftime) returns (r: Program?)
    requires ValidStamp(pg.startTime)
    modifies pg
    ensures pg.AsTags() == ApplyRule(pg.AsEntry(), old(pg.AsTags()), rule, strftime)
    ensures r == (if Matches(pg.AsEntry(), rule) then pg else null)
  {
    if rule.WordsRule? {
      r := RecordingByWords(pg, rule, strftime);
    } else {
      r := RecordingByTitle(pg, rule, strftime);
    }
  }
}
