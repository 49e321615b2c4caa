/** The per-entry enrichment of `_parse_programs_xml`: from the fields already taken out of
    one `<prog>` element to a `Program`, with the replace-map, the title key, the cleaned
    performer string and the duration. */
module Schedule {
  import opened Wrappers
  import opened Strings
  import opened Stamps
  import opened Programs
  import opened Rules

  /** The attributes and child texts of one `<prog>`; a missing text is None. */
  datatype RawProg = RawProg(ft: string, to: string, title: Option<string>, img: string, pfm: Option<string>)

  /** One weekly schedule: the id of its first `<station>` and its programs in document order. */
  datatype Feed = Feed(station: string, progs: seq<RawProg>)

  // ---- title_key: three anchored suffix strips ----

  /** The length of the run of ASCII digits (`\d`) that ends s. */
  function TrailingDigits(s: string): (n: nat)
    ensures n <= |s|
    ensures forall i :: |s| - n <= i < |s| ==> IsDigit(s[i])
    ensures n < |s| ==> !IsDigit(s[|s| - n - 1])
    decreases |s|
  {
    if |s| == 0 || !IsDigit(s[|s| - 1]) then 0 else TrailingDigits(s[..|s| - 1]) + 1
  }

  /** The digit run is exactly the digits written after a non-digit. */
  lemma {:induction false} TrailingDigitsOf(p: string, digits: string)
    requires |p| > 0 && !IsDigit(p[|p| - 1]) && AllDigits(digits)
    ensures TrailingDigits(p + digits) == |digits|
    decreases |digits|
  {
    var s := p + digits;
    if |digits| == 0 {
      assert s == p;
    } else {
      var init := digits[..|digits| - 1];
      assert s[..|s| - 1] == p + init;
      TrailingDigitsOf(p, init);
    }
  }

  /** u is `open`, one or more digits, then `close`: what `open\d+close$` matches. */
  predicate IsDigitsSuffix(u: string, open: string, close: string) {
    && |u| > |open| + |close|
    && IsPrefix(open, u) && IsSuffix(close, u)
    && forall i :: |open| <= i < |u| - |close| ==> IsDigit(u[i])
  }

  /** `re.sub(open\d+close$, '', s)` for an `open` that ends in a non-digit: the match, if
      any, is the unique suffix of that shape. */
  function StripDigitsSuffix(s: string, open: string, close: string): (r: string)
    requires |open| > 0 && !IsDigit(open[|open| - 1])
    ensures IsPrefix(r, s)
    ensures r != s ==> IsDigitsSuffix(s[|r|..], open, close)
  {
    if !IsSuffix(close, s) then s
    else
      var u := s[..|s| - |close|];
      var n := TrailingDigits(u);
      if n > 0 && IsSuffix(open, u[..|u| - n]) then
        var r := u[..|u| - n - |open|];
        assert s == u + close;
        assert s[|r|..] == u[|r|..] + close;
        assert u[|r|..][..|open|] == u[..|u| - n][|u| - n - |open|..];
        r
      else s
  }

  /** The strip misses nothing: when it leaves s unchanged, no suffix of s has the shape. */
  lemma StripDigitsSuffixComplete(s: string, open: string, close: string, k: nat)
    requires |open| > 0 && !IsDigit(open[|open| - 1])
    requires k <= |s| && IsDigitsSuffix(s[k..], open, close)
    ensures StripDigitsSuffix(s, open, close) != s
  {
    DigitRun(s, open, close, k);
    var u := s[..|s| - |close|];
    assert u[..k + |open|][k..] == open;
  }

  /** With `open\d+close` at k, the digit run before `close` starts right after `open`. */
  lemma DigitRun(s: string, open: string, close: string, k: nat)
    requires |open| > 0 && !IsDigit(open[|open| - 1])
    requires k <= |s| && IsDigitsSuffix(s[k..], open, close)
    ensures IsSuffix(close, s)
    ensures TrailingDigits(s[..|s| - |close|]) == |s| - |close| - k - |open| > 0
    ensures s[..|s| - |close|][k..k + |open|] == open
  {
    var v := s[k..];
    assert IsSuffix(close, s) by {
      assert s[|s| - |close|..] == v[|v| - |close|..];
    }
    var u := s[..|s| - |close|];
    assert forall i :: k <= i < |u| ==> u[i] == v[i - k];
    var p, digits := u[..k + |open|], u[k + |open|..];
    assert p[|p| - 1] == open[|open| - 1];
    assert u == p + digits;
    TrailingDigitsOf(p, digits);
    assert u[k..k + |open|] == v[..|open|];
  }

  /** `re.sub(re.escape(suffix) + '$', '', s)`. */
  function StripLiteralSuffix(s: string, suffix: string): (r: string)
    ensures IsPrefix(r, s)
    ensures IsSuffix(suffix, s) ==> r + suffix == s
    ensures !IsSuffix(suffix, s) ==> r == s
  {
    if IsSuffix(suffix, s) then
      var r := s[..|s| - |suffix|];
      assert r + suffix == s;
      r
    else s
  }

  const EpisodeOpen := " ("
  const EpisodeClose := ")"
  const SlotOpen := "("
  const SlotClose := "時台)"
  const EndingSuffix := "(エンディング)"

  lemma PrefixTransitive(a: string, b: string, c: string)
    requires IsPrefix(a, b) && IsPrefix(b, c)
    ensures IsPrefix(a, c)
  {
    assert c[..|a|] == c[..|b|][..|a|];
  }

  /** `title_key` from the `z2h`-converted title: a trailing ` (digits)`, then a trailing
      `(digits時台)`, then a trailing `(エンディング)`, each removed at most once. */
  function TitleKey(converted: string): (r: string)
    ensures IsPrefix(r, converted)
  {
    var a := StripDigitsSuffix(converted, EpisodeOpen, EpisodeClose);
    var b := StripDigitsSuffix(a, SlotOpen, SlotClose);
    var c := StripLiteralSuffix(b, EndingSuffix);
    PrefixTransitive(b, a, converted);
    PrefixTransitive(c, b, converted);
    c
  }

  /** A converted title with none of the three suffixes is its own title key. */
  lemma TitleKeyUnchanged(converted: string)
    requires forall k :: 0 <= k <= |converted| ==> !IsDigitsSuffix(converted[k..], EpisodeOpen, EpisodeClose)
    requires forall k :: 0 <= k <= |converted| ==> !IsDigitsSuffix(converted[k..], SlotOpen, SlotClose)
    requires !IsSuffix(EndingSuffix, converted)
    ensures TitleKey(converted) == converted
  {
  }

  /** The strip removes exactly an `open digits close` tail. */
  lemma StripDigitsSuffixOf(base: string, open: string, digits: string, close: string)
    requires |open| > 0 && !IsDigit(open[|open| - 1])
    requires |digits| > 0 && AllDigits(digits)
    ensures StripDigitsSuffix(base + open + digits + close, open, close) == base
  {
    var s := base + open + digits + close;
    assert s[|s| - |close|..] == close;
    var u := s[..|s| - |close|];
    assert u == base + open + digits;
    TrailingDigitsOf(base + open, digits);
    assert u[..|u| - |digits|] == base + open;
    assert (base + open)[|base|..] == open;
  }

  /** A tail that ends in a non-digit before `close` is not stripped. */
  lemma StripDigitsSuffixKeeps(s: string, open: string, close: string)
    requires |open| > 0 && !IsDigit(open[|open| - 1])
    requires IsSuffix(close, s) ==> |s| > |close| && !IsDigit(s[|s| - |close| - 1])
    ensures StripDigitsSuffix(s, open, close) == s
  {
  }

  /** No suffix of s has the `open digits close` shape. */
  predicate NoDigitsSuffix(s: string, open: string, close: string) {
    forall k :: 0 <= k <= |s| ==> !IsDigitsSuffix(s[k..], open, close)
  }

  /** An episode number ` (digits)` is dropped. */
  lemma TitleKeyDropsEpisode(base: string, digits: string)
    requires |digits| > 0 && AllDigits(digits)
    requires NoDigitsSuffix(base, SlotOpen, SlotClose) && !IsSuffix(EndingSuffix, base)
    ensures TitleKey(base + EpisodeOpen + digits + EpisodeClose) == base
  {
    StripDigitsSuffixOf(base, EpisodeOpen, digits, EpisodeClose);
  }

  /** A time-slot tag `(digits時台)` is dropped; a space before it stays in the key. */
  lemma TitleKeyDropsSlot(base: string, digits: string)
    requires |digits| > 0 && AllDigits(digits)
    requires !IsSuffix(EndingSuffix, base)
    ensures TitleKey(base + SlotOpen + digits + SlotClose) == base
  {
    var s := base + SlotOpen + digits + SlotClose;
    assert s[|s| - |EpisodeClose| - 1] == '台';
    StripDigitsSuffixKeeps(s, EpisodeOpen, EpisodeClose);
    StripDigitsSuffixOf(base, SlotOpen, digits, SlotClose);
  }

  /** The ending tag `(エンディング)` is dropped. */
  lemma TitleKeyDropsEnding(base: string)
    ensures TitleKey(base + EndingSuffix) == base
  {
    var s := base + EndingSuffix;
    assert s[|s| - |EpisodeClose| - 1] == 'グ';
    StripDigitsSuffixKeeps(s, EpisodeOpen, EpisodeClose);
    assert s[|s| - |SlotClose|..] != SlotClose by {
      assert s[|s| - 2] == 'グ';
    }
    StripDigitsSuffixKeeps(s, SlotOpen, SlotClose);
    assert s[|s| - |EndingSuffix|..] == EndingSuffix;
  }

  // ---- one entry ----

  /** `if not title: continue`. */
  predicate Untitled(raw: RawProg) {
    raw.title.None? || raw.title.value == ""
  }

  /** A titled entry whose `ft` or `to` `strptime` would reject. */
  predicate HasBadStamp(raw: RawProg) {
    !Untitled(raw) && !(ValidStamp(raw.ft) && ValidStamp(raw.to))
  }

  datatype Enriched = Skipped | Malformed | Enriched(entry: Entry)

  const IdeographicSpace := '\U{3000}'

  /** `if not pfm: pfm = ''`, then `pfm.replace('　', ' ')`. */
  function CleanPfm(pfm: Option<string>): (r: string)
    ensures pfm.None? ==> r == ""
    ensures pfm.Some? ==> |r| == |pfm.value| && forall i :: 0 <= i < |r| ==>
              r[i] == if pfm.value[i] == IdeographicSpace then ' ' else pfm.value[i]
    ensures IdeographicSpace !in r
  {
    var text := if pfm.None? then "" else pfm.value;
    ReplaceAllRemovesChar(text, IdeographicSpace, " ");
    ReplaceCharPointwise(text, IdeographicSpace, ' ');
    ReplaceAll(text, [IdeographicSpace], " ")
  }

  /** The body of the per-`<prog>` loop. `z2h` is `jaconv.z2h(_, kana=False, ascii=True,
      digit=True)`. A blank title skips the entry before anything is parsed; a timestamp
      `strptime` rejects raises, which ends the whole parse. */
  function Enrich(station: string, raw: RawProg, rc: ReplaceMap, z2h: string -> string): (r: Enriched)
    ensures r.Skipped? <==> Untitled(raw)
    ensures r.Malformed? <==> HasBadStamp(raw)
    ensures r.Enriched? ==>
      && r.entry.WellFormed()
      && r.entry.station == station && r.entry.img == raw.img
      && r.entry.startTime == raw.ft && r.entry.endTime == raw.to
      && r.entry.radikoTitle == ApplyReplacements(raw.title.value, rc)
      && r.entry.titleKey == TitleKey(z2h(r.entry.radikoTitle))
      && r.entry.pfm == CleanPfm(raw.pfm)
      && IsPrefix(r.entry.titleKey, z2h(r.entry.radikoTitle))
      && 0 <= r.entry.dulation < 86400
  {
    if Untitled(raw) then Skipped
    else
      var title := ApplyReplacements(raw.title.value, rc);
      var titleKey := TitleKey(z2h(title));
      if !(ValidStamp(raw.ft) && ValidStamp(raw.to)) then Malformed
      else
        Enriched(Entry(station, title, raw.ft, raw.to, raw.img, CleanPfm(raw.pfm), titleKey,
                       Dulation(raw.ft, raw.to)))
  }

  function CountTitled(raws: seq<RawProg>): nat {
    if |raws| == 0 then 0
    else CountTitled(raws[..|raws| - 1])
         + (if Untitled(raws[|raws| - 1]) then 0 else 1)
  }

  /** One iteration on values: keep the accumulated entries, add one, or fail. */
  function Extend(acc: Option<seq<Entry>>, r: Enriched): Option<seq<Entry>> {
    match acc
    case None => None
    case Some(es) =>
      match r
      case Skipped => Some(es)
      case Malformed => None
      case Enriched(e) => Some(es + [e])
  }

  /** The whole loop on values: the enriched entries of a prefix, or None once an entry with a
      title has a timestamp that does not parse. */
  function ParseAll(station: string, raws: seq<RawProg>, rc: ReplaceMap, z2h: string -> string)
    : (r: Option<seq<Entry>>)
    ensures r.Some? ==> |r.value| == CountTitled(raws)
    decreases |raws|
  {
    if |raws| == 0 then Some([])
    else Extend(ParseAll(station, raws[..|raws| - 1], rc, z2h), Enrich(station, raws[|raws| - 1], rc, z2h))
  }

  /** The parse fails exactly when some titled entry has a timestamp that does not parse. */
  lemma {:induction false} ParseAllFails(station: string, raws: seq<RawProg>, rc: ReplaceMap,
                                         z2h: string -> string)
    ensures ParseAll(station, raws, rc, z2h).None? <==> exists i :: 0 <= i < |raws| && HasBadStamp(raws[i])
    decreases |raws|
  {
    if |raws| > 0 {
      var n := |raws| - 1;
      var init := raws[..n];
      ParseAllFails(station, init, rc, z2h);
      ParseAllNoneStep(station, raws, rc, z2h);
      BadStampSnoc(raws, init);
    }
  }

  /** A bad timestamp among raws is one among the earlier entries or the last one. */
  lemma BadStampSnoc(raws: seq<RawProg>, init: seq<RawProg>)
    requires |raws| > 0 && init == raws[..|raws| - 1]
    ensures (exists i :: 0 <= i < |raws| && HasBadStamp(raws[i]))
            <==> (exists i :: 0 <= i < |init| && HasBadStamp(init[i])) || HasBadStamp(raws[|raws| - 1])
  {
    var n := |init|;
    if i :| 0 <= i < n && HasBadStamp(init[i]) {
      assert raws[i] == init[i];
    }
    if i :| 0 <= i < n && HasBadStamp(raws[i]) {
      assert init[i] == raws[i];
    }
  }

  /** One more entry makes the parse fail iff it already failed or this entry is malformed. */
  lemma ParseAllNoneStep(station: string, raws: seq<RawProg>, rc: ReplaceMap, z2h: string -> string)
    requires |raws| > 0
    ensures ParseAll(station, raws, rc, z2h).None?
            <==> ParseAll(station, raws[..|raws| - 1], rc, z2h).None? || HasBadStamp(raws[|raws| - 1])
  {
  }

  /** One more `<prog>`: a titled entry is appended, an untitled one skipped. */
  lemma ParseAllStep(station: string, raws: seq<RawProg>, rc: ReplaceMap, z2h: string -> string)
    requires |raws| > 0 && ParseAll(station, raws, rc, z2h).Some?
    ensures ParseAll(station, raws[..|raws| - 1], rc, z2h).Some?
    ensures !Enrich(station, raws[|raws| - 1], rc, z2h).Malformed?
    ensures var es := ParseAll(station, raws[..|raws| - 1], rc, z2h).value;
            var last := Enrich(station, raws[|raws| - 1], rc, z2h);
            ParseAll(station, raws, rc, z2h).value == if last.Enriched? then es + [last.entry] else es
    ensures ParseAll(station, raws[..|raws| - 1], rc, z2h).value <= ParseAll(station, raws, rc, z2h).value
  {
  }

  /** The parse keeps the titled entries in document order: the entry enriched from the
      j-th `<prog>`, when that one has a title, is the k-th result, k being the number of
      titled entries before it. */
  lemma {:induction false} ParseAllEntry(station: string, raws: seq<RawProg>, rc: ReplaceMap,
                                         z2h: string -> string, j: nat)
    requires ParseAll(station, raws, rc, z2h).Some?
    requires j < |raws| && !Untitled(raws[j])
    ensures Enrich(station, raws[j], rc, z2h).Enriched?
    ensures CountTitled(raws[..j]) < |ParseAll(station, raws, rc, z2h).value|
    ensures ParseAll(station, raws, rc, z2h).value[CountTitled(raws[..j])] == Enrich(station, raws[j], rc, z2h).entry
    decreases |raws|
  {
    var n := |raws| - 1;
    var init := raws[..n];
    ParseAllStep(station, raws, rc, z2h);
    var es := ParseAll(station, init, rc, z2h).value;
    var all := ParseAll(station, raws, rc, z2h).value;
    if j == n {
      assert raws[..j] == init;
      assert all == es + [Enrich(station, raws[j], rc, z2h).entry];
    } else {
      assert init[..j] == raws[..j];
      ParseAllEntry(station, init, rc, z2h, j);
    }
  }

  /** Every entry the parse keeps is well formed and belongs to the feed's station. */
  lemma {:induction false} ParseAllWellFormed(station: string, raws: seq<RawProg>, rc: ReplaceMap,
                                              z2h: string -> string, k: nat)
    requires ParseAll(station, raws, rc, z2h).Some?
    requires k < |ParseAll(station, raws, rc, z2h).value|
    ensures ParseAll(station, raws, rc, z2h).value[k].WellFormed()
    ensures ParseAll(station, raws, rc, z2h).value[k].station == station
    decreases |raws|
  {
    var init := raws[..|raws| - 1];
    var es := ParseAll(station, init, rc, z2h).value;
    if k < |es| {
      ParseAllWellFormed(station, init, rc, z2h, k);
    }
  }

  /** Every entry's title key is derived from its (replaced) title alone. */
  lemma {:induction false} ParseAllTitleKey(station: string, raws: seq<RawProg>, rc: ReplaceMap,
                                            z2h: string -> string, k: nat)
    requires ParseAll(station, raws, rc, z2h).Some?
    requires k < |ParseAll(station, raws, rc, z2h).value|
    ensures var e := ParseAll(station, raws, rc, z2h).value[k]; e.titleKey == TitleKey(z2h(e.radikoTitle))
    decreases |raws|
  {
    var init := raws[..|raws| - 1];
    var es := ParseAll(station, init, rc, z2h).value;
    if k < |es| {
      ParseAllTitleKey(station, init, rc, z2h, k);
    }
  }

  /** Within one feed, entries with the same dedup key have the same grouping key. */
  lemma ParseAllSameKeySameGroup(station: string, raws: seq<RawProg>, rc: ReplaceMap, z2h: string -> string)
    requires ParseAll(station, raws, rc, z2h).Some?
    ensures SameKeySameGroup(ParseAll(station, raws, rc, z2h).value)
  {
    var es := ParseAll(station, raws, rc, z2h).value;
    forall i, j | 0 <= i < |es| && 0 <= j < |es| && es[i].Key() == es[j].Key()
      ensures es[i].GroupKey() == es[j].GroupKey()
    {
      ParseAllWellFormed(station, raws, rc, z2h, i);
      ParseAllWellFormed(station, raws, rc, z2h, j);
      ParseAllTitleKey(station, raws, rc, z2h, i);
      ParseAllTitleKey(station, raws, rc, z2h, j);
      KeyParts(es[i], es[j]);
    }
  }

  /** `_parse_programs_xml` from the extracted fields: one fresh `Program` per titled
      entry, in document order. An entry whose timestamp does not parse raises in the source
      and discards everything built so far; here the whole parse is None. */
  method ParsePrograms(feed: Feed, rc: ReplaceMap, z2h: string -> string)
    returns (progs: Option<seq<Program>>)
    ensures progs.None? <==> ParseAll(feed.station, feed.progs, rc, z2h).None?
    ensures progs.Some? ==>
      && |progs.value| == |ParseAll(feed.station, feed.progs, rc, z2h).value|
      && Distinct(progs.value)
      && forall k :: 0 <= k < |progs.value| ==>
           && fresh(progs.value[k])
           && progs.value[k].AsEntry() == ParseAll(feed.station, feed.progs, rc, z2h).value[k]
           && progs.value[k].AsTags() == NoTags
  {
    var parsed := ParseAll(feed.station, feed.progs, rc, z2h);
    if parsed.None? {
      return None;
    }
    var ps := NewPrograms(parsed.value);
    progs := Some(ps);
  }

  /** `progs.append(Program(...))` for each enriched entry. */
  method NewPrograms(es: seq<Entry>) returns (ps: seq<Program>)
    ensures |ps| == |es| && Distinct(ps)
    ensures forall k :: 0 <= k < |ps| ==> fresh(ps[k]) && ps[k].AsEntry() == es[k] && ps[k].AsTags() == NoTags
  {
    ps := [];
    for i := 0 to |es|
      invariant |ps| == i && Distinct(ps)
      invariant forall k :: 0 <= k < i ==> fresh(ps[k])
      invariant forall k :: 0 <= k < i ==> ps[k].AsEntry() == es[k]
      invariant forall k :: 0 <= k < i ==> ps[k].AsTags() == NoTags
    {
      var p := new Program(es[i]);
      ps := ps + [p];
    }
  }
}
