/** The decisions of rec_radiko_pg.py: whether a target may be recorded now, how a listing
    line shows it, and which targets the upcoming listing selects and in what order. */
module RecRadikoPg {
  import opened Wrappers
  import opened Strings
  import opened Stamps
  import opened Programs
  import opened Lastest

  /** `_program_start_end`: a list contributes its first and its last program, a single
      program both. */
  function ProgramStartEnd(program: Target<Program>): (r: (Program, Program))
    requires program.WellFormed()
    ensures r.0 == program.First() && r.1 == program.Last()
    ensures program.Single? ==> r.0 == program.p && r.1 == program.p
  {
    match program
    case Single(p) => (p, p)
    case Group(ps) => (ps[0], ps[|ps| - 1])
  }

  /** `can_record`: refuse a target whose first program starts no later than the start time
      last recorded for its title, one that has not started by `now`, and one whose last
      program has not ended by `record_start`. */
  function CanRecord(now: string, recordStart: string, program: Target<Program>, lastest: Lastest)
    : (r: bool)
    requires program.WellFormed()
    reads lastest
    ensures r <==> && LexLt(lastest.Get(program.First()), program.First().startTime)
                   && LexLe(program.First().startTime, now)
                   && LexLe(program.Last().endTime, recordStart)
  {
    var (pgs, pge) := ProgramStartEnd(program);
    LexNotLe(pgs.startTime, lastest.Get(pgs));
    LexNotLe(pgs.startTime, now);
    LexNotLe(pge.endTime, recordStart);
    if LexLe(pgs.startTime, lastest.Get(pgs)) then false
    else if LexLt(now, pgs.startTime) || LexLt(recordStart, pge.endTime) then false
    else true
  }

  /** A title never recorded (`''`) passes the first check: only the two time checks remain. */
  lemma NeverRecordedPasses(now: string, recordStart: string, program: Target<Program>,
                            lastest: Lastest)
    requires program.WellFormed() && program.First().startTime != ""
    requires program.First().radikoTitle !in lastest.lastRecordAt
    ensures CanRecord(now, recordStart, program, lastest) <==>
            LexLe(program.First().startTime, now) && LexLe(program.Last().endTime, recordStart)
  {
    assert LexLt("", program.First().startTime);
  }

  /** Once a start time is stored for the title, no broadcast of that title starting then or
      earlier is recorded again, whichever station or series it belongs to. */
  lemma RecordedRefused(now: string, recordStart: string, program: Target<Program>,
                        lastest: Lastest)
    requires program.WellFormed()
    requires LexLe(program.First().startTime, lastest.Get(program.First()))
    ensures !CanRecord(now, recordStart, program, lastest)
  {
    var s, last := program.First().startTime, lastest.Get(program.First());
    LexNotLe(s, last);
  }

  /** On well-formed timestamps the string comparisons are comparisons of instants: the
      target has started by `now`, has ended by `record_start`, and is later than the last
      recording of its title. */
  lemma CanRecordInTime(now: string, recordStart: string, program: Target<Program>,
                        lastest: Lastest)
    requires program.WellFormed()
    requires program.First().AsEntry().WellFormed() && program.Last().AsEntry().WellFormed()
    requires ValidStamp(now) && ValidStamp(recordStart)
    requires lastest.Get(program.First()) == "" || ValidStamp(lastest.Get(program.First()))
    ensures CanRecord(now, recordStart, program, lastest) <==>
            && (lastest.Get(program.First()) == "" ||
                Seconds(lastest.Get(program.First())) < Seconds(program.First().startTime))
            && Seconds(program.First().startTime) <= Seconds(now)
            && Seconds(program.Last().endTime) <= Seconds(recordStart)
  {
    var start, end, last := program.First().startTime, program.Last().endTime, lastest.Get(program.First());
    StringOrderIsTimeOrder(start, now);
    StringOrderIsTimeOrder(end, recordStart);
    if last != "" {
      StringOrderIsTimeOrder(last, start);
    } else {
      assert LexLt(last, start);
    }
  }

  /** `strptime(s, '%Y%m%d%H%M%S')` succeeds on these timestamps only; the window is then
      `YYYY-MM-DD HH:MM` of the start and `HH:MM` of the end. */
  function FormatProgramWindow(start: string, end: string): (r: Option<(string, string)>)
    ensures r.None? <==> !ValidStamp(start) || !ValidStamp(end)
    ensures r.Some? ==> |r.value.0| == 16 && |r.value.1| == 5
    ensures r.Some? ==> r.value.0[4] == '-' && r.value.0[7] == '-' && r.value.0[10] == ' '
                        && r.value.0[13] == ':' && r.value.1[2] == ':'
  {
    if !ValidStamp(start) || !ValidStamp(end) then None
    else
      Some((start[..4] + "-" + start[4..6] + "-" + start[6..8] + " " + start[8..10] + ":" + start[10..12],
            end[8..10] + ":" + end[10..12]))
  }

  /** Dropping the separators of a window gives back digits of the timestamps. */
  function WindowDigits(s: string, e: string): (string, string)
    requires |s| == 16 && |e| == 5
  {
    (s[..4] + s[5..7] + s[8..10] + s[11..13] + s[14..16], e[..2] + e[3..])
  }

  /** The window shows the start to the minute and the end's time of day, nothing else. */
  lemma WindowRoundTrip(start: string, end: string)
    requires ValidStamp(start) && ValidStamp(end)
    ensures FormatProgramWindow(start, end).Some?
    ensures var w := FormatProgramWindow(start, end).value;
            WindowDigits(w.0, w.1) == (start[..12], end[8..12])
  {
    var w := FormatProgramWindow(start, end).value;
    assert w.0[..4] == start[..4] && w.0[5..7] == start[4..6] && w.0[8..10] == start[6..8];
    assert w.0[11..13] == start[8..10] && w.0[14..16] == start[10..12];
    assert start[..12] == start[..4] + start[4..6] + start[6..8] + start[8..10] + start[10..12];
    assert w.1[..2] == end[8..10] && w.1[3..] == end[10..12];
    assert end[8..12] == end[8..10] + end[10..12];
  }

  /** `\s` on a Python str: the characters `str.isspace` accepts. */
  predicate IsSpace(c: char) {
    || ('\U{9}' <= c <= '\U{D}') || ('\U{1C}' <= c <= '\U{20}')
    || c == '\U{85}' || c == '\U{A0}' || c == '\U{1680}'
    || ('\U{2000}' <= c <= '\U{200A}')
    || c == '\U{2028}' || c == '\U{2029}' || c == '\U{202F}' || c == '\U{205F}' || c == '\U{3000}'
  }

  /** The character class `_normalize_label` deletes. */
  const Stripped: string := "!！?？・･:：-ー~〜_/／()[]【】「」『』<>＜＞☆★♪＊*.、。,"

  /** `_normalize_label`. NFKC normalisation and `str.lower` are library calls and are passed
      in. The result keeps, in order, exactly the characters of the normalised and lowered
      text that are neither whitespace nor listed. */
  function NormalizeLabel(text: string, nfkc: string -> string, lower: string -> string)
    : (r: string)
    ensures forall i :: 0 <= i < |r| ==> !IsSpace(r[i]) && r[i] !in Stripped
    ensures forall c :: c in lower(nfkc(text)) && !IsSpace(c) && c !in Stripped ==> c in r
    ensures forall c :: !IsSpace(c) && c !in Stripped ==> multiset(r)[c] == multiset(lower(nfkc(text)))[c]
    ensures IsSubsequence(r, lower(nfkc(text)))
  {
    var t := lower(nfkc(text));
    var u := Keep(t, c => !IsSpace(c));
    var r := Keep(u, c => c !in Stripped);
    forall i | 0 <= i < |r|
      ensures !IsSpace(r[i])
    {
      SubsequenceMember(r, u, i);
    }
    forall c | !IsSpace(c) && c !in Stripped
      ensures multiset(r)[c] == multiset(t)[c]
    {
      assert multiset(u)[c] == multiset(t)[c];
    }
    SubsequenceTransitive(r, u, t);
    r
  }

  /** `_show_filename_hint`: a program without a filename gets no hint; otherwise there is one
      when the normalised title does not occur in the normalised file stem. `Path.stem` is
      passed in. */
  function ShowFilenameHint(pg: Program, nfkc: string -> string, lower: string -> string,
                            stem: string -> string): (r: bool)
    reads pg
    ensures pg.filename == "" ==> !r
    ensures r ==> !IsSubstring(NormalizeLabel(pg.radikoTitle, nfkc, lower),
                               NormalizeLabel(stem(pg.filename), nfkc, lower))
  {
    if pg.filename == "" then false
    else
      var titleNorm := NormalizeLabel(pg.radikoTitle, nfkc, lower);
      var filenameNorm := NormalizeLabel(stem(pg.filename), nfkc, lower);
      !IsSubstring(titleNorm, filenameNorm)
  }

  /** A file named after the title itself needs no hint. */
  lemma NamedAfterTitleNoHint(pg: Program, nfkc: string -> string, lower: string -> string,
                              stem: string -> string)
    requires stem(pg.filename) == pg.radikoTitle
    ensures !ShowFilenameHint(pg, nfkc, lower, stem)
  {
    SubstringOfSelf(NormalizeLabel(pg.radikoTitle, nfkc, lower));
  }

  /** A title made only of spaces and listed marks normalises to `''`, which occurs in every
      stem: no hint. */
  lemma BlankTitleNoHint(pg: Program, nfkc: string -> string, lower: string -> string,
                         stem: string -> string)
    requires forall c :: c in lower(nfkc(pg.radikoTitle)) ==> IsSpace(c) || c in Stripped
    ensures !ShowFilenameHint(pg, nfkc, lower, stem)
  {
    var t := NormalizeLabel(pg.radikoTitle, nfkc, lower);
    assert t == "";
    assert IsPrefix(t, NormalizeLabel(stem(pg.filename), nfkc, lower));
  }

  /** The element at position i of a subsequence occurs in the sequence. */
  lemma {:induction false} SubsequenceMember(r: string, s: string, i: nat)
    requires IsSubsequence(r, s) && i < |r|
    ensures r[i] in s
    decreases |s|
  {
    if r[0] == s[0] {
      if i > 0 {
        SubsequenceMember(r[1..], s[1..], i - 1);
      }
    } else {
      SubsequenceMember(r, s[1..], i);
    }
  }

  /** One line of the upcoming listing: `(pgs.start_time, pge.end_time, pgs, program)`. */
  datatype Item = Item(start: string, end: string, first: Program, program: Target<Program>)

  predicate AllWellFormed(ts: seq<Target<Program>>) {
    forall i :: 0 <= i < |ts| ==> ts[i].WellFormed()
  }

  function ItemOf(t: Target<Program>): Item
    requires t.WellFormed()
  {
    Item(t.First().startTime, t.Last().endTime, t.First(), t)
  }

  /** A target is listed when it starts after `now`, no later than `limit`, and after the
      last recording of its title. `m` is the `Lastest` map. */
  predicate Listed(t: Target<Program>, m: map<string, string>, nowStr: string, limitStr: string)
    requires t.WellFormed()
  {
    && LexLt(nowStr, t.First().startTime)
    && LexLe(t.First().startTime, limitStr)
    && LexLt(Lookup(m, t.First().radikoTitle), t.First().startTime)
  }

  /** The listed targets, in the order the values of the dict are visited. */
  function Upcoming(ts: seq<Target<Program>>, m: map<string, string>, nowStr: string, limitStr: string)
    : seq<Item>
    requires AllWellFormed(ts)
    decreases |ts|
  {
    if |ts| == 0 then []
    else
      var n := |ts| - 1;
      Upcoming(ts[..n], m, nowStr, limitStr) + if Listed(ts[n], m, nowStr, limitStr) then [ItemOf(ts[n])] else []
  }

  /** Every listed target appears. */
  lemma {:induction false} UpcomingComplete(ts: seq<Target<Program>>, m: map<string, string>,
                                            nowStr: string, limitStr: string, i: nat)
    requires AllWellFormed(ts) && i < |ts| && Listed(ts[i], m, nowStr, limitStr)
    ensures ItemOf(ts[i]) in Upcoming(ts, m, nowStr, limitStr)
    decreases |ts|
  {
    var n := |ts| - 1;
    if i < n {
      var init := ts[..n];
      assert AllWellFormed(init) && init[i] == ts[i];
      UpcomingComplete(init, m, nowStr, limitStr, i);
    }
  }

  /** Only listed targets appear: each item comes from one of them. */
  lemma {:induction false} UpcomingSound(ts: seq<Target<Program>>, m: map<string, string>,
                                         nowStr: string, limitStr: string, x: Item)
    returns (i: nat)
    requires AllWellFormed(ts) && x in Upcoming(ts, m, nowStr, limitStr)
    ensures i < |ts| && Listed(ts[i], m, nowStr, limitStr) && x == ItemOf(ts[i])
    decreases |ts|
  {
    var n := |ts| - 1;
    var init := ts[..n];
    assert AllWellFormed(init);
    if x in Upcoming(init, m, nowStr, limitStr) {
      i := UpcomingSound(init, m, nowStr, limitStr, x);
      assert init[i] == ts[i];
    } else {
      i := n;
    }
  }

  /** Every item starts no later than every item after it. */
  predicate SortedByStart(s: seq<Item>) {
    forall i, j :: 0 <= i < j < |s| ==> LexLe(s[i].start, s[j].start)
  }

  /** Insertion after every item that starts no later than x: ties keep input order. */
  function InsertByStart(s: seq<Item>, x: Item): seq<Item>
    decreases |s|
  {
    if |s| == 0 then [x]
    else if LexLe(s[|s| - 1].start, x.start) then s + [x]
    else InsertByStart(s[..|s| - 1], x) + [s[|s| - 1]]
  }

  /** `items.sort(key=lambda x: x[0])`: Python's sort is stable. */
  function SortByStart(s: seq<Item>): seq<Item>
    decreases |s|
  {
    if |s| == 0 then [] else InsertByStart(SortByStart(s[..|s| - 1]), s[|s| - 1])
  }

  /** The items with start time k, in order. */
  function WithStart(s: seq<Item>, k: string): seq<Item>
    decreases |s|
  {
    if |s| == 0 then []
    else WithStart(s[..|s| - 1], k) + if s[|s| - 1].start == k then [s[|s| - 1]] else []
  }

  lemma {:induction false} WithStartAppend(a: seq<Item>, b: seq<Item>, k: string)
    ensures WithStart(a + b, k) == WithStart(a, k) + WithStart(b, k)
    decreases |b|
  {
    if |b| > 0 {
      var n := |b| - 1;
      assert (a + b)[..|a + b| - 1] == a + b[..n];
      assert (a + b)[|a + b| - 1] == b[n];
      WithStartAppend(a, b[..n], k);
    } else {
      assert a + b == a;
    }
  }

  lemma {:induction false} InsertMultiset(s: seq<Item>, x: Item)
    ensures multiset(InsertByStart(s, x)) == multiset(s) + multiset{x}
    decreases |s|
  {
    if |s| > 0 && !LexLe(s[|s| - 1].start, x.start) {
      var n := |s| - 1;
      InsertMultiset(s[..n], x);
      assert s == s[..n] + [s[n]];
    }
  }

  lemma {:induction false} InsertSorted(s: seq<Item>, x: Item)
    requires SortedByStart(s)
    ensures SortedByStart(InsertByStart(s, x))
    decreases |s|
  {
    if |s| > 0 {
      var n := |s| - 1;
      var last := s[n];
      if LexLe(last.start, x.start) {
        var r := s + [x];
        forall i, j | 0 <= i < j < |r|
          ensures LexLe(r[i].start, r[j].start)
        {
          if j == n + 1 && i < n {
            LexLeTransitive(s[i].start, last.start, x.start);
          }
        }
      } else {
        LexNotLe(last.start, x.start);
        var init := s[..n];
        assert SortedByStart(init);
        InsertSorted(init, x);
        InsertMultiset(init, x);
        var ins := InsertByStart(init, x);
        var r := ins + [last];
        forall i, j | 0 <= i < j < |r|
          ensures LexLe(r[i].start, r[j].start)
        {
          if j == |ins| {
            assert r[i] in multiset(ins);
            if r[i] != x {
              assert r[i] in multiset(init);
              var k :| 0 <= k < n && init[k] == r[i];
              assert s[k] == r[i];
            }
          }
        }
      }
    }
  }

  /** Among items of one start time, insertion keeps their order and puts x last. */
  lemma {:induction false} InsertStable(s: seq<Item>, x: Item, k: string)
    ensures WithStart(InsertByStart(s, x), k) == WithStart(s, k) + WithStart([x], k)
    decreases |s|
  {
    assert [x][..0] == [];
    if |s| == 0 {
    } else if LexLe(s[|s| - 1].start, x.start) {
      WithStartAppend(s, [x], k);
    } else {
      var n := |s| - 1;
      InsertStable(s[..n], x, k);
      WithStartAppend(InsertByStart(s[..n], x), [s[n]], k);
      WithStartAppend(s[..n], [s[n]], k);
      assert s[..n] + [s[n]] == s;
      assert [s[n]][..0] == [];
    }
  }

  /** The sort orders by start time. */
  lemma {:induction false} SortByStartSorted(s: seq<Item>)
    ensures SortedByStart(SortByStart(s))
    decreases |s|
  {
    if |s| > 0 {
      var n := |s| - 1;
      SortByStartSorted(s[..n]);
      InsertSorted(SortByStart(s[..n]), s[n]);
    }
  }

  /** The sort neither loses nor repeats an item. */
  lemma {:induction false} SortByStartPermutes(s: seq<Item>)
    ensures multiset(SortByStart(s)) == multiset(s)
    decreases |s|
  {
    if |s| > 0 {
      var n := |s| - 1;
      SortByStartPermutes(s[..n]);
      InsertMultiset(SortByStart(s[..n]), s[n]);
      assert s == s[..n] + [s[n]];
    }
  }

  /** The sort is stable: items of equal start time keep their input order. */
  lemma {:induction false} SortByStartStable(s: seq<Item>, k: string)
    ensures WithStart(SortByStart(s), k) == WithStart(s, k)
    decreases |s|
  {
    if |s| > 0 {
      var n := |s| - 1;
      SortByStartStable(s[..n], k);
      InsertStable(SortByStart(s[..n]), s[n], k);
      WithStartAppend(s[..n], [s[n]], k);
      assert s == s[..n] + [s[n]];
      assert [s[n]][..0] == [];
    }
  }

  /** The selection and sort of `show_upcoming`: `nowStr` and `limitStr` are `now` and
      `now + days` already formatted as timestamps; `programs` are the values of the dict in
      iteration order. The items are exactly the listed targets, ordered by start time, ties
      in dict order. */
  method ShowUpcoming(programs: seq<Target<Program>>, lastest: Lastest, nowStr: string, limitStr: string)
    returns (items: seq<Item>)
    requires AllWellFormed(programs)
    ensures items == SortByStart(Upcoming(programs, lastest.lastRecordAt, nowStr, limitStr))
    ensures SortedByStart(items)
    ensures forall x :: x in items <==>
              exists i :: 0 <= i < |programs| && Listed(programs[i], lastest.lastRecordAt, nowStr, limitStr)
                          && x == ItemOf(programs[i])
  {
    items := [];
    for i := 0 to |programs|
      invariant items == Upcoming(programs[..i], lastest.lastRecordAt, nowStr, limitStr)
    {
      assert programs[..i + 1][..i] == programs[..i] && programs[..i + 1][i] == programs[i];
      var program := programs[i];
      var (pgs, pge) := ProgramStartEnd(program);
      LexNotLe(pgs.startTime, nowStr);
      LexNotLe(pgs.startTime, limitStr);
      LexNotLe(pgs.startTime, lastest.Get(pgs));
      assert Upcoming(programs[..i + 1], lastest.lastRecordAt, nowStr, limitStr) ==
             items + if Listed(program, lastest.lastRecordAt, nowStr, limitStr) then [ItemOf(program)] else [];
      if LexLe(pgs.startTime, nowStr) {
        continue;
      }
      if LexLt(limitStr, pgs.startTime) {
        continue;
      }
      if LexLe(pgs.startTime, lastest.Get(pgs)) {
        continue;
      }
      items := items + [Item(pgs.startTime, pge.endTime, pgs, program)];
    }
    assert programs[..|programs|] == programs;
    var selected := items;
    items := SortByStart(items);
    SortByStartSorted(selected);
    SortByStartPermutes(selected);
    forall x
      ensures x in items <==>
              exists i :: 0 <= i < |programs| && Listed(programs[i], lastest.lastRecordAt, nowStr, limitStr)
                          && x == ItemOf(programs[i])
    {
      assert x in items <==> x in multiset(items);
      assert x in selected <==> x in multiset(selected);
      if x in selected {
        var i := UpcomingSound(programs, lastest.lastRecordAt, nowStr, limitStr, x);
      }
      if exists i :: 0 <= i < |programs| && Listed(programs[i], lastest.lastRecordAt, nowStr, limitStr)
                     && x == ItemOf(programs[i]) {
        var i :| 0 <= i < |programs| && Listed(programs[i], lastest.lastRecordAt, nowStr, limitStr)
                 && x == ItemOf(programs[i]);
        UpcomingComplete(programs, lastest.lastRecordAt, nowStr, limitStr, i);
      }
    }
  }
}
