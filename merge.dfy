/** `get_programs`: one feed per station named by the rules, each parsed and filtered, and
    the per-station results folded into one map. When a key is already present, the incoming
    target wins if its first program was found by a title rule, and otherwise only if it is
    strictly longer. */
module Merge {
  import opened Wrappers
  import opened Stamps
  import opened Programs
  import opened Rules
  import opened Schedule
  import opened Matching
  import opened Dedup
  import opened Grouping
  import opened Filter

  /** `sum([pg.dulation for pg in program])`. */
  function SumDulation(ps: seq<Program>): int
    decreases |ps|
  {
    if |ps| == 0 then 0 else SumDulation(ps[..|ps| - 1]) + ps[|ps| - 1].dulation
  }

  /** `_dulation`: a single program's own duration, a list's summed; either way the sum
      over the target's members. */
  function TargetDulation(t: Target<Program>): (r: int)
    ensures r == SumDulation(t.Members())
  {
    if t.Single? then
      assert [t.p][..0] == [];
      t.p.dulation
    else SumDulation(t.ps)
  }

  /** The durations of well-formed programs add up to less than one day per program. */
  lemma {:induction false} SumDulationBounds(ps: seq<Program>)
    requires forall i :: 0 <= i < |ps| ==> ps[i].AsEntry().WellFormed()
    ensures 0 <= SumDulation(ps)
    ensures |ps| > 0 ==> SumDulation(ps) < 86400 * |ps|
    ensures |ps| == 0 ==> SumDulation(ps) == 0
    decreases |ps|
  {
    if |ps| > 0 {
      var n := |ps| - 1;
      SumDulationBounds(ps[..n]);
    }
  }

  /** A list's duration is its members' durations one after another. */
  lemma {:induction false} SumDulationAppend(a: seq<Program>, b: seq<Program>)
    ensures SumDulation(a + b) == SumDulation(a) + SumDulation(b)
    decreases |b|
  {
    if |b| > 0 {
      var n := |b| - 1;
      assert (a + b)[..|a + b| - 1] == a + b[..n];
      assert (a + b)[|a + b| - 1] == b[n];
      SumDulationAppend(a, b[..n]);
      assert SumDulation(a + b) == SumDulation(a + b[..n]) + b[n].dulation;
      assert SumDulation(b) == SumDulation(b[..n]) + b[n].dulation;
    } else {
      assert a + b == a;
    }
  }

  /** The first programs of a map's targets: the only objects the merge reads. */
  function FirstObjects(m: map<string, Target<Program>>): set<Program> {
    set k | k in m && m[k].WellFormed() :: m[k].First()
  }

  predicate AllWellFormed(m: map<string, Target<Program>>) {
    forall k :: k in m ==> m[k].WellFormed()
  }

  /** A station's target as the merge sees it: the target and its first program's
      `found_by` at the moment it is merged. */
  datatype Incoming = Incoming(target: Target<Program>, foundBy: Provenance)

  /** Does the incoming target take the place of the one already stored? Only the
      incoming target's provenance is looked at, never the stored one's. */
  predicate Wins(existing: Target<Program>, incoming: Incoming) {
    incoming.foundBy == ByTitle || TargetDulation(incoming.target) > TargetDulation(existing)
  }

  /** What the merge reads of one station's targets. */
  function Snapshot(progs: map<string, Target<Program>>): (r: map<string, Incoming>)
    requires AllWellFormed(progs)
    reads FirstObjects(progs)
    ensures r.Keys == progs.Keys
    ensures forall k :: k in r ==> r[k].target == progs[k] && r[k].foundBy == progs[k].First().foundBy
  {
    map k | k in progs :: Incoming(progs[k], progs[k].First().foundBy)
  }

  /** A map holding each target with its first program's `found_by` is the snapshot. */
  lemma SnapshotOf(progs: map<string, Target<Program>>, snap: map<string, Incoming>)
    requires AllWellFormed(progs) && snap.Keys == progs.Keys
    requires forall k :: k in snap ==> snap[k] == Incoming(progs[k], progs[k].First().foundBy)
    ensures snap == Snapshot(progs)
  {
  }

  /** The map after all of one station's targets went through the merge, on what the
      merge reads. */
  function MergeSnap(programs: map<string, Target<Program>>, incoming: map<string, Incoming>)
    : (r: map<string, Target<Program>>)
    ensures r.Keys == programs.Keys + incoming.Keys
    ensures forall k :: k in r ==>
              || (k in programs && r[k] == programs[k])
              || (k in incoming && r[k] == incoming[k].target)
    ensures forall k :: k in incoming && incoming[k].foundBy == ByTitle ==> r[k] == incoming[k].target
  {
    map k | k in programs.Keys + incoming.Keys ::
      if k !in incoming then programs[k]
      else if k !in programs || Wins(programs[k], incoming[k]) then incoming[k].target
      else programs[k]
  }

  /** `program[0].found_by == 'title' or _dulation(program) > _dulation(programs[title])`. */
  predicate Replaces(existing: Target<Program>, incoming: Target<Program>)
    requires incoming.WellFormed()
    reads incoming.First()
  {
    Wins(existing, Incoming(incoming, incoming.First().foundBy))
  }

  /** The map after all of one station's targets went through the merge. */
  function MergeTargets(programs: map<string, Target<Program>>, progs: map<string, Target<Program>>)
    : map<string, Target<Program>>
    requires AllWellFormed(progs)
    reads FirstObjects(progs)
  {
    MergeSnap(programs, Snapshot(progs))
  }

  /** A key seen for the first time is inserted as it is. */
  lemma MergeNewKey(programs: map<string, Target<Program>>, progs: map<string, Target<Program>>, k: string)
    requires AllWellFormed(progs) && k in progs && k !in programs
    ensures k in MergeTargets(programs, progs) && MergeTargets(programs, progs)[k] == progs[k]
  {
  }

  /** An incoming target found by a title rule replaces whatever was there, even a longer
      target found by a title rule. */
  lemma MergeTitleWins(programs: map<string, Target<Program>>, progs: map<string, Target<Program>>, k: string)
    requires AllWellFormed(progs) && k in progs && k in programs
    requires progs[k].First().foundBy == ByTitle
    ensures MergeTargets(programs, progs)[k] == progs[k]
  {
  }

  /** An incoming keyword target replaces the stored one exactly when it is strictly
      longer: a tie keeps the earlier target, and a stored title target gives way to a
      longer keyword target. */
  lemma MergeWordsByLength(programs: map<string, Target<Program>>, progs: map<string, Target<Program>>, k: string)
    requires AllWellFormed(progs) && k in progs && k in programs
    requires progs[k].First().foundBy != ByTitle
    ensures MergeTargets(programs, progs)[k] ==
            if TargetDulation(progs[k]) > TargetDulation(programs[k]) then progs[k] else programs[k]
  {
  }

  /** Keys the station did not produce keep their target. */
  lemma MergeKeepsOthers(programs: map<string, Target<Program>>, progs: map<string, Target<Program>>, k: string)
    requires AllWellFormed(progs) && k in programs && k !in progs
    ensures MergeTargets(programs, progs)[k] == programs[k]
  {
  }

  /** The merge leaves every key holding a target of one of the two maps. */
  lemma MergeFrom(programs: map<string, Target<Program>>, progs: map<string, Target<Program>>, k: string)
    requires AllWellFormed(progs) && k in MergeTargets(programs, progs)
    ensures || (k in programs && MergeTargets(programs, progs)[k] == programs[k])
            || (k in progs && MergeTargets(programs, progs)[k] == progs[k])
  {
  }

  /** The entries of m whose keys are in done. */
  function Restrict<V>(m: map<string, V>, done: set<string>): (r: map<string, V>)
    ensures r.Keys == m.Keys * done
    ensures forall k :: k in r ==> r[k] == m[k]
  {
    map k | k in m.Keys * done :: m[k]
  }

  /** Merging one more key changes the map at that key only, and decides it against what
      was stored before this station. */
  lemma MergeStep(programs: map<string, Target<Program>>, incoming: map<string, Incoming>,
                  done: set<string>, t: string)
    requires t in incoming && t !in done
    ensures var before := MergeSnap(programs, Restrict(incoming, done));
            && (t in before <==> t in programs)
            && (t in before ==> before[t] == programs[t])
            && MergeSnap(programs, Restrict(incoming, done + {t}))
               == before[t := if t in before && !Wins(before[t], incoming[t]) then before[t] else incoming[t].target]
  {
    var before := MergeSnap(programs, Restrict(incoming, done));
    var after := MergeSnap(programs, Restrict(incoming, done + {t}));
    var want := before[t := if t in before && !Wins(before[t], incoming[t]) then before[t] else incoming[t].target];
    assert after.Keys == want.Keys;
    forall k | k in after
      ensures after[k] == want[k]
    {
      if k != t {
        assert k in Restrict(incoming, done + {t}) <==> k in Restrict(incoming, done);
      }
    }
  }

  lemma MergeLoopStep(programs: map<string, Target<Program>>, snap: map<string, Incoming>,
                      done: set<string>, t: string, merged: map<string, Target<Program>>,
                      next: map<string, Target<Program>>)
    requires t in snap && t !in done
    requires merged == MergeSnap(programs, Restrict(snap, done))
    requires next == if t in merged && !Wins(merged[t], snap[t]) then merged else merged[t := snap[t].target]
    ensures next == MergeSnap(programs, Restrict(snap, done + {t}))
  {
    MergeStep(programs, snap, done, t);
  }

  /** The body of the merge loop for one `title, program` item. */
  method MergeOne(programs: map<string, Target<Program>>, title: string, program: Target<Program>)
    returns (merged: map<string, Target<Program>>)
    requires program.WellFormed()
    ensures merged == if title in programs && !Replaces(programs[title], program) then programs
                      else programs[title := program]
  {
    merged := programs;
    if title in merged {
      var program1 := merged[title];
      var p1 := program.First();
      var foundBy := p1.foundBy;
      if foundBy == ByTitle {
        merged := merged[title := program];
      } else {
        var dulation1 := TargetDulation(program1);
        var dulation2 := TargetDulation(program);
        if dulation2 > dulation1 {
          merged := merged[title := program];
        }
      }
    } else {
      merged := merged[title := program];
    }
  }

  /** One turn of the merge loop, against the snapshot of the station's targets. */
  method MergeItem(programs: map<string, Target<Program>>, progs: map<string, Target<Program>>,
                   ghost snap: map<string, Incoming>, ghost done: set<string>,
                   merged: map<string, Target<Program>>, title: string)
    returns (next: map<string, Target<Program>>)
    requires AllWellFormed(progs) && title in progs && title !in done && snap.Keys == progs.Keys
    requires snap[title] == Incoming(progs[title], progs[title].First().foundBy)
    requires merged == MergeSnap(programs, Restrict(snap, done))
    ensures next == MergeSnap(programs, Restrict(snap, done + {title}))
  {
    next := MergeOne(merged, title, progs[title]);
    MergeLoopStep(programs, snap, done, title, merged, next);
  }

  /** `for title, program in progs.items(): ...`: each key is merged once, so the order of
      the items does not matter. */
  method MergeInto(programs: map<string, Target<Program>>, progs: map<string, Target<Program>>)
    returns (merged: map<string, Target<Program>>, ghost snap: map<string, Incoming>)
    requires AllWellFormed(progs)
    ensures merged == MergeTargets(programs, progs)
    ensures snap == Snapshot(progs) && merged == MergeSnap(programs, snap)
  {
    snap := Snapshot(progs);
    merged := programs;
    var todo := progs.Keys;
    while todo != {}
      invariant todo <= progs.Keys && snap.Keys == progs.Keys
      invariant merged == MergeSnap(programs, Restrict(snap, progs.Keys - todo))
      invariant forall k :: k in snap ==> snap[k] == Incoming(progs[k], progs[k].First().foundBy)
      decreases todo
    {
      var title :| title in todo;
      ghost var done := progs.Keys - todo;
      assert done + {title} == progs.Keys - (todo - {title});
      merged := MergeItem(programs, progs, snap, done, merged, title);
      todo := todo - {title};
    }
    assert Restrict(snap, progs.Keys - todo) == snap;
    SnapshotOf(progs, snap);
  }

  /** The whole fold over the stations' targets, in station order. */
  function MergeAll(snaps: seq<map<string, Incoming>>): map<string, Target<Program>>
    decreases |snaps|
  {
    if |snaps| == 0 then map[]
    else
      var n := |snaps| - 1;
      MergeSnap(MergeAll(snaps[..n]), snaps[n])
  }

  lemma MergeAllSnoc(snaps: seq<map<string, Incoming>>, m: map<string, Incoming>)
    ensures MergeAll(snaps + [m]) == MergeSnap(MergeAll(snaps), m)
  {
    assert (snaps + [m])[..|snaps|] == snaps;
  }

  /** A key is in the final map iff some station produced it. */
  lemma {:induction false} MergeAllKeys(snaps: seq<map<string, Incoming>>, k: string)
    ensures k in MergeAll(snaps) <==> exists i :: 0 <= i < |snaps| && k in snaps[i]
    decreases |snaps|
  {
    if |snaps| > 0 {
      var n := |snaps| - 1;
      var init := snaps[..n];
      MergeAllKeys(init, k);
      assert MergeAll(snaps).Keys == MergeAll(init).Keys + snaps[n].Keys;
      if k in MergeAll(init) {
        var i :| 0 <= i < n && k in init[i];
        assert snaps[i] == init[i];
      } else if k !in snaps[n] {
        forall i | 0 <= i < |snaps| ensures k !in snaps[i] {
          if i < n {
            assert init[i] == snaps[i];
          }
        }
      }
    }
  }

  /** Every final target is one some station produced under the same key. */
  lemma {:induction false} MergeAllFrom(snaps: seq<map<string, Incoming>>, k: string)
    requires k in MergeAll(snaps)
    ensures exists i :: 0 <= i < |snaps| && k in snaps[i] && MergeAll(snaps)[k] == snaps[i][k].target
    decreases |snaps|
  {
    var n := |snaps| - 1;
    var prev := MergeAll(snaps[..n]);
    assert forall i :: 0 <= i < n ==> snaps[..n][i] == snaps[i];
    if k in snaps[n] && MergeAll(snaps)[k] == snaps[n][k].target {
    } else {
      MergeAllFrom(snaps[..n], k);
    }
  }

  /** A key produced by a single station keeps that station's target, whatever the other
      stations did. */
  lemma {:induction false} MergeAllOnly(snaps: seq<map<string, Incoming>>, k: string, i: nat)
    requires i < |snaps| && k in snaps[i]
    requires forall j :: 0 <= j < |snaps| && j != i ==> k !in snaps[j]
    ensures k in MergeAll(snaps) && MergeAll(snaps)[k] == snaps[i][k].target
    decreases |snaps|
  {
    var n := |snaps| - 1;
    if i < n {
      assert forall j :: 0 <= j < n ==> snaps[..n][j] == snaps[j];
      MergeAllOnly(snaps[..n], k, i);
    } else {
      MergeAllKeys(snaps[..n], k);
    }
  }

  /** Does the feed of this station fail to parse? */
  predicate FeedFails(feed: Feed, rc: ReplaceMap, z2h: string -> string) {
    ParseAll(feed.station, feed.progs, rc, z2h).None?
  }

  /** The programs the targets of m hold. */
  function Objects(m: map<string, Target<Program>>): set<Program> {
    set k, p | k in m && p in m[k].Members() :: p
  }

  /** p carries the tags the rules leave on a freshly parsed program. */
  predicate RuleTagged(p: Program, radio: seq<Rule>, strftime: Strftime)
    reads p
  {
    ValidStamp(p.startTime) && p.AsTags() == RunRules(p.AsEntry(), NoTags, radio, strftime)
  }

  predicate Tagged(objs: set<Program>, radio: seq<Rule>, strftime: Strftime)
    reads objs
  {
    forall p :: p in objs ==> RuleTagged(p, radio, strftime)
  }

  lemma TaggedSubset(a: set<Program>, b: set<Program>, c: set<Program>, radio: seq<Rule>, strftime: Strftime)
    requires Tagged(b, radio, strftime) && Tagged(c, radio, strftime) && a <= b + c
    ensures Tagged(a, radio, strftime)
  {
  }

  /** The `found_by` the merge reads of a target whose first program went through the
      rules from blank tags. */
  function RuledBy(t: Target<Program>, radio: seq<Rule>, strftime: Strftime): Provenance
    requires t.WellFormed() && ValidStamp(t.First().startTime)
  {
    RunRules(t.First().AsEntry(), NoTags, radio, strftime).foundBy
  }

  /** The targets of one station come from its feed: ps are the programs the parse
      created, each target is the one `_filter_programs` builds from them, and the
      `found_by` the merge reads is the one the rules gave the target's first program. */
  ghost predicate FromFeed(snap: map<string, Incoming>, ps: seq<Program>, feed: Feed, rc: ReplaceMap,
                           radio: seq<Rule>, z2h: string -> string, strftime: Strftime)
  {
    && ParseAll(feed.station, feed.progs, rc, z2h).Some?
    && Entries(ps) == ParseAll(feed.station, feed.progs, rc, z2h).value
    && AllValid(Entries(ps))
    && snap.Keys == StationTargets(ps, radio, strftime).Keys
    && forall k :: k in snap ==>
         && snap[k].target == StationTargets(ps, radio, strftime)[k]
         && snap[k].target.WellFormed() && ValidStamp(snap[k].target.First().startTime)
         && snap[k].foundBy == RuledBy(snap[k].target, radio, strftime)
  }

  /** The targets `_filter_programs` builds can be indexed at `[0]` and `[-1]`. */
  lemma StationTargetsWellFormed(ps: seq<Program>, radio: seq<Rule>, strftime: Strftime)
    requires AllValid(Entries(ps))
    ensures AllWellFormed(StationTargets(ps, radio, strftime))
  {
    var found := Found(ps, Blank(|ps|), radio, strftime);
    forall g | g in StationTargets(ps, radio, strftime)
      ensures StationTargets(ps, radio, strftime)[g].WellFormed()
    {
      GroupAllWellFormed(InOrder(found, SortedKeys(found.Keys)), g);
    }
  }

  /** Targets made only of tagged programs are tagged. */
  lemma TaggedFrom(m: map<string, Target<Program>>, ps: seq<Program>, radio: seq<Rule>, strftime: Strftime)
    requires forall k, p :: k in m && p in m[k].Members() ==> p in ps
    requires forall i :: 0 <= i < |ps| ==> RuleTagged(ps[i], radio, strftime)
    ensures Tagged(Objects(m), radio, strftime)
  {
    forall p | p in Objects(m)
      ensures RuleTagged(p, radio, strftime)
    {
      var k :| k in m && p in m[k].Members();
      assert p in ps;
      var i :| 0 <= i < |ps| && ps[i] == p;
    }
  }

  /** When every program of a station holds the tags the rules gave it, so does every
      program of its targets. */
  lemma StationTargetsTagged(ps: seq<Program>, radio: seq<Rule>, strftime: Strftime)
    requires AllValid(Entries(ps))
    requires forall i :: 0 <= i < |ps| ==> ps[i].AsTags() == RunRules(ps[i].AsEntry(), NoTags, radio, strftime)
    ensures Tagged(Objects(StationTargets(ps, radio, strftime)), radio, strftime)
  {
    var ret := StationTargets(ps, radio, strftime);
    forall g, p | g in ret && p in ret[g].Members()
      ensures p in ps
    {
      StationTargetsFrom(ps, radio, strftime, g, p);
    }
    forall i | 0 <= i < |ps|
      ensures RuleTagged(ps[i], radio, strftime)
    {
      assert Entries(ps)[i] == ps[i].AsEntry();
    }
    TaggedFrom(ret, ps, radio, strftime);
  }

  /** The snapshot of tagged targets records the `found_by` the rules gave each first program. */
  lemma SnapshotRuled(progs: map<string, Target<Program>>, snap: map<string, Incoming>,
                      radio: seq<Rule>, strftime: Strftime)
    requires AllWellFormed(progs) && Tagged(Objects(progs), radio, strftime) && snap == Snapshot(progs)
    ensures forall k :: k in snap ==>
              && snap[k].target.WellFormed() && ValidStamp(snap[k].target.First().startTime)
              && snap[k].foundBy == RuledBy(snap[k].target, radio, strftime)
  {
    forall k | k in snap
      ensures snap[k].target.WellFormed() && ValidStamp(snap[k].target.First().startTime)
      ensures snap[k].foundBy == RuledBy(snap[k].target, radio, strftime)
    {
      assert snap[k].target.First() in progs[k].Members();
      assert RuleTagged(progs[k].First(), radio, strftime);
    }
  }

  /** The merge brings in no program that neither side held. */
  lemma MergeSnapObjects(programs: map<string, Target<Program>>, snap: map<string, Incoming>,
                         progs: map<string, Target<Program>>)
    requires forall k :: k in snap ==> k in progs && snap[k].target == progs[k]
    ensures Objects(MergeSnap(programs, snap)) <= Objects(programs) + Objects(progs)
  {
    var m := MergeSnap(programs, snap);
    forall p | p in Objects(m)
      ensures p in Objects(programs) + Objects(progs)
    {
      var k :| k in m && p in m[k].Members();
      if k in snap && m[k] == snap[k].target {
        assert p in progs[k].Members();
      } else {
        assert p in programs[k].Members();
      }
    }
  }

  /** What one station contributes to the fold is determined by its feed. */
  lemma FromFeedOf(progs: map<string, Target<Program>>, snap: map<string, Incoming>, ps: seq<Program>,
                   feed: Feed, rc: ReplaceMap, radio: seq<Rule>, z2h: string -> string, strftime: Strftime)
    requires ParseAll(feed.station, feed.progs, rc, z2h).Some?
    requires Entries(ps) == ParseAll(feed.station, feed.progs, rc, z2h).value && AllValid(Entries(ps))
    requires progs == StationTargets(ps, radio, strftime)
    requires snap.Keys == progs.Keys && forall k :: k in snap ==> snap[k].target == progs[k]
    requires forall k :: k in snap ==>
               && snap[k].target.WellFormed() && ValidStamp(snap[k].target.First().startTime)
               && snap[k].foundBy == RuledBy(snap[k].target, radio, strftime)
    ensures FromFeed(snap, ps, feed, rc, radio, z2h, strftime)
  {
  }

  /** `_filter_programs` on programs fresh from the parse. */
  method FilterFresh(ps: seq<Program>, radio: seq<Rule>, strftime: Strftime)
    returns (ret: map<string, Target<Program>>)
    requires Distinct(ps) && AllValid(Entries(ps))
    requires forall i :: 0 <= i < |ps| ==> ps[i].AsTags() == NoTags
    modifies set p | p in ps
    ensures forall i :: 0 <= i < |ps| ==> ps[i].AsTags() == RunRules(ps[i].AsEntry(), NoTags, radio, strftime)
    ensures ret == StationTargets(ps, radio, strftime)
  {
    ghost var ts := TagsOf(ps);
    assert ts == Blank(|ps|);
    ret := FilterPrograms(ps, radio, strftime);
  }

  /** One station: parse its feed and filter its programs. The programs are fresh, so
      nothing merged before is touched. */
  method StationPrograms(feed: Feed, rc: ReplaceMap, radio: seq<Rule>, z2h: string -> string,
                         strftime: Strftime)
    returns (progs: Option<map<string, Target<Program>>>, ghost ps: seq<Program>)
    ensures progs.None? <==> FeedFails(feed, rc, z2h)
    ensures progs.Some? ==>
              && Entries(ps) == ParseAll(feed.station, feed.progs, rc, z2h).value
              && AllValid(Entries(ps))
              && progs.value == StationTargets(ps, radio, strftime)
              && AllWellFormed(progs.value)
              && Tagged(Objects(progs.value), radio, strftime)
    ensures progs.Some? ==> forall i :: 0 <= i < |ps| ==>
              ps[i].AsTags() == RunRules(ps[i].AsEntry(), NoTags, radio, strftime)
  {
    var parsed := ParsePrograms(feed, rc, z2h);
    if parsed.None? {
      return None, [];
    }
    var qs := parsed.value;
    ps := qs;
    forall k | 0 <= k < |ps|
      ensures ValidStamp(Entries(ps)[k].startTime)
    {
      ParseAllWellFormed(feed.station, feed.progs, rc, z2h, k);
    }
    var ret := FilterFresh(qs, radio, strftime);
    StationTargetsWellFormed(ps, radio, strftime);
    StationTargetsTagged(ps, radio, strftime);
    progs := Some(ret);
  }

  /** The merge of one station's targets, each of whose programs went through the rules:
      what the merge reads of each target is the `found_by` the rules gave its first
      program, and the merged map again holds only such programs. `held` is any set of
      such programs holding those of both maps. */
  method MergeRuled(merged: map<string, Target<Program>>, progs: map<string, Target<Program>>,
                    radio: seq<Rule>, strftime: Strftime, ghost held: set<Program>)
    returns (m: map<string, Target<Program>>, ghost snap: map<string, Incoming>)
    requires AllWellFormed(progs)
    requires Objects(merged) + Objects(progs) <= held && Tagged(held, radio, strftime)
    ensures m == MergeSnap(merged, snap) && Tagged(Objects(m), radio, strftime)
    ensures snap.Keys == progs.Keys && forall k :: k in snap ==> snap[k].target == progs[k]
    ensures forall k :: k in snap ==>
              && snap[k].target.WellFormed() && ValidStamp(snap[k].target.First().startTime)
              && snap[k].foundBy == RuledBy(snap[k].target, radio, strftime)
  {
    m, snap := MergeInto(merged, progs);
    TaggedSubset(Objects(progs), held, {}, radio, strftime);
    SnapshotRuled(progs, snap, radio, strftime);
    MergeSnapObjects(merged, snap, progs);
    TaggedSubset(Objects(m), held, {}, radio, strftime);
  }

  /** One turn of the station loop: fetch, parse and filter one station, then merge its
      targets into those of the stations before it. `held` holds the programs merged so far. */
  method MergeStation(merged: map<string, Target<Program>>, ghost snaps: seq<map<string, Incoming>>,
                      feed: Feed, rc: ReplaceMap, radio: seq<Rule>, z2h: string -> string,
                      strftime: Strftime, ghost held: set<Program>)
    returns (next: Option<map<string, Target<Program>>>, ghost snap: map<string, Incoming>,
             ghost ps: seq<Program>)
    requires merged == MergeAll(snaps) && Objects(merged) <= held && Tagged(held, radio, strftime)
    ensures next.None? <==> FeedFails(feed, rc, z2h)
    ensures next.Some? ==> next.value == MergeAll(snaps + [snap])
    ensures next.Some? ==> FromFeed(snap, ps, feed, rc, radio, z2h, strftime)
    ensures next.Some? ==> Tagged(Objects(next.value), radio, strftime)
  {
    var station;
    station, ps := StationPrograms(feed, rc, radio, z2h, strftime);
    if station.None? {
      return None, map[], ps;
    }
    var m;
    m, snap := MergeRuled(merged, station.value, radio, strftime, held + Objects(station.value));
    MergeAllSnoc(snaps, snap);
    FromFeedOf(station.value, snap, ps, feed, rc, radio, z2h, strftime);
    next := Some(m);
  }

  /** The stations before i all came from their feeds. */
  ghost predicate FromFeeds(snaps: seq<map<string, Incoming>>, pss: seq<seq<Program>>, stations: seq<string>,
                            fetch: string -> Feed, rc: ReplaceMap, radio: seq<Rule>, z2h: string -> string,
                            strftime: Strftime, i: nat)
  {
    && |snaps| == |pss| == i <= |stations|
    && forall j :: 0 <= j < i ==> FromFeed(snaps[j], pss[j], fetch(stations[j]), rc, radio, z2h, strftime)
  }

  /** One more station that came from its feed extends the record. */
  lemma FromFeedsSnoc(snaps: seq<map<string, Incoming>>, pss: seq<seq<Program>>, stations: seq<string>,
                      fetch: string -> Feed, rc: ReplaceMap, radio: seq<Rule>, z2h: string -> string,
                      strftime: Strftime, i: nat, snap: map<string, Incoming>, ps: seq<Program>)
    requires FromFeeds(snaps, pss, stations, fetch, rc, radio, z2h, strftime, i) && i < |stations|
    requires FromFeed(snap, ps, fetch(stations[i]), rc, radio, z2h, strftime)
    ensures FromFeeds(snaps + [snap], pss + [ps], stations, fetch, rc, radio, z2h, strftime, i + 1)
  {
    FromFeedsExtend(snaps, pss, stations, fetch, rc, radio, z2h, strftime, i, snap, ps);
    assert (snaps + [snap])[i] == snap && (pss + [ps])[i] == ps;
    assert FromFeed((snaps + [snap])[i], (pss + [ps])[i], fetch(stations[i]), rc, radio, z2h, strftime);
  }

  /** The stations before i keep their feeds when one more is appended. */
  lemma FromFeedsExtend(snaps: seq<map<string, Incoming>>, pss: seq<seq<Program>>, stations: seq<string>,
                        fetch: string -> Feed, rc: ReplaceMap, radio: seq<Rule>, z2h: string -> string,
                        strftime: Strftime, i: nat, snap: map<string, Incoming>, ps: seq<Program>)
    requires FromFeeds(snaps, pss, stations, fetch, rc, radio, z2h, strftime, i)
    ensures forall j :: 0 <= j < i ==>
              FromFeed((snaps + [snap])[j], (pss + [ps])[j], fetch(stations[j]), rc, radio, z2h, strftime)
  {
    forall j | 0 <= j < i
      ensures FromFeed((snaps + [snap])[j], (pss + [ps])[j], fetch(stations[j]), rc, radio, z2h, strftime)
    {
      assert (snaps + [snap])[j] == snaps[j] && (pss + [ps])[j] == pss[j];
    }
  }

  /** A station that came from its feed did not fail. */
  lemma FromFeedsParse(snaps: seq<map<string, Incoming>>, pss: seq<seq<Program>>, stations: seq<string>,
                       fetch: string -> Feed, rc: ReplaceMap, radio: seq<Rule>, z2h: string -> string,
                       strftime: Strftime, i: nat)
    requires FromFeeds(snaps, pss, stations, fetch, rc, radio, z2h, strftime, i)
    ensures forall j :: 0 <= j < i ==> !FeedFails(fetch(stations[j]), rc, z2h)
  {
    forall j | 0 <= j < i
      ensures !FeedFails(fetch(stations[j]), rc, z2h)
    {
      assert FromFeed(snaps[j], pss[j], fetch(stations[j]), rc, radio, z2h, strftime);
    }
  }

  /** `get_programs`. `stations` is the order in which the set `_station_list` returns is
      iterated, and `fetch` stands for downloading and reading one station's weekly feed.
      A feed with a titled entry whose timestamp does not parse raises, so the call fails
      as a whole. */
  method GetPrograms(radio: seq<Rule>, stations: seq<string>, fetch: string -> Feed,
                     z2h: string -> string, strftime: Strftime)
    returns (programs: Option<map<string, Target<Program>>>, ghost snaps: seq<map<string, Incoming>>,
             ghost pss: seq<seq<Program>>)
    requires Distinct(stations) && (set s | s in stations) == RuleStations(radio)
    ensures programs.None? <==>
            exists i :: 0 <= i < |stations| && FeedFails(fetch(stations[i]), ReplaceConfigOf(radio), z2h)
    ensures programs.Some? ==> |snaps| == |pss| == |stations| && programs.value == MergeAll(snaps)
    ensures programs.Some? ==> forall i :: 0 <= i < |stations| ==>
              FromFeed(snaps[i], pss[i], fetch(stations[i]), ReplaceConfigOf(radio), radio, z2h, strftime)
    ensures programs.Some? ==> Tagged(Objects(programs.value), radio, strftime)
  {
    var replaceConfig := ReplaceConfig(radio);
    var merged: map<string, Target<Program>> := map[];
    snaps, pss := [], [];
    for i := 0 to |stations|
      invariant FromFeeds(snaps, pss, stations, fetch, replaceConfig, radio, z2h, strftime, i)
      invariant merged == MergeAll(snaps) && Tagged(Objects(merged), radio, strftime)
    {
      var next, snap, ps := MergeStation(merged, snaps, fetch(stations[i]), replaceConfig, radio, z2h, strftime,
                                          Objects(merged));
      if next.None? {
        return None, snaps, pss;
      }
      FromFeedsSnoc(snaps, pss, stations, fetch, replaceConfig, radio, z2h, strftime, i, snap, ps);
      merged := next.value;
      snaps, pss := snaps + [snap], pss + [ps];
    }
    FromFeedsParse(snaps, pss, stations, fetch, replaceConfig, radio, z2h, strftime, |stations|);
    programs := Some(merged);
  }
}
