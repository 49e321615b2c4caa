/** `_filter_programs` as a whole: the dedup loop, then the grouping loop over the kept
    programs in sorted key order. */
module Filter {
  import opened Strings
  import opened Programs
  import opened Rules
  import opened Matching
  import opened Dedup
  import opened Grouping

  /** The programs the dedup loop keeps, per key. */
  function Found(programs: seq<Program>, ts: seq<Tags>, radio: seq<Rule>, strftime: Strftime)
    : map<string, Program>
    requires |ts| == |programs| && AllValid(Entries(programs))
  {
    Stored(programs, DedupOf(Entries(programs), ts, radio, strftime))
  }

  /** The tags of n programs fresh from the parse. */
  function Blank(n: nat): (r: seq<Tags>)
    ensures |r| == n && forall i :: 0 <= i < n ==> r[i] == NoTags
  {
    seq(n, i => NoTags)
  }

  /** What `_filter_programs` returns for programs fresh from the parse. */
  ghost function StationTargets(programs: seq<Program>, radio: seq<Rule>, strftime: Strftime)
    : map<string, Target<Program>>
    requires AllValid(Entries(programs))
  {
    var found := Found(programs, Blank(|programs|), radio, strftime);
    GroupAll(InOrder(found, SortedKeys(found.Keys)))
  }

  /** Every program of a target `_filter_programs` returns is one of the programs it
      was given. */
  lemma StationTargetsFrom(programs: seq<Program>, radio: seq<Rule>, strftime: Strftime, g: string, p: Program)
    requires AllValid(Entries(programs)) && g in StationTargets(programs, radio, strftime)
    requires p in StationTargets(programs, radio, strftime)[g].Members()
    ensures p in programs
  {
    var found := Found(programs, Blank(|programs|), radio, strftime);
    GroupedFrom(found, g, p);
    var k :| k in found && found[k] == p;
    FoundFrom(programs, radio, strftime, k);
  }

  /** Grouping the kept programs in key order yields only kept programs. */
  lemma GroupedFrom(found: map<string, Program>, g: string, p: Program)
    requires g in GroupAll(InOrder(found, SortedKeys(found.Keys)))
    requires p in GroupAll(InOrder(found, SortedKeys(found.Keys)))[g].Members()
    ensures exists k :: k in found && found[k] == p
  {
    var ks := SortedKeys(found.Keys);
    var ps := InOrder(found, ks);
    GroupAllFrom(ps, g, p);
    var i :| 0 <= i < |ps| && ps[i] == p;
    assert ks[i] in found && found[ks[i]] == p;
  }

  /** Every kept program is one of the parsed programs. */
  lemma FoundFrom(programs: seq<Program>, radio: seq<Rule>, strftime: Strftime, k: string)
    requires AllValid(Entries(programs)) && k in Found(programs, Blank(|programs|), radio, strftime)
    ensures Found(programs, Blank(|programs|), radio, strftime)[k] in programs
  {
  }

  /** `_filter_programs`. Every program ends with the fields all rules leave on it; the
      result groups the kept programs, in ascending key order, by series and day. */
  method FilterPrograms(programs: seq<Program>, radio: seq<Rule>, strftime: Strftime)
    returns (ret: map<string, Target<Program>>)
    requires Distinct(programs) && AllValid(Entries(programs))
    modifies set p | p in programs
    ensures forall i :: 0 <= i < |programs| ==>
              programs[i].AsTags() == RunRules(programs[i].AsEntry(), old(programs[i].AsTags()), radio, strftime)
    ensures ret == GroupAll(InOrder(Found(programs, old(TagsOf(programs)), radio, strftime),
                                    SortedKeys(Found(programs, old(TagsOf(programs)), radio, strftime).Keys)))
  {
    var found := DedupPrograms(programs, radio, strftime);
    ret := GroupPrograms(found);
  }

  /** Every target the grouping builds can be indexed at `[0]` and `[-1]`. */
  lemma {:induction false} GroupAllWellFormed(ps: seq<Program>, g: string)
    requires g in GroupAll(ps)
    ensures GroupAll(ps)[g].WellFormed()
  {
    GroupMembers(ps, g);
  }

  /** A strictly ascending sequence has as many elements as the set of them. */
  lemma {:induction false} SortedCard(ks: seq<string>)
    requires StrictlySorted(ks)
    ensures |set k | k in ks| == |ks|
    decreases |ks|
  {
    if |ks| > 0 {
      var n := |ks| - 1;
      var init := ks[..n];
      assert StrictlySorted(init);
      SortedCard(init);
      assert ks[n] !in init by {
        if ks[n] in init {
          var j :| 0 <= j < n && init[j] == ks[n];
          LexLtIrreflexive(ks[n]);
        }
      }
      assert (set k | k in ks) == (set k | k in init) + {ks[n]} by {
        assert ks == init + [ks[n]];
      }
    }
  }

  /** The grouped targets hold exactly as many programs as the dedup loop kept: no kept
      program is lost or repeated. */
  lemma FilterTotal(found: map<string, Program>)
    ensures TotalMembers(GroupAll(InOrder(found, SortedKeys(found.Keys)))) == |found.Keys|
  {
    var ks := SortedKeys(found.Keys);
    GroupTotal(InOrder(found, ks));
    SortedCard(ks);
    assert (set k | k in ks) == found.Keys;
  }
}
