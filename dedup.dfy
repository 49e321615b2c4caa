/** The first loop of `_filter_programs`: every rule is tried on every program, and matched
    programs are kept in `found_programs` under their per-broadcast key. */
module Dedup {
  import opened Stamps
  import opened Programs
  import opened Rules
  import opened Matching

  // ---- the bookkeeping on values: which program index each key ends up holding ----

  /** One matched program, index i: a new key is stored; an existing key is taken over
      only when the program stored there has `found_by == 'words'`. */
  function Admit(m: map<string, nat>, key: string, i: nat, kind: seq<Provenance>): map<string, nat>
    requires forall k :: k in m ==> m[k] < |kind|
  {
    if key !in m || kind[m[key]] == ByWords then m[key := i] else m
  }

  /** The index stored under each key after the first n programs, with keys `keys`, were
      run through the rules; hit[i] says whether any rule matched program i, kind[i] is its
      final `found_by`. */
  function DedupIdx(keys: seq<string>, hit: seq<bool>, kind: seq<Provenance>, n: nat): (m: map<string, nat>)
    requires |keys| == |hit| == |kind| && n <= |keys|
    ensures forall k :: k in m ==> m[k] < n && keys[m[k]] == k && hit[m[k]]
  {
    if n == 0 then map[]
    else
      var m := DedupIdx(keys, hit, kind, n - 1);
      if hit[n - 1] then Admit(m, keys[n - 1], n - 1, kind) else m
  }

  /** A key is kept iff some matched program has it; one program per key. */
  lemma {:induction false} DedupDomain(keys: seq<string>, hit: seq<bool>, kind: seq<Provenance>, n: nat, k: string)
    requires |keys| == |hit| == |kind| && n <= |keys|
    ensures k in DedupIdx(keys, hit, kind, n) <==> exists i :: 0 <= i < n && hit[i] && keys[i] == k
  {
    if n > 0 {
      DedupDomain(keys, hit, kind, n - 1, k);
    }
  }

  /** Which program a key holds: the first matched one whose final `found_by` is not
      'words' (a title match is never displaced), and, when every one of them ended as
      'words', the last. Program i wins when all earlier matched programs with its key
      ended as 'words' and it either did not, or no later matched program has its key. */
  lemma {:induction false} DedupWinner(keys: seq<string>, hit: seq<bool>, kind: seq<Provenance>, n: nat, i: nat)
    requires |keys| == |hit| == |kind| && n <= |keys|
    requires i < n && hit[i]
    requires forall j :: 0 <= j < i && hit[j] && keys[j] == keys[i] ==> kind[j] == ByWords
    requires kind[i] != ByWords || forall j :: i < j < n ==> !(hit[j] && keys[j] == keys[i])
    ensures keys[i] in DedupIdx(keys, hit, kind, n) && DedupIdx(keys, hit, kind, n)[keys[i]] == i
  {
    if i < n - 1 {
      DedupWinner(keys, hit, kind, n - 1, i);
    }
  }

  // ---- the same bookkeeping on objects ----

  /** The objects a key-to-index map designates. */
  function Stored(ps: seq<Program>, m: map<string, nat>): (r: map<string, Program>)
    requires forall k :: k in m ==> m[k] < |ps|
    ensures r.Keys == m.Keys
  {
    map k | k in m :: ps[m[k]]
  }

  /** `if key in found: if found[key].found_by == 'words': found[key] = pg` / `else: found[key] = pg`. */
  function AdmitObject(found: map<string, Program>, key: string, pg: Program): map<string, Program>
    reads found.Values
  {
    if key !in found || found[key].foundBy == ByWords then found[key := pg] else found
  }

  function Keys(es: seq<Entry>): (r: seq<string>)
    ensures |r| == |es| && forall i :: 0 <= i < |es| ==> r[i] == es[i].Key()
  {
    seq(|es|, i requires 0 <= i < |es| => es[i].Key())
  }

  predicate AllValid(es: seq<Entry>) {
    forall i :: 0 <= i < |es| ==> ValidStamp(es[i].startTime)
  }

  function Hits(es: seq<Entry>, radio: seq<Rule>): (r: seq<bool>)
    requires AllValid(es)
    ensures |r| == |es| && forall i :: 0 <= i < |es| ==> r[i] == AnyMatch(es[i], radio)
  {
    seq(|es|, i requires 0 <= i < |es| => AnyMatch(es[i], radio))
  }

  /** The fields every program ends with once all rules ran on it. */
  function Finals(es: seq<Entry>, ts: seq<Tags>, radio: seq<Rule>, strftime: Strftime): (r: seq<Tags>)
    requires AllValid(es) && |ts| == |es|
    ensures |r| == |es|
    ensures forall i :: 0 <= i < |es| ==> r[i] == RunRules(es[i], ts[i], radio, strftime)
  {
    seq(|es|, i requires 0 <= i < |es| => RunRules(es[i], ts[i], radio, strftime))
  }

  function Kinds(finals: seq<Tags>): (r: seq<Provenance>)
    ensures |r| == |finals| && forall i :: 0 <= i < |finals| ==> r[i] == finals[i].foundBy
  {
    seq(|finals|, i requires 0 <= i < |finals| => finals[i].foundBy)
  }

  /** The indices kept for programs with entries es and initial tags ts. */
  function DedupOf(es: seq<Entry>, ts: seq<Tags>, radio: seq<Rule>, strftime: Strftime): (m: map<string, nat>)
    requires AllValid(es) && |ts| == |es|
    ensures forall k :: k in m ==> m[k] < |es| && es[m[k]].Key() == k && AnyMatch(es[m[k]], radio)
  {
    DedupIdx(Keys(es), Hits(es, radio), Kinds(Finals(es, ts, radio, strftime)), |es|)
  }

  /** A program after all stored ones is not stored. */
  lemma StoredBelow(ps: seq<Program>, m: map<string, nat>, i: nat)
    requires i < |ps| && Distinct(ps) && forall k :: k in m ==> m[k] < i
    ensures ps[i] !in Stored(ps, m).Values
  {
    var found := Stored(ps, m);
    forall v | v in found.Values
      ensures v != ps[i]
    {
      var k :| k in found && found[k] == v;
    }
  }

  /** Admitting program i on objects is admitting index i, as long as every stored program
      carries its final `found_by`. */
  lemma StoredAdmit(ps: seq<Program>, m: map<string, nat>, key: string, i: nat, kind: seq<Provenance>)
    requires i < |ps| && i < |kind| && forall k :: k in m ==> m[k] < i
    requires forall j :: 0 <= j < i ==> ps[j].foundBy == kind[j]
    ensures AdmitObject(Stored(ps, m), key, ps[i]) == Stored(ps, Admit(m, key, i, kind))
  {
    if key !in m || kind[m[key]] == ByWords {
      assert Stored(ps, m)[key := ps[i]] == Stored(ps, m[key := i]);
    } else {
      assert Stored(ps, m)[key].foundBy == kind[m[key]];
    }
  }

  /** One program through the loop, on objects. */
  lemma AdmitStep(ps: seq<Program>, keys: seq<string>, hit: seq<bool>, kind: seq<Provenance>, i: nat)
    requires |keys| == |hit| == |kind| == |ps| && i < |ps| && Distinct(ps)
    requires keys[i] == ps[i].Key()
    requires forall j :: 0 <= j < i ==> ps[j].foundBy == kind[j]
    ensures ps[i] !in Stored(ps, DedupIdx(keys, hit, kind, i)).Values
    ensures hit[i] ==> AdmitObject(Stored(ps, DedupIdx(keys, hit, kind, i)), ps[i].Key(), ps[i])
                       == Stored(ps, DedupIdx(keys, hit, kind, i + 1))
    ensures !hit[i] ==> Stored(ps, DedupIdx(keys, hit, kind, i + 1))
                        == Stored(ps, DedupIdx(keys, hit, kind, i))
  {
    var m := DedupIdx(keys, hit, kind, i);
    StoredBelow(ps, m, i);
    if hit[i] {
      StoredAdmit(ps, m, keys[i], i, kind);
    }
  }

  /** The inner `for cf in radio` loop for one program `pg` not stored yet: it ends with the
      fields all rules leave, and `found` admits pg once if any rule matched it. */
  method MatchRules(pg: Program, radio: seq<Rule>, strftime: Strftime, found0: map<string, Program>)
    returns (found: map<string, Program>)
    requires ValidStamp(pg.startTime) && pg !in found0.Values
    modifies pg
    ensures pg.AsTags() == RunRules(pg.AsEntry(), old(pg.AsTags()), radio, strftime)
    ensures found == if AnyMatch(pg.AsEntry(), radio) then old(AdmitObject(found0, pg.Key(), pg)) else found0
  {
    ghost var e, t0 := pg.AsEntry(), pg.AsTags();
    ghost var admitted := AdmitObject(found0, pg.Key(), pg);
    found := found0;
    for r := 0 to |radio|
      invariant pg.AsTags() == RunRules(e, t0, radio[..r], strftime)
      invariant found == if AnyMatch(e, radio[..r]) then admitted else found0
    {
      assert radio[..r + 1][..r] == radio[..r];
      assert AnyMatch(e, radio[..r + 1]) <==> AnyMatch(e, radio[..r]) || Matches(e, radio[r]) by {
        assert forall j :: 0 <= j < r ==> radio[..r + 1][j] == radio[..r][j];
      }
      var recPg := Recording(pg, radio[r], strftime);
      if recPg != null {
        var key := recPg.Key();
        if key in found {
          if found[key].foundBy == ByWords {
            found := found[key := recPg];
          }
        } else {
          found := found[key := recPg];
        }
      }
    }
    assert radio[..|radio|] == radio;
  }

  /** What the bookkeeping sequences hold for program j: its key, whether any rule
      matches it, the fields all rules leave on it from tags ts[j], and their `found_by`. */
  ghost predicate BookAt(programs: seq<Program>, radio: seq<Rule>, strftime: Strftime, ts: seq<Tags>,
                         keys: seq<string>, hits: seq<bool>, finals: seq<Tags>, kinds: seq<Provenance>, j: nat)
    requires |keys| == |hits| == |kinds| == |finals| == |ts| == |programs| && j < |programs|
  {
    && ValidStamp(programs[j].startTime)
    && keys[j] == programs[j].Key()
    && hits[j] == AnyMatch(programs[j].AsEntry(), radio)
    && finals[j] == RunRules(programs[j].AsEntry(), ts[j], radio, strftime)
    && kinds[j] == finals[j].foundBy
  }

  ghost predicate Book(programs: seq<Program>, radio: seq<Rule>, strftime: Strftime, ts: seq<Tags>,
                       keys: seq<string>, hits: seq<bool>, finals: seq<Tags>, kinds: seq<Provenance>)
  {
    && |keys| == |hits| == |kinds| == |finals| == |ts| == |programs|
    && forall j :: 0 <= j < |programs| ==> BookAt(programs, radio, strftime, ts, keys, hits, finals, kinds, j)
  }

  /** One turn of the outer loop, on program i: it ends with its final fields, and `found`
      moves from the bookkeeping of the programs before it to that of the programs up to it. */
  method DedupStep(programs: seq<Program>, radio: seq<Rule>, strftime: Strftime, i: nat,
                   ghost ts: seq<Tags>, ghost keys: seq<string>, ghost hits: seq<bool>,
                   ghost finals: seq<Tags>, ghost kinds: seq<Provenance>, found0: map<string, Program>)
    returns (found: map<string, Program>)
    requires Book(programs, radio, strftime, ts, keys, hits, finals, kinds)
    requires i < |programs| && Distinct(programs)
    requires forall j :: 0 <= j < i ==> programs[j].AsTags() == finals[j]
    requires programs[i].AsTags() == ts[i]
    requires found0 == Stored(programs, DedupIdx(keys, hits, kinds, i))
    modifies programs[i]
    ensures programs[i].AsTags() == finals[i]
    ensures found == Stored(programs, DedupIdx(keys, hits, kinds, i + 1))
  {
    assert BookAt(programs, radio, strftime, ts, keys, hits, finals, kinds, i);
    forall j | 0 <= j < i
      ensures programs[j].foundBy == kinds[j]
    {
      assert BookAt(programs, radio, strftime, ts, keys, hits, finals, kinds, j);
      assert programs[j].foundBy == programs[j].AsTags().foundBy;
    }
    AdmitStep(programs, keys, hits, kinds, i);
    found := MatchRules(programs[i], radio, strftime, found0);
  }

  /** The outer loop over the programs. */
  method DedupLoop(programs: seq<Program>, radio: seq<Rule>, strftime: Strftime,
                   ghost ts: seq<Tags>, ghost keys: seq<string>, ghost hits: seq<bool>,
                   ghost finals: seq<Tags>, ghost kinds: seq<Provenance>)
    returns (found: map<string, Program>)
    requires Book(programs, radio, strftime, ts, keys, hits, finals, kinds) && Distinct(programs)
    requires forall j :: 0 <= j < |programs| ==> programs[j].AsTags() == ts[j]
    modifies set p | p in programs
    ensures forall j :: 0 <= j < |programs| ==> programs[j].AsTags() == finals[j]
    ensures found == Stored(programs, DedupIdx(keys, hits, kinds, |programs|))
  {
    found := map[];
    for i := 0 to |programs|
      invariant forall j :: 0 <= j < i ==> programs[j].AsTags() == finals[j]
      invariant forall j :: i <= j < |programs| ==> programs[j].AsTags() == ts[j]
      invariant found == Stored(programs, DedupIdx(keys, hits, kinds, i))
    {
      found := DedupStep(programs, radio, strftime, i, ts, keys, hits, finals, kinds, found);
      assert forall j :: 0 <= j < |programs| && j != i ==> programs[j] != programs[i];
    }
  }

  /** The first loop of `_filter_programs`. Every program ends with the fields all rules
      leave on it, and `found` holds, per key, the program `DedupOf` designates. */
  method DedupPrograms(programs: seq<Program>, radio: seq<Rule>, strftime: Strftime)
    returns (found: map<string, Program>)
    requires Distinct(programs) && AllValid(Entries(programs))
    modifies set p | p in programs
    ensures forall i :: 0 <= i < |programs| ==>
              programs[i].AsTags() == RunRules(programs[i].AsEntry(), old(programs[i].AsTags()), radio, strftime)
    ensures found == Stored(programs, DedupOf(Entries(programs), old(TagsOf(programs)), radio, strftime))
  {
    ghost var es, ts := Entries(programs), TagsOf(programs);
    ghost var finals := Finals(es, ts, radio, strftime);
    ghost var keys, hits, kinds := Keys(es), Hits(es, radio), Kinds(finals);
    assert Book(programs, radio, strftime, ts, keys, hits, finals, kinds);
    found := DedupLoop(programs, radio, strftime, ts, keys, hits, finals, kinds);
  }
}
