/** The `Lastest` store of lastest/__init__.py: for each `radiko_title`, the start time of
    the broadcast recorded last. Reading and writing the YAML file are not modelled; `load`
    is given what the file held. */
module Lastest {
  import opened Programs

  /** What `load` finds: no file, a file whose YAML content is empty or null, or a mapping. */
  datatype Loaded = Missing | Null | Document(m: map<string, string>)

  /** `dict.get(title, '')`. */
  function Lookup(m: map<string, string>, title: string): string {
    if title in m then m[title] else ""
  }

  /** The sets a run performs, in order, as `(radiko_title, start_time)` pairs. */
  function Replay(m: map<string, string>, sets: seq<(string, string)>): map<string, string>
    decreases |sets|
  {
    if |sets| == 0 then m
    else
      var n := |sets| - 1;
      Replay(m, sets[..n])[sets[n].0 := sets[n].1]
  }

  /** The start time of the last set for `title`, if there was one. */
  function LastSet(sets: seq<(string, string)>, title: string): (r: string)
    ensures (forall i :: 0 <= i < |sets| ==> sets[i].0 != title) ==> r == ""
    decreases |sets|
  {
    if |sets| == 0 then ""
    else
      var n := |sets| - 1;
      if sets[n].0 == title then sets[n].1 else LastSet(sets[..n], title)
  }

  predicate EverSet(sets: seq<(string, string)>, title: string) {
    exists i :: 0 <= i < |sets| && sets[i].0 == title
  }

  /** After any run of sets, `get` answers the start time of the latest set for that title,
      and whatever the store held before for a title never set. */
  lemma {:induction false} LookupAfterSets(m: map<string, string>, sets: seq<(string, string)>,
                                           title: string)
    ensures EverSet(sets, title) ==> Lookup(Replay(m, sets), title) == LastSet(sets, title)
    ensures !EverSet(sets, title) ==> Lookup(Replay(m, sets), title) == Lookup(m, title)
    decreases |sets|
  {
    if |sets| > 0 {
      var n := |sets| - 1;
      LookupAfterSets(m, sets[..n], title);
      if sets[n].0 != title && EverSet(sets, title) {
        var i :| 0 <= i < |sets| && sets[i].0 == title;
        assert sets[..n][i].0 == title;
      }
      if !EverSet(sets[..n], title) && sets[n].0 != title {
        assert !EverSet(sets, title) by {
          forall i | 0 <= i < |sets|
            ensures sets[i].0 != title
          {
            if i < n {
              assert sets[..n][i] == sets[i];
            }
          }
        }
      }
    }
  }

  class Lastest {
    /** `last_record_at`: `radiko_title` to the start time of the last recording. */
    var lastRecordAt: map<string, string>

    /** `Lastest(path)`: start from `{}`, then `load`. */
    constructor (doc: Loaded)
      ensures doc.Document? ==> lastRecordAt == doc.m
      ensures !doc.Document? ==> lastRecordAt == map[]
    {
      lastRecordAt := map[];
      new;
      Load(doc);
    }

    /** `load`: a missing file leaves the map as it was; an empty or null document, being
        falsy, becomes `{}`; a mapping replaces the map. */
    method Load(doc: Loaded)
      modifies this
      ensures doc.Missing? ==> lastRecordAt == old(lastRecordAt)
      ensures doc.Null? ==> lastRecordAt == map[]
      ensures doc.Document? ==> lastRecordAt == doc.m
    {
      match doc {
        case Missing =>
        case Null =>
          lastRecordAt := map[];
        case Document(m) =>
          lastRecordAt := m;
      }
      if |lastRecordAt| == 0 {
        lastRecordAt := map[];
      }
    }

    /** `set`: the entry is keyed by `radiko_title`, so every program of that title, whatever
        its `title_key` or station, now reads this start time; no other title changes. */
    method Set(program: Program)
      modifies this
      ensures lastRecordAt == Replay(old(lastRecordAt), [(program.radikoTitle, program.startTime)])
      ensures forall q: Program :: q.radikoTitle == program.radikoTitle ==> Get(q) == program.startTime
      ensures forall t :: t != program.radikoTitle ==> Lookup(lastRecordAt, t) == Lookup(old(lastRecordAt), t)
    {
      lastRecordAt := lastRecordAt[program.radikoTitle := program.startTime];
      assert [(program.radikoTitle, program.startTime)][..0] == [];
    }

    /** `get`: the stored start time, `''` for a title never recorded. */
    function Get(program: Program): (r: string)
      reads this
      ensures program.radikoTitle !in lastRecordAt ==> r == ""
      ensures r == Lookup(lastRecordAt, program.radikoTitle)
    {
      if program.radikoTitle in lastRecordAt then lastRecordAt[program.radikoTitle] else ""
    }
  }
}
