/** The second loop of `_filter_programs`: the kept programs, taken in sorted key order, are
    grouped per series and broadcast day under `title_key + start_time[:8]`. */
module Grouping {
  import opened Strings
  import opened Programs

  // ---- sorted(found_programs.keys()) ----

  predicate StrictlySorted(ks: seq<string>) {
    forall i, j :: 0 <= i < j < |ks| ==> LexLt(ks[i], ks[j])
  }

  predicate IsLeast(m: string, s: set<string>) {
    forall x :: x in s ==> LexLe(m, x)
  }

  /** A non-empty set of strings has a least element under string order. */
  lemma {:induction false} MinExists(s: set<string>)
    requires s != {}
    ensures exists m :: m in s && IsLeast(m, s)
    decreases |s|
  {
    var y :| y in s;
    if s - {y} == {} {
      assert s == {y};
      assert IsLeast(y, s);
    } else {
      MinExists(s - {y});
      var m :| m in s - {y} && IsLeast(m, s - {y});
      LexLtTrichotomy(m, y);
      if LexLt(y, m) {
        forall x | x in s
          ensures LexLe(y, x)
        {
          if x != y {
            assert x in s - {y};
            LexLeTransitive(y, m, x);
          }
        }
        assert IsLeast(y, s);
      } else {
        forall x | x in s
          ensures LexLe(m, x)
        {
          if x != y {
            assert x in s - {y};
          }
        }
        assert IsLeast(m, s);
      }
    }
  }

  /** Every set of strings has a strictly ascending enumeration. */
  lemma {:induction false} SortedExists(s: set<string>)
    ensures exists ks :: StrictlySorted(ks) && forall k :: k in ks <==> k in s
    decreases |s|
  {
    if s == {} {
      assert StrictlySorted([]);
    } else {
      MinExists(s);
      var m :| m in s && IsLeast(m, s);
      SortedExists(s - {m});
      var rest :| StrictlySorted(rest) && forall k :: k in rest <==> k in s - {m};
      var ks := [m] + rest;
      forall i, j | 0 <= i < j < |ks|
        ensures LexLt(ks[i], ks[j])
      {
        if i == 0 {
          assert ks[j] in rest && ks[j] != m;
        } else {
          assert ks[i] == rest[i - 1] && ks[j] == rest[j - 1];
        }
      }
      assert forall k :: k in ks <==> k == m || k in rest;
      assert forall k :: k in ks <==> k in s;
      assert StrictlySorted(ks) && forall k :: k in ks <==> k in s;
    }
  }

  /** Python's string order is antisymmetric. */
  lemma LexLeAntisymmetric(a: string, b: string)
    requires LexLe(a, b) && LexLe(b, a)
    ensures a == b
  {
    if a != b {
      LexLtAsymmetric(a, b);
    }
  }

  /** The first element of an ascending sequence is its least. */
  lemma SortedLeast(a: seq<string>, x: string)
    requires StrictlySorted(a) && x in a
    ensures LexLe(a[0], x)
  {
    var p :| 0 <= p < |a| && a[p] == x;
    assert p == 0 || LexLt(a[0], a[p]);
  }

  /** Helper: a non-empty sequence has a member. */
  lemma NonEmptyHasMember(a: seq<string>)
    ensures |a| == 0 <==> forall k :: k !in a
  {
    if |a| > 0 {
      assert a[0] in a;
    }
  }

  /** Two strictly ascending enumerations of the same set are the same sequence. */
  lemma {:induction false} SortedUnique(a: seq<string>, b: seq<string>)
    requires StrictlySorted(a) && StrictlySorted(b)
    requires forall k :: k in a <==> k in b
    ensures a == b
    decreases |a|
  {
    if |a| == 0 || |b| == 0 {
      NonEmptyHasMember(a);
      NonEmptyHasMember(b);
    } else {
      assert a[0] in b && b[0] in a;
      SortedLeast(a, b[0]);
      SortedLeast(b, a[0]);
      LexLeAntisymmetric(a[0], b[0]);
      LexLtIrreflexive(a[0]);
      forall k
        ensures k in a[1..] <==> k in b[1..]
      {
        if k in a[1..] {
          var p :| 0 <= p < |a| - 1 && a[1..][p] == k;
          assert LexLt(a[0], a[p + 1]) && a[p + 1] in a;
          var q :| 0 <= q < |b| && b[q] == k;
          assert q != 0;
          assert b[1..][q - 1] == k;
        }
        if k in b[1..] {
          var p :| 0 <= p < |b| - 1 && b[1..][p] == k;
          assert LexLt(b[0], b[p + 1]) && b[p + 1] in b;
          var q :| 0 <= q < |a| && a[q] == k;
          assert q != 0;
          assert a[1..][q - 1] == k;
        }
      }
      SortedUnique(a[1..], b[1..]);
      assert a == [a[0]] + a[1..] && b == [b[0]] + b[1..];
    }
  }

  /** Python's `sorted(keys)`: the keys of a set in ascending string order. */
  ghost function SortedKeys(s: set<string>): (ks: seq<string>)
    ensures StrictlySorted(ks) && forall k :: k in ks <==> k in s
  {
    SortedExists(s);
    var ks :| StrictlySorted(ks) && forall k :: k in ks <==> k in s;
    ks
  }

  /** `sorted(found_programs.keys())`, taking the least remaining key each time. */
  method SortKeys(s: set<string>) returns (ks: seq<string>)
    ensures ks == SortedKeys(s)
  {
    ks := [];
    var rest := s;
    while rest != {}
      invariant StrictlySorted(ks)
      invariant forall k :: k in s <==> k in ks || k in rest
      invariant forall k :: k in ks ==> k !in rest
      invariant forall i, x :: 0 <= i < |ks| && x in rest ==> LexLt(ks[i], x)
      decreases |rest|
    {
      MinExists(rest);
      var m :| m in rest && IsLeast(m, rest);
      ks := ks + [m];
      rest := rest - {m};
    }
    SortedUnique(ks, SortedKeys(s));
  }

  // ---- the grouping loop on values ----

  /** The kept programs under the given keys, in that order. */
  function InOrder(found: map<string, Program>, ks: seq<string>): (r: seq<Program>)
    requires forall k :: k in ks ==> k in found
    ensures |r| == |ks| && forall i :: 0 <= i < |ks| ==> r[i] == found[ks[i]]
  {
    seq(|ks|, i requires 0 <= i < |ks| => found[ks[i]])
  }

  /** One program into `ret`: a new key holds it alone, a single program becomes a
      two-element list, and a list grows at its end. */
  function AddToGroup(ret: map<string, Target<Program>>, pg: Program): (r: map<string, Target<Program>>)
    ensures r.Keys == ret.Keys + {pg.GroupKey()}
    ensures r[pg.GroupKey()].Members()
            == (if pg.GroupKey() in ret then ret[pg.GroupKey()].Members() else []) + [pg]
  {
    var g := pg.GroupKey();
    if g !in ret then ret[g := Single(pg)]
    else if ret[g].Group? then ret[g := Group(ret[g].ps + [pg])]
    else ret[g := Group([ret[g].p, pg])]
  }

  /** Adding `pg` leaves every other group as it was. */
  lemma AddToGroupOthers(ret: map<string, Target<Program>>, pg: Program, g: string)
    requires g in ret && g != pg.GroupKey()
    ensures g in AddToGroup(ret, pg) && AddToGroup(ret, pg)[g] == ret[g]
  {
  }

  /** `ret` once the loop has taken the programs ps in order. */
  function GroupAll(ps: seq<Program>): map<string, Target<Program>>
    decreases |ps|
  {
    if |ps| == 0 then map[] else AddToGroup(GroupAll(ps[..|ps| - 1]), ps[|ps| - 1])
  }

  /** The programs of ps with grouping key g, in their order in ps. */
  function Select(ps: seq<Program>, g: string): (r: seq<Program>)
    ensures |r| <= |ps|
    decreases |ps|
  {
    if |ps| == 0 then []
    else
      var n := |ps| - 1;
      Select(ps[..n], g) + (if ps[n].GroupKey() == g then [ps[n]] else [])
  }

  /** The grouping keys of `ps`, gathered in loop order. */
  function KeysSeen(ps: seq<Program>): set<string>
    decreases |ps|
  {
    if |ps| == 0 then {} else KeysSeen(ps[..|ps| - 1]) + {ps[|ps| - 1].GroupKey()}
  }

  /** The loop creates exactly the keys it meets. */
  lemma {:induction false} GroupAllKeys(ps: seq<Program>)
    ensures GroupAll(ps).Keys == KeysSeen(ps)
    decreases |ps|
  {
    if |ps| > 0 {
      GroupAllKeys(ps[..|ps| - 1]);
    }
  }

  /** A key is met iff some program has it. */
  lemma {:induction false} KeysSeenDomain(ps: seq<Program>, g: string)
    ensures g in KeysSeen(ps) <==> exists i :: 0 <= i < |ps| && ps[i].GroupKey() == g
    decreases |ps|
  {
    if |ps| > 0 {
      var n := |ps| - 1;
      var init := ps[..n];
      KeysSeenDomain(init, g);
      if g in KeysSeen(init) {
        var i :| 0 <= i < n && init[i].GroupKey() == g;
        assert ps[i] == init[i];
      } else if g != ps[n].GroupKey() {
        forall i | 0 <= i < |ps| ensures ps[i].GroupKey() != g {
          if i < n {
            assert init[i] == ps[i];
          }
        }
      }
    }
  }

  /** An output key exists iff some kept program has it as its grouping key. */
  lemma GroupDomain(ps: seq<Program>, g: string)
    ensures g in GroupAll(ps) <==> exists i :: 0 <= i < |ps| && ps[i].GroupKey() == g
  {
    GroupAllKeys(ps);
    KeysSeenDomain(ps, g);
  }

  /** Each output key holds exactly the kept programs with that grouping key, in loop
      order: a `Single` when there is one of them, and otherwise a list of two or more. */
  lemma {:induction false} GroupMembers(ps: seq<Program>, g: string)
    requires g in GroupAll(ps)
    ensures GroupAll(ps)[g].Members() == Select(ps, g)
    ensures GroupAll(ps)[g].Single? <==> |Select(ps, g)| == 1
    ensures GroupAll(ps)[g].Group? ==> |Select(ps, g)| >= 2
    decreases |ps|
  {
    var n := |ps| - 1;
    var m := GroupAll(ps[..n]);
    if ps[n].GroupKey() == g {
      if g in m {
        GroupMembers(ps[..n], g);
      } else {
        GroupDomain(ps[..n], g);
        SelectNone(ps[..n], g);
      }
    } else {
      GroupMembers(ps[..n], g);
    }
  }

  lemma {:induction false} SelectNone(ps: seq<Program>, g: string)
    requires forall i :: 0 <= i < |ps| ==> ps[i].GroupKey() != g
    ensures Select(ps, g) == []
    decreases |ps|
  {
    if |ps| > 0 {
      SelectNone(ps[..|ps| - 1], g);
    }
  }

  /** A group holds only programs the loop was given. */
  /** Grouping adds no program of its own. */
  lemma GroupAllFrom(ps: seq<Program>, g: string, p: Program)
    requires g in GroupAll(ps) && p in GroupAll(ps)[g].Members()
    ensures p in ps
  {
    GroupMembers(ps, g);
    SelectFrom(ps, g, p);
  }

  lemma {:induction false} SelectFrom(ps: seq<Program>, g: string, p: Program)
    requires p in Select(ps, g)
    ensures p in ps
    decreases |ps|
  {
    var n := |ps| - 1;
    if p in Select(ps[..n], g) {
      SelectFrom(ps[..n], g, p);
    }
  }

  // ---- counting members ----

  /** The number of programs the targets of a map hold together. */
  ghost function TotalMembers(m: map<string, Target<Program>>): nat
    decreases |m.Keys|
  {
    if m == map[] then 0
    else
      var k :| k in m;
      |m[k].Members()| + TotalMembers(m - {k})
  }

  lemma {:induction false} TotalMembersRemove(m: map<string, Target<Program>>, k: string)
    requires k in m
    ensures TotalMembers(m) == |m[k].Members()| + TotalMembers(m - {k})
    decreases |m.Keys|
  {
    var k' :| k' in m && TotalMembers(m) == |m[k'].Members()| + TotalMembers(m - {k'});
    if k' != k {
      TotalMembersRemove(m - {k'}, k);
      TotalMembersRemove(m - {k}, k');
      assert m - {k'} - {k} == m - {k} - {k'};
    }
  }

  /** Adding one program adds one member. */
  lemma AddToGroupCount(m: map<string, Target<Program>>, pg: Program)
    ensures TotalMembers(AddToGroup(m, pg)) == TotalMembers(m) + 1
  {
    var g := pg.GroupKey();
    var r := AddToGroup(m, pg);
    assert |r[g].Members()| == (if g in m then |m[g].Members()| else 0) + 1;
    TotalMembersRemove(r, g);
    assert r - {g} == m - {g};
    if g in m {
      TotalMembersRemove(m, g);
    } else {
      assert m - {g} == m;
    }
  }

  /** Grouping loses and duplicates nothing: the targets hold as many programs together as
      the loop took. */
  lemma {:induction false} GroupTotal(ps: seq<Program>)
    ensures TotalMembers(GroupAll(ps)) == |ps|
    decreases |ps|
  {
    if |ps| > 0 {
      var n := |ps| - 1;
      GroupTotal(ps[..n]);
      AddToGroupCount(GroupAll(ps[..n]), ps[n]);
    }
  }

  // ---- the loop itself ----

  lemma GroupStep(found: map<string, Program>, ks: seq<string>, i: nat)
    requires forall k :: k in ks ==> k in found
    requires i < |ks|
    ensures GroupAll(InOrder(found, ks[..i + 1])) == AddToGroup(GroupAll(InOrder(found, ks[..i])), found[ks[i]])
  {
    assert InOrder(found, ks[..i + 1])[..i] == InOrder(found, ks[..i]);
  }

  /** The second loop of `_filter_programs`. */
  method GroupPrograms(found: map<string, Program>) returns (ret: map<string, Target<Program>>)
    ensures ret == GroupAll(InOrder(found, SortedKeys(found.Keys)))
  {
    var ks := SortKeys(found.Keys);
    ret := map[];
    for i := 0 to |ks|
      invariant ret == GroupAll(InOrder(found, ks[..i]))
    {
      var pg := found[ks[i]];
      var titleKey := pg.titleKey + Prefix8(pg.startTime);
      GroupStep(found, ks, i);
      if titleKey in ret {
        if ret[titleKey].Group? {
          ret := ret[titleKey := Group(ret[titleKey].ps + [pg])];
        } else {
          ret := ret[titleKey := Group([ret[titleKey].p, pg])];
        }
      } else {
        ret := ret[titleKey := Single(pg)];
      }
    }
    assert ks[..|ks|] == ks;
  }

  /** The kept keys of one target's members ascend: with ks in ascending order, the members
      of the key g are the programs of the ascending keys selected by g. */
  function SelectKeys(found: map<string, Program>, ks: seq<string>, g: string): (r: seq<string>)
    requires forall k :: k in ks ==> k in found
    ensures forall k :: k in r ==> k in ks
    decreases |ks|
  {
    if |ks| == 0 then []
    else
      var n := |ks| - 1;
      SelectKeys(found, ks[..n], g) + (if found[ks[n]].GroupKey() == g then [ks[n]] else [])
  }

  lemma {:induction false} SelectKeysInOrder(found: map<string, Program>, ks: seq<string>, g: string)
    requires forall k :: k in ks ==> k in found
    ensures InOrder(found, SelectKeys(found, ks, g)) == Select(InOrder(found, ks), g)
    decreases |ks|
  {
    if |ks| > 0 {
      var n := |ks| - 1;
      SelectKeysInOrder(found, ks[..n], g);
      assert InOrder(found, ks)[..n] == InOrder(found, ks[..n]);
    }
  }

  /** A selection from an ascending key sequence ascends. */
  lemma {:induction false} SelectKeysSorted(found: map<string, Program>, ks: seq<string>, g: string)
    requires forall k :: k in ks ==> k in found
    requires StrictlySorted(ks)
    ensures StrictlySorted(SelectKeys(found, ks, g))
    decreases |ks|
  {
    if |ks| > 0 {
      var n := |ks| - 1;
      SelectKeysSorted(found, ks[..n], g);
      var r := SelectKeys(found, ks[..n], g);
      forall k | k in r
        ensures LexLt(k, ks[n])
      {
        var p :| 0 <= p < n && ks[..n][p] == k;
      }
    }
  }

  /** The members of each list appear in ascending order of their dedup keys. */
  lemma MembersAscend(found: map<string, Program>, g: string)
    requires g in GroupAll(InOrder(found, SortedKeys(found.Keys)))
    ensures var ks := SelectKeys(found, SortedKeys(found.Keys), g);
            && StrictlySorted(ks)
            && GroupAll(InOrder(found, SortedKeys(found.Keys)))[g].Members() == InOrder(found, ks)
  {
    var ks := SortedKeys(found.Keys);
    GroupMembers(InOrder(found, ks), g);
    SelectKeysInOrder(found, ks, g);
    SelectKeysSorted(found, ks, g);
  }
}
