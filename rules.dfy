/** The rule list read from radio.yaml, and the two lookups `get_programs` makes on it
    before fetching anything: the stations to fetch and the title replace-map. */
module Rules {
  import opened Wrappers

  /** A YAML mapping of literal replacements, in its own order. */
  type ReplaceMap = seq<(string, string)>

  /** One entry of the rule list. A dict with a `words` key is a keyword rule; any other is
      a title rule, which carries the keys its matcher reads. An absent `stations` or
      `replace` key behaves exactly as an empty one and is written as empty. */
  datatype Rule =
    | WordsRule(
        words: seq<string>,
        replace: ReplaceMap,
        declaredStation: Option<string>,
        stations: seq<string>)
    | TitleRule(
        station: string,
        radikoTitle: string,
        dayw: Option<string>,
        artist: string,
        album: string,
        title: string,
        filename: string,
        storageDir: string,
        stations: seq<string>)
  {
    /** The rule's `station` key, when it has one. */
    function StationKey(): Option<string> {
      if TitleRule? then Some(station) else declaredStation
    }
  }

  /** The stations a prefix of the rule list names, as the set `_station_list` builds. */
  function RuleStations(radio: seq<Rule>): set<string>
    decreases |radio|
  {
    if |radio| == 0 then {}
    else
      var last := radio[|radio| - 1];
      RuleStations(radio[..|radio| - 1])
        + (if last.StationKey().Some? then {last.StationKey().value} else {})
        + (set s | s in last.stations)
  }

  /** A station is fetched iff some rule names it under `station` or in `stations`; a set
      holds each such station exactly once. */
  lemma {:induction false} RuleStationsMembers(radio: seq<Rule>, s: string)
    ensures s in RuleStations(radio) <==>
            exists i :: 0 <= i < |radio| && (radio[i].StationKey() == Some(s) || s in radio[i].stations)
    decreases |radio|
  {
    if |radio| > 0 {
      var init := radio[..|radio| - 1];
      RuleStationsMembers(init, s);
      assert forall i :: 0 <= i < |init| ==> init[i] == radio[i];
    }
  }

  /** `_station_list`. */
  method StationList(radio: seq<Rule>) returns (stations: set<string>)
    ensures stations == RuleStations(radio)
  {
    stations := {};
    for i := 0 to |radio|
      invariant stations == RuleStations(radio[..i])
    {
      var pg := radio[i];
      assert radio[..i + 1][..i] == radio[..i];
      if pg.StationKey().Some? {
        stations := stations + {pg.StationKey().value};
      }
      stations := stations + (set s | s in pg.stations);
    }
    assert radio[..|radio|] == radio;
  }

  /** The `replace` map of the first keyword rule, or empty. */
  function ReplaceConfigOf(radio: seq<Rule>): ReplaceMap
    decreases |radio|
  {
    if |radio| == 0 then []
    else if radio[0].WordsRule? then radio[0].replace
    else ReplaceConfigOf(radio[1..])
  }

  /** Only the first keyword rule counts; every later one is ignored. */
  lemma {:induction false} ReplaceConfigFirstWordsRule(radio: seq<Rule>, i: nat)
    requires i < |radio| && radio[i].WordsRule?
    requires forall j :: 0 <= j < i ==> !radio[j].WordsRule?
    ensures ReplaceConfigOf(radio) == radio[i].replace
    decreases i
  {
    if i > 0 {
      ReplaceConfigFirstWordsRule(radio[1..], i - 1);
    }
  }

  /** A rule list without keyword rules replaces nothing. */
  lemma {:induction false} ReplaceConfigWithoutWordsRule(radio: seq<Rule>)
    requires forall j :: 0 <= j < |radio| ==> !radio[j].WordsRule?
    ensures ReplaceConfigOf(radio) == []
    decreases |radio|
  {
    if |radio| > 0 {
      ReplaceConfigWithoutWordsRule(radio[1..]);
    }
  }

  /** `_replace_config`: the loop stops at the first rule with `words`. */
  method ReplaceConfig(radio: seq<Rule>) returns (replaceConfig: ReplaceMap)
    ensures replaceConfig == ReplaceConfigOf(radio)
  {
    replaceConfig := [];
    var i := 0;
    while i < |radio|
      invariant 0 <= i <= |radio|
      invariant forall j :: 0 <= j < i ==> !radio[j].WordsRule?
      invariant replaceConfig == []
    {
      if radio[i].WordsRule? {
        replaceConfig := radio[i].replace;
        ReplaceConfigFirstWordsRule(radio, i);
        return;
      }
      i := i + 1;
    }
    ReplaceConfigWithoutWordsRule(radio);
  }
}
