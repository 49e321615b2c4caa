/** The `Program` record of radiko/__init__.py and the single-or-list recording target. */
module Programs {
  import opened Strings
  import opened Stamps

  /** `found_by`: '' before any rule matched, then 'words' or 'title'. */
  datatype Provenance = Unmatched | ByWords | ByTitle

  /** `start_time[:8]`: Python slicing never fails, a shorter string is taken whole. */
  function Prefix8(s: string): (r: string)
    ensures IsPrefix(r, s) && |r| == if |s| < 8 then |s| else 8
  {
    if |s| >= 8 then s[..8] else s
  }

  /** The fields of a program that enrichment fills and no rule ever changes. */
  datatype Entry = Entry(
    station: string,
    radikoTitle: string,
    startTime: string,
    endTime: string,
    img: string,
    pfm: string,
    titleKey: string,
    dulation: int)
  {
    /** The per-broadcast dedup key `'_'.join([station, radiko_title, start_time])`. */
    function Key(): string {
      station + "_" + radikoTitle + "_" + startTime
    }

    /** The grouping key `title_key + start_time[:8]` (series per broadcast day). */
    function GroupKey(): string {
      titleKey + Prefix8(startTime)
    }

    /** What enrichment establishes for every program it creates. */
    predicate WellFormed() {
      && ValidStamp(startTime) && ValidStamp(endTime)
      && dulation == Dulation(startTime, endTime)
      && '\U{3000}' !in pfm
    }
  }

  /** The fields the two matchers write. */
  datatype Tags = Tags(
    filename: string,
    artwork: string,
    album: string,
    artist: string,
    title: string,
    storageDir: string,
    foundBy: Provenance)

  /** The dataclass defaults. */
  const NoTags := Tags("", "", "", "", "", "", Unmatched)

  /** The `Program` dataclass. Both matchers update its tag fields in place; the fields
      enrichment fills are never written again, so they are `const` here. */
  class Program {
    const station: string
    const radikoTitle: string
    const startTime: string
    const endTime: string
    const img: string
    const pfm: string
    var filename: string
    var artwork: string
    var album: string
    var artist: string
    var title: string
    var storageDir: string
    const titleKey: string
    var foundBy: Provenance
    const dulation: int

    /** `Program(station=..., ..., title_key=..., dulation=...)` with every other field defaulted. */
    constructor (e: Entry)
      ensures AsEntry() == e && AsTags() == NoTags
    {
      station, radikoTitle, startTime, endTime := e.station, e.radikoTitle, e.startTime, e.endTime;
      img, pfm, titleKey, dulation := e.img, e.pfm, e.titleKey, e.dulation;
      filename, artwork, album, artist, title, storageDir := "", "", "", "", "", "";
      foundBy := Unmatched;
    }

    function AsEntry(): Entry {
      Entry(station, radikoTitle, startTime, endTime, img, pfm, titleKey, dulation)
    }

    function AsTags(): Tags
      reads this
    {
      Tags(filename, artwork, album, artist, title, storageDir, foundBy)
    }

    function Key(): string {
      AsEntry().Key()
    }

    function GroupKey(): string {
      AsEntry().GroupKey()
    }
  }

  /** A recording target: one program, or the list built when several programs share a
      grouping key. */
  datatype Target<T> = Single(p: T) | Group(ps: seq<T>)
  {
    function Members(): (r: seq<T>)
      ensures |r| >= 1 || Group?
    {
      if Single? then [p] else ps
    }

    /** Indexing `program[0]` and `program[-1]` needs a non-empty list. */
    predicate WellFormed() {
      Group? ==> |ps| >= 1
    }

    function First(): T
      requires WellFormed()
    {
      Members()[0]
    }

    function Last(): T
      requires WellFormed()
    {
      Members()[|Members()| - 1]
    }
  }

  /** The objects a set of targets refers to (a reads frame). */
  function TargetObjects(ts: set<Target<Program>>): set<Program> {
    set t, p | t in ts && p in t.Members() :: p
  }

  /** The enrichment fields of each program. */
  function Entries(ps: seq<Program>): (r: seq<Entry>)
    ensures |r| == |ps| && forall i :: 0 <= i < |ps| ==> r[i] == ps[i].AsEntry()
  {
    seq(|ps|, i requires 0 <= i < |ps| => ps[i].AsEntry())
  }

  /** The tag fields of each program, in the current state. */
  function TagsOf(ps: seq<Program>): (r: seq<Tags>)
    reads set p | p in ps
    ensures |r| == |ps| && forall i :: 0 <= i < |ps| ==> r[i] == ps[i].AsTags()
    decreases |ps|
  {
    if |ps| == 0 then [] else TagsOf(ps[..|ps| - 1]) + [ps[|ps| - 1].AsTags()]
  }

  /** Within one station, and with start times of one length, the dedup key determines the
      title and the start time. */
  lemma KeyParts(e1: Entry, e2: Entry)
    requires e1.station == e2.station && |e1.startTime| == |e2.startTime|
    requires e1.Key() == e2.Key()
    ensures e1.radikoTitle == e2.radikoTitle && e1.startTime == e2.startTime
  {
    var k, n := e1.Key(), |e1.station| + 1;
    assert |e1.radikoTitle| == |e2.radikoTitle|;
    var t := |e1.radikoTitle|;
    assert e1.radikoTitle == k[n..n + t] == e2.radikoTitle;
    assert e1.startTime == k[n + t + 1..] == e2.startTime;
  }

  /** Programs that share a dedup key share a grouping key. */
  predicate SameKeySameGroup(es: seq<Entry>) {
    forall i, j :: 0 <= i < |es| && 0 <= j < |es| && es[i].Key() == es[j].Key() ==>
      es[i].GroupKey() == es[j].GroupKey()
  }

  predicate Distinct<T(==)>(xs: seq<T>) {
    forall i, j :: 0 <= i < j < |xs| ==> xs[i] != xs[j]
  }
}
