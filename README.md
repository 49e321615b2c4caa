# rec_radiko_pg — the schedule-matching engine, modelled in Dafny

rec_radiko_pg records radio programmes from radiko. It takes a list of user rules
(radio.yaml). It reads each referenced station's weekly schedule and picks the broadcasts
the rules ask for. Then it decides which of them may be recorded now. This project models
the part of that pipeline that makes decisions:

- **Enrichment** (`Schedule`). Each `<prog>` entry gets a replaced title, a `title_key` and
  a cleaned performer string. Its duration is computed the way `timedelta.seconds` does it.
  An untitled entry is skipped. A timestamp `strptime` rejects makes the whole parse fail.
- **Rule matching** (`Matching`). The keyword matcher and the title matcher are methods on a
  mutable `Program` class. Both update the object in place. `_replace_tag` is modelled
  with the library's `strftime` passed in as a function.
- **Dedup and grouping** (`Dedup`, `Grouping`, `Filter`). This is `_filter_programs`. Every
  rule runs on the same object. Matched programs are kept per broadcast key. The kept keys
  are then taken in sorted order and grouped under `title_key + start_time[:8]` into a
  single program or a list.
- **Cross-station merge** (`Merge`). This is `get_programs`. It is a fold over the stations'
  result maps. The decision looks only at the incoming target's first program.
- **Eligibility and listing** (`RecRadikoPg`). This covers `can_record`,
  `_format_program_window`, `_normalize_label`, `_show_filename_hint`, and the selection
  and stable sort of `show_upcoming`.
- **The "last recorded" store** (`Lastest`). A class holding the `radiko_title` → start time
  map, with `load`, `set` and `get`.

Timestamps are the schedule's 14-digit `YYYYMMDDHHMMSS` strings. `Stamps` computes seconds
and weekdays with Python's proleptic Gregorian ordinals. It proves that string order on
valid timestamps is time order, which the source relies on wherever it compares them.
Python's string comparison is modelled by `Strings.LexLt`/`LexLe`: lexicographic by code
point, with a proper prefix first.

Library calls are parameters of the operations that use them. These are `jaconv.z2h`,
`unicodedata.normalize('NFKC')`, `str.lower`, `Path.stem` and `datetime.strftime` with a
template. The schedule download, the rule file and the `Lastest` YAML file become inputs.
So do the current time and the listing's limit, already formatted as timestamps.

Some consequences of the code that the model keeps:

- Every rule writes into the same `Program` object, so the last matching rule decides
  `found_by`. A keyword rule after a title rule leaves `'words'`. See
  `Matching.RunRulesLastMatch` and `Matching.RunRulesWordsLast`.
- The merge looks only at the incoming target. An incoming `'title'` target always wins.
  Any other incoming target wins only when strictly longer, even against a stored
  `'title'` target.
- Matching is by substring (keyword rules) or by title prefix, station and weekday (title
  rules). There are no other match modes, no aliases, no series keys and no chunking by gaps.
- The duration is `timedelta.seconds`: end − start taken modulo one day.
- Stations come from a `set`, so the order of the merge fold is an input here (`stations`).

## Model

| member | source | states |
|---|---|---|
| Programs.Program.constructor | radiko/__init__.py:25-41 | A new program holds the given enrichment fields and every tag field at its dataclass default (`''`, `found_by` empty). |
| Programs.Prefix8 | radiko/__init__.py:193 | `start_time[:8]` is a prefix of the start time, of length 8, or the whole string when it is shorter. |
| Programs.KeyParts | radiko/__init__.py:182 | Within one station and with equal-length start times, the `'_'`-joined key determines the title and the start time. |
| Rules.RuleStationsMembers | radiko/__init__.py:52-59 | A station is fetched iff some rule names it under `station` or in `stations`. Being a set, it holds each such station once. |
| Rules.StationList | radiko/__init__.py:52-59 | The loop builds exactly the set of stations that the rules name. |
| Rules.ReplaceConfigFirstWordsRule | radiko/__init__.py:61-68 | The replace-map is the `replace` of the first rule with `words`. Later keyword rules are ignored. |
| Rules.ReplaceConfigWithoutWordsRule | radiko/__init__.py:61-68 | With no keyword rule the replace-map is empty. |
| Rules.ReplaceConfig | radiko/__init__.py:61-68 | The loop that breaks at the first keyword rule returns that rule's replace-map, or `{}`. |
| Strings.ApplyReplacementsAbsent | radiko/__init__.py:94-95 | A title containing none of the (non-empty) keys is not changed by the replace-map. |
| Strings.ApplyReplacementsSnoc | radiko/__init__.py:94-95 | The pairs apply in mapping order, each to the title the earlier pairs produced, so a later key can match text an earlier value put in. |
| Strings.ReplaceAllRemovesChar | radiko/__init__.py:114 | Replacing one character by text without it removes every occurrence. |
| Strings.ReplaceCharPointwise | radiko/__init__.py:114 | Replacing one character by another keeps the length and changes exactly the positions that held it. |
| Strings.Keep | rec_radiko_pg.py:96-97 | Removing a class of characters keeps the others in order, each as often as in the input, and nothing else. |
| Schedule.StripDigitsSuffix | radiko/__init__.py:99-100 | The strip returns a prefix, and removes only a tail of the shape open, digits, close. |
| Schedule.StripDigitsSuffixComplete | radiko/__init__.py:99-100 | When such a tail exists, the strip removes it. |
| Schedule.StripDigitsSuffixOf | radiko/__init__.py:99-100 | Removing the tail open + digits + close gives back exactly what came before it. |
| Schedule.StripLiteralSuffix | radiko/__init__.py:101 | The suffix is removed iff the string ends with it. The result is always a prefix. |
| Schedule.TitleKey | radiko/__init__.py:97-101 | `title_key` is always a prefix of `z2h(title)`. |
| Schedule.TitleKeyUnchanged | radiko/__init__.py:97-101 | A converted title with none of the three suffixes is its own title key. |
| Schedule.TitleKeyDropsEpisode | radiko/__init__.py:99 | A trailing ` (digits)` is dropped. |
| Schedule.TitleKeyDropsSlot | radiko/__init__.py:100 | A trailing `(digits時台)` is dropped. |
| Schedule.TitleKeyDropsEnding | radiko/__init__.py:101 | A trailing `(エンディング)` is dropped. |
| Schedule.CleanPfm | radiko/__init__.py:88-114 | Lines 88-89 and 114: a missing or empty performer becomes `''`. Otherwise every U+3000 becomes a space and every other character stays where it was, so the length is kept and no U+3000 is left. |
| Stamps.Dulation | radiko/__init__.py:103-105 | The duration lies in 0..86399 seconds. |
| Stamps.DulationWithinDay | radiko/__init__.py:103-105 | A broadcast shorter than a day gets its true length in seconds. |
| Stamps.WeekdayNextDay | radiko/__init__.py:154 | `weekday()` advances by one, modulo 7, from one calendar day to the next. |
| Stamps.Weekday | radiko/__init__.py:154-155 | `weekday()` lies in 0..6, so the seven-name list is always indexable. |
| Stamps.WeekdayAnchor | radiko/__init__.py:151-155 | 2024-01-01 is weekday 0, the first name of the list (月曜日). |
| Stamps.StringOrderIsTimeOrder | rec_radiko_pg.py:74-77 | On valid timestamps, string `<` is `<` of seconds and string equality is equality of seconds. |
| Schedule.Enrich | radiko/__init__.py:82-118 | An entry is skipped iff its title is missing or empty. It fails iff it is titled and a timestamp does not parse. Otherwise it has the replaced title, a `title_key` that is a prefix of `z2h(title)`, the cleaned performer string, a duration in 0..86399, and the feed's station. |
| Schedule.ParseAll | radiko/__init__.py:82-118 | A parse that succeeds yields one entry per titled `<prog>`. |
| Schedule.ParseAllEntry | radiko/__init__.py:82-118 | A titled `<prog>` gives the parsed entry whose index is the number of titled `<prog>`s before it, and that entry is its own enrichment. |
| Schedule.ParseAllFails | radiko/__init__.py:103-104 | The parse fails iff some titled entry has a timestamp that does not parse. |
| Schedule.ParseAllWellFormed | radiko/__init__.py:82-118 | Every parsed entry is well formed and carries the feed's station. |
| Schedule.ParseAllTitleKey | radiko/__init__.py:97-101 | Every parsed entry's `title_key` is derived from its replaced title alone. |
| Schedule.ParseAllSameKeySameGroup | radiko/__init__.py:182-193 | Within one feed, entries with the same dedup key have the same grouping key. |
| Schedule.ParsePrograms | radiko/__init__.py:82-120 | The parse creates one fresh, distinct `Program` per parsed entry, in document order, with default tags. It returns None iff the value-level parse fails. |
| Schedule.NewPrograms | radiko/__init__.py:107-118 | One fresh program per entry, pairwise distinct, with exactly that entry's fields. |
| Matching.ReplaceTag | radiko/__init__.py:122-133 | Substitution runs after `strftime`. A formatted template with no `{` comes back as it is, whatever the fields hold. |
| Matching.ReplaceTagEmptyFields | radiko/__init__.py:126-132 | With empty fields only `{pfm}` is replaced. `{album}`, `{title}` and `{artist}` stay literally. |
| Matching.ReplaceTagDropsPfm | radiko/__init__.py:126 | `{pfm}` is replaced even by an empty performer. |
| Matching.ReplaceTagPfm | radiko/__init__.py:126 | A formatted `{pfm}` becomes the performer text (any without `{`), whatever the other fields hold. |
| Matching.ReplaceTagAlbum | radiko/__init__.py:127-128 | A formatted `{album}` becomes the album when it is non-empty and stays `{album}` otherwise; the other fields leave it alone. |
| Matching.ReplaceTagTitle | radiko/__init__.py:129-130 | A formatted `{title}` becomes the title when it is non-empty and stays `{title}` otherwise; the other fields leave it alone. |
| Matching.ReplaceTagArtist | radiko/__init__.py:131-132 | A formatted `{artist}` becomes the artist when it is non-empty and stays `{artist}` otherwise; the other fields leave it alone. |
| Matching.WordsTags | radiko/__init__.py:140-145 | A keyword match sets artist = pfm, and album = title = storage_dir = `title_key`. The filename is `_replace_tag` of `title_key + '_%Y%m%d'`, seeing the fields just written, plus `.m4a`. It sets `found_by` to `'words'` and leaves the artwork. |
| Matching.TitleTags | radiko/__init__.py:162-167 | A title match writes artist, album, title, filename (plus `.m4a`) and storage_dir, in that order. Each is `_replace_tag` of the rule's template, seeing the fields written before it. It sets `found_by` to `'title'` and leaves the artwork. |
| Matching.TitleTagsPlain | radiko/__init__.py:162-167 | When no formatted template holds a `{`, the tags are the formatted templates, whatever the program held before. |
| Matching.WriteTitleTags | radiko/__init__.py:162-167 | The five field writes, in order, leave the program with the tags `TitleTags` gives. |
| Matching.ApplyRule | radiko/__init__.py:174-178 | A matching rule records its kind in `found_by`. A rule that does not match leaves every field as it was. |
| Matching.RunRulesUnmatched | radiko/__init__.py:173-178 | A program no rule matches keeps all its fields. |
| Matching.RunRulesLastMatch | radiko/__init__.py:173-178 | Because all rules write into one object, `found_by` names the kind of the last rule that matched. |
| Matching.RunRulesWordsLast | radiko/__init__.py:173-178 | A keyword rule matching last overwrites everything an earlier title rule wrote. |
| Matching.RunRulesKeepsArtwork | radiko/__init__.py:135-169 | No matcher writes `artwork`. |
| Matching.RecordingByWords | radiko/__init__.py:135-147 | The program is returned and updated iff some word occurs in the title or in pfm, whatever the rule's `stations` say. Otherwise None is returned and the program is unchanged. |
| Matching.EmptyWordMatchesAll | radiko/__init__.py:138-139 | An empty word matches every program, since `'' in s` always holds. |
| Matching.RecordingByTitle | radiko/__init__.py:149-169 | A match needs the same station, a title starting with the rule's title and, when given, the weekday name. The tags are then written in order. A non-match leaves the program untouched. |
| Matching.Recording | radiko/__init__.py:175-178 | A rule with `words` goes to the keyword matcher, any other to the title matcher. The program ends as `ApplyRule` says. |
| Dedup.DedupIdx | radiko/__init__.py:180-187 | Every kept key designates an earlier program that has that key and that some rule matched. |
| Dedup.DedupDomain | radiko/__init__.py:180-187 | A key is kept iff some matched program has it. At most one program is kept per key. |
| Dedup.DedupWinner | radiko/__init__.py:183-187 | A key holds the first matched program whose final `found_by` is not `'words'`. A title match is never displaced. If all of them ended as `'words'`, it holds the last one. |
| Dedup.StoredAdmit | radiko/__init__.py:183-187 | The check-and-store on objects is the index bookkeeping, as long as stored objects carry their final `found_by`. |
| Dedup.MatchRules | radiko/__init__.py:174-187 | After the inner loop, the program holds the fields that all rules leave. `found` admits it once if any rule matched. |
| Dedup.DedupLoop | radiko/__init__.py:173-187 | The outer loop leaves every program with its final fields, and `found` matches the index bookkeeping. |
| Dedup.DedupPrograms | radiko/__init__.py:172-187 | Each program ends as all rules in order leave it. Per key, `found` holds the program `DedupOf` designates. |
| Grouping.SortedUnique | radiko/__init__.py:190 | A set of keys has only one strictly ascending enumeration. |
| Grouping.SortKeys | radiko/__init__.py:190 | `sorted(found_programs.keys())` is the ascending enumeration of the kept keys. |
| Grouping.AddToGroup | radiko/__init__.py:193-200 | Taking one program adds its grouping key to the keys and appends the program to that key's members (a new key holds it alone). |
| Grouping.AddToGroupOthers | radiko/__init__.py:193-200 | Every other key keeps its target. |
| Grouping.GroupDomain | radiko/__init__.py:189-200 | An output key exists iff some kept program has it as `title_key + start_time[:8]`. |
| Grouping.GroupMembers | radiko/__init__.py:189-200 | Each output key holds exactly the kept programs with that grouping key, in loop order. It is a single program when there is one and a list of two or more otherwise. |
| Grouping.GroupAllFrom | radiko/__init__.py:189-200 | Grouping adds no program: every member of a target is one of the programs taken. |
| Grouping.GroupTotal | radiko/__init__.py:189-200 | The targets hold as many programs together as the loop took. |
| Grouping.GroupPrograms | radiko/__init__.py:189-201 | The loop equals grouping the kept programs taken in ascending key order. |
| Grouping.MembersAscend | radiko/__init__.py:190-198 | The members of each list are in ascending order of their dedup keys. |
| Filter.FilterPrograms | radiko/__init__.py:171-201 | Each program ends with the fields all rules leave. The result groups the kept programs, in ascending key order, by series and day. |
| Filter.GroupAllWellFormed | radiko/__init__.py:194-200 | No output target is an empty list, so `[0]` and `[-1]` are defined. |
| Filter.FilterTotal | radiko/__init__.py:180-200 | The total number of members equals the number of deduped programs. |
| Filter.StationTargetsFrom | radiko/__init__.py:171-201 | Every program of a returned target is one of the programs given. |
| Merge.SumDulationBounds | radiko/__init__.py:203-207 | A target's summed duration is never negative, lies below one day per member, and is 0 for no members. |
| Merge.SumDulationAppend | radiko/__init__.py:205 | The duration of a list is the sum over its parts. |
| Merge.TargetDulation | radiko/__init__.py:203-207 | `_dulation` of a single program and of a list are both the sum over the target's members. |
| Merge.MergeNewKey | radiko/__init__.py:234-235 | A key seen for the first time is inserted as it is. |
| Merge.MergeTitleWins | radiko/__init__.py:221-228 | An incoming target whose first program has `found_by == 'title'` replaces the stored one unconditionally. |
| Merge.MergeWordsByLength | radiko/__init__.py:229-233 | Any other incoming target replaces the stored one iff it is strictly longer. A tie keeps the earlier one, and a stored title target can be displaced. |
| Merge.MergeKeepsOthers | radiko/__init__.py:218-235 | Keys the station did not produce keep their target. |
| Merge.MergeSnap | radiko/__init__.py:218-235 | After one station the keys are the union of both maps. Each key holds the stored or the incoming target, and an incoming `'title'` target is always the one kept. |
| Merge.MergeSnapObjects | radiko/__init__.py:218-235 | The merge brings in no program that neither map held. |
| Merge.MergeFrom | radiko/__init__.py:218-235 | After the merge, every key holds a target of one of the two maps. |
| Merge.MergeStep | radiko/__init__.py:218-235 | Merging one more key changes the map at that key only, and decides it against what was stored before this station. |
| Merge.MergeOne | radiko/__init__.py:219-235 | One loop iteration keeps the stored target unless the incoming one replaces it or the key is new. |
| Merge.MergeInto | radiko/__init__.py:218-235 | The loop over `progs.items()` gives the same map in any order. It is what one station contributes to the fold. |
| Merge.MergeAllKeys | radiko/__init__.py:209-235 | A key is in the final map iff some station produced it. |
| Merge.MergeAllFrom | radiko/__init__.py:213-235 | Every final target is one that some station produced under the same key. |
| Merge.MergeAllOnly | radiko/__init__.py:213-235 | A key produced by one station only keeps that station's target. |
| Merge.StationPrograms | radiko/__init__.py:214-216 | One station fails iff its feed fails to parse. Otherwise its targets are what `_filter_programs` builds from the fresh parsed programs, and none is an empty list. Every parsed program ends with the tags all rules write into a blank program, and so does every program of the targets. |
| Merge.FilterFresh | radiko/__init__.py:215-216 | Filtering freshly parsed programs leaves each with the tags all rules write into a blank program, and returns the station's targets. |
| Merge.StationTargetsTagged | radiko/__init__.py:171-201 | When each program holds the tags the rules gave it, so does every program of the targets. |
| Merge.MergeRuled | radiko/__init__.py:218-235 | The station's targets fold into the map. Each key's recorded `found_by` is the one the rules gave that target's first program, and the merged map again holds only programs with their rule-given tags. |
| Merge.MergeStation | radiko/__init__.py:213-235 | One station folds into the map. Its contribution comes from its feed, and each target's recorded `found_by` is what the rules gave its first program. The merged map holds only programs with their rule-given tags. |
| Merge.GetPrograms | radiko/__init__.py:209-241 | The call fails iff some station's feed fails. Otherwise the result is the fold, in station order, of what each station's feed yields. Each recorded `found_by` is what the rules gave the target's first program, and every returned program holds the tags the rules wrote into it. |
| Lastest.LookupAfterSets | lastest/__init__.py:27-31 | After any run of `set`s, `get` answers the start time of the latest set for that title. For a title never set, it answers what the store held before. |
| Lastest.Lastest.constructor | lastest/__init__.py:8-21 | A new store holds the loaded mapping, or `{}` when the file is missing or empty. |
| Lastest.Lastest.Load | lastest/__init__.py:13-21 | A missing file keeps the map. An empty or null document gives `{}`. A mapping replaces the map. |
| Lastest.Lastest.Set | lastest/__init__.py:27-28 | The entry is keyed by `radiko_title`: every program with that title then reads this start time, and no other title changes. |
| Lastest.Lastest.Get | lastest/__init__.py:30-31 | The stored start time, or `''` for a title never recorded. |
| RecRadikoPg.ProgramStartEnd | rec_radiko_pg.py:81-84 | A list gives its first and last programs. A single program gives itself twice. |
| RecRadikoPg.CanRecord | rec_radiko_pg.py:54-78 | True exactly when the first program starts after the last recorded start of its title, has started by `now`, and the last program has ended by `record_start`. |
| RecRadikoPg.NeverRecordedPasses | rec_radiko_pg.py:74-75 | A title never recorded (`''`) always passes the first check. |
| RecRadikoPg.RecordedRefused | rec_radiko_pg.py:74-75 | A broadcast starting no later than the stored start of its title is refused. |
| RecRadikoPg.CanRecordInTime | rec_radiko_pg.py:74-77 | On valid timestamps, the three string checks are comparisons of instants. |
| RecRadikoPg.FormatProgramWindow | rec_radiko_pg.py:87-90 | There is a window iff both timestamps parse. The start is 16 characters with `-`, `-`, a space and `:` at offsets 4, 7, 10 and 13. The end is 5 characters with `:` at offset 2. |
| RecRadikoPg.WindowRoundTrip | rec_radiko_pg.py:87-90 | Dropping the separators gives back the start's digits to the minute and the end's hour and minute. |
| RecRadikoPg.NormalizeLabel | rec_radiko_pg.py:93-98 | The output has no whitespace and none of the listed characters. Every other character of the NFKC-normalised, lowered text stays, as often as it occurs there and in order. |
| RecRadikoPg.ShowFilenameHint | rec_radiko_pg.py:101-106 | No hint without a filename. A hint implies the normalised title does not occur in the normalised stem. |
| RecRadikoPg.NamedAfterTitleNoHint | rec_radiko_pg.py:101-106 | A file whose stem is the title itself gets no hint. |
| RecRadikoPg.BlankTitleNoHint | rec_radiko_pg.py:101-106 | A title made only of whitespace and listed marks normalises to `''`, so it gets no hint. |
| RecRadikoPg.UpcomingComplete | rec_radiko_pg.py:115-123 | Every target with now < start ≤ limit and start > the stored start is listed. |
| RecRadikoPg.UpcomingSound | rec_radiko_pg.py:115-123 | Every listed item comes from such a target. |
| RecRadikoPg.SortByStartSorted | rec_radiko_pg.py:125 | The sort orders items by start time. |
| RecRadikoPg.SortByStartPermutes | rec_radiko_pg.py:125 | The sort neither loses nor repeats an item. |
| RecRadikoPg.SortByStartStable | rec_radiko_pg.py:125 | Items with equal start times keep their input order. |
| RecRadikoPg.ShowUpcoming | rec_radiko_pg.py:109-125 | The items are exactly the listed targets. They are sorted by start time, with ties in dict order. |

## Left out

- The HTTP download of the weekly schedule (radiko/__init__.py:70-73) and the XML parsing
  (radiko/__init__.py:75-87). The model starts from the extracted fields of each `<prog>`
  and the id of the first `<station>`. A feed without a `<station>` element, which raises
  in the source, is not represented.
- `strptime`'s lenient parses of timestamps that are not 14 digits. Only canonical
  timestamps parse. Any other titled timestamp is the parse's error path.
- `jaconv.z2h`, NFKC normalisation, `str.lower`, `Path.stem` and `strftime` are parameters
  with no fixed behaviour.
- Regex corner cases: `\d` is taken as ASCII digits only, and `$` matching before a
  trailing newline is not modelled.
- Artwork download, the recorder subprocess, tagging, file copying and moving, and the
  `record` orchestration (radiko/__init__.py:243-351). These are process and file side
  effects.
- audio_concatenator.py (ffmpeg), the mail sender, and the configuration loader.
- `Lastest.save` and the file reading of `load`. A document that is not a mapping (a list,
  a scalar) is not modelled.
- `setup_logging`, `load_radio`, `main`, the logging calls, and the printing of
  `show_upcoming`. The listing's `now` and `now + days` come in already formatted.
- A title rule missing one of its required keys raises `KeyError` in the source. Rules here
  always carry their keys.
- Merge.GetPrograms: the station order is an input sequence. The source iterates a `set`,
  whose order the model does not fix.
- RecRadikoPg.FormatProgramWindow: for years below 1000 the platform's `%Y` may print fewer
  than four digits. The model shows the timestamp's four digits.
- RecRadikoPg.ShowFilenameHint: states only that a hint implies the title is absent from
  the stem. The converse is its definition, with NFKC and lowering as parameters.
