/** The transcript table and the storage behind it. */
module TranscriptTable {
  import opened Prelude
  import opened Tables
  import opened Whitespace

  const FORMATS := {"srt", "sjson"}

  datatype TStore = TStore(rows: seq<Transcript>, blobs: map<string, string>)

  /** Properties to overwrite; the empty string stands for an absent or empty property. */
  datatype Meta = Meta(provider: string, language: string, fileName: string, format: string)

  datatype TOutcome =
    | Stored(file: string, created: bool)
    | NoVideo | BadFormat | BadProvider | BadData | StorageFailed | Clash | Exists

  predicate Matches(t: Transcript, v: string, l: string) { t.video == v && t.language == l }

  /** `objects.get(video, language_code)` */
  function FindRow(rows: seq<Transcript>, v: string, l: string): (r: Option<nat>)
    ensures r.Some? ==> r.value < |rows| && Matches(rows[r.value], v, l)
    ensures r.None? ==> forall i :: 0 <= i < |rows| ==> !Matches(rows[i], v, l)
  {
    if rows == [] then None
    else if Matches(rows[0], v, l) then Some(0)
    else
      match FindRow(rows[1..], v, l)
      case None =>
        assert forall i :: 0 < i < |rows| ==> rows[i] == rows[1..][i - 1];
        None
      case Some(i) => Some(i + 1)
  }

  lemma KeysDiffer(rows: seq<Transcript>, i: nat, j: nat)
    requires UniqueLanguages(rows) && i < |rows| && j < |rows| && i != j
    ensures !Matches(rows[j], rows[i].video, rows[i].language)
  {
    if i < j {
      assert !SameLanguage()(rows[i], rows[j]);
    } else {
      assert !SameLanguage()(rows[j], rows[i]);
    }
  }

  /** With unique keys, the row found for a key is the only one. */
  lemma FoundIsOnly(rows: seq<Transcript>, i: nat)
    requires UniqueLanguages(rows) && i < |rows|
    ensures FindRow(rows, rows[i].video, rows[i].language) == Some(i)
  {
    assert Matches(rows[i], rows[i].video, rows[i].language);
    forall j | 0 <= j < |rows| && j != i ensures !Matches(rows[j], rows[i].video, rows[i].language) {
      KeysDiffer(rows, i, j);
    }
  }

  lemma {:induction false} NoRow(rows: seq<Transcript>, v: string, l: string)
    requires forall t :: t in rows ==> t.video != v
    ensures FindRow(rows, v, l) == None
  {
    if rows == [] {
    } else {
      assert rows[0] in rows;
      NoRow(rows[1..], v, l);
    }
  }

  function Or(value: string, default: string): string {
    if value != "" then value else default
  }

  function Overwrite(t: Transcript, meta: Meta): Transcript {
    t.(provider := Or(meta.provider, t.provider),
       language := Or(meta.language, t.language),
       format := Or(meta.format, t.format))
  }

  /** Saving a row at position `at` (or at the end): the unique key refuses a second row with the same key. */
  predicate KeyTaken(rows: seq<Transcript>, at: nat, t: Transcript) {
    exists j :: 0 <= j < |rows| && j != at && Matches(rows[j], t.video, t.language)
  }

  function PutRow(rows: seq<Transcript>, at: nat, t: Transcript): seq<Transcript>
    requires at <= |rows|
  {
    if at < |rows| then rows[at := t] else rows + [t]
  }

  /** The checks on format and provider that precede a create-or-update. */
  function MetaError(meta: Meta): Option<TOutcome> {
    if meta.format != "" && meta.format !in FORMATS then Some(BadFormat)
    else if meta.provider != "" && meta.provider !in PROVIDERS then Some(BadProvider)
    else None
  }

  function Target(rows: seq<Transcript>, v: string, l: string): (at: nat)
    ensures at <= |rows|
  {
    match FindRow(rows, v, l)
    case Some(i) => i
    case None => |rows|
  }

  function TargetRow(rows: seq<Transcript>, v: string, l: string): (t: Transcript)
    ensures Matches(t, v, l)
  {
    match FindRow(rows, v, l)
    case Some(i) => rows[i]
    case None => Transcript(v, l, CUSTOM, "", "")
  }

  /**
   `create_or_update_video_transcript`. With data, the content is stored under the name `stored` that the
   storage hands back before the row is saved, so a refused row leaves the content behind; without data, the
   row is pointed at the given file name, or at the generated name `stored` when none is given.
   */
  function Upsert(st: TStore, videos: set<string>, v: string, l: string, meta: Meta,
                  data: Option<string>, stored: string, ok: bool): (TStore, TOutcome)
  {
    if MetaError(meta).Some? then (st, MetaError(meta).value)
    else if v !in videos then (st, NoVideo)
    else if data.Some? && !ok then (st, StorageFailed)
    else
      var file := if data.Some? then stored else Or(meta.fileName, stored);
      var blobs := if data.Some? then st.blobs[stored := data.value] else st.blobs;
      var at := Target(st.rows, v, l);
      var t := Overwrite(TargetRow(st.rows, v, l), meta).(file := file);
      if KeyTaken(st.rows, at, t) then (TStore(st.rows, blobs), Clash)
      else (TStore(PutRow(st.rows, at, t), blobs), Stored(file, FindRow(st.rows, v, l).None?))
  }

  /** `create_video_transcript`: always a new row, so an existing language is refused by the unique key. */
  function Create(st: TStore, videos: set<string>, v: string, language: string, format: string, provider: string,
                  data: string, stored: string, ok: bool): (TStore, TOutcome)
  {
    var l := Strip(language);
    if v !in videos || !ValidText(l, 1, 50) || format !in FORMATS || provider !in PROVIDERS then (st, BadData)
    else if !ok then (st, StorageFailed)
    else
      var t := Transcript(v, l, provider, format, stored);
      var blobs := st.blobs[stored := data];
      if KeyTaken(st.rows, |st.rows|, t) then (TStore(st.rows, blobs), Clash)
      else (TStore(st.rows + [t], blobs), Stored(stored, true))
  }

  /** The POST view: it refuses an existing transcript before doing anything. */
  function Post(st: TStore, videos: set<string>, v: string, l: string, name: string, provider: string,
                format: string, stored: string): (TStore, TOutcome)
  {
    if format !in FORMATS then (st, BadFormat)
    else if provider !in PROVIDERS then (st, BadProvider)
    else if FindRow(st.rows, v, l).Some? then (st, Exists)
    else Upsert(st, videos, v, l, Meta(provider, "", name, format), None, stored, true)
  }

  /** `delete_video_transcript`: content first, if the row names a file, then the row. */
  function Delete(st: TStore, v: string, l: string): TStore {
    match FindRow(st.rows, v, l)
    case None => st
    case Some(i) =>
      var file := st.rows[i].file;
      TStore(st.rows[..i] + st.rows[i + 1..], if file == "" then st.blobs else st.blobs - {file})
  }

  // ---------------------------------------------------------------- unique keys

  lemma PutKeepsUnique(rows: seq<Transcript>, at: nat, t: Transcript)
    requires UniqueLanguages(rows) && at <= |rows| && !KeyTaken(rows, at, t)
    ensures UniqueLanguages(PutRow(rows, at, t))
  {
    var after := PutRow(rows, at, t);
    forall i, j | 0 <= i < j < |after|
      ensures !SameLanguage()(after[i], after[j])
    {
      if i == at || j == at {
        var other := if i == at then j else i;
        assert after[other] == rows[other] && !Matches(rows[other], t.video, t.language);
      } else {
        assert !SameLanguage()(rows[i], rows[j]);
      }
    }
  }

  lemma PutKeepsOk(rows: seq<Transcript>, at: nat, t: Transcript, videos: map<string, Video>)
    requires TranscriptsOk(rows, videos) && at <= |rows| && !KeyTaken(rows, at, t)
    requires t.video in videos && t.provider in PROVIDERS
    ensures TranscriptsOk(PutRow(rows, at, t), videos)
  {
    PutKeepsUnique(rows, at, t);
    forall x | x in PutRow(rows, at, t) ensures x.video in videos && x.provider in PROVIDERS {
      if x != t {
        assert x in rows;
      }
    }
  }

  lemma UpsertKeepsOk(st: TStore, videos: map<string, Video>, v: string, l: string, meta: Meta,
                      data: Option<string>, stored: string, ok: bool)
    requires TranscriptsOk(st.rows, videos)
    ensures TranscriptsOk(Upsert(st, videos.Keys, v, l, meta, data, stored, ok).0.rows, videos)
  {
    if MetaError(meta).None? && v in videos {
      var file := if data.Some? then stored else Or(meta.fileName, stored);
      var at := Target(st.rows, v, l);
      var base := TargetRow(st.rows, v, l);
      var t := Overwrite(base, meta).(file := file);
      assert base.provider in PROVIDERS by {
        if FindRow(st.rows, v, l).Some? {
          assert base in st.rows;
        }
      }
      if !KeyTaken(st.rows, at, t) {
        PutKeepsOk(st.rows, at, t, videos);
      }
    }
  }

  lemma CreateKeepsOk(st: TStore, videos: map<string, Video>, v: string, language: string, format: string,
                      provider: string, data: string, stored: string, ok: bool)
    requires TranscriptsOk(st.rows, videos)
    ensures TranscriptsOk(Create(st, videos.Keys, v, language, format, provider, data, stored, ok).0.rows, videos)
  {
    var t := Transcript(v, Strip(language), provider, format, stored);
    if v in videos && provider in PROVIDERS && !KeyTaken(st.rows, |st.rows|, t) {
      PutKeepsOk(st.rows, |st.rows|, t, videos);
    }
  }

  lemma DeleteKeepsOk(st: TStore, videos: map<string, Video>, v: string, l: string)
    requires TranscriptsOk(st.rows, videos)
    ensures TranscriptsOk(Delete(st, v, l).rows, videos)
    ensures FindRow(Delete(st, v, l).rows, v, l).None?
  {
    var r := FindRow(st.rows, v, l);
    if r.Some? {
      var after := Delete(st, v, l).rows;
      forall i, j | 0 <= i < j < |after|
        ensures !SameLanguage()(after[i], after[j])
      {
        var i', j' := if i < r.value then i else i + 1, if j < r.value then j else j + 1;
        assert after[i] == st.rows[i'] && after[j] == st.rows[j'];
        assert !SameLanguage()(st.rows[i'], st.rows[j']);
      }
      forall i | 0 <= i < |after| ensures !Matches(after[i], v, l) {
        var i' := if i < r.value then i else i + 1;
        assert after[i] == st.rows[i'];
        if i' < r.value {
          assert !SameLanguage()(st.rows[i'], st.rows[r.value]);
        } else {
          assert !SameLanguage()(st.rows[r.value], st.rows[i']);
        }
      }
    }
  }

  /** A create-or-update is refused by the unique key exactly when it renames the language to one the video has
      already. */
  lemma ClashExactly(st: TStore, videos: set<string>, v: string, l: string, meta: Meta,
                     data: Option<string>, stored: string, ok: bool)
    requires UniqueLanguages(st.rows)
    requires MetaError(meta).None? && v in videos && (data.Some? ==> ok)
    ensures Upsert(st, videos, v, l, meta, data, stored, ok).1 == Clash <==>
              meta.language != "" && meta.language != l && FindRow(st.rows, v, meta.language).Some?
  {
    var file := if data.Some? then stored else Or(meta.fileName, stored);
    var at := Target(st.rows, v, l);
    var t := Overwrite(TargetRow(st.rows, v, l), meta).(file := file);
    var renamed := Or(meta.language, l);
    assert t.video == v && t.language == renamed;
    if KeyTaken(st.rows, at, t) {
      var j :| 0 <= j < |st.rows| && j != at && Matches(st.rows[j], v, renamed);
      if renamed == l {
        FoundIsOnly(st.rows, j);
        assert false;
      }
    }
    if renamed != l && FindRow(st.rows, v, renamed).Some? {
      var j := FindRow(st.rows, v, renamed).value;
      assert j != at && Matches(st.rows[j], t.video, t.language);
    }
  }

  /** A refused or failed call leaves every row as it was; a successful one changes the addressed row only. */
  lemma UpsertFrame(st: TStore, videos: set<string>, v: string, l: string, meta: Meta,
                    data: Option<string>, stored: string, ok: bool)
    ensures var (after, outcome) := Upsert(st, videos, v, l, meta, data, stored, ok);
            var at := Target(st.rows, v, l);
            && (!outcome.Stored? ==> after.rows == st.rows)
            && (outcome.Stored? ==>
                  && |after.rows| == (if at < |st.rows| then |st.rows| else |st.rows| + 1)
                  && (forall j :: 0 <= j < |st.rows| && j != at ==> after.rows[j] == st.rows[j])
                  && Matches(after.rows[at], v, Or(meta.language, l))
                  && after.rows[at].file == outcome.file
                  && (outcome.created <==> at == |st.rows|)
                  && (data.Some? ==> outcome.file in after.blobs && after.blobs[outcome.file] == data.value))
  {
  }

  /** The POST view only ever adds a row at the end, exactly when the video is known and has no transcript in the
      language and format and provider are supported. The row names the given file, or a generated name. */
  lemma PostOnlyAdds(st: TStore, videos: set<string>, v: string, l: string, name: string, provider: string,
                     format: string, stored: string)
    ensures var (after, outcome) := Post(st, videos, v, l, name, provider, format, stored);
            var file := if name != "" then name else stored;
            && after.blobs == st.blobs
            && (outcome.Stored? <==>
                  && format in ["srt", "sjson"] && provider in ["Custom", "3PlayMedia", "Cielo24"]
                  && v in videos && FindRow(st.rows, v, l).None?)
            && after.rows == if outcome.Stored? then st.rows + [Transcript(v, l, provider, format, file)] else st.rows
  {
    if format in FORMATS && provider in PROVIDERS {
      assert format != "" && provider != "";
    }
  }

  // ---------------------------------------------------------------- what a reader sees

  /** A transcript as `get_video_transcript_data` and the table show it; None: the file is missing. */
  datatype Entry = Entry(content: Option<string>, format: string, provider: string)

  function BlobOf(blobs: map<string, string>, file: string): Option<string> {
    if file in blobs then Some(blobs[file]) else None
  }

  function Lookup(st: TStore, v: string, l: string): Option<Entry> {
    match FindRow(st.rows, v, l)
    case None => None
    case Some(i) => Some(Entry(BlobOf(st.blobs, st.rows[i].file), st.rows[i].format, st.rows[i].provider))
  }

  /** A name that is neither stored nor referred to. */
  ghost predicate Fresh(st: TStore, name: string) {
    name !in st.blobs && forall t :: t in st.rows ==> t.file != name
  }

  /** A create-or-update call whose checks pass, with data under a fresh name or without data. If it is refused by the
      unique key, nothing that is read changes. Otherwise the video and the new language show the file's content, the
      given properties and the old ones for those not given; a language renamed away is gone; nothing else changes. */
  lemma UpsertLookup(st: TStore, videos: set<string>, v: string, l: string, meta: Meta,
                     data: Option<string>, stored: string)
    requires UniqueLanguages(st.rows) && MetaError(meta).None? && v in videos
    requires data.Some? ==> Fresh(st, stored)
    ensures var (after, outcome) := Upsert(st, videos, v, l, meta, data, stored, true);
            var m := Or(meta.language, l);
            var base := TargetRow(st.rows, v, l);
            var file := if data.Some? then stored else Or(meta.fileName, stored);
            && UniqueLanguages(after.rows)
            && (outcome.Stored? <==> m == l || FindRow(st.rows, v, m).None?)
            && (!outcome.Stored? ==> forall w, n :: Lookup(after, w, n) == Lookup(st, w, n))
            && (outcome.Stored? ==>
                  && Lookup(after, v, m) == Some(Entry(if data.Some? then data else BlobOf(st.blobs, file),
                                                       Or(meta.format, base.format), Or(meta.provider, base.provider)))
                  && (m != l ==> Lookup(after, v, l) == None)
                  && (forall w, n :: !(w == v && n in {l, m}) ==> Lookup(after, w, n) == Lookup(st, w, n)))
  {
    var (after, outcome) := Upsert(st, videos, v, l, meta, data, stored, true);
    ClashExactly(st, videos, v, l, meta, data, stored, true);
    if outcome.Stored? {
      var at := Target(st.rows, v, l);
      PutLookup(st, at, after.rows[at], after.blobs);
    } else {
      forall w, n ensures Lookup(after, w, n) == Lookup(st, w, n) {
        var r := FindRow(st.rows, w, n);
        assert r.Some? ==> st.rows[r.value] in st.rows;
      }
    }
  }

  /** Putting a row changes what is read for the row's old and new key only. */
  lemma PutLookup(st: TStore, at: nat, t: Transcript, blobs: map<string, string>)
    requires UniqueLanguages(st.rows) && at <= |st.rows| && !KeyTaken(st.rows, at, t)
    requires at < |st.rows| ==> st.rows[at].video == t.video
    requires forall x :: x in st.rows ==> BlobOf(blobs, x.file) == BlobOf(st.blobs, x.file)
    ensures var after := TStore(PutRow(st.rows, at, t), blobs);
            && UniqueLanguages(after.rows)
            && Lookup(after, t.video, t.language) == Some(Entry(BlobOf(blobs, t.file), t.format, t.provider))
            && (forall w, n :: !Matches(t, w, n) ==>
                  if at < |st.rows| && Matches(st.rows[at], w, n) then Lookup(after, w, n) == None
                  else Lookup(after, w, n) == Lookup(st, w, n))
  {
    var after := TStore(PutRow(st.rows, at, t), blobs);
    PutKeepsUnique(st.rows, at, t);
    assert after.rows[at] == t;
    FoundIsOnly(after.rows, at);
    forall w, n | !Matches(t, w, n)
      ensures if at < |st.rows| && Matches(st.rows[at], w, n) then Lookup(after, w, n) == None
              else Lookup(after, w, n) == Lookup(st, w, n)
    {
      var r := FindRow(st.rows, w, n);
      if r.Some? && r.value != at {
        assert after.rows[r.value] == st.rows[r.value] && st.rows[r.value] in st.rows;
        FoundIsOnly(after.rows, r.value);
        FoundIsOnly(st.rows, r.value);
        if at < |st.rows| { KeysDiffer(st.rows, r.value, at); }
      } else {
        forall i | 0 <= i < |after.rows| ensures !Matches(after.rows[i], w, n) {
          if i != at {
            assert after.rows[i] == st.rows[i];
            if r.Some? { KeysDiffer(st.rows, at, i); }
          }
        }
      }
    }
  }

  /** When a create-or-update call is refused, and what it leaves behind: nothing, except that content stored before the
      unique key refuses the row stays. */
  lemma UpsertRefusals(st: TStore, videos: set<string>, v: string, l: string, meta: Meta,
                       data: Option<string>, stored: string, ok: bool)
    requires UniqueLanguages(st.rows)
    ensures var (after, outcome) := Upsert(st, videos, v, l, meta, data, stored, ok);
            var badFormat := meta.format != "" && meta.format !in ["srt", "sjson"];
            var badProvider := meta.provider != "" && meta.provider !in ["Custom", "3PlayMedia", "Cielo24"];
            && (outcome == BadFormat <==> badFormat)
            && (outcome == BadProvider <==> !badFormat && badProvider)
            && (outcome == NoVideo <==> !badFormat && !badProvider && v !in videos)
            && (outcome == StorageFailed <==> !badFormat && !badProvider && v in videos && data.Some? && !ok)
            && (outcome in {BadFormat, BadProvider, NoVideo, StorageFailed} ==> after == st)
            && (outcome == Clash ==>
                  after == TStore(st.rows, if data.Some? then st.blobs[stored := data.value] else st.blobs))
  {
  }

  /** Creating a transcript under a fresh name: it succeeds exactly for valid data of a known video without a transcript
      in the trimmed language. Then that language shows the content with format and provider, and no other transcript
      changes; a refused call changes nothing that is read. */
  lemma CreateLookup(st: TStore, videos: set<string>, v: string, language: string, format: string, provider: string,
                     data: string, stored: string, ok: bool)
    requires UniqueLanguages(st.rows) && Fresh(st, stored)
    ensures var (after, outcome) := Create(st, videos, v, language, format, provider, data, stored, ok);
            var l := Strip(language);
            && UniqueLanguages(after.rows)
            && (outcome.Stored? <==>
                  && v in videos && ValidText(l, 1, 50) && format in ["srt", "sjson"]
                  && provider in ["Custom", "3PlayMedia", "Cielo24"] && ok && Lookup(st, v, l) == None)
            && (outcome.Stored? ==> Lookup(after, v, l) == Some(Entry(Some(data), format, provider)))
            && (forall w, n :: !(outcome.Stored? && w == v && n == l) ==> Lookup(after, w, n) == Lookup(st, w, n))
  {
    var (after, outcome) := Create(st, videos, v, language, format, provider, data, stored, ok);
    var l := Strip(language);
    var t := Transcript(v, l, provider, format, stored);
    var n := |st.rows|;
    if FindRow(st.rows, v, l).Some? {
      var i := FindRow(st.rows, v, l).value;
      assert i != n && Matches(st.rows[i], t.video, t.language);
    }
    if outcome.Stored? {
      PutLookup(st, n, t, st.blobs[stored := data]);
    } else {
      forall w, m ensures Lookup(after, w, m) == Lookup(st, w, m) {
        var r := FindRow(st.rows, w, m);
        assert r.Some? ==> st.rows[r.value] in st.rows;
      }
    }
  }

  // ---------------------------------------------------------------- what a deletion takes from other transcripts

  /** Another row names the file of row `i`. */
  predicate FileShared(rows: seq<Transcript>, i: nat)
    requires i < |rows|
  {
    exists j :: 0 <= j < |rows| && j != i && rows[j].file == rows[i].file
  }

  predicate TakesFromOthers(st: TStore, v: string, l: string) {
    var r := FindRow(st.rows, v, l);
    r.Some? && st.rows[r.value].file != "" && st.rows[r.value].file in st.blobs && FileShared(st.rows, r.value)
  }

  /** A row other than the deleted one is still found, with the content that is left. */
  lemma DeleteKeepsRow(st: TStore, v: string, l: string, j: nat)
    requires UniqueLanguages(st.rows) && UniqueLanguages(Delete(st, v, l).rows)
    requires FindRow(st.rows, v, l).Some? && j < |st.rows| && j != FindRow(st.rows, v, l).value
    ensures var t := st.rows[j];
            var after := Delete(st, v, l);
            && Lookup(after, t.video, t.language) == Some(Entry(BlobOf(after.blobs, t.file), t.format, t.provider))
            && Lookup(st, t.video, t.language) == Some(Entry(BlobOf(st.blobs, t.file), t.format, t.provider))
  {
    var i := FindRow(st.rows, v, l).value;
    var after := Delete(st, v, l).rows;
    var j' := if j < i then j else j - 1;
    assert after[j'] == st.rows[j];
    FoundIsOnly(after, j');
    FoundIsOnly(st.rows, j);
  }

  /** Deleting a transcript leaves what is read for every other key as it was, exactly when it does not delete content
      that another row names as well. */
  lemma DeleteLookup(st: TStore, videos: map<string, Video>, v: string, l: string)
    requires TranscriptsOk(st.rows, videos)
    ensures Lookup(Delete(st, v, l), v, l) == None
    ensures (forall w, m :: !(w == v && m == l) ==> Lookup(Delete(st, v, l), w, m) == Lookup(st, w, m))
       <==> !TakesFromOthers(st, v, l)
  {
    hide NoClash;
    DeleteKeepsOk(st, videos, v, l);
    var after := Delete(st, v, l);
    var r := FindRow(st.rows, v, l);
    if TakesFromOthers(st, v, l) {
      var j :| 0 <= j < |st.rows| && j != r.value && st.rows[j].file == st.rows[r.value].file;
      DeleteKeepsRow(st, v, l, j);
      KeysDiffer(st.rows, r.value, j);
      assert Lookup(after, st.rows[j].video, st.rows[j].language) != Lookup(st, st.rows[j].video, st.rows[j].language);
    } else if r.Some? {
      forall w, m | !(w == v && m == l) ensures Lookup(after, w, m) == Lookup(st, w, m) {
        var s := FindRow(st.rows, w, m);
        if s.Some? {
          DeleteKeepsRow(st, v, l, s.value);
        } else {
          forall i | 0 <= i < |after.rows| ensures !Matches(after.rows[i], w, m) {
            assert after.rows[i] == st.rows[if i < r.value then i else i + 1];
          }
        }
      }
    }
  }

  /** The POST view for a language that is not there adds one row that names the given file. */
  lemma PostAdds(st: TStore, videos: map<string, Video>, v: string, l: string, name: string,
                 provider: string, format: string, stored: string)
    requires TranscriptsOk(st.rows, videos) && v in videos && provider in PROVIDERS && format in FORMATS && name != ""
    requires FindRow(st.rows, v, l).None?
    ensures Post(st, videos.Keys, v, l, name, provider, format, stored)
         == (TStore(st.rows + [Transcript(v, l, provider, format, name)], st.blobs), Stored(name, true))
    ensures TranscriptsOk(st.rows + [Transcript(v, l, provider, format, name)], videos)
  {
    assert provider != "" && format != "";
    UpsertKeepsOk(st, videos, v, l, Meta(provider, "", name, format), None, stored, true);
  }

  /** The POST view lets two languages name one stored file; deleting one of them then leaves the other without
      content. */
  lemma PostedTwiceDeletedOnce(st: TStore, videos: map<string, Video>, v: string, l: string, m: string, name: string,
                               provider: string, format: string, stored: string)
    requires TranscriptsOk(st.rows, videos) && v in videos && provider in PROVIDERS && format in FORMATS
    requires l != m && FindRow(st.rows, v, l).None? && FindRow(st.rows, v, m).None?
    requires name != "" && name in st.blobs
    ensures var one := Post(st, videos.Keys, v, l, name, provider, format, stored).0;
            var two := Post(one, videos.Keys, v, m, name, provider, format, stored).0;
            && Lookup(two, v, m) == Some(Entry(Some(st.blobs[name]), format, provider))
            && Lookup(Delete(two, v, l), v, m) == Some(Entry(None, format, provider))
  {
    PostAdds(st, videos, v, l, name, provider, format, stored);
    var one := Post(st, videos.Keys, v, l, name, provider, format, stored).0;
    assert FindRow(one.rows, v, m).None?;
    PostAdds(one, videos, v, m, name, provider, format, stored);
    var two := Post(one, videos.Keys, v, m, name, provider, format, stored).0;
    SharedRowEmptied(two, videos, |st.rows|, |st.rows| + 1);
  }

  lemma SharedRowEmptied(st: TStore, videos: map<string, Video>, i: nat, j: nat)
    requires TranscriptsOk(st.rows, videos) && i < |st.rows| && j < |st.rows| && i != j
    requires st.rows[i].file == st.rows[j].file != "" && st.rows[i].file in st.blobs
    ensures var t := st.rows[j];
            && Lookup(st, t.video, t.language) == Some(Entry(Some(st.blobs[t.file]), t.format, t.provider))
            && Lookup(Delete(st, st.rows[i].video, st.rows[i].language), t.video, t.language)
            == Some(Entry(None, t.format, t.provider))
  {
    FoundIsOnly(st.rows, i);
    DeleteKeepsOk(st, videos, st.rows[i].video, st.rows[i].language);
    DeleteKeepsRow(st, st.rows[i].video, st.rows[i].language, j);
  }
}
