/** Importing what was exported rebuilds the video. */
module RoundTrip {
  import opened Prelude
  import opened Tables
  import opened Videos
  import opened Images
  import opened TranscriptTable
  import opened TranscriptImport
  import opened CourseXml
  import opened Whitespace
  import Ordering
  import Queries
  import SubRip
  import TranscriptText

  // ---------------------------------------------------------------- the video row, its encodings and its link

  function InProfiles(profiles: set<string>): Encoding -> bool { (e: Encoding) => e.profile in profiles }

  /** The encodings whose profile the importing store knows. */
  function KnownEncodings(profiles: set<string>, es: seq<Encoding>): seq<Encoding> {
    Filter(InProfiles(profiles), es)
  }

  lemma {:induction false} KnownElements(profiles: set<string>, es: seq<Encoding>)
    ensures Filter(KnownProfile(profiles), ToElements(es)) == ToElements(KnownEncodings(profiles, es))
  {
    if es == [] {
    } else {
      assert ToElements(es)[1..] == ToElements(es[1..]);
      KnownElements(profiles, es[1..]);
      var rest := KnownEncodings(profiles, es[1..]);
      assert ToElements([es[0]] + rest) == [ToElement(es[0])] + ToElements(rest);
    }
  }

  lemma DataBack(v: string, es: seq<Encoding>)
    requires forall e :: e in es ==> e.video == v
    ensures forall x :: x in ToElements(es) ==> AllGiven(x)
    ensures NewEncodings(v, ToData(ToElements(es))) == es
  {
    forall i | 0 <= i < |es|
      ensures NewEncodings(v, ToData(ToElements(es)))[i] == es[i]
    {
      assert ToElements(es)[i] == ToElement(es[i]);
      assert es[i] in es;
    }
  }

  /** What the serializer asks of an encoding besides a known profile. */
  predicate GoodFields(e: Encoding) {
    ValidText(Strip(e.url), 1, 200) && e.size >= 0 && e.bitrate >= 0
  }

  /** When an exported video can be created in a store that lacks it: all encodings of known profiles pass the
      serializer's checks, and the course, if there will be a link, has a valid id. */
  predicate Importable(known: seq<Encoding>, course: string) {
    && (forall e :: e in known ==> GoodFields(e))
    && (known != [] && course != "" ==> ValidCourse(course))
  }

  /** The serializer trims the urls. */
  function TrimUrls(es: seq<Encoding>): (r: seq<Encoding>)
    ensures |r| == |es|
  {
    seq(|es|, i requires 0 <= i < |es| => es[i].(url := Strip(es[i].url)))
  }

  /** Encodings come back unchanged exactly when every url is trimmed. */
  lemma UrlsKept(es: seq<Encoding>)
    ensures TrimUrls(es) == es <==> forall e :: e in es ==> Trimmed(e.url)
  {
    if forall e :: e in es ==> Trimmed(e.url) {
      forall i | 0 <= i < |es| ensures TrimUrls(es)[i] == es[i] {
        assert es[i] in es;
        StripTrims(es[i].url);
      }
    }
    if TrimUrls(es) == es {
      forall e | e in es ensures Trimmed(e.url) {
        var i :| 0 <= i < |es| && es[i] == e;
        assert TrimUrls(es)[i] == e;
        StripTrims(e.url);
      }
    }
  }

  /** The data of exported encodings, cleaned, as rows. */
  lemma CleanedBack(v: string, es: seq<Encoding>)
    requires forall e :: e in es ==> e.video == v
    ensures forall x :: x in ToElements(es) ==> AllGiven(x)
    ensures NewEncodings(v, CleanedEncodings(ToData(ToElements(es)))) == TrimUrls(es)
  {
    DataBack(v, es);
    var data := ToData(ToElements(es));
    forall i | 0 <= i < |es|
      ensures NewEncodings(v, CleanedEncodings(data))[i] == TrimUrls(es)[i]
    {
      assert NewEncodings(v, data)[i] == es[i];
    }
  }

  lemma DataValid(profiles: set<string>, v: string, known: seq<Encoding>)
    requires forall e :: e in known ==> e.video == v && e.profile in profiles
    requires DistinctProfiles(known)
    ensures forall x :: x in ToElements(known) ==> AllGiven(x)
    ensures UniqueProfiles(CleanedEncodings(ToData(ToElements(known))))
    ensures (forall d :: d in CleanedEncodings(ToData(ToElements(known))) ==> ValidEncoding(profiles, d))
            <==> forall e :: e in known ==> GoodFields(e)
  {
    DataBack(v, known);
    var data := CleanedEncodings(ToData(ToElements(known)));
    forall i | 0 <= i < |known|
      ensures ValidEncoding(profiles, data[i]) <==> GoodFields(known[i])
      ensures data[i] in data && known[i] in known && data[i].profile == known[i].profile
    {
      assert ToElements(known)[i] == ToElement(known[i]);
      assert known[i] in known;
    }
    forall i, j | 0 <= i < j < |data| ensures data[i].profile != data[j].profile {
      assert !SameProfile()(known[i], known[j]);
    }
    if forall d :: d in data ==> ValidEncoding(profiles, d) {
      forall e | e in known ensures GoodFields(e) {
        var i :| 0 <= i < |known| && known[i] == e;
        assert ValidEncoding(profiles, data[i]);
      }
    }
  }

  /** The encodings of `v` in `src` that `dst` knows. */
  function KnownOf(src: Db, dst: Db, v: string): seq<Encoding> {
    KnownEncodings(dst.profiles, EncodingsOf(src.encodings, v))
  }

  /** They are exactly the video's encodings whose profile the importing store has, in their order. */
  lemma KnownOfFacts(src: Db, dst: Db, v: string)
    requires Inv(src)
    ensures DistinctProfiles(KnownOf(src, dst, v))
    ensures forall e :: e in KnownOf(src, dst, v) ==>
              e in src.encodings && e.video == v && e.profile in dst.profiles
    ensures forall e :: e in src.encodings && e.video == v && e.profile in dst.profiles ==> e in KnownOf(src, dst, v)
    ensures forall i: nat, j: nat :: i < j < |KnownOf(src, dst, v)| ==>
              Queries.Before(EncodingsOf(src.encodings, v), KnownOf(src, dst, v)[i], KnownOf(src, dst, v)[j])
  {
    var own := EncodingsOf(src.encodings, v);
    FilterNoClash(SameProfile(), OfVideo(v), src.encodings);
    FilterNoClash(SameProfile(), InProfiles(dst.profiles), own);
    FilterMembers(OfVideo(v), src.encodings);
    FilterMembers(InProfiles(dst.profiles), own);
    forall i: nat, j: nat | i < j < |KnownOf(src, dst, v)|
      ensures Queries.Before(own, KnownOf(src, dst, v)[i], KnownOf(src, dst, v)[j])
    {
      Queries.FilterFollows(InProfiles(dst.profiles), own, i, j);
    }
  }

  function ExportedXml(src: Db, v: string, course: string, els: seq<TranscriptEl>): Xml
    requires v in src.videos
  {
    VideoAsset(Some(src.videos[v].client), Some(src.videos[v].duration), Some(ImageName(src.links, LinkKey(course, v))),
               ToElements(EncodingsOf(src.encodings, v)), els)
  }

  /** The rows a successful import of the exported element creates. */
  ghost predicate Rebuilt(src: Db, dst: Db, after: Db, v: string, course: string)
    requires v in src.videos
  {
    var known := KnownOf(src, dst, v);
    var status := if known == [] then EXTERNAL else IMPORTED;
    && after.profiles == dst.profiles && after.images == dst.images
    && after.videos == dst.videos[v := Video(src.videos[v].client, src.videos[v].duration, status, None)]
    && after.order == dst.order + [v]
    && after.encodings == dst.encodings + TrimUrls(known)
    && RebuiltLinks(src.links, dst.links, after.links, LinkKey(course, v), known != [] && course != "")
  }

  /** One visible link more, if there is one to be made. Its image is the one that the exporting store's link names. */
  predicate RebuiltLinks(src: Links, dst: Links, after: Links, k: LinkKey, linked: bool) {
    && (!linked ==> after == dst)
    && (linked ==>
          && k in after && after == dst[k := after[k]] && !after[k].hidden
          && after[k].image == (if k in src && src[k].image.Some? && src[k].image.value.name != ""
                                then Some(Image(src[k].image.value.name, [])) else None))
  }

  /** The course entries of the new video. */
  function NewCourses(course: string, image: string, known: seq<Encoding>): seq<CourseData> {
    if course != "" && known != [] then [Course(course, image)] else []
  }

  /** The data of the exported element as the serializer trims it. */
  function ExportedData(src: Db, v: string, course: string, known: seq<Encoding>): VideoData
    requires v in src.videos && forall x :: x in ToElements(known) ==> AllGiven(x)
  {
    VideoData(v, src.videos[v].client, src.videos[v].duration, if known == [] then EXTERNAL else IMPORTED, None,
              CleanedEncodings(ToData(ToElements(known))),
              NewCourses(course, ImageName(src.links, LinkKey(course, v)), known))
  }

  lemma ElementsGiven(known: seq<Encoding>)
    ensures forall x :: x in ToElements(known) ==> AllGiven(x)
  {
  }

  /** The data the exported element is read as. */
  lemma DataFromExport(src: Db, dst: Db, v: string, course: string, els: seq<TranscriptEl>)
    requires Inv(src) && v in src.videos
    ensures var data := NewVideoData(dst.profiles, ExportedXml(src, v, course, els), v, course);
            var known := KnownOf(src, dst, v);
            && (forall x :: x in ToElements(known) ==> AllGiven(x))
            && data.Some? && Cleaned(data.value) == ExportedData(src, v, course, known)
  {
    var known := KnownOf(src, dst, v);
    ElementsGiven(known);
    KnownElements(dst.profiles, EncodingsOf(src.encodings, v));
    assert known == [] <==> ToElements(known) == [];
    assert ValidVideo(v, src.videos[v]);
    IdTrimmed(v);
    StripTrims(src.videos[v].client);
    StatusStays(if known == [] then EXTERNAL else IMPORTED);
  }

  lemma ExportedDataValid(src: Db, dst: Db, v: string, course: string)
    requires Inv(src) && v in src.videos
    ensures var known := KnownOf(src, dst, v);
            && (forall x :: x in ToElements(known) ==> AllGiven(x))
            && (ValidData(dst.profiles, ExportedData(src, v, course, known)) <==> Importable(known, course))
  {
    var known := KnownOf(src, dst, v);
    KnownOfFacts(src, dst, v);
    DataValid(dst.profiles, v, known);
    assert ValidVideo(v, src.videos[v]);
    StatusStays(if known == [] then EXTERNAL else IMPORTED);
    var courses := NewCourses(course, ImageName(src.links, LinkKey(course, v)), known);
    assert (forall c :: c in courses && c.Course? ==> ValidCourse(c.id))
           <==> (known != [] && course != "" ==> ValidCourse(course)) by {
      assert courses != [] ==> courses[0] in courses;
    }
  }

  /** A new video's link is always saved. */
  lemma LinksFromExport(links: Links, v: string, course: string, image: string, known: seq<Encoding>)
    requires LinkKey(course, v) !in links
    ensures SaveLinks(links, v, Kept(NewCourses(course, image, known)))
         == (if known == [] || course == "" then links else links[LinkKey(course, v) := NewLink(image)], true)
  {
    var courses := NewCourses(course, image, known);
    FilterAll(IsCourse(), courses);
    assert Kept(courses) == courses;
    if courses != [] {
      assert courses[1..] == [];
      assert SaveLinks(links[LinkKey(course, v) := NewLink(image)], v, courses[1..]).1;
    }
  }

  /** Creating the video from the exported element succeeds exactly when it is importable, and rebuilds its rows. */
  lemma CreateFromExport(src: Db, dst: Db, v: string, course: string, els: seq<TranscriptEl>)
    requires Inv(src) && Inv(dst) && v in src.videos && v !in dst.videos
    ensures var data := NewVideoData(dst.profiles, ExportedXml(src, v, course, els), v, course);
            && data.Some?
            && var (after, outcome) := CreateVideo(dst, data.value);
            && (outcome == Done <==> Importable(KnownOf(src, dst, v), course))
            && (outcome != Done ==> after == dst)
            && (outcome == Done ==>
                  Rebuilt(src, dst, after, v, course) && TStoreOf(after) == TStoreOf(dst))
  {
    var known := KnownOf(src, dst, v);
    DataFromExport(src, dst, v, course, els);
    ExportedDataValid(src, dst, v, course);
    KnownOfFacts(src, dst, v);
    CleanedBack(v, known);
    assert LinkKey(course, v) !in dst.links;
    LinksFromExport(dst.links, v, course, ImageName(src.links, LinkKey(course, v)), known);
  }

  // ---------------------------------------------------------------- transcripts

  lemma SamePath(dir: string, v: string, l: string, m: string)
    requires SrtPath(dir, v, l) == SrtPath(dir, v, m)
    ensures l == m
  {
    var p, q := SrtPath(dir, v, l), SrtPath(dir, v, m);
    var n := |dir| + 1 + |v| + 1;
    assert |p| == n + |l| + 4 && |q| == n + |m| + 4;
    assert p[n..n + |l|] == l && q[n..n + |m|] == m;
  }

  function ToTranscriptEls(rows: seq<Transcript>): (r: seq<TranscriptEl>)
    ensures |r| == |rows|
  {
    seq(|rows|, i requires 0 <= i < |rows| => ToTranscriptEl(rows[i]))
  }

  // ---------------------------------------------------------------- when an export succeeds

  /** A transcript that can be written as SubRip text. */
  predicate ExportableRow(codec: Codec, blobs: map<string, string>, t: Transcript) {
    && t.file in blobs
    && (|| t.format == TranscriptText.SRT
        || (t.format == TranscriptText.SJSON
            && codec.loads(blobs[t.file]).Some? && codec.loads(blobs[t.file]).value.Subtitles?))
  }

  /** What an export asks of the store: the video, and for each of its transcripts stored content that is SubRip text
      or subtitles. */
  predicate Exportable(codec: Codec, db: Db, v: string) {
    && v in db.videos
    && forall t :: t in db.transcripts && t.video == v ==> ExportableRow(codec, db.blobs, t)
  }

  lemma SrtOfRow(codec: Codec, st: TStore, v: string, t: Transcript)
    requires UniqueLanguages(st.rows) && t in st.rows && t.video == v
    ensures SrtOf(codec, st, v, t).Ok? <==> ExportableRow(codec, st.blobs, t)
  {
    var i :| 0 <= i < |st.rows| && st.rows[i] == t;
    FoundIsOnly(st.rows, i);
    assert TranscriptText.SRT != TranscriptText.SJSON by { assert |TranscriptText.SRT| != |TranscriptText.SJSON|; }
  }

  /** The export loop succeeds when every row does. */
  lemma {:induction false} ExportRowsOk(codec: Codec, st: TStore, v: string, rows: seq<Transcript>, dir: string,
                                        files: Archive)
    ensures ExportRows(codec, st, v, rows, dir, files).Ok? <==> forall t :: t in rows ==> SrtOf(codec, st, v, t).Ok?
    decreases |rows|
  {
    if rows == [] {
    } else {
      assert rows[0] in rows;
      var text := SrtOf(codec, st, v, rows[0]);
      if text.Ok? {
        ExportRowsOk(codec, st, v, rows[1..], dir, files[SrtPath(dir, v, rows[0].language) := Text(text.value)]);
      }
    }
  }

  /** An export of a store succeeds exactly when the video's transcripts are all exportable. */
  lemma ExportSucceeds(codec: Codec, db: Db, v: string, course: string, dir: string)
    requires Inv(db)
    ensures Export(codec, db, v, course, dir).Ok? <==> Exportable(codec, db, v)
  {
    var rows := RowsOf(db.transcripts, v);
    RowsOfFacts(db.transcripts, v);
    ExportRowsOk(codec, TStoreOf(db), v, rows, dir, map[]);
    forall t | t in db.transcripts && t.video == v
      ensures SrtOf(codec, TStoreOf(db), v, t).Ok? <==> ExportableRow(codec, db.blobs, t)
    {
      SrtOfRow(codec, TStoreOf(db), v, t);
    }
  }

  // ---------------------------------------------------------------- what an export writes

  /** A successful export loop makes one element per row. */
  lemma {:induction false} ExportRowsElements(codec: Codec, st: TStore, v: string, rows: seq<Transcript>, dir: string,
                                              files: Archive)
    requires ExportRows(codec, st, v, rows, dir, files).Ok?
    ensures ExportRows(codec, st, v, rows, dir, files).value.0 == ToTranscriptEls(rows)
    decreases |rows|
  {
    hide SrtOf, SrtPath;
    if rows == [] {
    } else {
      ExportRowsElements(codec, st, v, rows[1..], dir,
                         files[SrtPath(dir, v, rows[0].language) := Text(SrtOf(codec, st, v, rows[0]).value)]);
      assert [ToTranscriptEl(rows[0])] + ToTranscriptEls(rows[1..]) == ToTranscriptEls(rows);
    }
  }

  /** Rows of other languages do not touch a file that is written already. */
  lemma {:induction false} ExportRowsKeepFile(codec: Codec, st: TStore, v: string, rows: seq<Transcript>, dir: string,
                                              files: Archive, l: string)
    requires ExportRows(codec, st, v, rows, dir, files).Ok?
    requires SrtPath(dir, v, l) in files && forall t :: t in rows ==> t.language != l
    ensures var after := ExportRows(codec, st, v, rows, dir, files).value.1;
            SrtPath(dir, v, l) in after && after[SrtPath(dir, v, l)] == files[SrtPath(dir, v, l)]
    decreases |rows|
  {
    if rows == [] {
    } else {
      var m := rows[0].language;
      assert rows[0] in rows;
      if SrtPath(dir, v, l) == SrtPath(dir, v, m) { SamePath(dir, v, l, m); }
      ExportRowsKeepFile(codec, st, v, rows[1..], dir,
                         files[SrtPath(dir, v, m) := Text(SrtOf(codec, st, v, rows[0]).value)], l);
    }
  }

  /** With distinct languages, it leaves each row's text in the row's file. */
  lemma {:induction false} ExportRowsFiles(codec: Codec, st: TStore, v: string, rows: seq<Transcript>, dir: string,
                                           files: Archive, i: nat)
    requires NoClash(SameLanguage(), rows) && forall t :: t in rows ==> t.video == v
    requires ExportRows(codec, st, v, rows, dir, files).Ok? && i < |rows|
    ensures SrtOf(codec, st, v, rows[i]).Ok?
    ensures var after := ExportRows(codec, st, v, rows, dir, files).value.1;
            var p := SrtPath(dir, v, rows[i].language);
            p in after && after[p] == Text(SrtOf(codec, st, v, rows[i]).value)
    decreases |rows|
  {
    var next := files[SrtPath(dir, v, rows[0].language) := Text(SrtOf(codec, st, v, rows[0]).value)];
    if i == 0 {
      LaterLanguages(rows, v);
      ExportRowsKeepFile(codec, st, v, rows[1..], dir, next, rows[0].language);
    } else {
      assert rows[1..][i - 1] == rows[i];
      ExportRowsFiles(codec, st, v, rows[1..], dir, next, i - 1);
    }
  }

  /** No file is written but those of the rows. */
  lemma {:induction false} ExportRowsOnly(codec: Codec, st: TStore, v: string, rows: seq<Transcript>, dir: string,
                                          files: Archive)
    requires ExportRows(codec, st, v, rows, dir, files).Ok?
    ensures forall p :: p in ExportRows(codec, st, v, rows, dir, files).value.1 && p !in files ==>
              exists t :: t in rows && p == SrtPath(dir, v, t.language)
    decreases |rows|
  {
    if rows != [] {
      var next := files[SrtPath(dir, v, rows[0].language) := Text(SrtOf(codec, st, v, rows[0]).value)];
      ExportRowsOnly(codec, st, v, rows[1..], dir, next);
      var after := ExportRows(codec, st, v, rows, dir, files).value.1;
      forall p | p in after && p !in files
        ensures exists t :: t in rows && p == SrtPath(dir, v, t.language)
      {
        if p in next {
          assert rows[0] in rows;
        } else {
          var t :| t in rows[1..] && p == SrtPath(dir, v, t.language);
          assert t in rows;
        }
      }
    }
  }

  /** The video's attributes in an exported element, with the image that the course's link names. */
  lemma ExportedVideo(codec: Codec, db: Db, v: string, course: string, dir: string)
    requires Export(codec, db, v, course, dir).Ok?
    ensures var xml := Export(codec, db, v, course, dir).value.xml;
            var k := LinkKey(course, v);
            var own := EncodingsOf(db.encodings, v);
            && v in db.videos && xml.VideoAsset?
            && xml.client == Some(db.videos[v].client) && xml.duration == Some(db.videos[v].duration)
            && xml.image == Some(if k in db.links && db.links[k].image.Some? then db.links[k].image.value.name else "")
            && |xml.encodings| == |own|
            && forall i :: 0 <= i < |own| ==>
                 xml.encodings[i] == EncodingEl(Some(own[i].profile), Some(own[i].url),
                                                Some(own[i].size), Some(own[i].bitrate))
  {
  }

  /** What the import reads of an exported transcript. */
  function Reread(codec: Codec, st: TStore, v: string, t: Transcript): seq<Reading> {
    match SrtOf(codec, st, v, t)
    case Err(_) => []
    case Ok(text) => [ReadingOf(codec, text, t.provider)]
  }

  ghost predicate Carries(archive: Archive, files: Archive) {
    forall p :: p in files ==> p in archive && archive[p] == files[p]
  }

  ghost predicate ArchiveHas(codec: Codec, st: TStore, v: string, rows: seq<Transcript>, dir: string, archive: Archive)
  {
    forall t :: t in rows ==>
      && SrtOf(codec, st, v, t).Ok?
      && FileText(archive, SrtPath(dir, v, t.language)) == Some(SrtOf(codec, st, v, t).value)
  }

  /** The event of the first row, then those of the others. */
  lemma RowEvents(rows: seq<Transcript>, v: string, dir: string)
    requires rows != []
    ensures ValEvents(ToTranscriptEls(rows), v, dir)
         == [Event(rows[0].language, SrtPath(dir, v, rows[0].language), rows[0].provider)]
            + ValEvents(ToTranscriptEls(rows[1..]), v, dir)
  {
    var els := ToTranscriptEls(rows);
    assert els[0] == ToTranscriptEl(rows[0]) && els[1..] == ToTranscriptEls(rows[1..]);
  }

  lemma RowReads(codec: Codec, archive: Archive, rows: seq<Transcript>, v: string, dir: string, l: string)
    requires rows != []
    ensures var t := rows[0];
            var first := Event(t.language, SrtPath(dir, v, t.language), t.provider);
            ReadsFor(codec, archive, ValEvents(ToTranscriptEls(rows), v, dir), l)
              == ReadBy(codec, archive, first, l)
                 + ReadsFor(codec, archive, ValEvents(ToTranscriptEls(rows[1..]), v, dir), l)
  {
    RowEvents(rows, v, dir);
    var events := ValEvents(ToTranscriptEls(rows), v, dir);
    assert events[1..] == ValEvents(ToTranscriptEls(rows[1..]), v, dir);
  }

  lemma {:induction false} ReadsOfNoRow(codec: Codec, archive: Archive, v: string, rows: seq<Transcript>, dir: string,
                                        l: string)
    requires forall t :: t in rows ==> t.language != l
    ensures ReadsFor(codec, archive, ValEvents(ToTranscriptEls(rows), v, dir), l) == []
  {
    if rows == [] {
    } else {
      assert rows[0] in rows;
      RowReads(codec, archive, rows, v, dir, l);
      ReadsOfNoRow(codec, archive, v, rows[1..], dir, l);
    }
  }

  /** Later rows have other languages. */
  lemma LaterLanguages(rows: seq<Transcript>, v: string)
    requires rows != [] && NoClash(SameLanguage(), rows) && forall t :: t in rows ==> t.video == v
    ensures forall u :: u in rows[1..] ==> u.language != rows[0].language
  {
    forall u | u in rows[1..] ensures u.language != rows[0].language {
      var j :| 0 <= j < |rows[1..]| && rows[1..][j] == u;
      assert rows[0] in rows && rows[j + 1] in rows;
      assert !SameLanguage()(rows[0], rows[j + 1]);
    }
  }

  lemma {:induction false} ReadsOfRow(codec: Codec, st: TStore, archive: Archive, v: string, rows: seq<Transcript>,
                                      dir: string, i: nat)
    requires NoClash(SameLanguage(), rows) && forall t :: t in rows ==> t.video == v
    requires ArchiveHas(codec, st, v, rows, dir, archive) && i < |rows|
    ensures ReadsFor(codec, archive, ValEvents(ToTranscriptEls(rows), v, dir), rows[i].language)
         == Reread(codec, st, v, rows[i])
  {
    hide ReadsFor, ValEvents, ToTranscriptEls, SrtPath, SrtOf;
    var l := rows[i].language;
    assert rows[0] in rows;
    RowReads(codec, archive, rows, v, dir, l);
    LaterLanguages(rows, v);
    if i == 0 {
      ReadsOfNoRow(codec, archive, v, rows[1..], dir, l);
      assert Reread(codec, st, v, rows[0]) + [] == Reread(codec, st, v, rows[0]);
    } else {
      assert rows[1..][i - 1] == rows[i] && rows[i] in rows[1..];
      ReadsOfRow(codec, st, archive, v, rows[1..], dir, i - 1);
      assert [] + Reread(codec, st, v, rows[i]) == Reread(codec, st, v, rows[i]);
    }
  }

  lemma RowsOfFacts(rows: seq<Transcript>, v: string)
    requires UniqueLanguages(rows)
    ensures NoClash(SameLanguage(), RowsOf(rows, v))
    ensures forall t :: t in RowsOf(rows, v) ==> t in rows && t.video == v
    ensures forall t :: t in rows && t.video == v ==> t in RowsOf(rows, v)
  {
    FilterNoClash(SameLanguage(), TranscriptOf(v), rows);
    FilterMembers(TranscriptOf(v), rows);
    Ordering.SortNoClash(LanguageLe(), SameLanguage(), Filter(TranscriptOf(v), rows));
    Ordering.SortMembers(LanguageLe(), Filter(TranscriptOf(v), rows));
  }

  lemma UniqueOf(db: Db)
    requires Inv(db)
    ensures UniqueLanguages(db.transcripts)
  {
  }

  lemma RowsInOrder(rows: seq<Transcript>, v: string)
    ensures forall i, j :: 0 <= i < j < |RowsOf(rows, v)| ==>
              Ordering.StringLe(RowsOf(rows, v)[i].language, RowsOf(rows, v)[j].language)
  {
    Ordering.StringLeIsTotalOrder();
    Ordering.SortSorts(LanguageLe(), Filter(TranscriptOf(v), rows));
    forall i, j | 0 <= i < j < |RowsOf(rows, v)|
      ensures Ordering.StringLe(RowsOf(rows, v)[i].language, RowsOf(rows, v)[j].language)
    {
      assert LanguageLe()(RowsOf(rows, v)[i], RowsOf(rows, v)[j]);
    }
  }

  lemma RowText(codec: Codec, st: TStore, v: string, t: Transcript)
    requires UniqueLanguages(st.rows) && t in st.rows && t.video == v && SrtOf(codec, st, v, t).Ok?
    ensures t.file in st.blobs
    ensures TranscriptText.Convert(codec, st.blobs[t.file], t.format, "srt") == Ok(SrtOf(codec, st, v, t).value)
  {
    var i :| 0 <= i < |st.rows| && st.rows[i] == t;
    FoundIsOnly(st.rows, i);
  }

  /** A file holds the row's content as SubRip text. */
  predicate FileOfRow(codec: Codec, blobs: map<string, string>, files: Archive, path: string, t: Transcript) {
    && path in files && files[path].Text? && t.file in blobs
    && TranscriptText.Convert(codec, blobs[t.file], t.format, "srt") == Ok(files[path].text)
  }

  lemma ExportIsRows(codec: Codec, db: Db, v: string, course: string, dir: string)
    requires Export(codec, db, v, course, dir).Ok?
    ensures var rows := ExportRows(codec, TStoreOf(db), v, RowsOf(db.transcripts, v), dir, map[]);
            var out := Export(codec, db, v, course, dir).value;
            && rows.Ok? && out.xml.VideoAsset? && out.xml.transcripts == rows.value.0 && out.files == rows.value.1
  {
  }

  /** The exported transcript elements: one per transcript of the video, in the order of the languages. */
  lemma ExportedElements(codec: Codec, db: Db, v: string, course: string, dir: string)
    requires Inv(db) && Export(codec, db, v, course, dir).Ok?
    ensures var xml := Export(codec, db, v, course, dir).value.xml;
            var rows := RowsOf(db.transcripts, v);
            && (forall t :: t in rows ==> t in db.transcripts && t.video == v)
            && (forall t :: t in db.transcripts && t.video == v ==> t in rows)
            && (forall i, j :: 0 <= i < j < |rows| ==>
                  rows[i].language != rows[j].language && Ordering.StringLe(rows[i].language, rows[j].language))
            && xml.VideoAsset? && |xml.transcripts| == |rows|
            && (forall i :: 0 <= i < |rows| ==>
                  xml.transcripts[i] == TranscriptEl(Some(rows[i].language), Some("srt"), Some(rows[i].provider)))
  {
    var rows := RowsOf(db.transcripts, v);
    UniqueOf(db);
    ExportIsRows(codec, db, v, course, dir);
    hide Inv, ExportRows, RowsOf, Export;
    RowsOfFacts(db.transcripts, v);
    RowsInOrder(db.transcripts, v);
    ExportRowsElements(codec, TStoreOf(db), v, rows, dir, map[]);
    forall i, j | 0 <= i < j < |rows| ensures rows[i].language != rows[j].language {
      assert !SameLanguage()(rows[i], rows[j]) && rows[i] in rows && rows[j] in rows;
    }
  }

  /** The exported files: one for each transcript of the video, named after video and language, with the transcript's
      content as SubRip text, and no other. */
  lemma ExportedFiles(codec: Codec, db: Db, v: string, course: string, dir: string)
    requires Inv(db) && Export(codec, db, v, course, dir).Ok?
    ensures var files := Export(codec, db, v, course, dir).value.files;
            && (forall t :: t in db.transcripts && t.video == v ==>
                  FileOfRow(codec, db.blobs, files, ValPath(v, t.language, "srt", dir), t))
            && (forall p :: p in files ==>
                  exists t :: t in db.transcripts && t.video == v && p == ValPath(v, t.language, "srt", dir))
  {
    var rows := RowsOf(db.transcripts, v);
    var files := Export(codec, db, v, course, dir).value.files;
    UniqueOf(db);
    ExportIsRows(codec, db, v, course, dir);
    hide Inv, ExportRows, RowsOf, SrtOf, Export;
    RowsOfFacts(db.transcripts, v);
    ExportRowsOnly(codec, TStoreOf(db), v, rows, dir, map[]);
    forall t | t in db.transcripts && t.video == v
      ensures FileOfRow(codec, db.blobs, files, ValPath(v, t.language, "srt", dir), t)
    {
      var i :| 0 <= i < |rows| && rows[i] == t;
      ExportRowsFiles(codec, TStoreOf(db), v, rows, dir, map[], i);
      RowText(codec, TStoreOf(db), v, t);
    }
  }

  /** What the import reads for one language of an exported video. */
  function Rereads(codec: Codec, src: TStore, v: string, l: string): seq<Reading> {
    match FindRow(src.rows, v, l)
    case None => []
    case Some(i) => Reread(codec, src, v, src.rows[i])
  }

  /** What the importing store must show for one language: nothing for a language that was not exported or whose text
      has no format; otherwise the exported text, its format and the exported provider. */
  function Expected(codec: Codec, src: TStore, v: string, l: string): Option<Entry> {
    Fold(None, Candidates(Rereads(codec, src, v, l)))
  }

  lemma ExportedReads(codec: Codec, src: TStore, v: string, dir: string, archive: Archive, l: string)
    requires UniqueLanguages(src.rows)
    requires ArchiveHas(codec, src, v, RowsOf(src.rows, v), dir, archive)
    ensures ReadsFor(codec, archive, ValEvents(ToTranscriptEls(RowsOf(src.rows, v)), v, dir), l)
         == Rereads(codec, src, v, l)
  {
    var rows := RowsOf(src.rows, v);
    RowsOfFacts(src.rows, v);
    var r := FindRow(src.rows, v, l);
    if r.Some? {
      var t := src.rows[r.value];
      assert t in src.rows && t in rows;
      var i :| 0 <= i < |rows| && rows[i] == t;
      ReadsOfRow(codec, src, archive, v, rows, dir, i);
    } else {
      forall t | t in rows ensures t.language != l {
        var j :| 0 <= j < |src.rows| && src.rows[j] == t;
        assert !Matches(src.rows[j], v, l);
      }
      ReadsOfNoRow(codec, archive, v, rows, dir, l);
    }
  }

  /** What was exported is clear to import where the language has no transcript yet. */
  lemma RereadsClear(codec: Codec, src: Db, v: string, l: string)
    requires Inv(src)
    ensures Clear(None, Rereads(codec, TStoreOf(src), v, l))
  {
    var r := FindRow(src.transcripts, v, l);
    if r.Some? {
      assert src.transcripts[r.value] in src.transcripts;
    }
  }

  lemma {:induction false} ValEventsCount(rows: seq<Transcript>, v: string, dir: string)
    ensures |ValEvents(ToTranscriptEls(rows), v, dir)| == |rows|
  {
    if rows == [] {
    } else {
      RowEvents(rows, v, dir);
      ValEventsCount(rows[1..], v, dir);
    }
  }

  lemma ExportArchive(codec: Codec, src: Db, v: string, dir: string, archive: Archive)
    requires Inv(src)
    requires var r := ExportRows(codec, TStoreOf(src), v, RowsOf(src.transcripts, v), dir, map[]);
             r.Ok? && Carries(archive, r.value.1)
    ensures ArchiveHas(codec, TStoreOf(src), v, RowsOf(src.transcripts, v), dir, archive)
    ensures ExportRows(codec, TStoreOf(src), v, RowsOf(src.transcripts, v), dir, map[]).value.0
         == ToTranscriptEls(RowsOf(src.transcripts, v))
  {
    var rows := RowsOf(src.transcripts, v);
    RowsOfFacts(src.transcripts, v);
    ExportRowsElements(codec, TStoreOf(src), v, rows, dir, map[]);
    forall t | t in rows
      ensures SrtOf(codec, TStoreOf(src), v, t).Ok?
      ensures FileText(archive, SrtPath(dir, v, t.language)) == Some(SrtOf(codec, TStoreOf(src), v, t).value)
    {
      var i :| 0 <= i < |rows| && rows[i] == t;
      ExportRowsFiles(codec, TStoreOf(src), v, rows, dir, map[], i);
    }
  }

  // ---------------------------------------------------------------- main result

  /** The transcripts part, in a store without transcripts of the video. */
  lemma TranscriptsComeBack(codec: Codec, src: Db, st: TStore, videos: set<string>, v: string, dir: string,
                            archive: Archive, names: seq<string>)
    requires Inv(src) && UniqueLanguages(st.rows) && v in videos
    requires forall t :: t in st.rows ==> t.video != v
    requires ArchiveHas(codec, TStoreOf(src), v, RowsOf(src.transcripts, v), dir, archive)
    requires |RowsOf(src.transcripts, v)| <= |names| && FreshNames(st, names)
    ensures |ValEvents(ToTranscriptEls(RowsOf(src.transcripts, v)), v, dir)| <= |names|
    ensures var events := ValEvents(ToTranscriptEls(RowsOf(src.transcripts, v)), v, dir);
            var (after, ok) := ImportAll(codec, st, videos, archive, v, events, names);
            && ok
            && (forall l :: Lookup(after, v, l) == Expected(codec, TStoreOf(src), v, l))
            && (forall w, l :: w != v ==> Lookup(after, w, l) == Lookup(st, w, l))
  {
    ValEventsCount(RowsOf(src.transcripts, v), v, dir);
    var events := ValEvents(ToTranscriptEls(RowsOf(src.transcripts, v)), v, dir);
    ImportView(codec, st, videos, archive, v, events, names);
    forall l
      ensures Lookup(st, v, l) == None && Clear(None, ReadsFor(codec, archive, events, l))
      ensures Fold(None, FilesFor(codec, archive, events, l)) == Expected(codec, TStoreOf(src), v, l)
    {
      NoRow(st.rows, v, l);
      ExportedReads(codec, TStoreOf(src), v, dir, archive, l);
      RereadsClear(codec, src, v, l);
    }
  }

  /** The exported element, and what the archive holds. */
  lemma ExportFacts(codec: Codec, src: Db, v: string, course: string, dir: string, archive: Archive)
    requires Inv(src) && Exportable(codec, src, v)
    requires var r := Export(codec, src, v, course, dir);
             r.Ok? ==> Carries(archive, r.value.files)
    ensures var r := Export(codec, src, v, course, dir);
            r.Ok? && r.value.xml == ExportedXml(src, v, course, ToTranscriptEls(RowsOf(src.transcripts, v)))
    ensures ArchiveHas(codec, TStoreOf(src), v, RowsOf(src.transcripts, v), dir, archive)
  {
    ExportSucceeds(codec, src, v, course, dir);
    ExportArchive(codec, src, v, dir, archive);
  }

  /** Importing the exported element into a store without the id is its create step, then the transcripts. */
  lemma ImportSteps(codec: Codec, dst: Db, v: string, course: string, dir: string, archive: Archive,
                    names: seq<string>, xml: Xml, data: VideoData)
    requires xml.VideoAsset? && v != "" && v !in dst.videos
    requires NewVideoData(dst.profiles, xml, v, course) == Some(data)
    requires |ValEvents(xml.transcripts, v, dir)| <= |names|
    ensures |Events(xml.transcripts, [], v, dir)| <= |names|
    ensures var (created, outcome) := CreateVideo(dst, data);
            ImportXml(codec, dst, xml, v, archive, dir, [], course, "", names)
              == if outcome != Done then (created, CannotCreate)
                 else
                   var (st, ok) := ImportAll(codec, TStoreOf(created), created.videos.Keys, archive, v,
                                             ValEvents(xml.transcripts, v, dir), names);
                   (WithTStore(created, st), if ok then Imported(v) else TranscriptError)
  {
    assert Events(xml.transcripts, [], v, dir) == ValEvents(xml.transcripts, v, dir);
  }

  /**
   Any video of any store whose transcripts are exportable, exported for any course into an archive and imported into a
   store without its id, under the same directory. The import succeeds exactly when the encodings of known profiles pass
   the serializer's checks (only an encode replacement through the HLS endpoint can break them) and the course id is
   valid; a refused import changes nothing. A successful one rebuilds the video row, exactly the known encodings with
   their urls trimmed, the visible link with the image name (no link and status `external` when no encoding is known),
   and every transcript as `Expected` says.
   */
  lemma ExportImport(codec: Codec, src: Db, dst: Db, v: string, course: string, dir: string, archive: Archive,
                     names: seq<string>)
    requires Inv(src) && Inv(dst) && Exportable(codec, src, v) && v !in dst.videos
    requires var r := Export(codec, src, v, course, dir);
             r.Ok? ==> Carries(archive, r.value.files)
    requires |RowsOf(src.transcripts, v)| <= |names| && FreshNames(TStoreOf(dst), names)
    ensures Export(codec, src, v, course, dir).Ok?
    ensures |Events(Export(codec, src, v, course, dir).value.xml.transcripts, [], v, dir)| <= |names|
    ensures var xml := Export(codec, src, v, course, dir).value.xml;
            var (after, outcome) := ImportXml(codec, dst, xml, v, archive, dir, [], course, "", names);
            && (outcome == Imported(v) <==> Importable(KnownOf(src, dst, v), course))
            && (outcome != Imported(v) ==> outcome == CannotCreate && after == dst)
            && (outcome == Imported(v) ==>
                  && Rebuilt(src, dst, after, v, course)
                  && (forall l :: Lookup(TStoreOf(after), v, l) == Expected(codec, TStoreOf(src), v, l))
                  && (forall w, l :: w != v ==> Lookup(TStoreOf(after), w, l) == Lookup(TStoreOf(dst), w, l)))
  {
    ExportFacts(codec, src, v, course, dir, archive);
    var rows := RowsOf(src.transcripts, v);
    var xml := ExportedXml(src, v, course, ToTranscriptEls(rows));
    ValEventsCount(rows, v, dir);
    assert v != "" by { assert ValidVideo(v, src.videos[v]); }
    CreateFromExport(src, dst, v, course, ToTranscriptEls(rows));
    var data := NewVideoData(dst.profiles, xml, v, course).value;
    ImportSteps(codec, dst, v, course, dir, archive, names, xml, data);
    if Importable(KnownOf(src, dst, v), course) {
      TranscriptsComeBack(codec, src, TStoreOf(dst), CreateVideo(dst, data).0.videos.Keys, v, dir, archive, names);
    }
  }

  // ---------------------------------------------------------------- encodings that do not come back

  lemma PutIsKnown(src: Db, dst: Db, v: string, e: EncodingData)
    requires v in src.videos && e.profile in src.profiles && e.profile in dst.profiles
    ensures Encoding(v, e.profile, e.url, e.size, e.bitrate) in KnownOf(PutEncode(src, v, e).0, dst, v)
  {
    var after := PutEncode(src, v, e).0;
    var x := Encoding(v, e.profile, e.url, e.size, e.bitrate);
    assert NewEncodings(v, [e])[0] == x && x in after.encodings;
    FilterMembers(OfVideo(v), after.encodings);
    FilterMembers(InProfiles(dst.profiles), EncodingsOf(after.encodings, v));
  }

  /** Once the HLS endpoint has stored a blank url, the exported video cannot be created anywhere its profile is
      known. */
  lemma BlankUrlIsRefused(src: Db, dst: Db, v: string, e: EncodingData, course: string)
    requires v in src.videos && e.profile in src.profiles && e.profile in dst.profiles && e.url == " "
    ensures !Importable(KnownOf(PutEncode(src, v, e).0, dst, v), course)
  {
    PutIsKnown(src, dst, v, e);
    assert " "[1..] == "";
    assert Strip(" ") == "";
  }

  /** A url stored with a leading space is accepted but comes back without it. */
  lemma SpacedUrlIsTrimmed(src: Db, dst: Db, v: string, e: EncodingData)
    requires v in src.videos && e.profile in src.profiles && e.profile in dst.profiles && e.url == " u"
    ensures var known := KnownOf(PutEncode(src, v, e).0, dst, v);
            TrimUrls(known) != known
  {
    PutIsKnown(src, dst, v, e);
    UrlsKept(KnownOf(PutEncode(src, v, e).0, dst, v));
    assert !Trimmed(" u");
  }

  // ---------------------------------------------------------------- which transcripts come back

  lemma ExpectedEntry(codec: Codec, src: Db, v: string, l: string, e: Entry, text: string)
    requires Inv(src) && Lookup(TStoreOf(src), v, l) == Some(e) && e.content.Some?
    requires TranscriptText.Convert(codec, e.content.value, e.format, TranscriptText.SRT) == Ok(text)
    ensures Expected(codec, TStoreOf(src), v, l)
         == match TranscriptText.FormatOf(codec, text)
            case None => None
            case Some(format) => Some(Entry(Some(text), format, e.provider))
  {
    var t := src.transcripts[FindRow(src.transcripts, v, l).value];
    assert t in src.transcripts && t.provider != "";
    assert t.language == l && t.format == e.format && t.provider == e.provider;
    assert SrtOf(codec, TStoreOf(src), v, t) == Ok(text);
    var r := ReadingOf(codec, text, e.provider);
    assert Rereads(codec, TStoreOf(src), v, l) == [r] && [r][1..] == [];
    if r.format.Some? {
      var c := Candidate(text, r.format.value, e.provider);
      assert Candidates([r]) == [c] && [c][1..] == [];
      assert Fold(None, [c]) == Fold(Step(None, c), []);
    } else {
      assert Candidates([r]) == [];
    }
  }

  /** SubRip text that is not JSON and has a cue. */
  predicate PlainSrt(codec: Codec, text: string) {
    codec.loads(text).None? && SubRip.Read(text).Some? && SubRip.Read(text).value != []
  }

  /** The two formats are different words. */
  lemma FormatsDiffer()
    ensures TranscriptText.SRT != TranscriptText.SJSON
  {
    assert |TranscriptText.SRT| != |TranscriptText.SJSON|;
  }

  /** An srt transcript comes back unchanged exactly when its text is plain SubRip with a cue; it is lost exactly when
      the text is neither JSON nor readable; otherwise it comes back labelled sjson. */
  lemma SrtComesBack(codec: Codec, src: Db, v: string, l: string, e: Entry, text: string)
    requires Inv(src) && Lookup(TStoreOf(src), v, l) == Some(e)
    requires e.content == Some(text) && e.format == TranscriptText.SRT
    ensures var r := Expected(codec, TStoreOf(src), v, l);
            && (r == Some(e) <==> PlainSrt(codec, text))
            && (r == None <==> codec.loads(text).None? && SubRip.Read(text).None?)
            && (r == Some(e.(format := TranscriptText.SJSON))
                <==> codec.loads(text).Some? || SubRip.Read(text) == Some([]))
  {
    FormatsDiffer();
    ExpectedEntry(codec, src, v, l, e, text);
  }

  /** The content that came back holds the subtitles `j` as SubRip text. */
  predicate Survives(r: Option<Entry>, j: TranscriptText.Sjson) {
    && r.Some? && r.value.content.Some?
    && SubRip.Read(r.value.content.value).Some?
    && TranscriptText.FromCues(SubRip.Read(r.value.content.value).value) == j
  }

  /** An sjson transcript's subtitles survive exactly when SubRip can carry them, and it comes back labelled srt exactly
      when the SubRip text made of it is plain with a cue. */
  lemma SjsonComesBack(codec: Codec, src: Db, v: string, l: string, e: Entry, j: TranscriptText.Sjson)
    requires Inv(src) && Lookup(TStoreOf(src), v, l) == Some(e)
    requires e.content.Some? && e.format == TranscriptText.SJSON
    requires codec.loads(e.content.value) == Some(TranscriptText.Subtitles(j))
    ensures var r := Expected(codec, TStoreOf(src), v, l);
            && (Survives(r, j) <==> TranscriptText.Carriable(j))
            && (r == Some(Entry(Some(TranscriptText.ToSrt(j)), TranscriptText.SRT, e.provider))
                <==> PlainSrt(codec, TranscriptText.ToSrt(j)))
            && (r == None <==> codec.loads(TranscriptText.ToSrt(j)).None? && SubRip.Read(TranscriptText.ToSrt(j)).None?)
  {
    FormatsDiffer();
    ExpectedEntry(codec, src, v, l, e, TranscriptText.ToSrt(j));
    TranscriptText.SjsonRoundTrip(j);
  }

  // ---------------------------------------------------------------- transcripts that do not come back

  /** An srt transcript of one line without a time line, such as "hello", is lost. */
  lemma OneLineIsLost(codec: Codec, src: Db, v: string, l: string, e: Entry, text: string)
    requires Inv(src) && Lookup(TStoreOf(src), v, l) == Some(e)
    requires e.content == Some(text) && e.format == TranscriptText.SRT
    requires codec.loads(text).None? && SubRip.NoBreak(text) && !Blank(text)
    ensures Expected(codec, TStoreOf(src), v, l) == None
  {
    TranscriptText.OneLineUnreadable(text);
    SrtComesBack(codec, src, v, l, e, text);
  }

  /** An empty srt transcript comes back labelled sjson. */
  lemma EmptyIsRelabelled(codec: Codec, src: Db, v: string, l: string, e: Entry)
    requires Inv(src) && Lookup(TStoreOf(src), v, l) == Some(e)
    requires e.content == Some("") && e.format == TranscriptText.SRT
    ensures Expected(codec, TStoreOf(src), v, l) == Some(e.(format := TranscriptText.SJSON))
  {
    TranscriptText.ReadWritten([], 0);
    SrtComesBack(codec, src, v, l, e, "");
  }

  /** A transcript stored as srt whose text is JSON, such as "{}", comes back labelled sjson. */
  lemma JsonIsRelabelled(codec: Codec, src: Db, v: string, l: string, e: Entry)
    requires Inv(src) && Lookup(TStoreOf(src), v, l) == Some(e)
    requires e.content == Some("{}") && e.format == TranscriptText.SRT && codec.loads("{}").Some?
    ensures Expected(codec, TStoreOf(src), v, l) == Some(e.(format := TranscriptText.SJSON))
  {
    SrtComesBack(codec, src, v, l, e, "{}");
  }

  /** A subtitle that ends in a space does not survive. */
  lemma TrailingSpaceIsLost(codec: Codec, src: Db, v: string, l: string, e: Entry)
    requires Inv(src) && Lookup(TStoreOf(src), v, l) == Some(e)
    requires e.content.Some? && e.format == TranscriptText.SJSON
    requires codec.loads(e.content.value) == Some(TranscriptText.Subtitles(TranscriptText.Sjson([0], [1], ["a "])))
    ensures !Survives(Expected(codec, TStoreOf(src), v, l), TranscriptText.Sjson([0], [1], ["a "]))
  {
    var j := TranscriptText.Sjson([0], [1], ["a "]);
    SjsonComesBack(codec, src, v, l, e, j);
    assert !SubRip.OneLine(j.text[0]);
  }

  /** An sjson transcript without subtitles comes back as an empty text labelled sjson. */
  lemma NoSubtitlesIsRelabelled(codec: Codec, src: Db, v: string, l: string, e: Entry)
    requires Inv(src) && Lookup(TStoreOf(src), v, l) == Some(e)
    requires e.content.Some? && e.format == TranscriptText.SJSON
    requires codec.loads(e.content.value) == Some(TranscriptText.Subtitles(TranscriptText.Sjson([], [], [])))
    ensures Expected(codec, TStoreOf(src), v, l) == Some(Entry(Some(""), TranscriptText.SJSON, e.provider))
  {
    var j := TranscriptText.Sjson([], [], []);
    assert TranscriptText.ToSrt(j) == "";
    TranscriptText.ReadWritten([], 0);
    ExpectedEntry(codec, src, v, l, e, "");
  }

  /** Such an empty text labelled sjson, which is not JSON, keeps the video from being exported again. */
  lemma EmptySjsonStopsExport(codec: Codec, db: Db, v: string, l: string, p: string, course: string, dir: string)
    requires Inv(db) && v in db.videos && codec.loads("").None?
    requires Lookup(TStoreOf(db), v, l) == Some(Entry(Some(""), TranscriptText.SJSON, p))
    ensures Export(codec, db, v, course, dir).Err?
  {
    FormatsDiffer();
    ExportSucceeds(codec, db, v, course, dir);
    var t := db.transcripts[FindRow(db.transcripts, v, l).value];
    assert t in db.transcripts && !ExportableRow(codec, db.blobs, t);
  }
}
