/** Exporting a video to an XML element plus transcript files, and importing such an element. */
module CourseXml {
  import opened Prelude
  import opened Tables
  import opened Videos
  import opened Images
  import opened TranscriptTable
  import opened TranscriptImport
  import Ordering
  import opened Whitespace
  import TranscriptText

  /** Attributes of an encoding; None: absent, or not a number where one is needed. */
  datatype EncodingEl = EncodingEl(profile: Option<string>, url: Option<string>,
                                   size: Option<int>, bitrate: Option<int>)

  datatype Xml =
    | VideoAsset(client: Option<string>, duration: Option<real>, image: Option<string>,
                 encodings: seq<EncodingEl>, transcripts: seq<TranscriptEl>)
    | OtherElement

  datatype Exported = Exported(xml: Xml, files: Archive)

  datatype ExportError = NoSuchVideo | MissingFile | Conversion(error: TranscriptText.ConversionError)

  function TStoreOf(db: Db): TStore { TStore(db.transcripts, db.blobs) }

  function WithTStore(db: Db, st: TStore): Db { db.(transcripts := st.rows, blobs := st.blobs) }

  // ---------------------------------------------------------------- export

  function ImageName(links: Links, k: LinkKey): string {
    if k in links then ImageRow(links[k]).name else ""
  }

  function ToElement(e: Encoding): EncodingEl {
    EncodingEl(Some(e.profile), Some(e.url), Some(e.size), Some(e.bitrate))
  }

  function ToElements(es: seq<Encoding>): (r: seq<EncodingEl>)
    ensures |r| == |es|
  {
    seq(|es|, i requires 0 <= i < |es| => ToElement(es[i]))
  }

  function TranscriptOf(v: string): Transcript -> bool { (t: Transcript) => t.video == v }

  function LanguageLe(): (Transcript, Transcript) -> bool {
    (a: Transcript, b: Transcript) => Ordering.StringLe(a.language, b.language)
  }

  /** `VideoTranscript.objects.filter(video).order_by('language_code')` */
  function RowsOf(rows: seq<Transcript>, v: string): seq<Transcript> {
    Ordering.Sort(LanguageLe(), Filter(TranscriptOf(v), rows))
  }

  /** The SubRip text a transcript is exported as. */
  function SrtOf(codec: Codec, st: TStore, v: string, t: Transcript): Result<string, ExportError> {
    match Lookup(st, v, t.language)
    case Some(Entry(Some(content), _, _)) =>
      (match TranscriptText.Convert(codec, content, t.format, TranscriptText.SRT)
       case Ok(text) => Ok(text)
       case Err(e) => Err(Conversion(e)))
    case _ => Err(MissingFile)
  }

  function SrtPath(dir: string, v: string, l: string): string {
    Combine(dir, TranscriptName(v, l, "srt"))
  }

  function ToTranscriptEl(t: Transcript): TranscriptEl {
    TranscriptEl(Some(t.language), Some("srt"), Some(t.provider))
  }

  /** The loop of `create_transcripts_xml`; the first failure ends the export. */
  function ExportRows(codec: Codec, st: TStore, v: string, rows: seq<Transcript>, dir: string, files: Archive):
    Result<(seq<TranscriptEl>, Archive), ExportError>
    decreases |rows|
  {
    if rows == [] then Ok(([], files))
    else
      match SrtOf(codec, st, v, rows[0])
      case Err(e) => Err(e)
      case Ok(text) =>
        match ExportRows(codec, st, v, rows[1..], dir, files[SrtPath(dir, v, rows[0].language) := Text(text)])
        case Err(e) => Err(e)
        case Ok(rest) => Ok(([ToTranscriptEl(rows[0])] + rest.0, rest.1))
  }

  function Export(codec: Codec, db: Db, v: string, course: string, dir: string): Result<Exported, ExportError> {
    if v !in db.videos then Err(NoSuchVideo)
    else
      match ExportRows(codec, TStoreOf(db), v, RowsOf(db.transcripts, v), dir, map[])
      case Err(e) => Err(e)
      case Ok(done) =>
        Ok(Exported(VideoAsset(Some(db.videos[v].client), Some(db.videos[v].duration),
                               Some(ImageName(db.links, LinkKey(course, v))),
                               ToElements(EncodingsOf(db.encodings, v)), done.0), done.1))
  }

  // ---------------------------------------------------------------- import

  datatype ImportOutcome = Imported(id: string) | CannotCreate | TranscriptError

  function KnownProfile(profiles: set<string>): EncodingEl -> bool {
    (e: EncodingEl) => e.profile.Some? && e.profile.value in profiles
  }

  predicate AllGiven(e: EncodingEl) {
    e.profile.Some? && e.url.Some? && e.size.Some? && e.bitrate.Some?
  }

  function ToData(es: seq<EncodingEl>): (r: seq<EncodingData>)
    requires forall e :: e in es ==> AllGiven(e)
    ensures |r| == |es|
  {
    seq(|es|, i requires 0 <= i < |es| =>
      assert AllGiven(es[i]);
      EncodingData(es[i].profile.value, es[i].url.value, es[i].size.value, es[i].bitrate.value))
  }

  /** The data a new video is created from; None when an attribute the serializer needs is missing. Unknown profiles
      are skipped, and without any encoding left the video is external and stays unlinked. */
  function NewVideoData(profiles: set<string>, xml: Xml, id: string, course: string): Option<VideoData>
    requires xml.VideoAsset?
  {
    var known := Filter(KnownProfile(profiles), xml.encodings);
    if xml.client.None? || xml.duration.None? || exists e :: e in known && !AllGiven(e) then None
    else Some(VideoData(
      id, xml.client.value, xml.duration.value, if known == [] then EXTERNAL else IMPORTED, None, ToData(known),
      if course != "" && known != []
      then [Course(course, if xml.image.Some? then xml.image.value else "")] else []))
  }

  function ExternalVideoData(id: string): VideoData {
    VideoData(id, "External Video", 0.0, EXTERNAL, None, [], [])
  }

  /** Linking a video that exists already; false is a validation error. */
  function LinkExisting(links: Links, v: string, course: string, image: Option<string>): (Links, bool) {
    var k := LinkKey(course, v);
    if k !in links && !ValidCourse(course) then (links, false)
    else
      var linked := if k in links then links else links[k := Link(false, None)];
      var name := if image.Some? then Strip(image.value) else "";
      if name == "" then (linked, true)
      else (SetImage(linked, k, name, []).0, SetImage(linked, k, name, []).1 == Saved)
  }

  function ImportTranscripts(codec: Codec, db: Db, xml: Xml, v: string, archive: Archive, dir: string,
                             ext: Externals, names: seq<string>): (Db, ImportOutcome)
    requires xml.VideoAsset? && |Events(xml.transcripts, ext, v, dir)| <= |names|
  {
    var (st, ok) := ImportAll(codec, TStoreOf(db), db.videos.Keys, archive, v,
                              Events(xml.transcripts, ext, v, dir), names);
    (WithTStore(db, st), if ok then Imported(v) else TranscriptError)
  }

  function TargetId(id: string, newId: string): string { if id != "" then id else newId }

  /** The link step for a video that exists: an external video, or no course, leaves the links alone. */
  function LinkStep(db: Db, xml: Xml, id: string, course: string): (Links, bool)
    requires xml.VideoAsset? && id in db.videos
  {
    if course != "" && db.videos[id].status != EXTERNAL
    then LinkExisting(db.links, id, course, xml.image) else (db.links, true)
  }

  /** The create step for a video that does not exist. */
  function CreateStep(db: Db, xml: Xml, id: string, course: string, newId: string): (Db, Outcome)
    requires xml.VideoAsset?
  {
    if id == "" then CreateVideo(db, ExternalVideoData(newId))
    else
      match NewVideoData(db.profiles, xml, id, course)
      case None => (db, Invalid)
      case Some(data) => CreateVideo(db, data)
  }

  /** Everything before the transcripts; false stops the import with an error. */
  function VideoStep(db: Db, xml: Xml, id: string, course: string, newId: string): (Db, bool)
    requires xml.VideoAsset?
  {
    if id != "" && id in db.videos then
      var (links, ok) := LinkStep(db, xml, id, course);
      (db.(links := links), ok)
    else
      var (created, outcome) := CreateStep(db, xml, id, course, newId);
      (created, outcome == Done)
  }

  /** `import_from_xml`; `newId` is the id generated when none is given. */
  function ImportXml(codec: Codec, db: Db, xml: Xml, id: string, archive: Archive, dir: string, ext: Externals,
                     course: string, newId: string, names: seq<string>): (Db, ImportOutcome)
    requires xml.VideoAsset? ==> |Events(xml.transcripts, ext, TargetId(id, newId), dir)| <= |names|
  {
    if xml.OtherElement? then (db, CannotCreate)
    else
      var (next, ok) := VideoStep(db, xml, id, course, newId);
      if !ok then (next, CannotCreate)
      else ImportTranscripts(codec, next, xml, TargetId(id, newId), archive, dir, ext, names)
  }

  // ---------------------------------------------------------------- the invariant, and existing videos

  lemma LinkExistingKeepsOk(links: Links, videos: map<string, Video>, v: string, course: string, image: Option<string>)
    requires LinksOk(links, videos) && v in videos
    ensures LinksOk(LinkExisting(links, v, course, image).0, videos)
  {
  }

  lemma VideoStepKeepsInv(db: Db, xml: Xml, id: string, course: string, newId: string)
    requires xml.VideoAsset? && Inv(db)
    ensures Inv(VideoStep(db, xml, id, course, newId).0)
  {
    if id != "" && id in db.videos {
      LinkExistingKeepsOk(db.links, db.videos, id, course, xml.image);
    } else if id == "" {
      CreateVideoKeepsInv(db, ExternalVideoData(newId));
    } else if NewVideoData(db.profiles, xml, id, course).Some? {
      CreateVideoKeepsInv(db, NewVideoData(db.profiles, xml, id, course).value);
    }
  }

  lemma TranscriptStepKeepsInv(codec: Codec, db: Db, xml: Xml, v: string, archive: Archive, dir: string,
                               ext: Externals, names: seq<string>)
    requires xml.VideoAsset? && |Events(xml.transcripts, ext, v, dir)| <= |names| && Inv(db)
    ensures Inv(ImportTranscripts(codec, db, xml, v, archive, dir, ext, names).0)
  {
    ImportKeepsOk(codec, TStoreOf(db), db.videos, archive, v, Events(xml.transcripts, ext, v, dir), names);
  }

  lemma ImportXmlKeepsInv(codec: Codec, db: Db, xml: Xml, id: string, archive: Archive, dir: string, ext: Externals,
                          course: string, newId: string, names: seq<string>)
    requires xml.VideoAsset? ==> |Events(xml.transcripts, ext, TargetId(id, newId), dir)| <= |names|
    requires Inv(db)
    ensures Inv(ImportXml(codec, db, xml, id, archive, dir, ext, course, newId, names).0)
  {
    if xml.VideoAsset? {
      VideoStepKeepsInv(db, xml, id, course, newId);
      var (next, ok) := VideoStep(db, xml, id, course, newId);
      if ok {
        TranscriptStepKeepsInv(codec, next, xml, TargetId(id, newId), archive, dir, ext, names);
      }
    }
  }

  /** The transcripts part of an import touches no other table. */
  lemma TranscriptsAside(codec: Codec, db: Db, xml: Xml, id: string, archive: Archive, dir: string, ext: Externals,
                         course: string, newId: string, names: seq<string>)
    requires xml.VideoAsset? && |Events(xml.transcripts, ext, TargetId(id, newId), dir)| <= |names|
    ensures var after := ImportXml(codec, db, xml, id, archive, dir, ext, course, newId, names).0;
            var step := VideoStep(db, xml, id, course, newId).0;
            after == step.(transcripts := after.transcripts, blobs := after.blobs)
  {
  }

  /** Linking keeps every hidden flag and adds at most the one visible link. */
  lemma LinkExistingKeepsFlags(links: Links, v: string, course: string, image: Option<string>)
    ensures var after := LinkExisting(links, v, course, image).0;
            && (forall k :: k in links ==> k in after && after[k].hidden == links[k].hidden)
            && (forall k :: k in after && k !in links ==> k == LinkKey(course, v) && !after[k].hidden)
  {
  }

  /** Importing an id that exists changes neither videos nor encodings; an external video is not linked, and a link
      that exists keeps its hidden flag. */
  lemma ImportExisting(codec: Codec, db: Db, xml: Xml, id: string, archive: Archive, dir: string, ext: Externals,
                       course: string, newId: string, names: seq<string>)
    requires xml.VideoAsset? && |Events(xml.transcripts, ext, TargetId(id, newId), dir)| <= |names|
    requires id != "" && id in db.videos
    ensures var after := ImportXml(codec, db, xml, id, archive, dir, ext, course, newId, names).0;
            && after.videos == db.videos && after.order == db.order && after.encodings == db.encodings
            && (db.videos[id].status == EXTERNAL || course == "" ==> after.links == db.links)
            && (forall k :: k in db.links ==> k in after.links && after.links[k].hidden == db.links[k].hidden)
            && (forall k :: k in after.links && k !in db.links ==> k == LinkKey(course, id) && !after.links[k].hidden)
  {
    TranscriptsAside(codec, db, xml, id, archive, dir, ext, course, newId, names);
    LinkExistingKeepsFlags(db.links, id, course, xml.image);
  }

  /** The link of a known video that is not external: it exists, a new one is visible, and its image is the element's
      trimmed name where that is not empty, otherwise as before. The import is refused here only for a course id that is
      not valid. */
  lemma ImportLinksKnown(codec: Codec, db: Db, xml: Xml, id: string, archive: Archive, dir: string, ext: Externals,
                         course: string, newId: string, names: seq<string>)
    requires xml.VideoAsset? && |Events(xml.transcripts, ext, TargetId(id, newId), dir)| <= |names| && Inv(db)
    requires id != "" && id in db.videos && db.videos[id].status != "external" && course != ""
    ensures var (after, outcome) := ImportXml(codec, db, xml, id, archive, dir, ext, course, newId, names);
            var k := LinkKey(course, id);
            var was := if k in db.links then db.links[k] else Link(false, None);
            var name := if xml.image.Some? then Strip(xml.image.value) else "";
            && (outcome == CannotCreate <==> k !in db.links && !(1 <= |course| <= 255))
            && (outcome == CannotCreate ==> after == db)
            && (outcome != CannotCreate ==>
                  && (outcome == Imported(id) || outcome == TranscriptError)
                  && k in after.links && after.links[k].hidden == was.hidden
                  && after.links[k].image
                     == (if name == "" then was.image
                         else Some(Image(name, if was.image.Some? then was.image.value.generated else []))))
  {
    TranscriptsAside(codec, db, xml, id, archive, dir, ext, course, newId, names);
  }

  /** An element imported without an id becomes an external video with a generated id, without encodings and links. */
  lemma ImportWithoutId(codec: Codec, db: Db, xml: Xml, archive: Archive, dir: string, ext: Externals,
                        course: string, newId: string, names: seq<string>)
    requires xml.VideoAsset? && |Events(xml.transcripts, ext, TargetId("", newId), dir)| <= |names| && Inv(db)
    requires ValidVideoId(newId) && newId !in db.videos
    ensures var (after, outcome) := ImportXml(codec, db, xml, "", archive, dir, ext, course, newId, names);
            && (outcome == Imported(newId) || outcome == TranscriptError)
            && after.videos == db.videos[newId := Video("External Video", 0.0, "external", None)]
            && EncodingsOf(after.encodings, newId) == [] && after.links == db.links
  {
    TranscriptsAside(codec, db, xml, "", archive, dir, ext, course, newId, names);
    var data := ExternalVideoData(newId);
    ExternalTexts(data.client, data.status);
    IdTrimmed(newId);
    assert ValidData(db.profiles, Cleaned(data));
    assert Kept([]) == [] && NewEncodings(newId, []) == [];
    assert db.encodings + [] == db.encodings;
    FilterNone(OfVideo(newId), db.encodings);
  }

  lemma ExternalTexts(client: string, status: string)
    requires client == "External Video" && status == "external"
    ensures Strip(client) == client && ValidText(client, 0, 255) && Strip(status) == status && ValidText(status, 1, 255)
  {
    assert |client| == 14 && |status| == 8;
    assert !IsSpace(client[0]) && !IsSpace(client[13]) && !IsSpace(status[0]) && !IsSpace(status[7]);
    StripTrims(client);
    StripTrims(status);
  }

  /** The stored encodings of a new video: the elements with a known profile, in order, urls trimmed. */
  predicate KnownStored(es: seq<Encoding>, v: string, known: seq<EncodingEl>) {
    && |es| == |known|
    && forall i :: 0 <= i < |known| ==>
         && AllGiven(known[i])
         && es[i] == Encoding(v, known[i].profile.value, Strip(known[i].url.value), known[i].size.value,
                              known[i].bitrate.value)
  }

  /** The video that an element with an unknown id becomes: the element's trimmed client id, its duration and its
      encodings of known profiles. With such an encoding and a course it is imported and linked with the element's
      image; without, it is external or stays unlinked. */
  ghost predicate Created(db: Db, after: Db, xml: Xml, v: string, course: string)
    requires xml.VideoAsset?
  {
    var known := Filter(KnownProfile(db.profiles), xml.encodings);
    && v !in db.videos && v in after.videos && xml.client.Some? && xml.duration.Some?
    && after.videos[v] == Video(Strip(xml.client.value), xml.duration.value,
                                if known == [] then "external" else "imported", None)
    && KnownStored(EncodingsOf(after.encodings, v), v, known)
    && (known == [] || course == "" ==> after.links == db.links)
    && (known != [] && course != "" ==>
          && LinkKey(course, v) !in db.links && LinkKey(course, v) in after.links
          && after.links == db.links[LinkKey(course, v) := after.links[LinkKey(course, v)]]
          && ShowsImage(after.links[LinkKey(course, v)], if xml.image.Some? then xml.image.value else ""))
  }

  /** An element imported under an id that does not exist: it is refused, which changes nothing, or creates the
      video. */
  lemma ImportCreates(codec: Codec, db: Db, xml: Xml, id: string, archive: Archive, dir: string, ext: Externals,
                      course: string, newId: string, names: seq<string>)
    requires xml.VideoAsset? && |Events(xml.transcripts, ext, TargetId(id, newId), dir)| <= |names| && Inv(db)
    requires id != "" && id !in db.videos
    ensures var (after, outcome) := ImportXml(codec, db, xml, id, archive, dir, ext, course, newId, names);
            if outcome == CannotCreate then after == db
            else (outcome == Imported(id) || outcome == TranscriptError) && Created(db, after, xml, Strip(id), course)
  {
    TranscriptsAside(codec, db, xml, id, archive, dir, ext, course, newId, names);
    CreateStepCreates(db, xml, id, course, newId);
  }

  lemma CreateStepCreates(db: Db, xml: Xml, id: string, course: string, newId: string)
    requires xml.VideoAsset? && Inv(db) && id != ""
    ensures var (after, outcome) := CreateStep(db, xml, id, course, newId);
            (outcome == Invalid && after == db) || (outcome == Done && Created(db, after, xml, Strip(id), course))
  {
    hide Inv, ValidData, Strip, CreateVideo;
    if NewVideoData(db.profiles, xml, id, course).Some? {
      var data := NewVideoData(db.profiles, xml, id, course).value;
      CreateLeaves(db, data);
      NewLinks(db, data);
      StatusStays(data.status);
      if CreateVideo(db, data).1 == Done && data.courses != [] {
        assert data.courses[0] in data.courses;
      }
    }
  }

  /** The links of a new video with at most one course: none clashes, and only that course is linked. */
  lemma NewLinks(db: Db, data: VideoData)
    requires Inv(db) && (data.courses == [] || exists c :: data.courses == [c] && c.Course?)
    ensures var (after, outcome) := CreateVideo(db, data);
            var v := Strip(data.id);
            && outcome != LinkClash
            && (outcome == Done && data.courses == [] ==> after.links == db.links)
            && (outcome == Done && data.courses != [] ==>
                  var k := LinkKey(data.courses[0].id, v);
                  k !in db.links && k in after.links && after.links == db.links[k := after.links[k]])
  {
    var v := Strip(data.id);
    SaveSucceeds(db, data);
    if data.courses != [] {
      assert data.courses[1..] == [];
      FilterAll(IsCourse(), data.courses);
      assert Kept(data.courses) == data.courses;
      var next := db.links[LinkKey(data.courses[0].id, v) := NewLink(data.courses[0].image)];
      assert SaveLinks(next, v, data.courses[1..]) == (next, true);
    } else {
      assert Kept(data.courses) == [];
    }
    if v !in db.videos {
      assert CoursesFree(db.links, v, data.courses);
    }
  }

  lemma StatusStays(s: string)
    requires s == EXTERNAL || s == IMPORTED
    ensures Strip(s) == s && ValidText(s, 1, 255)
  {
    assert |s| == 8 && !IsSpace(s[0]) && !IsSpace(s[7]);
    StripTrims(s);
  }
}
