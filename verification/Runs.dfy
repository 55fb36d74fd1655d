/** Whole runs of the store: any sequence of its operations, successful or not. */
module Runs {
  import opened Prelude
  import opened Tables
  import opened Videos
  import opened Images
  import opened TranscriptTable
  import opened TranscriptImport
  import opened CourseXml
  import opened Whitespace

  datatype Op =
    | CreateProfileOp(name: string)
    | CreateVideoOp(data: VideoData)
    | UpdateVideoOp(data: VideoData)
    | SetStatusOp(v: string, status: string)
    | PatchStatusOp(v: string, status: string, error: Option<string>)
    | PutEncodeOp(v: string, encoding: EncodingData)
    | SoftDeleteOp(course: string, v: string)
    | CopyOp(src: string, dst: string)
    | UploadOp(course: string, v: string, stored: string, ok: bool)
    | SetImageOp(course: string, v: string, fileName: string, generated: seq<string>)
    | UpsertOp(v: string, l: string, meta: Meta, fileData: Option<string>, stored: string, ok: bool)
    | CreateTranscriptOp(v: string, l: string, format: string, provider: string, content: string, stored: string,
                         ok: bool)
    | PostTranscriptOp(v: string, l: string, name: string, provider: string, format: string, stored: string)
    | DeleteTranscriptOp(v: string, l: string)
    | ImportOp(xml: Xml, id: string, archive: Archive, dir: string, ext: Externals, course: string, newId: string,
               names: seq<string>)

  predicate WellFormed(op: Op) {
    op.ImportOp? && op.xml.VideoAsset? ==>
      |Events(op.xml.transcripts, op.ext, TargetId(op.id, op.newId), op.dir)| <= |op.names|
  }

  function Apply(codec: Codec, db: Db, op: Op): Db
    requires WellFormed(op)
  {
    match op
    case CreateProfileOp(name) => CreateProfile(db, name).0
    case CreateVideoOp(data) => CreateVideo(db, data).0
    case UpdateVideoOp(data) => UpdateVideo(db, data).0
    case SetStatusOp(v, status) => SetStatus(db, v, status).0
    case PatchStatusOp(v, status, error) => PatchStatus(db, v, status, error).0
    case PutEncodeOp(v, e) => PutEncode(db, v, e).0
    case SoftDeleteOp(course, v) => db.(links := SoftDelete(db.links, LinkKey(course, v)).0)
    case CopyOp(src, dst) => db.(links := Copy(db.links, src, dst))
    case UploadOp(course, v, stored, ok) =>
      var (links, images, _) := Upload(db.links, db.images, LinkKey(course, v), stored, ok);
      db.(links := links, images := images)
    case SetImageOp(course, v, fileName, generated) =>
      db.(links := SetImage(db.links, LinkKey(course, v), fileName, generated).0)
    case UpsertOp(v, l, meta, data, stored, ok) =>
      WithTStore(db, Upsert(TStoreOf(db), db.videos.Keys, v, l, meta, data, stored, ok).0)
    case CreateTranscriptOp(v, l, format, provider, content, stored, ok) =>
      WithTStore(db, Create(TStoreOf(db), db.videos.Keys, v, l, format, provider, content, stored, ok).0)
    case PostTranscriptOp(v, l, name, provider, format, stored) =>
      WithTStore(db, Post(TStoreOf(db), db.videos.Keys, v, l, name, provider, format, stored).0)
    case DeleteTranscriptOp(v, l) => WithTStore(db, Delete(TStoreOf(db), v, l))
    case ImportOp(xml, id, archive, dir, ext, course, newId, names) =>
      ImportXml(codec, db, xml, id, archive, dir, ext, course, newId, names).0
  }

  function Run(codec: Codec, db: Db, ops: seq<Op>): Db
    requires forall op :: op in ops ==> WellFormed(op)
    decreases |ops|
  {
    if ops == [] then db
    else
      assert ops[0] in ops;
      Run(codec, Apply(codec, db, ops[0]), ops[1..])
  }

  // ---------------------------------------------------------------- the invariant

  lemma CopyKeepsLinks(links: Links, videos: map<string, Video>, src: string, dst: string)
    requires LinksOk(links, videos)
    ensures LinksOk(Copy(links, src, dst), videos)
  {
    if src != dst {
      forall k | k in Copy(links, src, dst) ensures k.video in videos {
        CopyAt(links, src, dst, k);
      }
    }
  }

  predicate VideoOp(op: Op) {
    || op.CreateProfileOp? || op.CreateVideoOp? || op.UpdateVideoOp?
    || op.SetStatusOp? || op.PatchStatusOp? || op.PutEncodeOp?
  }

  predicate LinkOp(op: Op) {
    op.SoftDeleteOp? || op.CopyOp? || op.UploadOp? || op.SetImageOp?
  }

  lemma VideoOpKeepsInv(codec: Codec, db: Db, op: Op)
    requires VideoOp(op) && Inv(db)
    ensures Inv(Apply(codec, db, op))
  {
    match op
    case CreateProfileOp(name) => CreateProfileKeepsInv(db, name);
    case CreateVideoOp(data) => CreateVideoKeepsInv(db, data);
    case UpdateVideoOp(data) => UpdateVideoKeepsInv(db, data);
    case SetStatusOp(v, status) => SetStatusKeepsInv(db, v, status);
    case PatchStatusOp(v, status, error) => PatchStatusKeepsInv(db, v, status, error);
    case PutEncodeOp(v, e) => PutEncodeKeepsInv(db, v, e);
  }

  /** Rewriting one row within the limit on generated names keeps the links in order. */
  lemma LinkRowKeepsLinks(links: Links, videos: map<string, Video>, k: LinkKey, row: Link)
    requires LinksOk(links, videos) && k in links
    requires row.image.Some? ==> |row.image.value.generated| <= MAX_GENERATED_IMAGES
    ensures LinksOk(links[k := row], videos)
  {
  }

  lemma LinkOpKeepsLinks(codec: Codec, db: Db, op: Op)
    requires LinkOp(op) && LinksOk(db.links, db.videos)
    ensures LinksOk(Apply(codec, db, op).links, db.videos)
  {
    match op
    case CopyOp(src, dst) => CopyKeepsLinks(db.links, db.videos, src, dst);
    case SoftDeleteOp(course, v) => LinkRowChange(codec, db, op, LinkKey(course, v));
    case UploadOp(course, v, _, _) => LinkRowChange(codec, db, op, LinkKey(course, v));
    case SetImageOp(course, v, _, _) => LinkRowChange(codec, db, op, LinkKey(course, v));
  }

  lemma LinkRowChange(codec: Codec, db: Db, op: Op, k: LinkKey)
    requires LinksOk(db.links, db.videos)
    requires (op.SoftDeleteOp? || op.UploadOp? || op.SetImageOp?) && k == LinkKey(op.course, op.v)
    ensures LinksOk(Apply(codec, db, op).links, db.videos)
  {
    var after := Apply(codec, db, op).links;
    if k in db.links {
      assert after == db.links[k := after[k]];
      LinkRowKeepsLinks(db.links, db.videos, k, after[k]);
    }
  }

  lemma LinkOpKeepsInv(codec: Codec, db: Db, op: Op)
    requires LinkOp(op) && Inv(db)
    ensures Inv(Apply(codec, db, op))
  {
    LinkOpKeepsLinks(codec, db, op);
    var after := Apply(codec, db, op);
    assert after == db.(links := after.links, images := after.images);
  }

  predicate TranscriptOp(op: Op) {
    op.UpsertOp? || op.CreateTranscriptOp? || op.PostTranscriptOp? || op.DeleteTranscriptOp?
  }

  lemma UpsertOpKeepsRows(codec: Codec, db: Db, op: Op)
    requires op.UpsertOp? && TranscriptsOk(db.transcripts, db.videos)
    ensures TranscriptsOk(Apply(codec, db, op).transcripts, db.videos)
  {
    UpsertKeepsOk(TStoreOf(db), db.videos, op.v, op.l, op.meta, op.fileData, op.stored, op.ok);
  }

  lemma CreateOpKeepsRows(codec: Codec, db: Db, op: Op)
    requires op.CreateTranscriptOp? && TranscriptsOk(db.transcripts, db.videos)
    ensures TranscriptsOk(Apply(codec, db, op).transcripts, db.videos)
  {
    CreateKeepsOk(TStoreOf(db), db.videos, op.v, op.l, op.format, op.provider, op.content, op.stored, op.ok);
  }

  lemma PostOpKeepsRows(codec: Codec, db: Db, op: Op)
    requires op.PostTranscriptOp? && TranscriptsOk(db.transcripts, db.videos)
    ensures TranscriptsOk(Apply(codec, db, op).transcripts, db.videos)
  {
    var meta := Meta(op.provider, "", op.name, op.format);
    UpsertKeepsOk(TStoreOf(db), db.videos, op.v, op.l, meta, None, op.stored, true);
  }

  lemma DeleteOpKeepsRows(codec: Codec, db: Db, op: Op)
    requires op.DeleteTranscriptOp? && TranscriptsOk(db.transcripts, db.videos)
    ensures TranscriptsOk(Apply(codec, db, op).transcripts, db.videos)
  {
    DeleteKeepsOk(TStoreOf(db), db.videos, op.v, op.l);
  }

  lemma TranscriptOpKeepsRest(codec: Codec, db: Db, op: Op)
    requires TranscriptOp(op) && Inv(db) && TranscriptsOk(Apply(codec, db, op).transcripts, db.videos)
    ensures Inv(Apply(codec, db, op))
  {
    var after := Apply(codec, db, op);
    assert after == db.(transcripts := after.transcripts, blobs := after.blobs);
  }

  lemma TranscriptOpKeepsInv(codec: Codec, db: Db, op: Op)
    requires TranscriptOp(op) && Inv(db)
    ensures Inv(Apply(codec, db, op))
  {
    if op.UpsertOp? {
      UpsertOpKeepsRows(codec, db, op);
    } else if op.CreateTranscriptOp? {
      CreateOpKeepsRows(codec, db, op);
    } else if op.PostTranscriptOp? {
      PostOpKeepsRows(codec, db, op);
    } else {
      DeleteOpKeepsRows(codec, db, op);
    }
    TranscriptOpKeepsRest(codec, db, op);
  }

  lemma ApplyKeepsInv(codec: Codec, db: Db, op: Op)
    requires WellFormed(op) && Inv(db)
    ensures Inv(Apply(codec, db, op))
  {
    if VideoOp(op) {
      VideoOpKeepsInv(codec, db, op);
    } else if LinkOp(op) {
      LinkOpKeepsInv(codec, db, op);
    } else if op.ImportOp? {
      ImportXmlKeepsInv(codec, db, op.xml, op.id, op.archive, op.dir, op.ext, op.course, op.newId, op.names);
    } else {
      TranscriptOpKeepsInv(codec, db, op);
    }
  }

  /** In every run from the empty store: ids are unique, no video has two encodings of one profile, links and
      transcripts belong to existing videos, and (video, language) is unique. */
  lemma {:induction false} RunKeepsInv(codec: Codec, db: Db, ops: seq<Op>)
    requires forall op :: op in ops ==> WellFormed(op)
    requires Inv(db)
    ensures Inv(Run(codec, db, ops))
    decreases |ops|
  {
    if ops == [] {
    } else {
      assert ops[0] in ops;
      ApplyKeepsInv(codec, db, ops[0]);
      RunKeepsInv(codec, Apply(codec, db, ops[0]), ops[1..]);
    }
  }

  // ---------------------------------------------------------------- image references

  /** The name is empty or stored. */
  predicate StoredName(images: set<string>, name: string) {
    name == "" || name in images
  }

  predicate StoredImages(images: set<string>, courses: seq<CourseData>) {
    forall c :: c in courses && c.Course? ==> StoredName(images, c.image)
  }

  /** Image names that an operation sets without uploading the file are in the storage. */
  predicate NamesStored(db: Db, op: Op) {
    match op
    case CreateVideoOp(data) => StoredImages(db.images, data.courses)
    case UpdateVideoOp(data) => StoredImages(db.images, data.courses)
    case SetImageOp(_, _, fileName, generated) =>
      StoredName(db.images, fileName) && (generated != [] ==> StoredName(db.images, generated[0]))
    case ImportOp(xml, _, _, _, _, _, _, _) =>
      xml.VideoAsset? && xml.image.Some? ==>
        StoredName(db.images, xml.image.value) && StoredName(db.images, Strip(xml.image.value))
    case _ => true
  }

  /** Saving links adds at most the given images to the names in use, and loses none. */
  lemma {:induction false} SaveLinksNames(links: Links, v: string, courses: seq<CourseData>, images: set<string>)
    requires forall c :: c in courses ==> c.Course? && StoredName(images, c.image)
    ensures Names(SaveLinks(links, v, courses).0) <= Names(links) + images
    ensures Names(links) <= Names(SaveLinks(links, v, courses).0)
    decreases |courses|
  {
    if courses == [] || LinkKey(courses[0].id, v) in links {
    } else {
      assert courses[0] in courses;
      var k0 := LinkKey(courses[0].id, v);
      var next := links[k0 := NewLink(courses[0].image)];
      forall n | n in Names(next) ensures n in Names(links) + images {
        var k :| k in next && HasName(next[k]) && next[k].image.value.name == n;
        if k != k0 { NameIn(links, k); }
      }
      forall n | n in Names(links) ensures n in Names(next) {
        var k :| k in links && HasName(links[k]) && links[k].image.value.name == n;
        NameIn(next, k);
      }
      SaveLinksNames(next, v, courses[1..], images);
    }
  }

  lemma CreateNames(db: Db, d: VideoData)
    requires StoredImages(db.images, d.courses)
    ensures Names(CreateVideo(db, d).0.links) <= Names(db.links) + db.images
    ensures Names(UpdateVideo(db, d).0.links) <= Names(db.links) + db.images
    ensures Names(db.links) <= Names(CreateVideo(db, d).0.links)
    ensures Names(db.links) <= Names(UpdateVideo(db, d).0.links)
  {
    FilterMembers(IsCourse(), d.courses);
    SaveLinksNames(db.links, Cleaned(d).id, Kept(d.courses), db.images);
    SaveLinksNames(db.links, d.id, Kept(d.courses), db.images);
  }

  lemma SetImageKeepsRefSafe(links: Links, images: set<string>, k: LinkKey, fileName: string, generated: seq<string>)
    requires RefSafe(links, images) && StoredName(images, fileName)
    requires generated != [] ==> StoredName(images, generated[0])
    ensures RefSafe(SetImage(links, k, fileName, generated).0, images)
  {
    var (after, outcome) := SetImage(links, k, fileName, generated);
    if outcome != Saved {
      RefusedImageChangesNoName(links, k, fileName, generated);
    } else {
      SetImageRefSafe(links, images, k, fileName, generated);
    }
  }

  lemma LinkExistingKeepsRefSafe(links: Links, images: set<string>, v: string, course: string, image: Option<string>)
    requires RefSafe(links, images) && (image.Some? ==> StoredName(images, Strip(image.value)))
    ensures RefSafe(LinkExisting(links, v, course, image).0, images)
  {
    var k := LinkKey(course, v);
    var linked := if k in links then links else links[k := Link(false, None)];
    forall j | j in linked && HasName(linked[j]) ensures linked[j].image.value.name in images {
      NameIn(links, j);
    }
    if image.Some? {
      SetImageKeepsRefSafe(linked, images, k, Strip(image.value), []);
    }
  }

  lemma ApplyKeepsRefSafe(codec: Codec, db: Db, op: Op)
    requires WellFormed(op) && NamesStored(db, op) && RefSafe(db.links, db.images)
    ensures RefSafe(Apply(codec, db, op).links, Apply(codec, db, op).images)
  {
    match op
    case CreateVideoOp(data) => CreateNames(db, data);
    case UpdateVideoOp(data) => CreateNames(db, data);
    case SoftDeleteOp(course, v) => SoftDeleteNames(db.links, LinkKey(course, v));
    case CopyOp(src, dst) => CopyKeepsRefSafe(db.links, db.images, src, dst);
    case UploadOp(course, v, stored, ok) => UploadKeepsRefSafe(db.links, db.images, LinkKey(course, v), stored, ok);
    case SetImageOp(course, v, fileName, generated) =>
      SetImageKeepsRefSafe(db.links, db.images, LinkKey(course, v), fileName, generated);
    case ImportOp(xml, id, archive, dir, ext, course, newId, names) =>
      if xml.VideoAsset? {
        ImportKeepsRefSafe(codec, db, op);
      }
    case _ =>
  }

  /** The links and images an import leaves: those of the link step or of the create, whatever the transcripts do. */
  lemma ImportLinks(codec: Codec, db: Db, op: Op)
    requires op.ImportOp? && op.xml.VideoAsset? && WellFormed(op)
    ensures Apply(codec, db, op).images == db.images
    ensures var after := Apply(codec, db, op).links;
            || after == db.links
            || after == LinkExisting(db.links, op.id, op.course, op.xml.image).0
            || exists d: VideoData :: after == CreateVideo(db, d).0.links && ImportsImage(op.xml, d.courses)
  {
    TranscriptsAside(codec, db, op.xml, op.id, op.archive, op.dir, op.ext, op.course, op.newId, op.names);
    VideoStepLinks(db, op.xml, op.id, op.course, op.newId);
  }

  lemma VideoStepLinks(db: Db, xml: Xml, id: string, course: string, newId: string)
    requires xml.VideoAsset?
    ensures VideoStep(db, xml, id, course, newId).0.images == db.images
    ensures var after := VideoStep(db, xml, id, course, newId).0.links;
            || after == db.links
            || after == LinkExisting(db.links, id, course, xml.image).0
            || exists d: VideoData :: after == CreateVideo(db, d).0.links && ImportsImage(xml, d.courses)
  {
    if !(id != "" && id in db.videos) {
      var data := if id != "" then NewVideoData(db.profiles, xml, id, course) else Some(ExternalVideoData(newId));
      if data.Some? {
        assert ImportsImage(xml, data.value.courses);
        assert VideoStep(db, xml, id, course, newId).0 == CreateVideo(db, data.value).0;
      }
    }
  }

  /** The only image among the courses is the element's. */
  predicate ImportsImage(xml: Xml, courses: seq<CourseData>)
    requires xml.VideoAsset?
  {
    forall c :: c in courses && c.Course? ==> c.image == "" || xml.image == Some(c.image)
  }

  lemma ImportKeepsRefSafe(codec: Codec, db: Db, op: Op)
    requires op.ImportOp? && op.xml.VideoAsset?
    requires WellFormed(op) && NamesStored(db, op) && RefSafe(db.links, db.images)
    ensures RefSafe(Apply(codec, db, op).links, Apply(codec, db, op).images)
  {
    ImportLinks(codec, db, op);
    LinkExistingKeepsRefSafe(db.links, db.images, op.id, op.course, op.xml.image);
    forall d: VideoData | ImportsImage(op.xml, d.courses)
      ensures RefSafe(CreateVideo(db, d).0.links, db.images)
    {
      CreateNames(db, d);
    }
  }

  lemma SoftDeleteNames(links: Links, k: LinkKey)
    ensures Names(SoftDelete(links, k).0) == Names(links)
  {
    var after := SoftDelete(links, k).0;
    forall n ensures n in Names(after) <==> n in Names(links) {
      if n in Names(after) {
        var j :| j in after && HasName(after[j]) && after[j].image.value.name == n;
        NameIn(links, j);
      }
      if n in Names(links) {
        var j :| j in links && HasName(links[j]) && links[j].image.value.name == n;
        NameIn(after, j);
      }
    }
  }

  /** Every name set without an upload was stored when it was set. */
  predicate NamesStoredInRun(codec: Codec, db: Db, ops: seq<Op>)
    requires forall op :: op in ops ==> WellFormed(op)
    decreases |ops|
  {
    if ops == [] then true
    else
      assert ops[0] in ops;
      NamesStored(db, ops[0]) && NamesStoredInRun(codec, Apply(codec, db, ops[0]), ops[1..])
  }

  /** Image reference safety over whole runs, failing uploads included. */
  lemma {:induction false} RunKeepsRefSafe(codec: Codec, db: Db, ops: seq<Op>)
    requires forall op :: op in ops ==> WellFormed(op)
    requires NamesStoredInRun(codec, db, ops) && RefSafe(db.links, db.images)
    ensures RefSafe(Run(codec, db, ops).links, Run(codec, db, ops).images)
    decreases |ops|
  {
    if ops == [] {
    } else {
      assert ops[0] in ops;
      ApplyKeepsRefSafe(codec, db, ops[0]);
      RunKeepsRefSafe(codec, Apply(codec, db, ops[0]), ops[1..]);
    }
  }

  // ---------------------------------------------------------------- image leaks

  /** What an operation must meet so that no stored image loses its last reference. For copies and name-only updates
      this is exact; uploads, soft deletes and everything that leaves images alone meet it always. */
  ghost predicate LeakFree(db: Db, op: Op) {
    match op
    case CreateVideoOp(data) => StoredImages(db.images, data.courses)
    case UpdateVideoOp(data) => StoredImages(db.images, data.courses)
    case UploadOp(_, _, stored, _) => stored != ""
    case CopyOp(src, dst) =>
      forall n :: n in db.images ==> exists k :: Holds(db.links, k, n) && !Rewritten(db.links, src, dst, k)
    case SetImageOp(course, v, fileName, generated) =>
      var k := LinkKey(course, v);
      k in db.links && |Generated(ImageRow(db.links[k]), generated)| <= MAX_GENERATED_IMAGES ==>
        var row := ImageRow(db.links[k]);
        var name := ChosenName(row, fileName, generated);
        name == "" || name == row.name || (name in db.images && !DropsOld(db.links, k))
    case ImportOp(xml, id, _, _, _, course, _, _) =>
      && NamesStored(db, op)
      && (xml.VideoAsset? && xml.image.Some?
          && LinkKey(course, id) in db.links && HasName(db.links[LinkKey(course, id)]) ==>
            Strip(xml.image.value) == "")
    case _ => true
  }

  lemma LinkExistingKeepsNoLeak(links: Links, images: set<string>, v: string, course: string, image: Option<string>)
    requires NoLeak(links, images) && (image.Some? ==> StoredName(images, Strip(image.value)))
    requires image.Some? && LinkKey(course, v) in links && HasName(links[LinkKey(course, v)]) ==>
               Strip(image.value) == ""
    ensures NoLeak(LinkExisting(links, v, course, image).0, images)
  {
    var k := LinkKey(course, v);
    var linked := if k in links then links else links[k := Link(false, None)];
    assert Names(linked) == Names(links) by {
      forall n ensures n in Names(linked) <==> n in Names(links) {
        if n in Names(linked) {
          var j :| j in linked && HasName(linked[j]) && linked[j].image.value.name == n;
          NameIn(links, j);
        }
        if n in Names(links) {
          var j :| j in links && HasName(links[j]) && links[j].image.value.name == n;
          NameIn(linked, j);
        }
      }
    }
    if image.Some? && Strip(image.value) != "" {
      if SetImage(linked, k, Strip(image.value), []).1 == Saved {
        SetImageNoLeak(linked, images, k, Strip(image.value), []);
      } else {
        RefusedImageChangesNoName(linked, k, Strip(image.value), []);
      }
    }
  }

  lemma ImportKeepsNoLeak(codec: Codec, db: Db, op: Op)
    requires op.ImportOp? && op.xml.VideoAsset?
    requires WellFormed(op) && LeakFree(db, op) && NoLeak(db.links, db.images)
    ensures NoLeak(Apply(codec, db, op).links, Apply(codec, db, op).images)
  {
    ImportLinks(codec, db, op);
    LinkExistingKeepsNoLeak(db.links, db.images, op.id, op.course, op.xml.image);
    forall d: VideoData | ImportsImage(op.xml, d.courses)
      ensures NoLeak(CreateVideo(db, d).0.links, db.images)
    {
      CreateNames(db, d);
    }
  }

  lemma ApplyKeepsNoLeak(codec: Codec, db: Db, op: Op)
    requires WellFormed(op) && LeakFree(db, op) && NoLeak(db.links, db.images)
    ensures NoLeak(Apply(codec, db, op).links, Apply(codec, db, op).images)
  {
    match op
    case CreateVideoOp(data) => CreateNames(db, data);
    case UpdateVideoOp(data) => CreateNames(db, data);
    case SoftDeleteOp(course, v) => SoftDeleteNames(db.links, LinkKey(course, v));
    case CopyOp(src, dst) => CopyNoLeak(db.links, db.images, src, dst);
    case UploadOp(course, v, stored, ok) => UploadKeepsNoLeak(db.links, db.images, LinkKey(course, v), stored, ok);
    case SetImageOp(course, v, fileName, generated) =>
      var k := LinkKey(course, v);
      if SetImage(db.links, k, fileName, generated).1 == Saved {
        SetImageNoLeak(db.links, db.images, k, fileName, generated);
      } else {
        RefusedImageChangesNoName(db.links, k, fileName, generated);
      }
    case ImportOp(xml, id, archive, dir, ext, course, newId, names) =>
      if xml.VideoAsset? {
        ImportKeepsNoLeak(codec, db, op);
      }
    case _ =>
  }

  ghost predicate LeakFreeRun(codec: Codec, db: Db, ops: seq<Op>)
    requires forall op :: op in ops ==> WellFormed(op)
    decreases |ops|
  {
    if ops == [] then true
    else
      assert ops[0] in ops;
      LeakFree(db, ops[0]) && LeakFreeRun(codec, Apply(codec, db, ops[0]), ops[1..])
  }

  /** Over such a run the storage holds exactly the images that rows refer to. */
  lemma {:induction false} RunKeepsNoLeak(codec: Codec, db: Db, ops: seq<Op>)
    requires forall op :: op in ops ==> WellFormed(op)
    requires LeakFreeRun(codec, db, ops) && NoLeak(db.links, db.images)
    ensures NoLeak(Run(codec, db, ops).links, Run(codec, db, ops).images)
    decreases |ops|
  {
    if ops == [] {
    } else {
      assert ops[0] in ops;
      ApplyKeepsNoLeak(codec, db, ops[0]);
      RunKeepsNoLeak(codec, Apply(codec, db, ops[0]), ops[1..]);
    }
  }

  /** From the empty store: the invariant always, safe references when names are stored before they are set, and an
      exact image storage when no operation drops a last reference. */
  lemma RunsFromEmpty(codec: Codec, ops: seq<Op>)
    requires forall op :: op in ops ==> WellFormed(op)
    ensures Inv(Run(codec, EMPTY, ops))
    ensures NamesStoredInRun(codec, EMPTY, ops) ==>
              RefSafe(Run(codec, EMPTY, ops).links, Run(codec, EMPTY, ops).images)
    ensures LeakFreeRun(codec, EMPTY, ops) ==>
              NoLeak(Run(codec, EMPTY, ops).links, Run(codec, EMPTY, ops).images)
  {
    RunKeepsInv(codec, EMPTY, ops);
    if NamesStoredInRun(codec, EMPTY, ops) {
      RunKeepsRefSafe(codec, EMPTY, ops);
    }
    if LeakFreeRun(codec, EMPTY, ops) {
      RunKeepsNoLeak(codec, EMPTY, ops);
    }
  }
}
