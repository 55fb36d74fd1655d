/**
 The video store as the source runs it: tables that methods update in place. Every method is proved to take the store
 from its old value to the one the specification functions give, and to keep the invariant.
 */
module Store {
  import opened Prelude
  import opened Tables
  import opened Videos
  import opened Images
  import opened TranscriptTable
  import opened TranscriptImport
  import opened CourseXml
  import opened Whitespace
  import Queries
  import Runs
  import TranscriptText

  class VideoStore {
    const codec: Codec
    var profiles: set<string>
    var videos: map<string, Video>
    var order: seq<string>
    var encodings: seq<Encoding>
    var links: map<LinkKey, Link>
    var images: set<string>
    var transcripts: seq<Transcript>
    var blobs: map<string, string>

    function Value(): Db
      reads this
    {
      Db(profiles, videos, order, encodings, links, images, transcripts, blobs)
    }

    ghost predicate Valid()
      reads this
    {
      Inv(Value())
    }

    constructor (codec: Codec)
      ensures Valid() && Value() == EMPTY && this.codec == codec
    {
      this.codec := codec;
      profiles, videos, order, encodings := {}, map[], [], [];
      links, images, transcripts, blobs := map[], {}, [], map[];
    }

    // -------------------------------------------------------------- videos

    method CreateProfile(name: string) returns (outcome: Outcome)
      requires Valid()
      modifies this`profiles
      ensures Valid() && (Value(), outcome) == Videos.CreateProfile(old(Value()), name)
    {
      CreateProfileKeepsInv(Value(), name);
      if !ValidProfileName(name) || name in profiles {
        return Invalid;
      }
      profiles := profiles + {name};
      outcome := Done;
    }

    /** The loop over the courses in `create` and `update`. */
    method SaveCourses(v: string, courses: seq<CourseData>) returns (ok: bool)
      modifies this`links
      ensures (links, ok) == SaveLinks(old(links), v, Kept(courses))
    {
      var kept := Kept(courses);
      for i := 0 to |kept|
        invariant SaveLinks(links, v, kept[i..]) == SaveLinks(old(links), v, kept)
      {
        assert kept[i..][0] == kept[i] && kept[i..][1..] == kept[i + 1..];
        assert kept[i] in kept;
        var k := LinkKey(kept[i].id, v);
        if k in links {
          return false;
        }
        ghost var before := links;
        links := links[k := Link(false, None)];
        if kept[i].image != "" {
          links := links[k := links[k].(image := Some(Image(kept[i].image, [])))];
        }
        assert links == before[k := NewLink(kept[i].image)];
      }
      ok := true;
    }

    method CreateVideo(data: VideoData) returns (outcome: Outcome)
      requires Valid()
      modifies this`videos, this`order, this`encodings, this`links
      ensures Valid() && (Value(), outcome) == Videos.CreateVideo(old(Value()), data)
    {
      CreateVideoKeepsInv(Value(), data);
      var d := Cleaned(data);
      if d.id in videos || !ValidData(profiles, d) {
        return Invalid;
      }
      videos := videos[d.id := Video(d.client, d.duration, d.status, d.error)];
      order := order + [d.id];
      encodings := encodings + NewEncodings(d.id, d.encodings);
      var ok := SaveCourses(d.id, d.courses);
      outcome := if ok then Done else LinkClash;
    }

    /** The video's encodings are deleted and the given ones created. */
    method ReplaceVideoEncodings(v: string, data: seq<EncodingData>)
      modifies this`encodings
      ensures encodings == ReplaceEncodings(old(encodings), v, data)
    {
      encodings := Filter(NotOfVideo(v), encodings);
      encodings := encodings + NewEncodings(v, data);
    }

    method UpdateVideo(data: VideoData) returns (outcome: Outcome)
      requires Valid()
      modifies this`videos, this`encodings, this`links
      ensures Valid() && (Value(), outcome) == Videos.UpdateVideo(old(Value()), data)
    {
      hide Inv, ValidData, Cleaned, SaveLinks, ReplaceEncodings;
      UpdateVideoKeepsInv(Value(), data);
      var v, d := data.id, Cleaned(data);
      if v !in videos {
        return NotFound;
      }
      if !ValidData(profiles, d) {
        return Invalid;
      }
      videos := videos[v := videos[v].(status := d.status, client := d.client, duration := d.duration)];
      ReplaceVideoEncodings(v, d.encodings);
      var ok := SaveCourses(v, d.courses);
      outcome := if ok then Done else LinkClash;
    }

    method UpdateVideoStatus(v: string, status: string) returns (outcome: Outcome)
      requires Valid()
      modifies this`videos
      ensures Valid() && (Value(), outcome) == SetStatus(old(Value()), v, status)
    {
      SetStatusKeepsInv(Value(), v, status);
      if v !in videos {
        return NotFound;
      }
      videos := videos[v := videos[v].(status := status)];
      outcome := Done;
    }

    method PatchVideoStatus(v: string, status: string, error: Option<string>) returns (outcome: Outcome)
      requires Valid()
      modifies this`videos
      ensures Valid() && (Value(), outcome) == PatchStatus(old(Value()), v, status, error)
    {
      PatchStatusKeepsInv(Value(), v, status, error);
      if status !in VALID_STATUSES {
        return Invalid;
      }
      if v !in videos {
        return NotFound;
      }
      videos := videos[v := videos[v].(status := status, error := error)];
      outcome := Done;
    }

    method PutHlsEncode(v: string, e: EncodingData) returns (outcome: Outcome)
      requires Valid()
      modifies this`encodings
      ensures Valid() && (Value(), outcome) == PutEncode(old(Value()), v, e)
    {
      PutEncodeKeepsInv(Value(), v, e);
      if v !in videos || e.profile !in profiles {
        return NotFound;
      }
      encodings := Filter(NotOfProfile(v, e.profile), encodings);
      encodings := encodings + NewEncodings(v, [e]);
      outcome := Done;
    }

    // -------------------------------------------------------------- links and images

    method RemoveVideoForCourse(course: string, v: string) returns (outcome: ImageOutcome)
      requires Valid()
      modifies this`links
      ensures Valid()
      ensures (links, outcome) == SoftDelete(old(links), LinkKey(course, v))
    {
      var k := LinkKey(course, v);
      if k !in links {
        return NoLink;
      }
      links := links[k := links[k].(hidden := true)];
      outcome := Saved;
    }

    /** `VideoImage.create_or_update` without image data. */
    method SetVideoImage(k: LinkKey, fileName: string, generated: seq<string>) returns (outcome: ImageOutcome)
      modifies this`links
      ensures (links, outcome) == SetImage(old(links), k, fileName, generated)
    {
      if k !in links {
        return NoLink;
      }
      if links[k].image.None? {
        links := links[k := links[k].(image := Some(Image("", [])))];
      }
      var row := links[k].image.value;
      var name := fileName;
      if generated != [] {
        row := row.(generated := generated);
        if row.name == "" {
          name := generated[0];
        }
      }
      if name != "" {
        row := row.(name := name);
      }
      if |row.generated| > MAX_GENERATED_IMAGES {
        assert links == WithImage(old(links), k, ImageRow(old(links)[k]));
        return TooManyImages;
      }
      links := links[k := links[k].(image := Some(row))];
      assert links == WithImage(old(links), k, row);
      outcome := Saved;
    }

    /** `VideoImage.create_or_update` with image data; `ok` tells whether the storage accepts the new file. */
    method UploadVideoImage(k: LinkKey, stored: string, ok: bool) returns (outcome: ImageOutcome)
      requires k in links
      modifies this`links, this`images
      ensures (links, images, outcome) == Upload(old(links), old(images), k, stored, ok)
    {
      var created := links[k].image.None?;
      if created {
        links := links[k := links[k].(image := Some(Image("", [])))];
      }
      var row := links[k].image.value;
      if !created && |Holders(links, row.name)| == 1 {
        if row.name != "" {
          images := images - {row.name};
          row := row.(name := "");
          links := links[k := links[k].(image := Some(row))];
        }
      }
      assert links == WithImage(old(links), k, row);
      if !ok {
        return ImageOutcome.StorageFailed;
      }
      images := images + {stored};
      links := links[k := links[k].(image := Some(row.(name := stored)))];
      assert links == WithImage(old(links), k, row.(name := stored));
      outcome := Saved;
    }

    /** The images view: too long a list is refused before anything is looked up. */
    method PostVideoImages(course: string, v: string, generated: seq<string>) returns (outcome: ImageOutcome)
      requires Valid()
      modifies this`links
      ensures Valid()
      ensures |generated| > MAX_GENERATED_IMAGES ==> outcome == TooManyImages && links == old(links)
      ensures |generated| <= MAX_GENERATED_IMAGES ==>
                (links, outcome) == SetImage(old(links), LinkKey(course, v), "", generated) && outcome != TooManyImages
    {
      if |generated| > MAX_GENERATED_IMAGES {
        return TooManyImages;
      }
      outcome := SetVideoImage(LinkKey(course, v), "", generated);
    }

    /** `update_video_image` with image data. */
    method UpdateVideoImage(course: string, v: string, stored: string, ok: bool) returns (outcome: ImageOutcome)
      requires Valid()
      modifies this`links, this`images
      ensures Valid()
      ensures (links, images, outcome) == Upload(old(links), old(images), LinkKey(course, v), stored, ok)
    {
      if LinkKey(course, v) !in links {
        return NoLink;
      }
      outcome := UploadVideoImage(LinkKey(course, v), stored, ok);
    }

    /** The body of the copy loop: get or create the destination's link, then share the source row's image. */
    method CopyLink(k: LinkKey, source: Link)
      requires k in links && links[k].image.Some? ==> |links[k].image.value.generated| <= MAX_GENERATED_IMAGES
      modifies this`links
      ensures links == old(links)[k := Copied(LinkOrNew(old(links), k), source)]
    {
      if k !in links {
        links := links[k := Link(false, None)];
      }
      assert links == old(links)[k := LinkOrNew(old(links), k)];
      if source.image.Some? {
        var outcome := SetVideoImage(k, source.image.value.name, []);
      }
    }

    method CopyLinks(src: string, dst: string)
      requires src != dst
      requires forall k :: k in links && links[k].image.Some? ==>
                 |links[k].image.value.generated| <= MAX_GENERATED_IMAGES
      modifies this`links
      ensures links == Copy(old(links), src, dst)
    {
      var source := links;
      var pending := VideosIn(source, src);
      ghost var done: set<string> := {};
      forall v | v in pending ensures LinkKey(src, v) in source { InVideosIn(source, src, v); }
      assert links == CopyOf(source, src, dst, done);
      while pending != {}
        invariant done + pending == VideosIn(source, src) && done !! pending
        invariant forall v :: v in done + pending ==> LinkKey(src, v) in source
        invariant links == CopyOf(source, src, dst, done)
        decreases pending
      {
        var v :| v in pending;
        pending := pending - {v};
        var k := LinkKey(dst, v);
        assert LinkOrNew(links, k) == LinkOrNew(source, k);
        CopyOneMore(source, src, dst, done, v);
        CopyLink(k, source[LinkKey(src, v)]);
        done := done + {v};
      }
      assert done == VideosIn(source, src);
    }

    method CopyCourseVideos(src: string, dst: string)
      requires Valid()
      modifies this`links
      ensures Valid() && links == Copy(old(links), src, dst)
    {
      Runs.CopyKeepsLinks(links, videos, src, dst);
      if src != dst {
        CopyLinks(src, dst);
      }
    }

    // -------------------------------------------------------------- transcripts

    /** `VideoTranscript.create_or_update`, for an existing video and checked properties. */
    method UpsertTranscript(v: string, l: string, meta: Meta, data: Option<string>, stored: string, ok: bool)
      returns (outcome: TOutcome)
      requires MetaError(meta).None? && v in videos
      modifies this`transcripts, this`blobs
      ensures (TStoreOf(Value()), outcome) == Upsert(old(TStoreOf(Value())), videos.Keys, v, l, meta, data, stored, ok)
    {
      hide FindRow, KeyTaken;
      var found := FindRow(transcripts, v, l);
      var t := if found.Some? then transcripts[found.value] else Transcript(v, l, CUSTOM, "", "");
      var at := if found.Some? then found.value else |transcripts|;
      if meta.provider != "" { t := t.(provider := meta.provider); }
      if meta.language != "" { t := t.(language := meta.language); }
      if meta.format != "" { t := t.(format := meta.format); }
      assert t == Overwrite(TargetRow(transcripts, v, l), meta);
      if data.Some? {
        if !ok {
          return TOutcome.StorageFailed;
        }
        blobs := blobs[stored := data.value];
        t := t.(file := stored);
      } else {
        t := t.(file := if meta.fileName != "" then meta.fileName else stored);
      }
      if KeyTaken(transcripts, at, t) {
        return Clash;
      }
      transcripts := if found.Some? then transcripts[at := t] else transcripts + [t];
      outcome := Stored(t.file, found.None?);
    }

    method CreateOrUpdateTranscript(v: string, l: string, meta: Meta, data: Option<string>, stored: string, ok: bool)
      returns (outcome: TOutcome)
      requires Valid()
      modifies this`transcripts, this`blobs
      ensures Valid()
      ensures (TStoreOf(Value()), outcome) == Upsert(old(TStoreOf(Value())), videos.Keys, v, l, meta, data, stored, ok)
    {
      UpsertKeepsOk(TStoreOf(Value()), videos, v, l, meta, data, stored, ok);
      if meta.format != "" && meta.format !in FORMATS {
        return BadFormat;
      }
      if meta.provider != "" && meta.provider !in PROVIDERS {
        return BadProvider;
      }
      if v !in videos {
        return NoVideo;
      }
      outcome := UpsertTranscript(v, l, meta, data, stored, ok);
    }

    method CreateTranscript(v: string, language: string, format: string, provider: string, content: string,
                            stored: string, ok: bool)
      returns (outcome: TOutcome)
      requires Valid()
      modifies this`transcripts, this`blobs
      ensures Valid()
      ensures (TStoreOf(Value()), outcome)
           == Create(old(TStoreOf(Value())), videos.Keys, v, language, format, provider, content, stored, ok)
    {
      CreateKeepsOk(TStoreOf(Value()), videos, v, language, format, provider, content, stored, ok);
      var l := Strip(language);
      if v !in videos || !ValidText(l, 1, 50) || format !in FORMATS || provider !in PROVIDERS {
        return BadData;
      }
      if !ok {
        return TOutcome.StorageFailed;
      }
      blobs := blobs[stored := content];
      var t := Transcript(v, l, provider, format, stored);
      if KeyTaken(transcripts, |transcripts|, t) {
        return Clash;
      }
      transcripts := transcripts + [t];
      outcome := Stored(stored, true);
    }

    method PostTranscript(v: string, l: string, name: string, provider: string, format: string, stored: string)
      returns (outcome: TOutcome)
      requires Valid()
      modifies this`transcripts, this`blobs
      ensures Valid()
      ensures (TStoreOf(Value()), outcome)
           == Post(old(TStoreOf(Value())), videos.Keys, v, l, name, provider, format, stored)
    {
      if format !in FORMATS {
        return BadFormat;
      }
      if provider !in PROVIDERS {
        return BadProvider;
      }
      if FindRow(transcripts, v, l).Some? {
        return Exists;
      }
      outcome := CreateOrUpdateTranscript(v, l, Meta(provider, "", name, format), None, stored, true);
    }

    method DeleteTranscript(v: string, l: string)
      requires Valid()
      modifies this`transcripts, this`blobs
      ensures Valid()
      ensures TStoreOf(Value()) == Delete(old(TStoreOf(Value())), v, l)
    {
      DeleteKeepsOk(TStoreOf(Value()), videos, v, l);
      var found := FindRow(transcripts, v, l);
      if found.Some? {
        if transcripts[found.value].file != "" {
          blobs := blobs - {transcripts[found.value].file};
        }
        transcripts := transcripts[..found.value] + transcripts[found.value + 1..];
      }
    }

    // -------------------------------------------------------------- import

    method ImportTranscript(archive: Archive, v: string, ev: Event, name: string) returns (ok: bool)
      requires Valid()
      modifies this`transcripts, this`blobs
      ensures Valid()
      ensures (TStoreOf(Value()), ok) == ImportStep(codec, old(TStoreOf(Value())), videos.Keys, archive, v, ev, name)
    {
      var found := FindRow(transcripts, v, ev.language);
      if ev.path !in archive || archive[ev.path].NotUtf8? {
        return true;
      }
      var text := archive[ev.path].text;
      if found.Some? {
        if transcripts[found.value].file !in blobs {
          return false;
        }
        if blobs[transcripts[found.value].file] == text {
          return true;
        }
      }
      var format := TranscriptText.FormatOf(codec, text);
      if format.None? {
        return true;
      }
      var outcome := CreateOrUpdateTranscript(v, ev.language, Meta(ev.provider, ev.language, "", format.value),
                                              Some(text), name, true);
      ok := outcome.Stored? || outcome.NoVideo?;
    }

    /** The loop over the transcript elements; `used` counts the names that were offered to the storage. */
    method ImportElements(els: seq<TranscriptEl>, v: string, archive: Archive, dir: string, names: seq<string>)
      returns (ok: bool, used: nat)
      requires Valid() && |ValEvents(els, v, dir)| <= |names|
      modifies this`transcripts, this`blobs
      ensures Valid() && (ok ==> used == |ValEvents(els, v, dir)|)
      ensures (TStoreOf(Value()), ok)
           == ImportAll(codec, old(TStoreOf(Value())), videos.Keys, archive, v, ValEvents(els, v, dir), names)
    {
      ghost var events := ValEvents(els, v, dir);
      used := 0;
      for i := 0 to |els|
        invariant Valid()
        invariant used + |ValEvents(els[i..], v, dir)| == |events|
        invariant ImportAll(codec, TStoreOf(Value()), videos.Keys, archive, v,
                            ValEvents(els[i..], v, dir), names[used..])
               == ImportAll(codec, old(TStoreOf(Value())), videos.Keys, archive, v, events, names)
      {
        assert els[i..][0] == els[i] && els[i..][1..] == els[i + 1..];
        match els[i] {
          case TranscriptEl(Some(l), Some(f), Some(p)) =>
            var ev := Event(l, Combine(dir, TranscriptName(v, l, f)), p);
            assert ValEvents(els[i..], v, dir) == [ev] + ValEvents(els[i + 1..], v, dir);
            ImportAllStep(codec, TStoreOf(Value()), videos.Keys, archive, v, ev,
                          ValEvents(els[i + 1..], v, dir), names, used);
            ok := ImportTranscript(archive, v, ev, names[used]);
            if !ok {
              return;
            }
            used := used + 1;
          case _ =>
            assert ValEvents(els[i..], v, dir) == ValEvents(els[i + 1..], v, dir);
        }
      }
      ok := true;
    }

    /** The inner loop over the external files of one language. */
    method ImportFiles(l: string, files: seq<string>, v: string, archive: Archive, dir: string, names: seq<string>)
      returns (ok: bool)
      requires Valid() && |FileEvents(l, files, dir)| <= |names|
      modifies this`transcripts, this`blobs
      ensures Valid()
      ensures (TStoreOf(Value()), ok)
           == ImportAll(codec, old(TStoreOf(Value())), videos.Keys, archive, v, FileEvents(l, files, dir), names)
    {
      ghost var events := FileEvents(l, files, dir);
      for j := 0 to |files|
        invariant Valid()
        invariant j + |FileEvents(l, files[j..], dir)| == |events|
        invariant ImportAll(codec, TStoreOf(Value()), videos.Keys, archive, v,
                            FileEvents(l, files[j..], dir), names[j..])
               == ImportAll(codec, old(TStoreOf(Value())), videos.Keys, archive, v, events, names)
      {
        var ev := Event(l, Combine(dir, files[j]), CUSTOM);
        assert files[j..][0] == files[j] && files[j..][1..] == files[j + 1..];
        ImportAllStep(codec, TStoreOf(Value()), videos.Keys, archive, v, ev,
                      FileEvents(l, files[j + 1..], dir), names, j);
        ok := ImportTranscript(archive, v, ev, names[j]);
        if !ok {
          return;
        }
      }
      ok := true;
    }

    /** The outer loop over the languages of the external files. */
    method ImportExternals(ext: Externals, v: string, archive: Archive, dir: string, names: seq<string>)
      returns (ok: bool)
      requires Valid() && |ExternalEvents(ext, dir)| <= |names|
      modifies this`transcripts, this`blobs
      ensures Valid()
      ensures (TStoreOf(Value()), ok)
           == ImportAll(codec, old(TStoreOf(Value())), videos.Keys, archive, v, ExternalEvents(ext, dir), names)
    {
      var used := 0;
      ghost var events := ExternalEvents(ext, dir);
      for i := 0 to |ext|
        invariant Valid()
        invariant 0 <= used && used + |ExternalEvents(ext[i..], dir)| == |events|
        invariant ImportAll(codec, TStoreOf(Value()), videos.Keys, archive, v,
                            ExternalEvents(ext[i..], dir), names[used..])
               == ImportAll(codec, old(TStoreOf(Value())), videos.Keys, archive, v, events, names)
      {
        assert ext[i..][0] == ext[i] && ext[i..][1..] == ext[i + 1..];
        var (l, files) := ext[i];
        FileEventsLength(l, files, dir);
        ImportAllConcat(codec, TStoreOf(Value()), videos.Keys, archive, v, FileEvents(l, files, dir),
                        ExternalEvents(ext[i + 1..], dir), names[used..]);
        assert names[used..][|files|..] == names[used + |files|..];
        ok := ImportFiles(l, files, v, archive, dir, names[used..]);
        if !ok {
          return;
        }
        used := used + |files|;
      }
      ok := true;
    }

    /** `create_transcript_objects`: the elements, then the external files of each language. */
    method CreateTranscriptObjects(els: seq<TranscriptEl>, v: string, archive: Archive, dir: string, ext: Externals,
                                   names: seq<string>) returns (ok: bool)
      requires Valid() && |Events(els, ext, v, dir)| <= |names|
      modifies this`transcripts, this`blobs
      ensures Valid()
      ensures (TStoreOf(Value()), ok)
           == ImportAll(codec, old(TStoreOf(Value())), videos.Keys, archive, v, Events(els, ext, v, dir), names)
    {
      ImportAllConcat(codec, TStoreOf(Value()), videos.Keys, archive, v,
                      ValEvents(els, v, dir), ExternalEvents(ext, dir), names);
      var used;
      ok, used := ImportElements(els, v, archive, dir, names);
      if ok {
        ok := ImportExternals(ext, v, archive, dir, names[used..]);
      }
    }

    /** `import_from_xml`; the result names the video, or says why the import stopped. */
    method ImportFromXml(xml: Xml, id: string, archive: Archive, dir: string, ext: Externals, course: string,
                         newId: string, names: seq<string>) returns (outcome: ImportOutcome)
      requires Valid()
      requires xml.VideoAsset? ==> |Events(xml.transcripts, ext, TargetId(id, newId), dir)| <= |names|
      modifies this`videos, this`order, this`encodings, this`links, this`transcripts, this`blobs
      ensures Valid()
      ensures (Value(), outcome) == ImportXml(codec, old(Value()), xml, id, archive, dir, ext, course, newId, names)
    {
      if xml.OtherElement? {
        return CannotCreate;
      }
      if id != "" && id in videos {
        if course != "" && videos[id].status != EXTERNAL {
          LinkExistingKeepsOk(links, videos, id, course, xml.image);
          var linked := LinkVideo(id, course, xml.image);
          if !linked {
            return CannotCreate;
          }
        }
      } else {
        var data := Some(ExternalVideoData(newId));
        if id != "" {
          data := CollectVideoData(profiles, xml, id, course);
        }
        if data.None? {
          return CannotCreate;
        }
        var created := CreateVideo(data.value);
        if created != Done {
          return CannotCreate;
        }
      }
      var ok := CreateTranscriptObjects(xml.transcripts, TargetId(id, newId), archive, dir, ext, names);
      outcome := if ok then Imported(TargetId(id, newId)) else TranscriptError;
    }

    method LinkVideo(v: string, course: string, image: Option<string>) returns (ok: bool)
      modifies this`links
      ensures (links, ok) == LinkExisting(old(links), v, course, image)
    {
      var k := LinkKey(course, v);
      if k !in links {
        if !ValidCourse(course) {
          return false;
        }
        links := links[k := Link(false, None)];
      }
      var name := if image.Some? then Strip(image.value) else "";
      ok := true;
      if name != "" {
        var outcome := SetVideoImage(k, name, []);
        ok := outcome == Saved;
      }
    }

    // -------------------------------------------------------------- export

    method ExportToXml(v: string, course: string, dir: string) returns (r: Result<Exported, ExportError>)
      requires Valid()
      ensures r == Export(codec, Value(), v, course, dir)
    {
      if v !in videos {
        return Err(NoSuchVideo);
      }
      var k := LinkKey(course, v);
      var image := "";
      if k in links && links[k].image.Some? {
        image := links[k].image.value.name;
      }
      var own := EncodingsOf(encodings, v);
      var elements: seq<EncodingEl> := [];
      for i := 0 to |own|
        invariant elements == ToElements(own)[..i]
      {
        elements := elements + [ToElement(own[i])];
      }
      assert elements == ToElements(own) && image == ImageName(links, k);
      var written := WriteTranscripts(codec, TStoreOf(Value()), v, RowsOf(transcripts, v), dir);
      if written.Err? {
        return Err(written.error);
      }
      r := Ok(Exported(VideoAsset(Some(videos[v].client), Some(videos[v].duration), Some(image), elements,
                                  written.value.0), written.value.1));
    }

    // -------------------------------------------------------------- queries

    method GetUrlsForProfiles(v: string, wanted: seq<string>) returns (urls: map<string, Option<string>>)
      requires Valid()
      ensures Queries.UrlsFor(encodings, v, wanted, urls)
    {
      if v !in videos {
        urls := map p | p in wanted :: None;
        return;
      }
      FilterMembers(OfVideo(v), encodings);
      FilterNoClash(SameProfile(), OfVideo(v), encodings);
      var own := EncodingsOf(encodings, v);
      urls := Queries.CollectUrls(own, v, wanted);
      forall p, u | p in wanted ensures urls[p] == Some(u) <==> Queries.HasUrl(encodings, v, p, u) {
        assert urls[p] == Some(u) <==> Queries.HasUrl(own, v, p, u);
        OwnEncoding(encodings, v, p, u);
      }
    }

    /** `rows` is the answer of the joined query, whose order the database chooses. */
    method GetVideoInfoForCourseAndProfiles(course: string, wanted: set<string>, rows: seq<Encoding>)
      returns (info: map<string, Queries.VideoInfo>)
      requires Valid()
      requires forall e :: e in rows ==> Queries.InCourse(Value(), course, wanted, e)
      requires forall e :: Queries.InCourse(Value(), course, wanted, e) ==> e in rows
      ensures Queries.NestedFor(Value(), course, wanted, info)
    {
      info := Queries.BuildNested(Value(), course, wanted, rows);
    }
  }

  lemma CopyOneMore(links: Links, src: string, dst: string, done: set<string>, v: string)
    requires src != dst && v !in done && LinkKey(src, v) in links
    requires forall w :: w in done ==> LinkKey(src, w) in links
    ensures CopyOf(links, src, dst, done + {v})
         == CopyOf(links, src, dst, done)[LinkKey(dst, v) := CopiedLink(links, src, dst, v)]
  {
  }

  lemma ImportAllStep(codec: Codec, st: TStore, videos: set<string>, archive: Archive, v: string, ev: Event,
                      rest: seq<Event>, names: seq<string>, used: nat)
    requires used + 1 + |rest| <= |names|
    ensures var (next, ok) := ImportStep(codec, st, videos, archive, v, ev, names[used]);
            ImportAll(codec, st, videos, archive, v, [ev] + rest, names[used..])
            == (if ok then ImportAll(codec, next, videos, archive, v, rest, names[used + 1..]) else (next, false))
  {
    assert ([ev] + rest)[1..] == rest && names[used..][1..] == names[used + 1..];
  }

  lemma {:induction false} ImportAllConcat(codec: Codec, st: TStore, videos: set<string>, archive: Archive, v: string,
                                           a: seq<Event>, b: seq<Event>, names: seq<string>)
    requires |a| + |b| <= |names|
    ensures var (next, ok) := ImportAll(codec, st, videos, archive, v, a, names);
            ImportAll(codec, st, videos, archive, v, a + b, names)
            == (if ok then ImportAll(codec, next, videos, archive, v, b, names[|a|..]) else (next, false))
    decreases |a|
  {
    if a == [] {
      assert a + b == b && names[0..] == names;
    } else {
      assert (a + b)[1..] == a[1..] + b && names[1..][|a| - 1..] == names[|a|..];
      var next := ImportStep(codec, st, videos, archive, v, a[0], names[0]).0;
      ImportAllConcat(codec, next, videos, archive, v, a[1..], b, names[1..]);
    }
  }

  lemma {:induction false} FileEventsLength(l: string, files: seq<string>, dir: string)
    ensures |FileEvents(l, files, dir)| == |files|
  {
    if files != [] {
      FileEventsLength(l, files[1..], dir);
    }
  }

  /** The loop of `create_transcripts_xml`: a file and an element per transcript. */
  method WriteTranscripts(codec: Codec, st: TStore, v: string, rows: seq<Transcript>, dir: string)
    returns (r: Result<(seq<TranscriptEl>, Archive), ExportError>)
    ensures r == ExportRows(codec, st, v, rows, dir, map[])
  {
    var els: seq<TranscriptEl> := [];
    var files: Archive := map[];
    ghost var all := ExportRows(codec, st, v, rows, dir, map[]);
    assert rows[0..] == rows && (all.Ok? ==> [] + all.value.0 == all.value.0);
    for i := 0 to |rows|
      invariant var rest := ExportRows(codec, st, v, rows[i..], dir, files);
                all == if rest.Ok? then Ok((els + rest.value.0, rest.value.1)) else rest
    {
      assert rows[i..][0] == rows[i] && rows[i..][1..] == rows[i + 1..];
      var text := SrtOf(codec, st, v, rows[i]);
      if text.Err? {
        return Err(text.error);
      }
      var el := ToTranscriptEl(rows[i]);
      ghost var before := els;
      files := files[SrtPath(dir, v, rows[i].language) := Text(text.value)];
      els := els + [el];
      ghost var rest := ExportRows(codec, st, v, rows[i + 1..], dir, files);
      assert rest.Ok? ==> before + ([el] + rest.value.0) == els + rest.value.0;
    }
    assert els + [] == els;
    r := Ok((els, files));
  }

  /** The loop that collects the encodings of known profiles for a new video. */
  method CollectVideoData(profiles: set<string>, xml: Xml, id: string, course: string) returns (data: Option<VideoData>)
    requires xml.VideoAsset?
    ensures data == NewVideoData(profiles, xml, id, course)
  {
    var known: seq<EncodingEl> := [];
    for i := 0 to |xml.encodings|
      invariant Filter(KnownProfile(profiles), xml.encodings)
             == known + Filter(KnownProfile(profiles), xml.encodings[i..])
    {
      var e := xml.encodings[i];
      assert xml.encodings[i..][0] == e && xml.encodings[i..][1..] == xml.encodings[i + 1..];
      if e.profile.Some? && e.profile.value in profiles {
        known := known + [e];
      }
    }
    assert known == Filter(KnownProfile(profiles), xml.encodings);
    if xml.client.None? || xml.duration.None? || exists e :: e in known && !AllGiven(e) {
      return None;
    }
    var image := if xml.image.Some? then xml.image.value else "";
    var status, courses := IMPORTED, if course == "" then [] else [Course(course, image)];
    if known == [] {
      status, courses := EXTERNAL, [];
    }
    data := Some(VideoData(id, xml.client.value, xml.duration.value, status, None, ToData(known), courses));
  }

  lemma OwnEncoding(encodings: seq<Encoding>, v: string, p: string, u: string)
    ensures Queries.HasUrl(EncodingsOf(encodings, v), v, p, u) <==> Queries.HasUrl(encodings, v, p, u)
  {
    FilterMembers(OfVideo(v), encodings);
    if Queries.HasUrl(encodings, v, p, u) {
      var e :| e in encodings && e.video == v && e.profile == p && e.url == u;
      assert e in EncodingsOf(encodings, v);
    }
  }
}
