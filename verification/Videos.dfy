/** Creating and updating videos, and replacing their encodings. */
module Videos {
  import opened Prelude
  import opened Tables
  import opened Whitespace

  datatype Outcome = Done | Invalid | NotFound | LinkClash

  function OfVideo(v: string): Encoding -> bool { (e: Encoding) => e.video == v }

  function NotOfVideo(v: string): Encoding -> bool { (e: Encoding) => e.video != v }

  function NotOfProfile(v: string, p: string): Encoding -> bool {
    (e: Encoding) => !(e.video == v && e.profile == p)
  }

  function EncodingsOf(encodings: seq<Encoding>, v: string): seq<Encoding> {
    Filter(OfVideo(v), encodings)
  }

  function NewEncodings(v: string, data: seq<EncodingData>): (r: seq<Encoding>)
    ensures |r| == |data|
    ensures forall i :: 0 <= i < |r| ==> r[i].video == v && r[i].profile == data[i].profile
  {
    seq(|data|, i requires 0 <= i < |data| =>
      Encoding(v, data[i].profile, data[i].url, data[i].size, data[i].bitrate))
  }

  /** `instance.encoded_videos.all().delete()`, then a bulk create. */
  function ReplaceEncodings(encodings: seq<Encoding>, v: string, data: seq<EncodingData>): seq<Encoding> {
    Filter(NotOfVideo(v), encodings) + NewEncodings(v, data)
  }

  /** The encode replacement of the HLS endpoint: delete the video's encoding of that profile, create a new one. */
  function PutEncoding(encodings: seq<Encoding>, v: string, e: EncodingData): seq<Encoding> {
    Filter(NotOfProfile(v, e.profile), encodings) + NewEncodings(v, [e])
  }

  // ---------------------------------------------------------------- course links of a new or updated video

  function IsCourse(): CourseData -> bool { (c: CourseData) => c.Course? }

  /** The entries that survive the clean-up in `validate`. */
  function Kept(courses: seq<CourseData>): (r: seq<CourseData>)
    ensures forall c :: c in r ==> c.Course?
  {
    FilterMembers(IsCourse(), courses);
    Filter(IsCourse(), courses)
  }

  function NewLink(image: string): Link {
    Link(false, if image == "" then None else Some(Image(image, [])))
  }

  /** Saves the links one after the other; an existing (course, video) pair stops the loop. */
  function SaveLinks(links: map<LinkKey, Link>, v: string, courses: seq<CourseData>): (map<LinkKey, Link>, bool)
    requires forall c :: c in courses ==> c.Course?
    decreases |courses|
  {
    if courses == [] then (links, true)
    else if LinkKey(courses[0].id, v) in links then (links, false)
    else SaveLinks(links[LinkKey(courses[0].id, v) := NewLink(courses[0].image)], v, courses[1..])
  }

  // ---------------------------------------------------------------- operations

  function CreateProfile(db: Db, name: string): (Db, Outcome) {
    if !ValidProfileName(name) || name in db.profiles then (db, Invalid)
    else (db.(profiles := db.profiles + {name}), Done)
  }

  function CleanedEncodings(es: seq<EncodingData>): (r: seq<EncodingData>)
    ensures |r| == |es|
  {
    seq(|es|, i requires 0 <= i < |es| => es[i].(url := Strip(es[i].url)))
  }

  /** What the serializer's text fields make of the data; profiles and courses are looked up as given. */
  function Cleaned(d: VideoData): VideoData {
    d.(id := Strip(d.id), client := Strip(d.client), status := Strip(d.status),
       error := if d.error.Some? then Some(Strip(d.error.value)) else None,
       encodings := CleanedEncodings(d.encodings))
  }

  function CreateVideo(db: Db, data: VideoData): (Db, Outcome) {
    var d := Cleaned(data);
    if d.id in db.videos || !ValidData(db.profiles, d) then (db, Invalid)
    else
      var saved := SaveLinks(db.links, d.id, Kept(d.courses));
      (db.(videos := db.videos[d.id := Video(d.client, d.duration, d.status, d.error)],
           order := db.order + [d.id],
           encodings := db.encodings + NewEncodings(d.id, d.encodings),
           links := saved.0),
       if saved.1 then Done else LinkClash)
  }

  /** The video is looked up by the id as given. */
  function UpdateVideo(db: Db, data: VideoData): (Db, Outcome) {
    var v, d := data.id, Cleaned(data);
    if v !in db.videos then (db, NotFound)
    else if !ValidData(db.profiles, d) then (db, Invalid)
    else
      var saved := SaveLinks(db.links, v, Kept(d.courses));
      (db.(videos := db.videos[v := Video(d.client, d.duration, d.status, db.videos[v].error)],
           encodings := ReplaceEncodings(db.encodings, v, d.encodings),
           links := saved.0),
       if saved.1 then Done else LinkClash)
  }

  function SetStatus(db: Db, v: string, status: string): (Db, Outcome) {
    if v !in db.videos then (db, NotFound)
    else (db.(videos := db.videos[v := db.videos[v].(status := status)]), Done)
  }

  const VALID_STATUSES := {"file_complete", "partial_failure", "pipeline_error", "transcription_in_progress",
                           "transcript_failed", "transcript_ready", "transcode_active"}

  /** The status view also overwrites the error description. */
  function PatchStatus(db: Db, v: string, status: string, error: Option<string>): (Db, Outcome) {
    if status !in VALID_STATUSES then (db, Invalid)
    else if v !in db.videos then (db, NotFound)
    else (db.(videos := db.videos[v := db.videos[v].(status := status, error := error)]), Done)
  }

  /** The HLS endpoint checks that the video and the profile exist and nothing else. */
  function PutEncode(db: Db, v: string, e: EncodingData): (Db, Outcome) {
    if v !in db.videos || e.profile !in db.profiles then (db, NotFound)
    else (db.(encodings := PutEncoding(db.encodings, v, e)), Done)
  }

  // ---------------------------------------------------------------- encodings keep distinct profiles

  lemma NewEncodingsDistinct(v: string, data: seq<EncodingData>)
    requires UniqueProfiles(data)
    ensures DistinctProfiles(NewEncodings(v, data))
  {
  }

  lemma ReplaceKeepsDistinct(encodings: seq<Encoding>, v: string, data: seq<EncodingData>)
    requires DistinctProfiles(encodings) && UniqueProfiles(data)
    ensures DistinctProfiles(ReplaceEncodings(encodings, v, data))
  {
    var rest := Filter(NotOfVideo(v), encodings);
    FilterNoClash(SameProfile(), NotOfVideo(v), encodings);
    FilterMembers(NotOfVideo(v), encodings);
    NewEncodingsDistinct(v, data);
    ConcatNoClash(SameProfile(), rest, NewEncodings(v, data));
  }

  lemma PutKeepsDistinct(encodings: seq<Encoding>, v: string, e: EncodingData)
    requires DistinctProfiles(encodings)
    ensures DistinctProfiles(PutEncoding(encodings, v, e))
  {
    var rest := Filter(NotOfProfile(v, e.profile), encodings);
    FilterNoClash(SameProfile(), NotOfProfile(v, e.profile), encodings);
    FilterMembers(NotOfProfile(v, e.profile), encodings);
    ConcatNoClash(SameProfile(), rest, NewEncodings(v, [e]));
  }

  /** The encodings of one video after a replacement: the video's own are exactly the new ones, others keep theirs. */
  lemma ReplacedEncodings(encodings: seq<Encoding>, v: string, data: seq<EncodingData>, w: string)
    ensures EncodingsOf(ReplaceEncodings(encodings, v, data), w)
         == if w == v then NewEncodings(v, data) else EncodingsOf(encodings, w)
  {
    var rest := Filter(NotOfVideo(v), encodings);
    FilterConcat(OfVideo(w), rest, NewEncodings(v, data));
    FilterMembers(NotOfVideo(v), encodings);
    if w == v {
      FilterNone(OfVideo(w), rest);
      FilterAll(OfVideo(w), NewEncodings(v, data));
    } else {
      FilterNone(OfVideo(w), NewEncodings(v, data));
      FilterBoth(OfVideo(w), NotOfVideo(v), OfVideo(w), encodings);
    }
  }

  // ---------------------------------------------------------------- saving links

  /** A visible link with the image of that name, without an image if the name is empty. */
  predicate ShowsImage(link: Link, image: string) {
    && !link.hidden
    && (image == "" ==> link.image == None)
    && (image != "" ==> link.image == Some(Image(image, [])))
  }

  /** Saved links exist, are visible and carry the given image; nothing else changes. */
  lemma {:induction false} SavedLinks(links: map<LinkKey, Link>, v: string, courses: seq<CourseData>)
    requires forall c :: c in courses ==> c.Course?
    ensures var after := SaveLinks(links, v, courses).0;
            && (forall k :: k in links ==> k in after && after[k] == links[k])
            && (forall k :: k in after && k !in links ==>
                  k.video == v && exists c :: c in courses && k.course == c.id && ShowsImage(after[k], c.image))
    ensures SaveLinks(links, v, courses).1 ==>
              forall c :: c in courses ==> LinkKey(c.id, v) in SaveLinks(links, v, courses).0
    decreases |courses|
  {
    if courses == [] || LinkKey(courses[0].id, v) in links {
    } else {
      var k0 := LinkKey(courses[0].id, v);
      var next := links[k0 := NewLink(courses[0].image)];
      SavedLinks(next, v, courses[1..]);
      var after := SaveLinks(links, v, courses).0;
      forall k | k in after && k !in links
        ensures k.video == v && exists c :: c in courses && k.course == c.id && ShowsImage(after[k], c.image)
      {
        if k == k0 {
          assert courses[0] in courses && after[k0] == next[k0];
        }
      }
      if SaveLinks(links, v, courses).1 {
        forall c | c in courses ensures LinkKey(c.id, v) in after {
          assert k0 in next && k0 in after;
          assert c == courses[0] || c in courses[1..];
        }
      }
    }
  }

  predicate Linked(links: map<LinkKey, Link>, v: string, courses: seq<CourseData>)
    requires forall c :: c in courses ==> c.Course?
  {
    exists c :: c in courses && LinkKey(c.id, v) in links
  }

  /** The links are all saved exactly when no course is listed twice and none is linked already. */
  lemma {:induction false} SaveLinksSucceeds(links: map<LinkKey, Link>, v: string, courses: seq<CourseData>)
    requires forall c :: c in courses ==> c.Course?
    ensures SaveLinks(links, v, courses).1 <==>
              !Linked(links, v, courses) && forall i, j :: 0 <= i < j < |courses| ==> courses[i].id != courses[j].id
    decreases |courses|
  {
    if courses == [] {
    } else {
      var k0 := LinkKey(courses[0].id, v);
      var next := links[k0 := NewLink(courses[0].image)];
      assert courses[0] in courses;
      if k0 !in links {
        SaveLinksSucceeds(next, v, courses[1..]);
        if Linked(next, v, courses[1..]) {
          var c :| c in courses[1..] && LinkKey(c.id, v) in next;
          assert c in courses;
          if LinkKey(c.id, v) !in links {
            var j :| 0 <= j < |courses[1..]| && courses[1..][j] == c;
            assert courses[0].id == courses[j + 1].id;
          }
        } else {
          forall c | c in courses ensures LinkKey(c.id, v) !in links {
            if c in courses[1..] {
              assert LinkKey(c.id, v) !in next;
            }
          }
          forall j | 0 < j < |courses| ensures courses[0].id != courses[j].id {
            assert courses[j] == courses[1..][j - 1] && courses[j] in courses[1..];
          }
          assert !Linked(links, v, courses);
          assert SaveLinks(links, v, courses).1 == SaveLinks(next, v, courses[1..]).1;
          if forall i, j :: 0 <= i < j < |courses[1..]| ==> courses[1..][i].id != courses[1..][j].id {
            forall i, j | 0 <= i < j < |courses| ensures courses[i].id != courses[j].id {
              if i > 0 {
                assert courses[i] == courses[1..][i - 1] && courses[j] == courses[1..][j - 1];
              }
            }
          }
        }
      }
    }
  }

  // ---------------------------------------------------------------- the invariant

  lemma CreateProfileKeepsInv(db: Db, name: string)
    requires Inv(db)
    ensures Inv(CreateProfile(db, name).0)
  {
  }

  lemma VideosOkAfterPut(videos: map<string, Video>, order: seq<string>, id: string, v: Video)
    requires VideosOk(videos, order) && ValidVideo(id, v)
    ensures id in videos ==> VideosOk(videos[id := v], order)
    ensures id !in videos ==> VideosOk(videos[id := v], order + [id])
  {
  }

  lemma NewEncodingsKnown(v: string, data: seq<EncodingData>, profiles: set<string>)
    requires forall e :: e in data ==> ValidEncoding(profiles, e)
    ensures forall e :: e in NewEncodings(v, data) ==> e.video == v && e.profile in profiles
  {
    forall e | e in NewEncodings(v, data) ensures e.video == v && e.profile in profiles {
      var i :| 0 <= i < |data| && e == NewEncodings(v, data)[i];
      assert data[i] in data;
    }
  }

  lemma CreateVideoKeepsInv(db: Db, data: VideoData)
    requires Inv(db)
    ensures Inv(CreateVideo(db, data).0)
  {
    var d := Cleaned(data);
    if d.id !in db.videos && ValidData(db.profiles, d) {
      StripTrims(data.client);
      VideosOkAfterPut(db.videos, db.order, d.id, Video(d.client, d.duration, d.status, d.error));
      NewEncodingsDistinct(d.id, d.encodings);
      NewEncodingsKnown(d.id, d.encodings, db.profiles);
      ConcatNoClash(SameProfile(), db.encodings, NewEncodings(d.id, d.encodings));
      SavedLinks(db.links, d.id, Kept(d.courses));
    }
  }

  lemma UpdateVideoKeepsInv(db: Db, data: VideoData)
    requires Inv(db)
    ensures Inv(UpdateVideo(db, data).0)
  {
    var v, d := data.id, Cleaned(data);
    hide SaveLinks, Strip;
    if v in db.videos && ValidData(db.profiles, d) {
      StripTrims(data.client);
      VideosOkAfterPut(db.videos, db.order, v, UpdateVideo(db, data).0.videos[v]);
      ReplaceKeepsDistinct(db.encodings, v, d.encodings);
      NewEncodingsKnown(v, d.encodings, db.profiles);
      FilterMembers(NotOfVideo(v), db.encodings);
      SavedLinks(db.links, v, Kept(d.courses));
    }
  }

  lemma SetStatusKeepsInv(db: Db, v: string, status: string)
    requires Inv(db)
    ensures Inv(SetStatus(db, v, status).0)
  {
    if v in db.videos {
      VideosOkAfterPut(db.videos, db.order, v, db.videos[v].(status := status));
    }
  }

  lemma PatchStatusKeepsInv(db: Db, v: string, status: string, error: Option<string>)
    requires Inv(db)
    ensures Inv(PatchStatus(db, v, status, error).0)
  {
    if v in db.videos {
      VideosOkAfterPut(db.videos, db.order, v, db.videos[v].(status := status, error := error));
    }
  }

  lemma PutEncodeKeepsInv(db: Db, v: string, e: EncodingData)
    requires Inv(db)
    ensures Inv(PutEncode(db, v, e).0)
  {
    if v in db.videos && e.profile in db.profiles {
      PutKeepsDistinct(db.encodings, v, e);
      FilterMembers(NotOfProfile(v, e.profile), db.encodings);
    }
  }

  // ---------------------------------------------------------------- what a create and an update leave

  /** Other videos keep their rows and encodings, and no link is lost or changed. */
  ghost predicate OthersKept(before: Db, after: Db, id: string) {
    && (forall w :: w != id ==> (w in after.videos <==> w in before.videos))
    && (forall w :: w != id && w in before.videos ==> after.videos[w] == before.videos[w])
    && (forall w :: w != id ==> EncodingsOf(after.encodings, w) == EncodingsOf(before.encodings, w))
    && (forall k :: k in before.links ==> k in after.links && after.links[k] == before.links[k])
  }

  predicate CoursesLinked(after: Db, id: string, courses: seq<CourseData>) {
    forall c :: c in courses && c.Course? ==> LinkKey(c.id, id) in after.links
  }

  /** Links that were not there are visible links of the video to those courses, with their images. */
  ghost predicate OnlyCourses(before: Db, after: Db, id: string, courses: seq<CourseData>) {
    forall k :: k in after.links && k !in before.links ==>
      && k.video == id
      && exists c :: c in courses && c.Course? && k.course == c.id && ShowsImage(after.links[k], c.image)
  }

  /** An id that is in use has no white space to trim. */
  lemma IdTrimmed(id: string)
    requires UrlSafe(id)
    ensures Strip(id) == id
  {
    StripTrims(id);
  }

  /** The encodings are those of the data, in its order, with their urls trimmed. */
  predicate StoredEncodings(es: seq<Encoding>, v: string, data: seq<EncodingData>) {
    && |es| == |data|
    && forall i :: 0 <= i < |data| ==>
         es[i] == Encoding(v, data[i].profile, Strip(data[i].url), data[i].size, data[i].bitrate)
  }

  /** The tables that creating and updating videos do not touch. */
  predicate RestKept(before: Db, after: Db) {
    && after.profiles == before.profiles && after.images == before.images
    && after.transcripts == before.transcripts && after.blobs == before.blobs
  }

  lemma AddedEncodings(encodings: seq<Encoding>, v: string, data: seq<EncodingData>, w: string)
    ensures EncodingsOf(encodings + NewEncodings(v, data), w)
         == EncodingsOf(encodings, w) + if w == v then NewEncodings(v, data) else []
  {
    var added := NewEncodings(v, data);
    FilterConcat(OfVideo(w), encodings, added);
    if w == v {
      FilterAll(OfVideo(w), added);
    } else {
      FilterNone(OfVideo(w), added);
    }
  }

  /** What a create leaves, whether its links are all saved or a clash stopped them: the row with trimmed text fields at
      the end of the primary key order, exactly the given encodings, nothing changed on other videos or on existing
      links. A successful one has linked every course. A refused one changes nothing. */
  lemma CreateLeaves(db: Db, data: VideoData)
    requires Inv(db)
    ensures var (after, outcome) := CreateVideo(db, data);
            var id := Strip(data.id);
            && outcome in {Done, Invalid, LinkClash}
            && (outcome == Invalid ==> after == db)
            && (outcome != Invalid ==>
                  && id !in db.videos && id in after.videos && after.order == db.order + [id]
                  && after.videos[id] == Video(Strip(data.client), data.duration, Strip(data.status),
                                               if data.error.Some? then Some(Strip(data.error.value)) else None)
                  && StoredEncodings(EncodingsOf(after.encodings, id), id, data.encodings)
                  && OthersKept(db, after, id) && RestKept(db, after) && OnlyCourses(db, after, id, data.courses))
            && (outcome == Done ==> CoursesLinked(after, id, data.courses))
  {
    hide ValidData, Strip, SaveLinks, VideosOk, LinksOk, TranscriptsOk, NoClash;
    var d := Cleaned(data);
    var added := NewEncodings(d.id, d.encodings);
    SavedLinks(db.links, d.id, Kept(d.courses));
    FilterMembers(IsCourse(), d.courses);
    forall w
      ensures EncodingsOf(db.encodings + added, w) == EncodingsOf(db.encodings, w) + if w == d.id then added else []
    {
      AddedEncodings(db.encodings, d.id, d.encodings, w);
    }
    if d.id !in db.videos {
      FilterNone(OfVideo(d.id), db.encodings);
    }
  }

  /** The same for an update: the row's error description stays, its old encodings are gone. */
  lemma UpdateLeaves(db: Db, data: VideoData)
    requires Inv(db)
    ensures var (after, outcome) := UpdateVideo(db, data);
            var id := data.id;
            && outcome in {Done, Invalid, NotFound, LinkClash}
            && (outcome == NotFound <==> id !in db.videos)
            && (outcome == Invalid || outcome == NotFound ==> after == db)
            && (outcome == Done || outcome == LinkClash ==>
                  && id in after.videos && after.order == db.order
                  && after.videos[id]
                     == Video(Strip(data.client), data.duration, Strip(data.status), db.videos[id].error)
                  && StoredEncodings(EncodingsOf(after.encodings, id), id, data.encodings)
                  && OthersKept(db, after, id) && RestKept(db, after) && OnlyCourses(db, after, id, data.courses))
            && (outcome == Done ==> CoursesLinked(after, id, data.courses))
  {
    var d := Cleaned(data);
    SavedLinks(db.links, data.id, Kept(d.courses));
    FilterMembers(IsCourse(), d.courses);
    forall w ensures EncodingsOf(ReplaceEncodings(db.encodings, data.id, d.encodings), w)
                  == if w == data.id then NewEncodings(data.id, d.encodings) else EncodingsOf(db.encodings, w) {
      ReplacedEncodings(db.encodings, data.id, d.encodings, w);
    }
  }

  // ---------------------------------------------------------------- when they succeed

  /** No course is listed twice and none is linked to the video already. */
  predicate CoursesFree(links: map<LinkKey, Link>, v: string, courses: seq<CourseData>) {
    && (forall c :: c in courses && c.Course? ==> LinkKey(c.id, v) !in links)
    && (forall i, j :: 0 <= i < j < |courses| && courses[i].Course? && courses[j].Course? ==>
          courses[i].id != courses[j].id)
  }

  function SameCourse(): (CourseData, CourseData) -> bool {
    (a: CourseData, b: CourseData) => a.Course? && b.Course? && a.id == b.id
  }

  lemma KeptFree(links: map<LinkKey, Link>, v: string, courses: seq<CourseData>)
    ensures SaveLinks(links, v, Kept(courses)).1 <==> CoursesFree(links, v, courses)
  {
    var kept := Kept(courses);
    FilterMembers(IsCourse(), courses);
    SaveLinksSucceeds(links, v, kept);
    if CoursesFree(links, v, courses) {
      assert NoClash(SameCourse(), courses);
      FilterNoClash(SameCourse(), IsCourse(), courses);
      forall i, j | 0 <= i < j < |kept| ensures kept[i].id != kept[j].id {
        assert kept[i] in kept && kept[j] in kept && !SameCourse()(kept[i], kept[j]);
      }
    }
    if SaveLinks(links, v, kept).1 {
      forall i: nat, j: nat | i < j < |courses| && courses[i].Course? && courses[j].Course?
        ensures courses[i].id != courses[j].id
      {
        var i', j' := FilterOrder(IsCourse(), courses, i, j);
        assert kept[i'].id != kept[j'].id;
      }
    }
  }

  /** A create succeeds exactly when the serializer accepts the trimmed data, the id is new and the courses are free; an
      update likewise, for an id that exists. Courses that are not free leave a clash. */
  lemma SaveSucceeds(db: Db, data: VideoData)
    ensures var outcome := CreateVideo(db, data).1;
            var valid := ValidData(db.profiles, Cleaned(data)) && Strip(data.id) !in db.videos;
            && (outcome == Done <==> valid && CoursesFree(db.links, Strip(data.id), data.courses))
            && (outcome == Invalid <==> !valid)
    ensures var outcome := UpdateVideo(db, data).1;
            var valid := ValidData(db.profiles, Cleaned(data)) && data.id in db.videos;
            && (outcome == Done <==> valid && CoursesFree(db.links, data.id, data.courses))
            && (outcome == Invalid || outcome == NotFound <==> !valid)
  {
    KeptFree(db.links, Strip(data.id), data.courses);
    KeptFree(db.links, data.id, data.courses);
  }

  // ---------------------------------------------------------------- what the small operations leave

  /** Setting the status keeps everything else; the status view also overwrites the error description, refuses a status
      that is not on its list, and fails for an unknown video. */
  lemma StatusLeaves(db: Db, v: string, status: string, error: Option<string>)
    ensures var (after, outcome) := SetStatus(db, v, status);
            if v in db.videos then
              outcome == Done && after == db.(videos := after.videos) && after.videos.Keys == db.videos.Keys
              && after.videos[v] == Video(db.videos[v].client, db.videos[v].duration, status, db.videos[v].error)
              && forall w :: w in db.videos && w != v ==> after.videos[w] == db.videos[w]
            else outcome == NotFound && after == db
    ensures var (after, outcome) := PatchStatus(db, v, status, error);
            var listed := status in ["file_complete", "partial_failure", "pipeline_error", "transcription_in_progress",
                                     "transcript_failed", "transcript_ready", "transcode_active"];
            if listed && v in db.videos then
              outcome == Done && after == db.(videos := after.videos) && after.videos.Keys == db.videos.Keys
              && after.videos[v] == Video(db.videos[v].client, db.videos[v].duration, status, error)
              && forall w :: w in db.videos && w != v ==> after.videos[w] == db.videos[w]
            else outcome == (if listed then NotFound else Invalid) && after == db
  {
  }

  /** Creating a profile adds a valid new name and nothing else; any other name is refused. */
  lemma ProfileLeaves(db: Db, name: string)
    ensures var (after, outcome) := CreateProfile(db, name);
            && after == db.(profiles := after.profiles)
            && (outcome == Done <==> ValidProfileName(name) && name !in db.profiles)
            && after.profiles == (if outcome == Done then db.profiles + {name} else db.profiles)
  {
  }

  /** The encode replacement leaves one encoding of the profile, the given one, behind the video's other encodings. */
  lemma PutEncodeLeaves(db: Db, v: string, e: EncodingData, w: string)
    ensures var (after, outcome) := PutEncode(db, v, e);
            && (outcome == Done <==> v in db.videos && e.profile in db.profiles)
            && (outcome != Done ==> outcome == NotFound && after == db)
            && after == db.(encodings := after.encodings)
            && (outcome == Done ==>
                  EncodingsOf(after.encodings, w)
                  == if w != v then EncodingsOf(db.encodings, w)
                     else Filter(NotOfProfile(v, e.profile), EncodingsOf(db.encodings, v))
                          + [Encoding(v, e.profile, e.url, e.size, e.bitrate)])
  {
    var x := Encoding(v, e.profile, e.url, e.size, e.bitrate);
    assert NewEncodings(v, [e]) == [x];
    var rest := Filter(NotOfProfile(v, e.profile), db.encodings);
    FilterConcat(OfVideo(w), rest, [x]);
    assert [x][1..] == [];
    FilterBoth(OfVideo(w), NotOfProfile(v, e.profile), Both(w, v, e.profile), db.encodings);
    FilterBoth(NotOfProfile(v, e.profile), OfVideo(w), Both(w, v, e.profile), db.encodings);
    if w != v {
      FilterMembers(OfVideo(w), db.encodings);
      FilterAll(NotOfProfile(v, e.profile), EncodingsOf(db.encodings, w));
    }
  }

  function Both(w: string, v: string, p: string): Encoding -> bool {
    (e: Encoding) => e.video == w && !(e.video == v && e.profile == p)
  }
}
