/** The tables of the video store, their rows, and the invariant that every operation keeps. */
module Tables {
  import opened Prelude
  import opened Whitespace

  const EXTERNAL := "external"
  const IMPORTED := "imported"
  const FILE_COMPLETE := "file_complete"
  const CUSTOM := "Custom"
  const PROVIDERS := {"Custom", "3PlayMedia", "Cielo24"}
  const MAX_GENERATED_IMAGES := 3

  datatype Video = Video(client: string, duration: real, status: string, error: Option<string>)

  datatype Encoding = Encoding(video: string, profile: string, url: string, size: int, bitrate: int)

  datatype LinkKey = LinkKey(course: string, video: string)

  /** The image row of a link; the empty name means that no image is set. */
  datatype Image = Image(name: string, generated: seq<string>)

  datatype Link = Link(hidden: bool, image: Option<Image>)

  /** `file` names the stored content, which need not exist. */
  datatype Transcript = Transcript(video: string, language: string, provider: string, format: string, file: string)

  /**
   The whole store. `order` lists the video ids by primary key; `encodings` and `transcripts` are in
   primary key order; (course, video) is a unique key of the links. `images` holds the names in the image
   storage and `blobs` the contents of the transcript storage.
   */
  datatype Db = Db(
    profiles: set<string>,
    videos: map<string, Video>,
    order: seq<string>,
    encodings: seq<Encoding>,
    links: map<LinkKey, Link>,
    images: set<string>,
    transcripts: seq<Transcript>,
    blobs: map<string, string>)

  const EMPTY := Db({}, map[], [], [], map[], {}, [], map[])

  // ---------------------------------------------------------------- what the callers hand over

  datatype EncodingData = EncodingData(profile: string, url: string, size: int, bitrate: int)

  /** A course entry; an empty entry is dropped, a missing image is the empty name. */
  datatype CourseData = Nothing | Course(id: string, image: string)

  datatype VideoData = VideoData(id: string, client: string, duration: real, status: string,
                                 error: Option<string>, encodings: seq<EncodingData>, courses: seq<CourseData>)

  // ---------------------------------------------------------------- field validators

  predicate UrlSafe(s: string) {
    forall i :: 0 <= i < |s| ==>
      'a' <= s[i] <= 'z' || 'A' <= s[i] <= 'Z' || '0' <= s[i] <= '9' || s[i] == '-' || s[i] == '_'
  }

  predicate ValidVideoId(s: string) { 1 <= |s| <= 100 && UrlSafe(s) }

  /** The pattern's end anchor also matches before one final newline. */
  predicate ValidProfileName(s: string) {
    1 <= |s| <= 50 && (UrlSafe(s) || (s[|s| - 1] == '\n' && UrlSafe(s[..|s| - 1])))
  }

  predicate ValidCourse(s: string) { 1 <= |s| <= 255 }

  /** A text field of a serializer, after trimming: its length, and no null character. */
  predicate ValidText(s: string, least: nat, most: nat) {
    least <= |s| <= most && '\0' !in s
  }

  predicate ValidEncoding(profiles: set<string>, e: EncodingData) {
    e.profile in profiles && ValidText(e.url, 1, 200) && e.size >= 0 && e.bitrate >= 0
  }

  predicate UniqueProfiles(es: seq<EncodingData>) {
    forall i, j :: 0 <= i < j < |es| ==> es[i].profile != es[j].profile
  }

  /** Trimmed data that a serializer accepts. */
  predicate ValidData(profiles: set<string>, d: VideoData) {
    && ValidVideoId(d.id) && ValidText(d.client, 0, 255) && d.duration >= 0.0 && ValidText(d.status, 1, 255)
    && (d.error.Some? ==> '\0' !in d.error.value)
    && (forall e :: e in d.encodings ==> ValidEncoding(profiles, e))
    && UniqueProfiles(d.encodings)
    && (forall c :: c in d.courses && c.Course? ==> ValidCourse(c.id))
  }

  // ---------------------------------------------------------------- invariant

  predicate ValidVideo(id: string, v: Video) {
    ValidVideoId(id) && ValidText(v.client, 0, 255) && Trimmed(v.client) && v.duration >= 0.0
  }

  ghost predicate VideosOk(videos: map<string, Video>, order: seq<string>) {
    && Distinct(order)
    && (forall v :: v in order ==> v in videos)
    && (forall v :: v in videos ==> v in order && ValidVideo(v, videos[v]))
  }

  function SameProfile(): (Encoding, Encoding) -> bool {
    (a: Encoding, b: Encoding) => a.video == b.video && a.profile == b.profile
  }

  /** No video has two encodings with the same profile: nothing in the schema says so. */
  ghost predicate DistinctProfiles(encodings: seq<Encoding>) {
    NoClash(SameProfile(), encodings)
  }

  ghost predicate EncodingsOk(encodings: seq<Encoding>, videos: map<string, Video>, profiles: set<string>) {
    && (forall e :: e in encodings ==> e.video in videos && e.profile in profiles)
    && DistinctProfiles(encodings)
  }

  ghost predicate LinksOk(links: map<LinkKey, Link>, videos: map<string, Video>) {
    forall k :: k in links ==>
      k.video in videos && (links[k].image.Some? ==> |links[k].image.value.generated| <= MAX_GENERATED_IMAGES)
  }

  function SameLanguage(): (Transcript, Transcript) -> bool {
    (a: Transcript, b: Transcript) => a.video == b.video && a.language == b.language
  }

  ghost predicate UniqueLanguages(ts: seq<Transcript>) {
    NoClash(SameLanguage(), ts)
  }

  ghost predicate TranscriptsOk(ts: seq<Transcript>, videos: map<string, Video>) {
    && (forall t :: t in ts ==> t.video in videos && t.provider in PROVIDERS)
    && UniqueLanguages(ts)
  }

  ghost predicate Inv(db: Db) {
    && VideosOk(db.videos, db.order)
    && EncodingsOk(db.encodings, db.videos, db.profiles)
    && LinksOk(db.links, db.videos)
    && TranscriptsOk(db.transcripts, db.videos)
  }
}
