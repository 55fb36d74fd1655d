/** The read side: urls per profile, the nested course dictionary, the HLS worklist and the course listing. */
module Queries {
  import opened Prelude
  import opened Tables
  import opened Videos
  import opened Ordering

  // ---------------------------------------------------------------- urls per profile

  /** Exactly the requested profiles, each with the url of the video's encoding of that profile, or None. */
  ghost predicate UrlsFor(encodings: seq<Encoding>, v: string, profiles: seq<string>,
                          urls: map<string, Option<string>>)
  {
    && (forall p :: p in profiles <==> p in urls)
    && (forall p :: p in profiles ==>
          forall u :: urls[p] == Some(u) <==> HasUrl(encodings, v, p, u))
  }

  ghost predicate HasUrl(encodings: seq<Encoding>, v: string, p: string, u: string) {
    exists e :: e in encodings && e.video == v && e.profile == p && e.url == u
  }

  /** With distinct profiles a key determines the encoding. */
  lemma SameEncoding(encodings: seq<Encoding>, a: Encoding, b: Encoding)
    requires DistinctProfiles(encodings) && a in encodings && b in encodings
    requires a.video == b.video && a.profile == b.profile
    ensures a == b
  {
    var i :| 0 <= i < |encodings| && encodings[i] == a;
    var j :| 0 <= j < |encodings| && encodings[j] == b;
    assert i == j;
  }

  /** `get_urls_for_profiles` on the video's own encodings, in whatever order they come. */
  method CollectUrls(own: seq<Encoding>, v: string, profiles: seq<string>) returns (urls: map<string, Option<string>>)
    requires DistinctProfiles(own) && forall e :: e in own ==> e.video == v
    ensures UrlsFor(own, v, profiles, urls)
  {
    urls := map p | p in profiles :: None;
    for i := 0 to |own|
      invariant forall p :: p in profiles <==> p in urls
      invariant forall p :: p in profiles ==> forall u :: urls[p] == Some(u) <==> HasUrl(own[..i], v, p, u)
    {
      var e := own[i];
      assert own[..i + 1] == own[..i] + [e];
      ghost var before := urls;
      if e.profile in profiles {
        urls := urls[e.profile := Some(e.url)];
      }
      forall p, u | p in profiles
        ensures urls[p] == Some(u) <==> HasUrl(own[..i + 1], v, p, u)
      {
        assert before[p] == Some(u) <==> HasUrl(own[..i], v, p, u);
        if HasUrl(own[..i], v, p, u) {
          var f :| f in own[..i] && f.video == v && f.profile == p && f.url == u;
          assert f in own[..i + 1] && f in own;
          if p == e.profile { SameEncoding(own, f, e); }
        }
        if p == e.profile && u == e.url {
          assert e in own[..i + 1] && e in own;
        }
        if HasUrl(own[..i + 1], v, p, u) {
          var f :| f in own[..i + 1] && f.video == v && f.profile == p && f.url == u;
          if p == e.profile {
            assert f in own && e in own;
            SameEncoding(own, f, e);
          } else {
            assert f in own[..i];
          }
        }
      }
    }
    assert own[..|own|] == own;
  }

  // ---------------------------------------------------------------- the nested course dictionary

  datatype ProfileInfo = ProfileInfo(url: string, size: int)

  datatype VideoInfo = VideoInfo(duration: real, profiles: map<string, ProfileInfo>)

  /** The encodings the joined query selects; hidden links count too. */
  predicate InCourse(db: Db, course: string, profiles: set<string>, e: Encoding) {
    e in db.encodings && e.profile in profiles && LinkKey(course, e.video) in db.links
  }

  function Selected(db: Db, course: string, profiles: set<string>): Encoding -> bool {
    (e: Encoding) => InCourse(db, course, profiles, e)
  }

  predicate Listed(info: map<string, VideoInfo>, e: Encoding) {
    && e.video in info && e.profile in info[e.video].profiles
    && info[e.video].profiles[e.profile] == ProfileInfo(e.url, e.size)
  }

  ghost predicate VideoOccurs(sel: Encoding -> bool, v: string) {
    exists e :: sel(e) && e.video == v
  }

  ghost predicate ProfileOccurs(sel: Encoding -> bool, v: string, p: string) {
    exists e :: sel(e) && e.video == v && e.profile == p
  }

  /** The dictionary's relational meaning: every selected encoding is listed under its video and profile with url and
      size, every video has its duration, and nothing else is listed. */
  ghost predicate NestedOf(sel: Encoding -> bool, videos: map<string, Video>, info: map<string, VideoInfo>) {
    && (forall v :: v in info ==> VideoOccurs(sel, v) && v in videos && info[v].duration == videos[v].duration)
    && (forall e :: sel(e) ==> Listed(info, e))
    && (forall v, p :: v in info && p in info[v].profiles ==> ProfileOccurs(sel, v, p))
  }

  ghost predicate NestedFor(db: Db, course: string, profiles: set<string>, info: map<string, VideoInfo>) {
    NestedOf(Selected(db, course, profiles), db.videos, info)
  }

  ghost predicate DurationsRight(db: Db, info: map<string, VideoInfo>) {
    forall v :: v in info ==> v in db.videos && info[v].duration == db.videos[v].duration
  }

  ghost predicate FromRows(rows: seq<Encoding>, info: map<string, VideoInfo>) {
    && (forall v :: v in info ==> exists e :: e in rows && e.video == v)
    && (forall v, p :: v in info && p in info[v].profiles ==> exists e :: e in rows && e.video == v && e.profile == p)
  }

  /** One round: `setdefault` the video's entry and its profiles, then `update` both. */
  function Added(db: Db, info: map<string, VideoInfo>, e: Encoding): map<string, VideoInfo>
    requires e.video in db.videos
  {
    var profiles := if e.video in info then info[e.video].profiles else map[];
    info[e.video := VideoInfo(db.videos[e.video].duration, profiles[e.profile := ProfileInfo(e.url, e.size)])]
  }

  /** The setdefault/update loop, over the selected encodings in any order. */
  method BuildNested(db: Db, course: string, profiles: set<string>, rows: seq<Encoding>)
    returns (info: map<string, VideoInfo>)
    requires EncodingsOk(db.encodings, db.videos, db.profiles)
    requires forall e :: e in rows ==> InCourse(db, course, profiles, e)
    requires forall e :: InCourse(db, course, profiles, e) ==> e in rows
    ensures NestedFor(db, course, profiles, info)
  {
    info := map[];
    for i := 0 to |rows|
      invariant DurationsRight(db, info)
      invariant forall e :: e in rows[..i] ==> Listed(info, e)
      invariant FromRows(rows[..i], info)
    {
      var e := rows[i];
      assert e in rows && InCourse(db, course, profiles, e);
      assert rows[..i + 1] == rows[..i] + [e];
      forall f | f in rows[..i + 1] ensures Listed(Added(db, info, e), f) {
        assert f in rows;
        AddedKeeps(db, info, e, f);
      }
      AddedFromRows(db, info, e, rows[..i]);
      info := Added(db, info, e);
    }
    assert rows[..|rows|] == rows;
    RowsMeaning(db, course, profiles, rows, info);
  }

  /** What the dictionary says, field by field: a video and profile are listed exactly when the video, linked to the
      course whether hidden or not, has an encoding of that requested profile, and then with its url, its size and the
      video's duration. */
  lemma NestedContents(db: Db, course: string, profiles: set<string>, info: map<string, VideoInfo>,
                       v: string, p: string)
    requires EncodingsOk(db.encodings, db.videos, db.profiles) && NestedFor(db, course, profiles, info)
    ensures (v in info && p in info[v].profiles) <==>
              exists e :: e in db.encodings && e.video == v && e.profile == p && p in profiles
                && LinkKey(course, v) in db.links
    ensures v in info ==> v in db.videos && info[v].duration == db.videos[v].duration && info[v].profiles != map[]
    ensures forall e :: e in db.encodings && e.video == v && e.profile == p && v in info && p in info[v].profiles ==>
              info[v].profiles[p].url == e.url && info[v].profiles[p].size == e.size
  {
    var sel := Selected(db, course, profiles);
    if v in info && p in info[v].profiles {
      assert ProfileOccurs(sel, v, p);
      var e :| sel(e) && e.video == v && e.profile == p;
      assert Listed(info, e);
      forall f | f in db.encodings && f.video == v && f.profile == p ensures f == e {
        SameEncoding(db.encodings, e, f);
      }
    }
    if e :| e in db.encodings && e.video == v && e.profile == p && p in profiles && LinkKey(course, v) in db.links {
      assert sel(e) && Listed(info, e);
    }
    if v in info {
      assert VideoOccurs(sel, v);
      var e :| sel(e) && e.video == v;
      assert Listed(info, e);
    }
  }

  lemma RowsMeaning(db: Db, course: string, profiles: set<string>, rows: seq<Encoding>, info: map<string, VideoInfo>)
    requires forall e :: e in rows ==> InCourse(db, course, profiles, e)
    requires forall e :: InCourse(db, course, profiles, e) ==> e in rows
    requires DurationsRight(db, info) && FromRows(rows, info) && forall e :: e in rows ==> Listed(info, e)
    ensures NestedFor(db, course, profiles, info)
  {
    var sel := Selected(db, course, profiles);
    forall v | v in info ensures VideoOccurs(sel, v) {
      var e :| e in rows && e.video == v;
      assert sel(e);
    }
    forall v, p | v in info && p in info[v].profiles ensures ProfileOccurs(sel, v, p) {
      var e :| e in rows && e.video == v && e.profile == p;
      assert sel(e);
    }
  }

  lemma AddedKeeps(db: Db, info: map<string, VideoInfo>, e: Encoding, f: Encoding)
    requires DistinctProfiles(db.encodings) && e in db.encodings && f in db.encodings && e.video in db.videos
    requires f == e || Listed(info, f)
    ensures Listed(Added(db, info, e), f)
  {
    if f.video == e.video && f.profile == e.profile {
      SameEncoding(db.encodings, e, f);
    }
  }

  lemma AddedFromRows(db: Db, info: map<string, VideoInfo>, e: Encoding, rows: seq<Encoding>)
    requires e.video in db.videos && FromRows(rows, info)
    ensures FromRows(rows + [e], Added(db, info, e))
  {
    var after := Added(db, info, e);
    assert e in rows + [e];
    forall v | v in after ensures exists f :: f in rows + [e] && f.video == v {
      if v != e.video {
        var f :| f in rows && f.video == v;
        assert f in rows + [e];
      }
    }
    forall v, p | v in after && p in after[v].profiles
      ensures exists f :: f in rows + [e] && f.video == v && f.profile == p
    {
      if !(v == e.video && p == e.profile) {
        var f :| f in rows && f.video == v && f.profile == p;
        assert f in rows + [e];
      }
    }
  }

  /** The meaning determines the dictionary, so the order of the rows does not matter. */
  lemma NestedUnique(sel: Encoding -> bool, videos: map<string, Video>,
                     a: map<string, VideoInfo>, b: map<string, VideoInfo>)
    requires NestedOf(sel, videos, a) && NestedOf(sel, videos, b)
    ensures a == b
  {
    forall v ensures (v in a <==> v in b) && (v in a ==> a[v] == b[v]) {
      if v in a { NestedSame(sel, videos, a, b, v); }
      if v in b { NestedSame(sel, videos, b, a, v); }
    }
  }

  lemma NestedSame(sel: Encoding -> bool, videos: map<string, Video>,
                   a: map<string, VideoInfo>, b: map<string, VideoInfo>,
                   v: string)
    requires NestedOf(sel, videos, a) && NestedOf(sel, videos, b) && v in a
    ensures v in b && a[v] == b[v]
  {
    assert VideoOccurs(sel, v);
    var e :| sel(e) && e.video == v;
    assert Listed(b, e);
    forall p ensures (p in a[v].profiles <==> p in b[v].profiles)
      ensures p in a[v].profiles ==> a[v].profiles[p] == b[v].profiles[p]
    {
      if p in a[v].profiles { NestedValue(sel, videos, a, b, v, p); }
      if p in b[v].profiles { NestedValue(sel, videos, b, a, v, p); }
    }
    assert a[v].profiles == b[v].profiles;
  }

  lemma NestedValue(sel: Encoding -> bool, videos: map<string, Video>,
                    a: map<string, VideoInfo>, b: map<string, VideoInfo>,
                    v: string, p: string)
    requires NestedOf(sel, videos, a) && NestedOf(sel, videos, b) && v in a && p in a[v].profiles
    ensures v in b && p in b[v].profiles && b[v].profiles[p] == a[v].profiles[p]
  {
    assert ProfileOccurs(sel, v, p);
    var e :| sel(e) && e.video == v && e.profile == p;
    assert Listed(a, e) && Listed(b, e);
  }

  // ---------------------------------------------------------------- slices and pages

  function Min(a: nat, b: nat): nat { if a < b then a else b }

  /** Python's `s[offset: offset + size]` */
  function Slice<T>(s: seq<T>, offset: nat, size: nat): seq<T> {
    s[Min(offset, |s|)..Min(offset + size, |s|)]
  }

  /** The slices at offsets 0, b, ..., (k - 1) * b, one after the other. */
  function Slices<T>(s: seq<T>, b: nat, k: nat): seq<T> {
    if k == 0 then [] else Slices(s, b, k - 1) + Slice(s, (k - 1) * b, b)
  }

  lemma SliceExtends<T>(s: seq<T>, offset: nat, size: nat)
    ensures s[..Min(offset, |s|)] + Slice(s, offset, size) == s[..Min(offset + size, |s|)]
  {
  }

  lemma {:induction false} SlicesArePrefix<T>(s: seq<T>, b: nat, k: nat)
    ensures Slices(s, b, k) == s[..Min(k * b, |s|)]
  {
    if k == 0 {
    } else {
      SlicesArePrefix(s, b, k - 1);
      assert k * b == (k - 1) * b + b;
      SliceExtends(s, (k - 1) * b, b);
    }
  }

  /** Enough slices give the whole sequence. */
  lemma SlicesCover<T>(s: seq<T>, b: nat, k: nat)
    requires k * b >= |s|
    ensures Slices(s, b, k) == s
  {
    SlicesArePrefix(s, b, k);
  }

  function NumPages(count: nat, perPage: nat): nat
    requires perPage > 0
  {
    if count == 0 then 1 else (count + perPage - 1) / perPage
  }

  /** `Paginator.page`; None stands for the exception about an invalid page number. */
  function Page<T>(s: seq<T>, perPage: nat, number: int): Option<seq<T>>
    requires perPage > 0
  {
    if number < 1 || number > NumPages(|s|, perPage) then None
    else
      var bottom: nat := (number - 1) * perPage;
      Some(Slice(s, bottom, perPage))
  }

  lemma LastPage(count: nat, perPage: nat, n: nat)
    requires perPage > 0 && count > 0 && n > 0
    ensures n <= (count + perPage - 1) / perPage <==> (n - 1) * perPage < count
  {
    var q := (count + perPage - 1) / perPage;
    assert count + perPage - 1 == q * perPage + (count + perPage - 1) % perPage;
    if n <= q {
      MulLe(n, q, perPage);
      assert n * perPage == (n - 1) * perPage + perPage;
    } else {
      MulLe(q, n - 1, perPage);
    }
  }

  lemma MulLe(a: nat, b: nat, c: nat)
    requires a <= b
    ensures a * c <= b * c
  {
  }

  /** Page `number` exists when it is the first or some item falls on it; it holds the `perPage` items from its start,
      or those that are left. */
  lemma PageContents<T>(s: seq<T>, perPage: nat, number: int)
    requires perPage > 0
    ensures Page(s, perPage, number).Some? <==> number == 1 || (number > 1 && (number - 1) * perPage < |s|)
    ensures Page(s, perPage, number).Some? ==>
              var page, start := Page(s, perPage, number).value, (number - 1) * perPage;
              && start <= |s| && |page| == (if |s| - start < perPage then |s| - start else perPage)
              && forall i :: 0 <= i < |page| ==> page[i] == s[start + i]
  {
    if number >= 1 {
      if |s| > 0 {
        LastPage(|s|, perPage, number);
      } else if number > 1 {
        MulLe(1, number - 1, perPage);
      }
    }
  }

  function Pages<T>(s: seq<T>, perPage: nat, n: nat): seq<T>
    requires perPage > 0 && n <= NumPages(|s|, perPage)
  {
    if n == 0 then [] else Pages(s, perPage, n - 1) + Page(s, perPage, n).value
  }

  lemma {:induction false} PagesAreSlices<T>(s: seq<T>, perPage: nat, n: nat)
    requires perPage > 0 && n <= NumPages(|s|, perPage)
    ensures Pages(s, perPage, n) == Slices(s, perPage, n)
  {
    if n > 0 {
      PagesAreSlices(s, perPage, n - 1);
    }
  }

  /** The pages 1 to the last, put together, are the whole listing. */
  lemma PagesCover<T>(s: seq<T>, perPage: nat)
    requires perPage > 0
    ensures Pages(s, perPage, NumPages(|s|, perPage)) == s
  {
    var n := NumPages(|s|, perPage);
    PagesAreSlices(s, perPage, n);
    assert n * perPage >= |s| by {
      if |s| > 0 { DivideUp(|s|, perPage); }
    }
    SlicesCover(s, perPage, n);
  }

  lemma DivideUp(a: nat, b: nat)
    requires b > 0
    ensures (a + b - 1) / b * b >= a
  {
    var c := a + b - 1;
    assert c == c / b * b + c % b;
  }

  // ---------------------------------------------------------------- videos that lack an HLS encoding

  predicate HasProfile(encodings: seq<Encoding>, v: string, p: string) {
    exists e :: e in encodings && e.video == v && e.profile == p
  }

  predicate NeedsHls(db: Db, v: string) {
    v in db.videos && db.videos[v].status == FILE_COMPLETE && !HasProfile(db.encodings, v, "hls")
  }

  function NeedingHls(db: Db): string -> bool { (v: string) => NeedsHls(db, v) }

  /** The query behind the HLS endpoint, in primary key order. */
  function Worklist(db: Db): seq<string> { Filter(NeedingHls(db), db.order) }

  function OtherThan(v: string): string -> bool { (w: string) => w != v }

  function SameId(): (string, string) -> bool { (a: string, b: string) => a == b }

  /** Posting offsets 0, b, 2b, ... lists every video that lacks an HLS encoding exactly once, in primary key order. */
  lemma WorklistCovered(db: Db, b: nat, k: nat)
    requires Inv(db) && k * b >= |Worklist(db)|
    ensures Slices(Worklist(db), b, k) == Worklist(db)
    ensures Distinct(Worklist(db))
    ensures forall v :: v in Worklist(db) <==>
              v in db.videos && db.videos[v].status == "file_complete"
              && !exists e :: e in db.encodings && e.video == v && e.profile == "hls"
    ensures forall i: nat, j: nat :: i < j < |Worklist(db)| ==> Before(db.order, Worklist(db)[i], Worklist(db)[j])
  {
    SlicesCover(Worklist(db), b, k);
    FilterNoClash(SameId(), NeedingHls(db), db.order);
    FilterMembers(NeedingHls(db), db.order);
    forall i: nat, j: nat | i < j < |Worklist(db)|
      ensures Before(db.order, Worklist(db)[i], Worklist(db)[j])
    {
      FilterFollows(NeedingHls(db), db.order, i, j);
    }
  }

  ghost predicate Before<T>(s: seq<T>, x: T, y: T) {
    exists i, j :: 0 <= i < j < |s| && s[i] == x && s[j] == y
  }

  lemma {:induction false} FilterFollows<T>(p: T -> bool, s: seq<T>, i: nat, j: nat)
    requires i < j < |Filter(p, s)|
    ensures Before(s, Filter(p, s)[i], Filter(p, s)[j])
  {
    var rest := Filter(p, s[1..]);
    FilterMembers(p, s[1..]);
    if p(s[0]) && i == 0 {
      assert rest[j - 1] in rest;
      var k :| 0 <= k < |s[1..]| && s[1..][k] == rest[j - 1];
      assert s[0] == Filter(p, s)[0] && s[k + 1] == Filter(p, s)[j];
    } else {
      var d := if p(s[0]) then 1 else 0;
      FilterFollows(p, s[1..], i - d, j - d);
      var a, b :| 0 <= a < b < |s[1..]| && s[1..][a] == rest[i - d] && s[1..][b] == rest[j - d];
      assert s[a + 1] == Filter(p, s)[i] && s[b + 1] == Filter(p, s)[j];
    }
  }

  lemma PutHasProfile(encodings: seq<Encoding>, v: string, e: EncodingData, w: string, p: string)
    ensures HasProfile(PutEncoding(encodings, v, e), w, p)
       <==> HasProfile(encodings, w, p) || (w == v && p == e.profile)
  {
    FilterMembers(NotOfProfile(v, e.profile), encodings);
    var after := PutEncoding(encodings, v, e);
    assert NewEncodings(v, [e])[0] in after;
    if HasProfile(encodings, w, p) && !(w == v && p == e.profile) {
      var x :| x in encodings && x.video == w && x.profile == p;
      assert x in after;
    }
    if HasProfile(after, w, p) && !(w == v && p == e.profile) {
      var x :| x in after && x.video == w && x.profile == p;
      assert x in encodings;
    }
  }

  /** Putting an encoding of profile `hls` takes exactly that video off the list; any other profile changes nothing. */
  lemma PutUpdatesWorklist(db: Db, v: string, e: EncodingData)
    requires PutEncode(db, v, e).1 == Done
    ensures Worklist(PutEncode(db, v, e).0)
         == if e.profile == "hls" then Filter(OtherThan(v), Worklist(db)) else Worklist(db)
  {
    var after := PutEncode(db, v, e).0;
    forall w ensures NeedsHls(after, w) == (NeedsHls(db, w) && !(w == v && e.profile == "hls")) {
      PutHasProfile(db.encodings, v, e, w, "hls");
    }
    if e.profile == "hls" {
      FilterBoth(OtherThan(v), NeedingHls(db), NeedingHls(after), db.order);
    } else {
      FilterSame(NeedingHls(after), NeedingHls(db), db.order);
    }
  }

  // ---------------------------------------------------------------- the course listing

  predicate Visible(links: map<LinkKey, Link>, course: string, k: LinkKey) {
    k in links && k.course == course && !links[k].hidden
  }

  /** The join on (course, not hidden): one row per matching link, in any order. */
  ghost predicate JoinRows(links: map<LinkKey, Link>, course: string, rows: seq<LinkKey>) {
    Distinct(rows) && forall k :: k in rows <==> Visible(links, course, k)
  }

  function VideosOf(rows: seq<LinkKey>): (r: seq<string>)
    ensures |r| == |rows|
    ensures forall i :: 0 <= i < |r| ==> r[i] == rows[i].video
  {
    seq(|rows|, i requires 0 <= i < |rows| => rows[i].video)
  }

  /** A possible answer of the sorted query. */
  ghost predicate Listing(links: map<LinkKey, Link>, course: string, le: (string, string) -> bool, s: seq<string>) {
    SortedBy(le, s) && exists rows :: JoinRows(links, course, rows) && multiset(s) == multiset(VideosOf(rows))
  }

  /** Order by a column, then by the video id. */
  function OrderBy(column: (string, string) -> bool): (string, string) -> bool {
    (a: string, b: string) => column(a, b) && (column(b, a) ==> StringLe(a, b))
  }

  function Descending(le: (string, string) -> bool): (string, string) -> bool {
    (a: string, b: string) => le(b, a)
  }

  lemma OrderByIsTotal(column: (string, string) -> bool)
    requires TotalPreorder(column)
    ensures TotalOrder(OrderBy(column)) && TotalOrder(Descending(OrderBy(column)))
  {
    StringLeIsTotalOrder();
    var le := OrderBy(column);
    forall a, b ensures le(a, b) || le(b, a) {}
    forall a, b, c | le(a, b) && le(b, c) ensures le(a, c) {
      assert column(a, b) && column(b, c) && column(a, c);
      if column(c, a) {
        assert column(b, a) && column(c, b);
      }
    }
  }

  lemma {:induction false} DistinctMultiset<T>(s: seq<T>, x: T)
    requires Distinct(s)
    ensures multiset(s)[x] == if x in s then 1 else 0
  {
    if s == [] {
    } else {
      assert s == [s[0]] + s[1..];
      DistinctMultiset(s[1..], x);
      forall k | 0 <= k < |s[1..]| ensures s[1..][k] != s[0] {
        assert s[1..][k] == s[k + 1];
      }
    }
  }

  lemma JoinVideosDistinct(links: map<LinkKey, Link>, course: string, rows: seq<LinkKey>)
    requires JoinRows(links, course, rows)
    ensures Distinct(VideosOf(rows))
    ensures forall v :: v in VideosOf(rows) <==> Visible(links, course, LinkKey(course, v))
  {
    forall i, j | 0 <= i < j < |rows| ensures rows[i].video != rows[j].video {
      assert rows[i] in rows && rows[j] in rows && rows[i] != rows[j];
    }
    forall v ensures v in VideosOf(rows) <==> Visible(links, course, LinkKey(course, v)) {
      if v in VideosOf(rows) {
        var i :| 0 <= i < |rows| && VideosOf(rows)[i] == v;
        assert rows[i] in rows && rows[i] == LinkKey(course, v);
      }
      if Visible(links, course, LinkKey(course, v)) {
        var i :| 0 <= i < |rows| && rows[i] == LinkKey(course, v);
        assert VideosOf(rows)[i] == v;
      }
    }
  }

  /** The listing shows each video with a link to the course that is not hidden, once, and nothing else. */
  lemma ListingContents(links: map<LinkKey, Link>, course: string, le: (string, string) -> bool, s: seq<string>,
                        v: string)
    requires Listing(links, course, le, s)
    ensures multiset(s)[v] == if LinkKey(course, v) in links && !links[LinkKey(course, v)].hidden then 1 else 0
  {
    var rows :| JoinRows(links, course, rows) && multiset(s) == multiset(VideosOf(rows));
    JoinVideosDistinct(links, course, rows);
    DistinctMultiset(VideosOf(rows), v);
  }

  /** The second sort key makes the answer unique, and descending order is exactly the reverse. */
  lemma ListingDetermined(links: map<LinkKey, Link>, course: string, column: (string, string) -> bool,
                          s: seq<string>, t: seq<string>, d: seq<string>)
    requires TotalPreorder(column)
    requires Listing(links, course, OrderBy(column), s) && Listing(links, course, OrderBy(column), t)
    requires Listing(links, course, Descending(OrderBy(column)), d)
    ensures s == t && d == Reverse(s)
  {
    var le := OrderBy(column);
    OrderByIsTotal(column);
    forall v ensures multiset(s)[v] == multiset(t)[v] == multiset(d)[v] {
      ListingContents(links, course, le, s, v);
      ListingContents(links, course, le, t, v);
      ListingContents(links, course, Descending(le), d, v);
    }
    assert multiset(s) == multiset(t) && multiset(s) == multiset(d);
    SortedUnique(le, s, t);
    ReverseFacts(s);
    SortedUnique(Descending(le), d, Reverse(s));
  }

  /** Equal elements at two places count at least twice. */
  lemma Twice<T>(s: seq<T>, i: nat, j: nat)
    requires i < j < |s| && multiset(s)[s[i]] <= 1
    ensures s[i] != s[j]
  {
    assert s == s[..i + 1] + s[i + 1..];
    assert s[..i + 1][i] == s[i] && s[i + 1..][j - i - 1] == s[j];
    assert s[i] in s[..i + 1] && s[j] in s[i + 1..];
  }

  /** The answer comes by the column, rows that are equal there by ascending video ids. */
  lemma ListingSorted(links: map<LinkKey, Link>, course: string, column: (string, string) -> bool, s: seq<string>,
                      i: nat, j: nat)
    requires TotalPreorder(column) && Listing(links, course, OrderBy(column), s) && i < j < |s|
    ensures column(s[i], s[j])
    ensures column(s[j], s[i]) ==> StringLe(s[i], s[j]) && s[i] != s[j]
  {
    assert OrderBy(column)(s[i], s[j]);
    ListingContents(links, course, OrderBy(column), s, s[i]);
    Twice(s, i, j);
  }

  function Reverse<T>(s: seq<T>): (r: seq<T>)
    ensures |r| == |s|
    ensures forall i :: 0 <= i < |s| ==> r[i] == s[|s| - 1 - i]
  {
    if s == [] then [] else Reverse(s[1..]) + [s[0]]
  }

  lemma {:induction false} ReverseFacts<T>(s: seq<T>)
    ensures multiset(Reverse(s)) == multiset(s)
  {
    if s != [] {
      ReverseFacts(s[1..]);
      assert s == [s[0]] + s[1..];
    }
  }

  /** A sorted answer exists for every set of rows. */
  lemma ListingExists(links: map<LinkKey, Link>, course: string, column: (string, string) -> bool, rows: seq<LinkKey>)
    requires TotalPreorder(column) && JoinRows(links, course, rows)
    ensures Listing(links, course, OrderBy(column), Sort(OrderBy(column), VideosOf(rows)))
  {
    OrderByIsTotal(column);
    SortSorts(OrderBy(column), VideosOf(rows));
    SortPermutes(OrderBy(column), VideosOf(rows));
  }
}
