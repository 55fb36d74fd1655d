/** Course links, their images and the image storage: upload, name-only update, soft delete, course copy. */
module Images {
  import opened Prelude
  import opened Tables

  type Links = map<LinkKey, Link>

  datatype ImageOutcome = Saved | NoLink | StorageFailed | TooManyImages

  // ---------------------------------------------------------------- who refers to what

  predicate HasName(link: Link) {
    link.image.Some? && link.image.value.name != ""
  }

  /** The image names that some row refers to. */
  function Names(links: Links): set<string> {
    set k | k in links && HasName(links[k]) :: links[k].image.value.name
  }

  predicate Holds(links: Links, k: LinkKey, name: string) {
    k in links && links[k].image.Some? && links[k].image.value.name == name
  }

  /** The rows of `VideoImage.objects.filter(image=name)`. */
  function Holders(links: Links, name: string): set<LinkKey> {
    set k | k in links && Holds(links, k, name)
  }

  /** Every image a row refers to is in the storage. */
  predicate RefSafe(links: Links, images: set<string>) {
    Names(links) <= images
  }

  /** The storage holds the images rows refer to and no others. */
  predicate NoLeak(links: Links, images: set<string>) {
    images == Names(links)
  }

  // ---------------------------------------------------------------- VideoImage.create_or_update

  /** The row `get_or_create` returns: an existing one, or a new one without image. */
  function ImageRow(link: Link): Image {
    if link.image.Some? then link.image.value else Image("", [])
  }

  function WithImage(links: Links, k: LinkKey, row: Image): Links
    requires k in links
  {
    links[k := links[k].(image := Some(row))]
  }

  /** The old file is deleted only when the row existed, has a file, and is its only holder. */
  predicate DropsOld(links: Links, k: LinkKey)
    requires k in links
  {
    HasName(links[k]) && |Holders(links, links[k].image.value.name)| == 1
  }

  /**
   An upload: the old file may go first, then the new one is saved under the fresh name `stored`, or saving
   fails (`ok` is false) after the deletion has already happened.
   */
  function Upload(links: Links, images: set<string>, k: LinkKey, stored: string, ok: bool):
    (Links, set<string>, ImageOutcome)
  {
    if k !in links then (links, images, NoLink)
    else
      var row := ImageRow(links[k]);
      var images1 := if DropsOld(links, k) then images - {row.name} else images;
      var row1 := if DropsOld(links, k) then row.(name := "") else row;
      if ok then (WithImage(links, k, row1.(name := stored)), images1 + {stored}, Saved)
      else (WithImage(links, k, row1), images1, StorageFailed)
  }

  /** The name a name-only update writes; the empty name writes nothing. */
  function ChosenName(row: Image, fileName: string, generated: seq<string>): string {
    if generated != [] && row.name == "" then generated[0] else fileName
  }

  function Generated(row: Image, generated: seq<string>): seq<string> {
    if generated != [] then generated else row.generated
  }

  function Named(row: Image, name: string): Image {
    if name == "" then row else row.(name := name)
  }

  /** An update without image data. Too long a list of generated names is refused when the row is saved. */
  function SetImage(links: Links, k: LinkKey, fileName: string, generated: seq<string>): (Links, ImageOutcome) {
    if k !in links then (links, NoLink)
    else
      var row := ImageRow(links[k]);
      var names := Generated(row, generated);
      if |names| > MAX_GENERATED_IMAGES then (WithImage(links, k, row), TooManyImages)
      else (WithImage(links, k, Named(row.(generated := names), ChosenName(row, fileName, generated))), Saved)
  }

  function SoftDelete(links: Links, k: LinkKey): (Links, ImageOutcome) {
    if k !in links then (links, NoLink) else (links[k := links[k].(hidden := true)], Saved)
  }

  // ---------------------------------------------------------------- course copy

  function VideosIn(links: Links, course: string): set<string> {
    set k | k in links && k.course == course :: k.video
  }

  /** A destination row once the source row's image has been copied to it. */
  function Copied(base: Link, source: Link): Link {
    match source.image
    case None => base
    case Some(image) => base.(image := Some(Named(ImageRow(base), image.name)))
  }

  /** `get_or_create` of a link. */
  function LinkOrNew(links: Links, k: LinkKey): Link {
    if k in links then links[k] else Link(false, None)
  }

  /** The destination's row for `v` after it has been copied. */
  function CopiedLink(links: Links, src: string, dst: string, v: string): Link
    requires LinkKey(src, v) in links
  {
    Copied(LinkOrNew(links, LinkKey(dst, v)), links[LinkKey(src, v)])
  }

  /** The links once the videos in `done` have been copied. */
  function CopyOf(links: Links, src: string, dst: string, done: set<string>): Links
    requires forall v :: v in done ==> LinkKey(src, v) in links
  {
    map k | k in links.Keys + (set v | v in done :: LinkKey(dst, v)) ::
      if k.course == dst && k.video in done then CopiedLink(links, src, dst, k.video) else links[k]
  }

  function Copy(links: Links, src: string, dst: string): Links {
    if src == dst then links else CopyOf(links, src, dst, VideosIn(links, src))
  }

  /** What a row looks like after a copy, for every key. */
  lemma CopyAt(links: Links, src: string, dst: string, k: LinkKey)
    requires src != dst
    ensures k in Copy(links, src, dst) <==> k in links || (k.course == dst && LinkKey(src, k.video) in links)
    ensures k in Copy(links, src, dst) ==>
              Copy(links, src, dst)[k] == if k.course == dst && LinkKey(src, k.video) in links
                                          then CopiedLink(links, src, dst, k.video) else links[k]
  {
    assert k.video in VideosIn(links, src) <==> LinkKey(src, k.video) in links by {
      if LinkKey(src, k.video) in links {
        assert LinkKey(src, k.video).video in VideosIn(links, src);
      }
    }
    assert k == LinkKey(k.course, k.video);
  }

  /** The destination gets the union of both courses' videos; no other course changes, and no row of a video that the
      source does not have. */
  lemma CopyUnites(links: Links, src: string, dst: string)
    ensures var after := Copy(links, src, dst);
            && VideosIn(after, dst) == VideosIn(links, dst) + VideosIn(links, src)
            && forall k: LinkKey :: k.course != dst || LinkKey(src, k.video) !in links ==>
                 (k in after <==> k in links) && (k in links ==> after[k] == links[k])
  {
    var after := Copy(links, src, dst);
    if src != dst {
      forall k: LinkKey | k.course != dst || LinkKey(src, k.video) !in links
        ensures (k in after <==> k in links) && (k in links ==> after[k] == links[k])
      {
        CopyAt(links, src, dst, k);
      }
      forall v
        ensures v in VideosIn(after, dst) <==> v in VideosIn(links, dst) || v in VideosIn(links, src)
      {
        CopyAt(links, src, dst, LinkKey(dst, v));
        InVideosIn(links, src, v);
        InVideosIn(links, dst, v);
        InVideosIn(after, dst, v);
      }
    }
  }

  lemma InVideosIn(links: Links, course: string, v: string)
    ensures v in VideosIn(links, course) <==> LinkKey(course, v) in links
  {
    if LinkKey(course, v) in links {
      assert LinkKey(course, v).video in VideosIn(links, course);
    }
  }

  /** Per copied video: an existing destination row keeps its flag and generated names, a new one is visible, a named
      source image is shared, and a source without image row leaves the image as it is. */
  lemma CopyRow(links: Links, src: string, dst: string, v: string)
    requires src != dst && LinkKey(src, v) in links
    ensures var after := Copy(links, src, dst);
            && LinkKey(dst, v) in after
            && after[LinkKey(dst, v)].hidden == (LinkKey(dst, v) in links && links[LinkKey(dst, v)].hidden)
            && (HasName(links[LinkKey(src, v)]) ==>
                  Holds(after, LinkKey(dst, v), links[LinkKey(src, v)].image.value.name))
            && (!HasName(links[LinkKey(src, v)]) ==>
                  (HasName(after[LinkKey(dst, v)]) <==> LinkKey(dst, v) in links && HasName(links[LinkKey(dst, v)])))
            && (!HasName(links[LinkKey(src, v)]) && HasName(after[LinkKey(dst, v)]) ==>
                  after[LinkKey(dst, v)].image.value.name == links[LinkKey(dst, v)].image.value.name)
            && (links[LinkKey(src, v)].image.None? ==>
                  after[LinkKey(dst, v)].image
                  == if LinkKey(dst, v) in links then links[LinkKey(dst, v)].image else None)
            && (links[LinkKey(src, v)].image.Some? ==>
                  && after[LinkKey(dst, v)].image.Some?
                  && after[LinkKey(dst, v)].image.value.generated
                     == if LinkKey(dst, v) in links && links[LinkKey(dst, v)].image.Some?
                        then links[LinkKey(dst, v)].image.value.generated else [])
  {
    CopyAt(links, src, dst, LinkKey(dst, v));
  }

  /** Copying twice is copying once. */
  lemma CopyIdempotent(links: Links, src: string, dst: string)
    ensures Copy(Copy(links, src, dst), src, dst) == Copy(links, src, dst)
  {
    if src != dst {
      var once := Copy(links, src, dst);
      var twice := Copy(once, src, dst);
      forall k
        ensures (k in twice <==> k in once) && (k in once ==> twice[k] == once[k])
      {
        CopyAt(links, src, dst, k);
        CopyAt(once, src, dst, k);
        CopyAt(links, src, dst, LinkKey(src, k.video));
      }
      assert twice.Keys == once.Keys;
    }
  }

  // ---------------------------------------------------------------- who shares a name

  lemma NameIn(links: Links, k: LinkKey)
    requires k in links && HasName(links[k])
    ensures links[k].image.value.name in Names(links)
  {
  }

  lemma OnlyHolder(links: Links, k: LinkKey, other: LinkKey)
    requires k in links && DropsOld(links, k)
    requires other in links && HasName(links[other]) && other != k
    ensures links[other].image.value.name != links[k].image.value.name
  {
    var hs := Holders(links, links[k].image.value.name);
    assert hs == {k} by {
      assert k in hs && |hs - {k}| == 0;
    }
    assert other !in hs;
  }

  /** A name that is not dropped has another holder. */
  lemma KeptName(links: Links, k: LinkKey)
    requires k in links && HasName(links[k])
    ensures !DropsOld(links, k) ==> exists i :: i in links && i != k && Holds(links, i, links[k].image.value.name)
  {
    var n := links[k].image.value.name;
    var hs := Holders(links, n);
    assert k in hs;
    if !DropsOld(links, k) {
      assert hs != {k};
      var i :| i in hs && i != k;
      assert Holds(links, i, n);
    }
  }

  // ---------------------------------------------------------------- what the operations leave

  /** The row names a file that no other row names. */
  predicate SoleHolder(links: Links, k: LinkKey) {
    && k in links && links[k].image.Some? && links[k].image.value.name != ""
    && forall j :: j in links && j != k ==> !Holds(links, j, links[k].image.value.name)
  }

  lemma DropsSole(links: Links, k: LinkKey)
    requires k in links
    ensures DropsOld(links, k) <==> SoleHolder(links, k)
  {
    if HasName(links[k]) {
      KeptName(links, k);
      if DropsOld(links, k) {
        forall j | j in links && j != k ensures !Holds(links, j, links[k].image.value.name) {
          if Holds(links, j, links[k].image.value.name) {
            OnlyHolder(links, k, j);
          }
        }
      }
    }
  }

  /** Other rows and the flag of row `k` are as before. */
  predicate OnlyImageOf(links: Links, after: Links, k: LinkKey) {
    && after.Keys == links.Keys
    && (forall j :: j in links && j != k ==> after[j] == links[j])
    && (k in links ==> after[k].hidden == links[k].hidden)
  }

  /** An upload for a link leaves the new file stored and named by the row, with its old generated names; the old file
      is gone exactly when no other row names it. One that fails has emptied the row's name exactly then. */
  lemma UploadLeaves(links: Links, images: set<string>, k: LinkKey, stored: string, ok: bool)
    requires k in links
    ensures var (links', images', outcome) := Upload(links, images, k, stored, ok);
            var was := links[k].image;
            && outcome == (if ok then Saved else StorageFailed)
            && OnlyImageOf(links, links', k) && links'[k].image.Some?
            && links'[k].image.value.generated == (if was.Some? then was.value.generated else [])
            && (ok ==> links'[k].image.value.name == stored)
            && (!ok ==> links'[k].image.value.name
                        == if was.None? || SoleHolder(links, k) then "" else was.value.name)
            && (forall n :: n in images' <==>
                  || (ok && n == stored)
                  || (n in images && !(SoleHolder(links, k) && n == was.value.name)))
  {
    DropsSole(links, k);
  }

  /** A name-only update for a link: too long a list of generated names only leaves an image row; otherwise a list that
      is given replaces the old one, and the row's name becomes the first generated name if it had none, the given name
      if it is not empty, and stays otherwise. */
  lemma SetImageLeaves(links: Links, k: LinkKey, fileName: string, generated: seq<string>)
    requires k in links
    ensures var (after, outcome) := SetImage(links, k, fileName, generated);
            var oldName := if links[k].image.Some? then links[k].image.value.name else "";
            var oldList := if links[k].image.Some? then links[k].image.value.generated else [];
            && OnlyImageOf(links, after, k) && after[k].image.Some?
            && (outcome == TooManyImages || outcome == Saved)
            && (outcome == TooManyImages <==> |if generated == [] then oldList else generated| > 3)
            && (outcome == TooManyImages ==> after[k].image == Some(Image(oldName, oldList)))
            && (outcome == Saved ==>
                  && after[k].image.value.generated == (if generated == [] then oldList else generated)
                  && after[k].image.value.name
                     == (if generated != [] && oldName == "" then generated[0]
                         else if fileName != "" then fileName else oldName))
  {
  }

  /** Removing a video from a course hides its link, keeps its image, and changes no other link. */
  lemma SoftDeleteLeaves(links: Links, k: LinkKey)
    requires k in links
    ensures var (after, outcome) := SoftDelete(links, k);
            && outcome == Saved && after.Keys == links.Keys
            && after[k].hidden && after[k].image == links[k].image
            && (forall j :: j in links && j != k ==> after[j] == links[j])
  {
  }

  /** For a video that is not linked to the course, none of them changes anything. */
  lemma NotLinked(links: Links, images: set<string>, k: LinkKey, stored: string, ok: bool, fileName: string,
                  generated: seq<string>)
    requires k !in links
    ensures Upload(links, images, k, stored, ok) == (links, images, NoLink)
    ensures SetImage(links, k, fileName, generated) == (links, NoLink)
    ensures SoftDelete(links, k) == (links, NoLink)
  {
  }

  // ---------------------------------------------------------------- safe references and an exact storage

  /** An upload, successful or failing after the deletion, never leaves a row with a missing image. */
  lemma UploadKeepsRefSafe(links: Links, images: set<string>, k: LinkKey, stored: string, ok: bool)
    requires RefSafe(links, images)
    ensures var (links', images', _) := Upload(links, images, k, stored, ok); RefSafe(links', images')
  {
    var (links', images', _) := Upload(links, images, k, stored, ok);
    forall j | j in links' && HasName(links'[j])
      ensures links'[j].image.value.name in images'
    {
      if j != k {
        NameIn(links, j);
        if k in links && DropsOld(links, k) { OnlyHolder(links, k, j); }
      } else if k in links && HasName(links[k]) {
        NameIn(links, k);
      }
    }
  }

  /** An upload under a fresh name neither leaks nor loses a file. */
  lemma UploadKeepsNoLeak(links: Links, images: set<string>, k: LinkKey, stored: string, ok: bool)
    requires NoLeak(links, images) && stored != ""
    ensures var (links', images', _) := Upload(links, images, k, stored, ok); NoLeak(links', images')
  {
    var (links', images', _) := Upload(links, images, k, stored, ok);
    UploadKeepsRefSafe(links, images, k, stored, ok);
    if k in links {
      forall n | n in images' ensures n in Names(links') {
        if ok && n == stored {
          NameIn(links', k);
        } else {
          assert n in Names(links);
          var j :| j in links && HasName(links[j]) && links[j].image.value.name == n;
          if j != k {
            NameIn(links', j);
          } else {
            KeptName(links, k);
            if DropsOld(links, k) {
              assert false;
            } else {
              var i :| i in links && i != k && Holds(links, i, n);
              NameIn(links', i);
            }
          }
        }
      }
    }
  }

  /** A name-only update is safe exactly when the name it writes, if any, is in the storage. */
  lemma SetImageRefSafe(links: Links, images: set<string>, k: LinkKey, fileName: string, generated: seq<string>)
    requires RefSafe(links, images) && k in links
    requires |Generated(ImageRow(links[k]), generated)| <= MAX_GENERATED_IMAGES
    ensures var name := ChosenName(ImageRow(links[k]), fileName, generated);
            RefSafe(SetImage(links, k, fileName, generated).0, images) <==> name == "" || name in images
  {
    var after := SetImage(links, k, fileName, generated).0;
    var name := ChosenName(ImageRow(links[k]), fileName, generated);
    if name != "" {
      NameIn(after, k);
    }
    if name == "" || name in images {
      forall j | j in after && HasName(after[j]) ensures after[j].image.value.name in images {
        if j != k || name == "" {
          NameIn(links, j);
        }
      }
    }
  }

  lemma RefusedImageChangesNoName(links: Links, k: LinkKey, fileName: string, generated: seq<string>)
    requires SetImage(links, k, fileName, generated).1 != Saved
    ensures Names(SetImage(links, k, fileName, generated).0) == Names(links)
  {
    var after := SetImage(links, k, fileName, generated).0;
    forall n ensures n in Names(after) <==> n in Names(links) {
      if n in Names(after) {
        var j :| j in after && HasName(after[j]) && after[j].image.value.name == n;
        NameIn(links, j);
      }
      if n in Names(links) {
        var j :| j in links && HasName(links[j]) && links[j].image.value.name == n;
        NameIn(after, j);
      }
    }
  }

  /** A name-only update keeps the storage exact when and only when the name is stored already and the
      replaced name, if it differs, has another holder. */
  lemma SetImageNoLeak(links: Links, images: set<string>, k: LinkKey, fileName: string, generated: seq<string>)
    requires NoLeak(links, images) && k in links
    requires |Generated(ImageRow(links[k]), generated)| <= MAX_GENERATED_IMAGES
    ensures var row := ImageRow(links[k]);
            var name := ChosenName(row, fileName, generated);
            NoLeak(SetImage(links, k, fileName, generated).0, images)
            <==> name == "" || name == row.name || (name in images && !DropsOld(links, k))
  {
    var row := ImageRow(links[k]);
    var name := ChosenName(row, fileName, generated);
    var after := SetImage(links, k, fileName, generated).0;
    SetImageRefSafe(links, images, k, fileName, generated);
    if name != "" && name != row.name && DropsOld(links, k) {
      assert row.name in images by { NameIn(links, k); }
      forall j | j in after && HasName(after[j]) ensures after[j].image.value.name != row.name {
        if j != k { OnlyHolder(links, k, j); }
      }
      assert row.name !in Names(after);
    }
    if name == "" || name == row.name || (name in images && !DropsOld(links, k)) {
      if name == row.name && name != "" { NameIn(links, k); }
      forall n | n in images ensures n in Names(after) {
        var j :| j in links && HasName(links[j]) && links[j].image.value.name == n;
        if j != k || name == "" || name == row.name {
          NameIn(after, j);
        } else {
          KeptName(links, k);
          var i :| i in links && i != k && Holds(links, i, n);
          NameIn(after, i);
        }
      }
    }
  }

  /** A course copy never leaves a row with a missing image: it only shares names that are already referred to. */
  lemma CopyNames(links: Links, src: string, dst: string)
    ensures Names(Copy(links, src, dst)) <= Names(links)
  {
    if src != dst {
      var after := Copy(links, src, dst);
      forall j | j in after && HasName(after[j]) ensures after[j].image.value.name in Names(links) {
        CopyAt(links, src, dst, j);
        var s := LinkKey(src, j.video);
        if j.course == dst && s in links && HasName(links[s]) {
          NameIn(links, s);
        } else {
          NameIn(links, j);
        }
      }
    }
  }

  lemma CopyKeepsRefSafe(links: Links, images: set<string>, src: string, dst: string)
    requires RefSafe(links, images)
    ensures RefSafe(Copy(links, src, dst), images)
  {
    CopyNames(links, src, dst);
  }

  /** The copy writes a name over this row. */
  predicate Rewritten(links: Links, src: string, dst: string, k: LinkKey) {
    src != dst && k.course == dst && LinkKey(src, k.video) in links && HasName(links[LinkKey(src, k.video)])
  }

  /** A course copy leaks no image exactly when every image has a holder that the copy does not rewrite. */
  lemma CopyNoLeak(links: Links, images: set<string>, src: string, dst: string)
    requires NoLeak(links, images)
    ensures NoLeak(Copy(links, src, dst), images) <==>
              forall n :: n in images ==> exists k :: Holds(links, k, n) && !Rewritten(links, src, dst, k)
  {
    var after := Copy(links, src, dst);
    CopyNames(links, src, dst);
    forall n | n in images
      ensures n in Names(after) <==> exists k :: Holds(links, k, n) && !Rewritten(links, src, dst, k)
    {
      CopyKeepsName(links, src, dst, n);
    }
  }

  lemma CopyKeepsName(links: Links, src: string, dst: string, n: string)
    requires n != ""
    ensures n in Names(Copy(links, src, dst)) <==>
              exists k :: Holds(links, k, n) && !Rewritten(links, src, dst, k)
  {
    var after := Copy(links, src, dst);
    if k :| Holds(links, k, n) && !Rewritten(links, src, dst, k) {
      if src != dst {
        CopyAt(links, src, dst, k);
      }
      NameIn(after, k);
    }
    if n in Names(after) {
      var j :| j in after && HasName(after[j]) && after[j].image.value.name == n;
      if src == dst {
        assert Holds(links, j, n) && !Rewritten(links, src, dst, j);
      } else {
        CopyAt(links, src, dst, j);
        var s := LinkKey(src, j.video);
        if Rewritten(links, src, dst, j) {
          assert Holds(links, s, n) && !Rewritten(links, src, dst, s);
        } else {
          assert Holds(links, j, n);
        }
      }
    }
  }

  /** In particular when no copied video has a named image in the destination yet. */
  lemma CopyIntoBareCourse(links: Links, images: set<string>, src: string, dst: string)
    requires NoLeak(links, images)
    requires forall k :: k in links && Rewritten(links, src, dst, k) ==> !HasName(links[k])
    ensures forall n :: n in images ==> exists k :: Holds(links, k, n) && !Rewritten(links, src, dst, k)
    ensures NoLeak(Copy(links, src, dst), images)
  {
    forall n | n in images
      ensures exists k :: Holds(links, k, n) && !Rewritten(links, src, dst, k)
    {
      var k :| k in links && HasName(links[k]) && links[k].image.value.name == n;
      assert Holds(links, k, n) && !Rewritten(links, src, dst, k);
    }
    CopyNoLeak(links, images, src, dst);
  }
}
