/** Importing transcripts from a course archive. */
module TranscriptImport {
  import opened Prelude
  import opened Tables
  import opened TranscriptTable
  import TranscriptText

  type Codec = TranscriptText.Codec

  /** A file of the archive, as far as decoding it as UTF-8 goes. */
  datatype FileData = NotUtf8 | Text(text: string)

  type Archive = map<string, FileData>

  /** A transcript element; an attribute may be missing. */
  datatype TranscriptEl = TranscriptEl(language: Option<string>, format: Option<string>, provider: Option<string>)

  /** One call of `import_transcript_from_fs`, with the path already combined. */
  datatype Event = Event(language: string, path: string, provider: string)

  /** The names of the external transcript files of each language, in the dictionary's order. */
  type Externals = seq<(string, seq<string>)>

  function Combine(dir: string, name: string): string { dir + "/" + name }

  function TranscriptName(v: string, l: string, format: string): string {
    v + "-" + l + "." + format
  }

  /** The calls made for the transcript elements; an element without one of its attributes makes none. */
  function ValEvents(els: seq<TranscriptEl>, v: string, dir: string): seq<Event> {
    if els == [] then []
    else
      (match els[0]
       case TranscriptEl(Some(l), Some(f), Some(p)) => [Event(l, Combine(dir, TranscriptName(v, l, f)), p)]
       case _ => []) + ValEvents(els[1..], v, dir)
  }

  function FileEvents(l: string, names: seq<string>, dir: string): seq<Event> {
    if names == [] then [] else [Event(l, Combine(dir, names[0]), CUSTOM)] + FileEvents(l, names[1..], dir)
  }

  function ExternalEvents(ext: Externals, dir: string): seq<Event> {
    if ext == [] then [] else FileEvents(ext[0].0, ext[0].1, dir) + ExternalEvents(ext[1..], dir)
  }

  /** All calls of `create_transcript_objects`, VAL transcripts first. */
  function Events(els: seq<TranscriptEl>, ext: Externals, v: string, dir: string): seq<Event> {
    ValEvents(els, v, dir) + ExternalEvents(ext, dir)
  }

  function FileText(archive: Archive, path: string): Option<string> {
    if path in archive && archive[path].Text? then Some(archive[path].text) else None
  }

  /**
   One import: a file that is missing or not UTF-8 is skipped; so is one whose content the language has already,
   and one that is neither JSON nor readable SubRip. False reports an exception: the existing transcript's file is
   missing, or the provider is not supported. `name` is the name the storage would hand back.
   */
  function ImportStep(codec: Codec, st: TStore, videos: set<string>, archive: Archive, v: string, ev: Event,
                      name: string): (TStore, bool)
  {
    match FileText(archive, ev.path)
    case None => (st, true)
    case Some(text) =>
      match Lookup(st, v, ev.language)
      case Some(Entry(None, _, _)) => (st, false)
      case existing =>
        if existing.Some? && existing.value.content == Some(text) then (st, true)
        else
          match TranscriptText.FormatOf(codec, text)
          case None => (st, true)
          case Some(format) =>
            var (after, outcome) :=
              Upsert(st, videos, v, ev.language, Meta(ev.provider, ev.language, "", format), Some(text), name, true);
            (after, outcome.Stored? || outcome.NoVideo?)
  }

  function ImportAll(codec: Codec, st: TStore, videos: set<string>, archive: Archive, v: string,
                     events: seq<Event>, names: seq<string>): (TStore, bool)
    requires |events| <= |names|
    decreases |events|
  {
    if events == [] then (st, true)
    else
      var (next, ok) := ImportStep(codec, st, videos, archive, v, events[0], names[0]);
      if !ok then (next, false)
      else ImportAll(codec, next, videos, archive, v, events[1..], names[1..])
  }

  // ---------------------------------------------------------------- the invariant

  lemma {:induction false} ImportKeepsOk(codec: Codec, st: TStore, videos: map<string, Video>, archive: Archive,
                                         v: string, events: seq<Event>, names: seq<string>)
    requires |events| <= |names| && TranscriptsOk(st.rows, videos)
    ensures TranscriptsOk(ImportAll(codec, st, videos.Keys, archive, v, events, names).0.rows, videos)
    decreases |events|
  {
    if events != [] {
      var ev := events[0];
      var next := ImportStep(codec, st, videos.Keys, archive, v, ev, names[0]).0;
      assert TranscriptsOk(next.rows, videos) by {
        if FileText(archive, ev.path).Some? {
          var text := FileText(archive, ev.path).value;
          var format := TranscriptText.FormatOf(codec, text);
          if format.Some? {
            UpsertKeepsOk(st, videos, v, ev.language, Meta(ev.provider, ev.language, "", format.value),
                          Some(text), names[0], true);
          }
        }
      }
      ImportKeepsOk(codec, next, videos, archive, v, events[1..], names[1..]);
    }
  }

  // ---------------------------------------------------------------- the view per language

  /** A file that is there and decodes; its format is None when the text is neither JSON nor readable SubRip. */
  datatype Reading = Reading(text: string, format: Option<string>, provider: string)

  /** A file that can be imported. */
  datatype Candidate = Candidate(text: string, format: string, provider: string)

  function ReadingOf(codec: Codec, text: string, provider: string): Reading {
    Reading(text, TranscriptText.FormatOf(codec, text), provider)
  }

  /** What an event reads, if it is one of language `l`. */
  function ReadBy(codec: Codec, archive: Archive, ev: Event, l: string): seq<Reading> {
    var text := FileText(archive, ev.path);
    if ev.language == l && text.Some? then [ReadingOf(codec, text.value, ev.provider)] else []
  }

  /** What the events of language `l` read. */
  function ReadsFor(codec: Codec, archive: Archive, events: seq<Event>, l: string): seq<Reading> {
    if events == [] then [] else ReadBy(codec, archive, events[0], l) + ReadsFor(codec, archive, events[1..], l)
  }

  function Candidates(rs: seq<Reading>): seq<Candidate> {
    if rs == [] then []
    else
      (if rs[0].format.Some? then [Candidate(rs[0].text, rs[0].format.value, rs[0].provider)] else [])
      + Candidates(rs[1..])
  }

  function FilesFor(codec: Codec, archive: Archive, events: seq<Event>, l: string): seq<Candidate> {
    Candidates(ReadsFor(codec, archive, events, l))
  }

  function ProviderOf(x: Option<Entry>): string {
    if x.Some? then x.value.provider else CUSTOM
  }

  /** A file with the content that is there changes nothing; an empty provider keeps the old one. */
  function Step(x: Option<Entry>, f: Candidate): Option<Entry> {
    if x.Some? && x.value.content == Some(f.text) then x
    else Some(Entry(Some(f.text), f.format, Or(f.provider, ProviderOf(x))))
  }

  function Fold(x: Option<Entry>, files: seq<Candidate>): Option<Entry>
    decreases |files|
  {
    if files == [] then x else Fold(Step(x, files[0]), files[1..])
  }

  ghost predicate FreshNames(st: TStore, names: seq<string>) {
    Distinct(names) && forall n :: n in names ==> Fresh(st, n)
  }

  // ---------------------------------------------------------------- when an import raises

  predicate Missing(x: Option<Entry>) { x.Some? && x.value.content.None? }

  predicate Accepted(provider: string) { provider == "" || provider in PROVIDERS }

  /** The content before file `i`, given the files before it. */
  function Before(x: Option<Entry>, files: seq<Candidate>, i: nat): Option<string>
    requires i < |files|
  {
    if i > 0 then Some(files[i - 1].text) else if x.Some? then x.value.content else None
  }

  /** A language's files can be imported: if any is read, the old content is there, and every file that replaces a
      different content names a supported provider or none. */
  predicate Clear(x: Option<Entry>, rs: seq<Reading>) {
    var files := Candidates(rs);
    && (rs != [] ==> !Missing(x))
    && forall i :: 0 <= i < |files| && Before(x, files, i) != Some(files[i].text) ==> Accepted(files[i].provider)
  }

  /** What one read file makes of the old entry. */
  function After(x: Option<Entry>, r: Reading): Option<Entry> {
    if r.format.None? then x else Step(x, Candidate(r.text, r.format.value, r.provider))
  }

  /** An exception for one read file: the old content is missing, or the file would replace it and has an unsupported
      provider. */
  predicate Raises(x: Option<Entry>, r: Reading) {
    || Missing(x)
    || (r.format.Some? && !(x.Some? && x.value.content == Some(r.text)) && !Accepted(r.provider))
  }

  /** A single event: when it raises, and what it changes. */
  lemma ImportStepView(codec: Codec, st: TStore, videos: set<string>, archive: Archive, v: string,
                       ev: Event, name: string)
    requires UniqueLanguages(st.rows) && v in videos && Fresh(st, name)
    ensures var (next, ok) := ImportStep(codec, st, videos, archive, v, ev, name);
            var x := Lookup(st, v, ev.language);
            var text := FileText(archive, ev.path);
            && (ok <==> text.None? || !Raises(x, ReadingOf(codec, text.value, ev.provider)))
            && (!ok || text.None? ==> next == st)
            && (ok && text.Some? ==>
                  Lookup(next, v, ev.language) == After(x, ReadingOf(codec, text.value, ev.provider)))
            && UniqueLanguages(next.rows)
            && (forall w, m :: !(w == v && m == ev.language) ==> Lookup(next, w, m) == Lookup(st, w, m))
  {
    var text := FileText(archive, ev.path);
    var x := Lookup(st, v, ev.language);
    if text.Some? && !Raises(x, ReadingOf(codec, text.value, ev.provider)) {
      var format := TranscriptText.FormatOf(codec, text.value);
      if format.Some? && !(x.Some? && x.value.content == Some(text.value)) {
        assert format.value != "";
        UpsertLookup(st, videos, v, ev.language, Meta(ev.provider, ev.language, "", format.value), text, name);
      }
    }
  }

  lemma StepStaysFresh(codec: Codec, st: TStore, videos: set<string>, archive: Archive, v: string,
                       ev: Event, name: string, other: string)
    requires Fresh(st, other) && other != name
    ensures Fresh(ImportStep(codec, st, videos, archive, v, ev, name).0, other)
  {
    var next := ImportStep(codec, st, videos, archive, v, ev, name).0;
    forall i | 0 <= i < |next.rows| ensures next.rows[i].file != other {
      if i < |st.rows| && next.rows[i] == st.rows[i] {
        assert st.rows[i] in st.rows;
      }
    }
  }

  /** A list of files is clear when its first file is and the rest is clear after it. */
  lemma ClearCons(x: Option<Entry>, r: Reading, rest: seq<Reading>)
    ensures Clear(x, [r] + rest) <==> !Raises(x, r) && Clear(After(x, r), rest)
    ensures Fold(x, Candidates([r] + rest)) == Fold(After(x, r), Candidates(rest))
  {
    assert ([r] + rest)[1..] == rest;
    var tail, files := Candidates(rest), Candidates([r] + rest);
    if r.format.Some? {
      var c := Candidate(r.text, r.format.value, r.provider);
      assert files == [c] + tail && files[1..] == tail && files[0] == c;
      assert forall i :: 0 <= i < |tail| ==> files[i + 1] == tail[i];
      forall i | 0 <= i < |tail| ensures Before(x, files, i + 1) == Before(After(x, r), tail, i) {
        assert i > 0 ==> files[i] == tail[i - 1];
      }
      if !Raises(x, r) && Clear(After(x, r), rest) {
        forall i | 0 <= i < |files| && Before(x, files, i) != Some(files[i].text)
          ensures Accepted(files[i].provider)
        {
          if i > 0 {
            assert Before(After(x, r), tail, i - 1) == Before(x, files, i - 1 + 1);
          }
        }
      }
      if Clear(x, [r] + rest) {
        assert Before(x, files, 0) != Some(files[0].text) ==> Accepted(files[0].provider);
        forall i | 0 <= i < |tail| && Before(After(x, r), tail, i) != Some(tail[i].text)
          ensures Accepted(tail[i].provider)
        {
          assert Before(x, files, i + 1) != Some(files[i + 1].text);
        }
      }
    } else {
      assert files == tail;
    }
  }

  // ---------------------------------------------------------------- the outcome of an import

  /** An import succeeds exactly when every language's files are clear. Then the result for every language is its files
      folded into what was there. Other videos' transcripts never change, and keys stay unique, also on failure. */
  lemma {:induction false} ImportView(codec: Codec, st: TStore, videos: set<string>, archive: Archive, v: string,
                                      events: seq<Event>, names: seq<string>)
    requires UniqueLanguages(st.rows) && v in videos && |events| <= |names| && FreshNames(st, names)
    ensures var (after, ok) := ImportAll(codec, st, videos, archive, v, events, names);
            && (ok <==> forall l :: Clear(Lookup(st, v, l), ReadsFor(codec, archive, events, l)))
            && (ok ==> forall l :: Lookup(after, v, l) == Fold(Lookup(st, v, l), FilesFor(codec, archive, events, l)))
            && UniqueLanguages(after.rows)
            && (forall w, m :: w != v ==> Lookup(after, w, m) == Lookup(st, w, m))
    decreases |events|
  {
    if events == [] {
    } else {
      var ev := events[0];
      var m := ev.language;
      assert names[0] in names;
      var (next, ok) := ImportStep(codec, st, videos, archive, v, ev, names[0]);
      ImportStepView(codec, st, videos, archive, v, ev, names[0]);
      var text := FileText(archive, ev.path);
      if text.Some? {
        ClearCons(Lookup(st, v, m), ReadingOf(codec, text.value, ev.provider),
                  ReadsFor(codec, archive, events[1..], m));
      }
      if ok {
        NextView(codec, st, next, archive, v, events);
        forall n | n in names[1..] ensures Fresh(next, n) {
          StepStaysFresh(codec, st, videos, archive, v, ev, names[0], n);
        }
        ImportView(codec, next, videos, archive, v, events[1..], names[1..]);
      } else {
        assert !Clear(Lookup(st, v, m), ReadsFor(codec, archive, events, m));
      }
    }
  }

  /** After an event that did not raise, the remaining events have the same outcome as all events had before. */
  lemma NextView(codec: Codec, st: TStore, next: TStore, archive: Archive, v: string, events: seq<Event>)
    requires events != []
    requires var ev, text := events[0], FileText(archive, events[0].path);
             && (forall l :: l != ev.language || text.None? ==> Lookup(next, v, l) == Lookup(st, v, l))
             && (text.Some? ==>
                   && !Raises(Lookup(st, v, ev.language), ReadingOf(codec, text.value, ev.provider))
                   && Lookup(next, v, ev.language)
                   == After(Lookup(st, v, ev.language), ReadingOf(codec, text.value, ev.provider)))
    ensures forall l :: Clear(Lookup(st, v, l), ReadsFor(codec, archive, events, l))
                     == Clear(Lookup(next, v, l), ReadsFor(codec, archive, events[1..], l))
    ensures forall l :: Fold(Lookup(st, v, l), FilesFor(codec, archive, events, l))
                     == Fold(Lookup(next, v, l), FilesFor(codec, archive, events[1..], l))
  {
    var ev, text := events[0], FileText(archive, events[0].path);
    forall l
      ensures Clear(Lookup(st, v, l), ReadsFor(codec, archive, events, l))
           == Clear(Lookup(next, v, l), ReadsFor(codec, archive, events[1..], l))
      ensures Fold(Lookup(st, v, l), FilesFor(codec, archive, events, l))
           == Fold(Lookup(next, v, l), FilesFor(codec, archive, events[1..], l))
    {
      var rest := ReadsFor(codec, archive, events[1..], l);
      if l == ev.language && text.Some? {
        ClearCons(Lookup(st, v, l), ReadingOf(codec, text.value, ev.provider), rest);
      } else {
        assert [] + rest == rest;
        assert ReadsFor(codec, archive, events, l) == rest;
      }
    }
  }

  lemma {:induction false} FoldConcat(x: Option<Entry>, a: seq<Candidate>, b: seq<Candidate>)
    ensures Fold(x, a + b) == Fold(Fold(x, a), b)
    decreases |a|
  {
    if a == [] {
      assert a + b == b;
    } else {
      assert (a + b)[1..] == a[1..] + b;
      FoldConcat(Step(x, a[0]), a[1..], b);
    }
  }

  lemma {:induction false} ReadsConcat(codec: Codec, archive: Archive, a: seq<Event>, b: seq<Event>, l: string)
    ensures ReadsFor(codec, archive, a + b, l) == ReadsFor(codec, archive, a, l) + ReadsFor(codec, archive, b, l)
  {
    if a == [] {
      assert a + b == b;
    } else {
      assert (a + b)[1..] == a[1..] + b;
      ReadsConcat(codec, archive, a[1..], b, l);
      Associate(ReadBy(codec, archive, a[0], l), ReadsFor(codec, archive, a[1..], l), ReadsFor(codec, archive, b, l));
    }
  }

  // ---------------------------------------------------------------- last file wins; importing twice

  /** The last importable file of a language decides the content. */
  lemma LastFileWins(x: Option<Entry>, files: seq<Candidate>)
    requires files != []
    ensures Fold(x, files).Some? && Fold(x, files).value.content == Some(files[|files| - 1].text)
  {
    var n := |files| - 1;
    assert files == files[..n] + [files[n]];
    FoldConcat(x, files[..n], [files[n]]);
    assert [files[n]][1..] == [];
  }

  /** Every file after the first that replaces a different content has no provider. */
  predicate Silent(files: seq<Candidate>) {
    forall i :: 0 < i < |files| && files[i].text != files[i - 1].text ==> files[i].provider == ""
  }

  predicate OneText(files: seq<Candidate>) {
    forall i :: 0 < i < |files| ==> files[i].text == files[i - 1].text
  }

  lemma Shift(files: seq<Candidate>)
    requires |files| > 1
    ensures OneText(files) <==> files[1].text == files[0].text && OneText(files[1..])
    ensures Silent(files) <==> (files[1].text != files[0].text ==> files[1].provider == "") && Silent(files[1..])
  {
    var rest := files[1..];
    assert forall i :: 0 <= i < |rest| ==> rest[i] == files[i + 1];
    if OneText(rest) && files[1].text == files[0].text {
      forall i | 0 < i < |files| ensures files[i].text == files[i - 1].text {
        if i > 1 {
          assert rest[i - 1].text == rest[i - 2].text;
        }
      }
    }
    if Silent(rest) && (files[1].text != files[0].text ==> files[1].provider == "") {
      forall i | 0 < i < |files| && files[i].text != files[i - 1].text ensures files[i].provider == "" {
        if i > 1 {
          assert rest[i - 1].text != rest[i - 2].text;
        }
      }
    }
    if OneText(files) {
      forall i | 0 < i < |rest| ensures rest[i].text == rest[i - 1].text {
        assert files[i + 1].text == files[i].text;
      }
    }
    if Silent(files) {
      forall i | 0 < i < |rest| && rest[i].text != rest[i - 1].text ensures rest[i].provider == "" {
        assert files[i + 1].text != files[i].text;
      }
    }
  }
  /** Two entries with the content of the first file, after the other files: content always agrees, the format as soon
      as some file differs, the provider as soon as a differing file names one. */
  lemma {:induction false} FoldPair(x: Entry, y: Entry, files: seq<Candidate>)
    requires files != [] && x.content == y.content == Some(files[0].text)
    ensures var a, b := Fold(Some(x), files[1..]), Fold(Some(y), files[1..]);
            && a.Some? && b.Some? && a.value.content == b.value.content
            && (OneText(files) ==> a.value == x && b.value == y)
            && (!OneText(files) ==> a.value.format == b.value.format)
            && (Silent(files) ==> a.value.provider == x.provider && b.value.provider == y.provider)
            && (!Silent(files) ==> a.value.provider == b.value.provider)
    decreases |files|
  {
    var rest := files[1..];
    if rest != [] {
      var x', y' := Step(Some(x), rest[0]).value, Step(Some(y), rest[0]).value;
      Shift(files);
      FoldPair(x', y', rest);
    }
  }

  /** The second import of `files` changes the provider: the first file has the old content but another provider, which
      only counts the second time, since the last file differs from it and no file in between names a provider. */
  predicate ProviderLost(x: Option<Entry>, files: seq<Candidate>) {
    && files != [] && x.Some? && x.value.content == Some(files[0].text)
    && files[0].provider != "" && files[0].provider != x.value.provider
    && files[0].text != files[|files| - 1].text
    && Silent(files)
  }

  lemma {:induction false} OneTextEnds(files: seq<Candidate>)
    requires files != [] && OneText(files)
    ensures files[0].text == files[|files| - 1].text
  {
    if |files| > 1 {
      Shift(files);
      OneTextEnds(files[1..]);
    }
  }

  /** Folding the same files in a second time changes the entry exactly when a provider is lost. */
  lemma FoldTwice(x: Option<Entry>, files: seq<Candidate>)
    ensures Fold(Fold(x, files), files) != Fold(x, files) <==> ProviderLost(x, files)
  {
    if files != [] {
      var once := Fold(x, files);
      LastFileWins(x, files);
      var s, t := Step(x, files[0]).value, Step(once, files[0]).value;
      FoldPair(s, t, files);
      if OneText(files) {
        OneTextEnds(files);
      }
    }
  }

  /** The first file of a language, if the last one differs from it, names a supported provider or none. */
  predicate FirstAccepted(files: seq<Candidate>) {
    files != [] && files[0].text != files[|files| - 1].text ==> Accepted(files[0].provider)
  }

  lemma ClearTwice(x: Option<Entry>, rs: seq<Reading>)
    requires Clear(x, rs)
    ensures Clear(Fold(x, Candidates(rs)), rs) <==> FirstAccepted(Candidates(rs))
  {
    var files := Candidates(rs);
    if files != [] {
      LastFileWins(x, files);
      var once := Fold(x, files);
      forall i | 0 < i < |files| ensures Before(once, files, i) == Before(x, files, i) {}
      if Clear(once, rs) {
        assert Before(once, files, 0) != Some(files[0].text) ==> Accepted(files[0].provider);
      }
    }
  }

  /** Importing the same archive again, under other stored names: whether that succeeds, and which languages change. */
  lemma ImportTwice(codec: Codec, st: TStore, videos: set<string>, archive: Archive, v: string,
                    events: seq<Event>, names: seq<string>, names': seq<string>)
    requires UniqueLanguages(st.rows) && v in videos && |events| <= |names| && FreshNames(st, names)
    requires ImportAll(codec, st, videos, archive, v, events, names).1
    requires |events| <= |names'|
    requires FreshNames(ImportAll(codec, st, videos, archive, v, events, names).0, names')
    ensures var once := ImportAll(codec, st, videos, archive, v, events, names).0;
            var (twice, ok) := ImportAll(codec, once, videos, archive, v, events, names');
            && (ok <==> forall l :: FirstAccepted(FilesFor(codec, archive, events, l)))
            && (ok ==> forall l :: Lookup(twice, v, l) != Lookup(once, v, l)
                              <==> ProviderLost(Lookup(st, v, l), FilesFor(codec, archive, events, l)))
            && (forall w, l :: w != v ==> Lookup(twice, w, l) == Lookup(once, w, l))
  {
    var once := ImportAll(codec, st, videos, archive, v, events, names).0;
    ImportView(codec, st, videos, archive, v, events, names);
    ImportView(codec, once, videos, archive, v, events, names');
    var twice := ImportAll(codec, once, videos, archive, v, events, names').0;
    forall l
      ensures Clear(Lookup(once, v, l), ReadsFor(codec, archive, events, l))
           == FirstAccepted(FilesFor(codec, archive, events, l))
      ensures Fold(Lookup(once, v, l), FilesFor(codec, archive, events, l)) != Lookup(once, v, l)
         <==> ProviderLost(Lookup(st, v, l), FilesFor(codec, archive, events, l))
    {
      assert Clear(Lookup(st, v, l), ReadsFor(codec, archive, events, l));
      ClearTwice(Lookup(st, v, l), ReadsFor(codec, archive, events, l));
      FoldTwice(Lookup(st, v, l), FilesFor(codec, archive, events, l));
    }
  }

  // ---------------------------------------------------------------- order of the external languages

  ghost predicate UniqueKeys(ext: Externals) {
    forall i, j :: 0 <= i < j < |ext| ==> ext[i].0 != ext[j].0
  }

  lemma {:induction false} FileEventsFor(codec: Codec, archive: Archive, l: string, names: seq<string>, dir: string,
                                         m: string)
    requires m != l
    ensures ReadsFor(codec, archive, FileEvents(l, names, dir), m) == []
  {
    if names != [] {
      FileEventsFor(codec, archive, l, names[1..], dir, m);
      assert FileEvents(l, names, dir)[1..] == FileEvents(l, names[1..], dir);
    }
  }

  /** The external files of a language are those of its own entry. */
  lemma {:induction false} ExternalReads(codec: Codec, archive: Archive, ext: Externals, dir: string, i: nat)
    requires UniqueKeys(ext) && i < |ext|
    ensures ReadsFor(codec, archive, ExternalEvents(ext, dir), ext[i].0)
         == ReadsFor(codec, archive, FileEvents(ext[i].0, ext[i].1, dir), ext[i].0)
  {
    var l := ext[i].0;
    ReadsConcat(codec, archive, FileEvents(ext[0].0, ext[0].1, dir), ExternalEvents(ext[1..], dir), l);
    if i == 0 {
      forall j | 0 <= j < |ext[1..]| ensures ext[1..][j].0 != l {
        assert ext[1..][j] == ext[j + 1];
      }
      NoExternalReads(codec, archive, ext[1..], dir, l);
    } else {
      assert ext[1..][i - 1] == ext[i];
      ExternalReads(codec, archive, ext[1..], dir, i - 1);
      FileEventsFor(codec, archive, ext[0].0, ext[0].1, dir, l);
    }
  }

  lemma {:induction false} NoExternalReads(codec: Codec, archive: Archive, ext: Externals, dir: string, l: string)
    requires forall j :: 0 <= j < |ext| ==> ext[j].0 != l
    ensures ReadsFor(codec, archive, ExternalEvents(ext, dir), l) == []
  {
    if ext != [] {
      ReadsConcat(codec, archive, FileEvents(ext[0].0, ext[0].1, dir), ExternalEvents(ext[1..], dir), l);
      FileEventsFor(codec, archive, ext[0].0, ext[0].1, dir, l);
      NoExternalReads(codec, archive, ext[1..], dir, l);
    }
  }

  /** Two dictionaries with the same entries in another order bring in the same files for every language. */
  lemma ExternalOrderIrrelevant(codec: Codec, archive: Archive, ext: Externals, ext': Externals, dir: string, l: string)
    requires UniqueKeys(ext) && UniqueKeys(ext')
    requires multiset(ext) == multiset(ext')
    ensures ReadsFor(codec, archive, ExternalEvents(ext, dir), l)
         == ReadsFor(codec, archive, ExternalEvents(ext', dir), l)
  {
    if i :| 0 <= i < |ext| && ext[i].0 == l {
      assert ext[i] in multiset(ext');
      var j :| 0 <= j < |ext'| && ext'[j] == ext[i];
      ExternalReads(codec, archive, ext, dir, i);
      ExternalReads(codec, archive, ext', dir, j);
    } else {
      forall j | 0 <= j < |ext'| ensures ext'[j].0 != l {
        assert ext'[j] in multiset(ext);
      }
      NoExternalReads(codec, archive, ext, dir, l);
      NoExternalReads(codec, archive, ext', dir, l);
    }
  }

  /** So the order of the external languages matters neither for success nor for what a successful import leaves. */
  lemma ImportOrderIrrelevant(codec: Codec, st: TStore, videos: set<string>, archive: Archive, v: string, dir: string,
                              els: seq<TranscriptEl>, ext: Externals, ext': Externals,
                              names: seq<string>, names': seq<string>)
    requires UniqueKeys(ext) && UniqueKeys(ext') && multiset(ext) == multiset(ext')
    requires UniqueLanguages(st.rows) && v in videos
    requires |Events(els, ext, v, dir)| <= |names| && FreshNames(st, names)
    requires |Events(els, ext', v, dir)| <= |names'| && FreshNames(st, names')
    ensures var (a, okA) := ImportAll(codec, st, videos, archive, v, Events(els, ext, v, dir), names);
            var (b, okB) := ImportAll(codec, st, videos, archive, v, Events(els, ext', v, dir), names');
            okA == okB && (okA ==> forall w, l :: Lookup(a, w, l) == Lookup(b, w, l))
  {
    ImportView(codec, st, videos, archive, v, Events(els, ext, v, dir), names);
    ImportView(codec, st, videos, archive, v, Events(els, ext', v, dir), names');
    forall l
      ensures ReadsFor(codec, archive, Events(els, ext, v, dir), l)
           == ReadsFor(codec, archive, Events(els, ext', v, dir), l)
    {
      ReadsConcat(codec, archive, ValEvents(els, v, dir), ExternalEvents(ext, dir), l);
      ReadsConcat(codec, archive, ValEvents(els, v, dir), ExternalEvents(ext', dir), l);
      ExternalOrderIrrelevant(codec, archive, ext, ext', dir, l);
    }
  }

  // ---------------------------------------------------------------- which file decides

  /** A file that can be imported. */
  predicate Usable(codec: Codec, archive: Archive, path: string) {
    path in archive && archive[path].Text? && TranscriptText.FormatOf(codec, archive[path].text).Some?
  }

  lemma {:induction false} CandidatesConcat(a: seq<Reading>, b: seq<Reading>)
    ensures Candidates(a + b) == Candidates(a) + Candidates(b)
  {
    if a == [] {
      assert a + b == b;
    } else {
      assert (a + b)[1..] == a[1..] + b;
      CandidatesConcat(a[1..], b);
    }
  }

  lemma FilesConcat(codec: Codec, archive: Archive, a: seq<Event>, b: seq<Event>, l: string)
    ensures FilesFor(codec, archive, a + b, l) == FilesFor(codec, archive, a, l) + FilesFor(codec, archive, b, l)
  {
    ReadsConcat(codec, archive, a, b, l);
    CandidatesConcat(ReadsFor(codec, archive, a, l), ReadsFor(codec, archive, b, l));
  }

  lemma OneEvent(codec: Codec, archive: Archive, ev: Event, l: string)
    ensures FilesFor(codec, archive, [ev], l)
         == if ev.language == l && Usable(codec, archive, ev.path)
            then [Candidate(archive[ev.path].text, TranscriptText.FormatOf(codec, archive[ev.path].text).value,
                            ev.provider)]
            else []
  {
    var rs := ReadBy(codec, archive, ev, l);
    assert [ev][1..] == [] && ReadsFor(codec, archive, [ev], l) == rs + [] == rs;
    if rs != [] {
      assert rs == [rs[0]] && rs[1..] == [];
      var c := if rs[0].format.Some? then [Candidate(rs[0].text, rs[0].format.value, rs[0].provider)] else [];
      assert Candidates(rs) == c + [] == c;
    }
  }

  /** No file of these events of language `l` has the text. */
  ghost predicate NoFileWith(codec: Codec, archive: Archive, events: seq<Event>, l: string, text: string) {
    forall ev :: ev in events && ev.language == l && Usable(codec, archive, ev.path) ==> archive[ev.path].text != text
  }

  lemma {:induction false} OtherTexts(codec: Codec, archive: Archive, events: seq<Event>, l: string, text: string)
    requires NoFileWith(codec, archive, events, l, text)
    ensures forall c :: c in FilesFor(codec, archive, events, l) ==> c.text != text
  {
    if events != [] {
      OneEvent(codec, archive, events[0], l);
      OtherTexts(codec, archive, events[1..], l, text);
      FilesConcat(codec, archive, [events[0]], events[1..], l);
      assert [events[0]] + events[1..] == events;
    }
  }

  lemma {:induction false} NoFiles(codec: Codec, archive: Archive, events: seq<Event>, l: string)
    requires forall ev :: ev in events && ev.language == l ==> !Usable(codec, archive, ev.path)
    ensures FilesFor(codec, archive, events, l) == []
  {
    if events != [] {
      OneEvent(codec, archive, events[0], l);
      NoFiles(codec, archive, events[1..], l);
      FilesConcat(codec, archive, [events[0]], events[1..], l);
      assert [events[0]] + events[1..] == events;
    }
  }

  /** The last usable event of a language decides its content; if no earlier content has its text, also format and
      provider. */
  lemma EventDecides(codec: Codec, archive: Archive, x: Option<Entry>, a: seq<Event>, ev: Event, b: seq<Event>)
    requires Usable(codec, archive, ev.path)
    requires forall e :: e in b && e.language == ev.language ==> !Usable(codec, archive, e.path)
    ensures var text := archive[ev.path].text;
            var r := Fold(x, FilesFor(codec, archive, a + [ev] + b, ev.language));
            && r.Some? && r.value.content == Some(text)
            && (!(x.Some? && x.value.content == Some(text)) && NoFileWith(codec, archive, a, ev.language, text)
                && ev.provider != "" ==>
                  r.value == Entry(Some(text), TranscriptText.FormatOf(codec, text).value, ev.provider))
  {
    var l, text := ev.language, archive[ev.path].text;
    var front := FilesFor(codec, archive, a, l);
    var c := Candidate(text, TranscriptText.FormatOf(codec, text).value, ev.provider);
    FilesConcat(codec, archive, a + [ev], b, l);
    FilesConcat(codec, archive, a, [ev], l);
    OneEvent(codec, archive, ev, l);
    NoFiles(codec, archive, b, l);
    assert FilesFor(codec, archive, a + [ev] + b, l) == front + [c];
    LastFileWins(x, front + [c]);
    if !(x.Some? && x.value.content == Some(text)) && NoFileWith(codec, archive, a, l, text) {
      OtherTexts(codec, archive, a, l, text);
      FoldConcat(x, front, [c]);
      if front != [] {
        LastFileWins(x, front);
        assert front[|front| - 1] in front;
      }
      assert [c][1..] == [];
    }
  }

  lemma {:induction false} FileEventsMembers(l: string, names: seq<string>, dir: string)
    ensures forall ev :: ev in FileEvents(l, names, dir) ==>
              exists n :: n in names && ev == Event(l, dir + "/" + n, "Custom")
  {
    if names != [] {
      FileEventsMembers(l, names[1..], dir);
      forall ev | ev in FileEvents(l, names, dir)
        ensures exists n :: n in names && ev == Event(l, dir + "/" + n, "Custom")
      {
        if ev in FileEvents(l, names[1..], dir) {
          var n :| n in names[1..] && ev == Event(l, dir + "/" + n, "Custom");
          assert n in names;
        } else {
          assert names[0] in names;
        }
      }
    }
  }

  lemma {:induction false} FileEventsConcat(l: string, a: seq<string>, b: seq<string>, dir: string)
    ensures FileEvents(l, a + b, dir) == FileEvents(l, a, dir) + FileEvents(l, b, dir)
  {
    if a == [] {
      assert a + b == b;
    } else {
      assert (a + b)[1..] == a[1..] + b;
      FileEventsConcat(l, a[1..], b, dir);
    }
  }

  lemma {:induction false} ExternalEventsMembers(ext: Externals, dir: string)
    ensures forall ev :: ev in ExternalEvents(ext, dir) ==>
              exists k: nat, n :: k < |ext| && n in ext[k].1 && ev == Event(ext[k].0, dir + "/" + n, "Custom")
  {
    if ext != [] {
      ExternalEventsMembers(ext[1..], dir);
      FileEventsMembers(ext[0].0, ext[0].1, dir);
      forall ev | ev in ExternalEvents(ext, dir)
        ensures exists k: nat, n :: k < |ext| && n in ext[k].1 && ev == Event(ext[k].0, dir + "/" + n, "Custom")
      {
        if ev in ExternalEvents(ext[1..], dir) {
          var k: nat, n :| k < |ext[1..]| && n in ext[1..][k].1 && ev == Event(ext[1..][k].0, dir + "/" + n, "Custom");
          assert ext[k + 1] == ext[1..][k];
        }
      }
    }
  }

  /** The file of a complete element. */
  function ValPath(v: string, l: string, format: string, dir: string): string {
    dir + "/" + (v + "-" + l + "." + format)
  }

  lemma {:induction false} ValEventsMembers(els: seq<TranscriptEl>, v: string, dir: string)
    ensures forall ev :: ev in ValEvents(els, v, dir) ==>
              exists f :: TranscriptEl(Some(ev.language), Some(f), Some(ev.provider)) in els
                && ev.path == ValPath(v, ev.language, f, dir)
  {
    if els != [] {
      ValEventsMembers(els[1..], v, dir);
      forall ev | ev in ValEvents(els, v, dir)
        ensures exists f :: TranscriptEl(Some(ev.language), Some(f), Some(ev.provider)) in els
                  && ev.path == ValPath(v, ev.language, f, dir)
      {
        if ev in ValEvents(els[1..], v, dir) {
          var f :| TranscriptEl(Some(ev.language), Some(f), Some(ev.provider)) in els[1..]
                     && ev.path == ValPath(v, ev.language, f, dir);
          assert TranscriptEl(Some(ev.language), Some(f), Some(ev.provider)) in els;
        } else {
          assert els[0] in els;
        }
      }
    }
  }

  lemma {:induction false} ValEventsConcat(a: seq<TranscriptEl>, b: seq<TranscriptEl>, v: string, dir: string)
    ensures ValEvents(a + b, v, dir) == ValEvents(a, v, dir) + ValEvents(b, v, dir)
  {
    if a == [] {
      assert a + b == b;
    } else {
      assert (a + b)[1..] == a[1..] + b;
      ValEventsConcat(a[1..], b, v, dir);
      var first := match a[0]
                   case TranscriptEl(Some(l), Some(f), Some(p)) =>
                     [Event(l, Combine(dir, TranscriptName(v, l, f)), p)]
                   case _ => [];
      Associate(first, ValEvents(a[1..], v, dir), ValEvents(b, v, dir));
    }
  }

  /** Some complete element of the language has a usable file with this text. */
  ghost predicate ValText(codec: Codec, archive: Archive, els: seq<TranscriptEl>, v: string, dir: string, l: string,
                          text: string)
  {
    exists f, p :: TranscriptEl(Some(l), Some(f), Some(p)) in els
      && Usable(codec, archive, ValPath(v, l, f, dir)) && archive[ValPath(v, l, f, dir)].text == text
  }

  /** Some complete element of the language has a usable file. */
  ghost predicate ValUsable(codec: Codec, archive: Archive, els: seq<TranscriptEl>, v: string, dir: string, l: string) {
    exists f, p :: TranscriptEl(Some(l), Some(f), Some(p)) in els && Usable(codec, archive, ValPath(v, l, f, dir))
  }

  /** Some external file of the language is usable. */
  ghost predicate ExternalUsable(codec: Codec, archive: Archive, ext: Externals, dir: string, l: string) {
    exists k: nat, n :: k < |ext| && ext[k].0 == l && n in ext[k].1 && Usable(codec, archive, dir + "/" + n)
  }

  lemma NoValFileWith(codec: Codec, archive: Archive, els: seq<TranscriptEl>, v: string, dir: string, l: string,
                      text: string)
    requires !ValText(codec, archive, els, v, dir, l, text)
    ensures NoFileWith(codec, archive, ValEvents(els, v, dir), l, text)
  {
    ValEventsMembers(els, v, dir);
  }

  lemma NoExternal(codec: Codec, archive: Archive, ext: Externals, dir: string, l: string)
    requires !ExternalUsable(codec, archive, ext, dir, l)
    ensures forall ev :: ev in ExternalEvents(ext, dir) && ev.language == l ==> !Usable(codec, archive, ev.path)
  {
    ExternalEventsMembers(ext, dir);
  }

  lemma NoVal(codec: Codec, archive: Archive, els: seq<TranscriptEl>, v: string, dir: string, l: string)
    requires !ValUsable(codec, archive, els, v, dir, l)
    ensures forall ev :: ev in ValEvents(els, v, dir) && ev.language == l ==> !Usable(codec, archive, ev.path)
  {
    ValEventsMembers(els, v, dir);
  }

  /** The external part in front of a language's last usable file, that file, and the rest. */
  lemma ExternalSplit(codec: Codec, archive: Archive, ext: Externals, dir: string, k: nat, before: seq<string>,
                      name: string, after: seq<string>)
    returns (a: seq<Event>, b: seq<Event>)
    requires UniqueKeys(ext) && k < |ext| && ext[k].1 == before + [name] + after
    requires forall n :: n in after ==> !Usable(codec, archive, dir + "/" + n)
    ensures ExternalEvents(ext, dir) == a + [Event(ext[k].0, dir + "/" + name, "Custom")] + b
    ensures forall e :: e in b && e.language == ext[k].0 ==> !Usable(codec, archive, e.path)
    ensures forall e :: e in a && e.language == ext[k].0 ==>
              exists n :: n in before && e == Event(ext[k].0, dir + "/" + n, "Custom")
    decreases k
  {
    var ev := Event(ext[k].0, dir + "/" + name, "Custom");
    var rest := ExternalEvents(ext[1..], dir);
    if k == 0 {
      FileEventsConcat(ext[0].0, before + [name], after, dir);
      FileEventsConcat(ext[0].0, before, [name], dir);
      assert [name][1..] == [] && FileEvents(ext[0].0, [name], dir) == [ev];
      a, b := FileEvents(ext[0].0, before, dir), FileEvents(ext[0].0, after, dir) + rest;
      Associate(a + [ev], FileEvents(ext[0].0, after, dir), rest);
      FileEventsMembers(ext[0].0, before, dir);
      FileEventsMembers(ext[0].0, after, dir);
      ExternalEventsMembers(ext[1..], dir);
      forall e | e in rest ensures e.language != ext[0].0 {
        var j: nat, n :| j < |ext[1..]| && n in ext[1..][j].1 && e == Event(ext[1..][j].0, dir + "/" + n, "Custom");
        assert ext[1..][j] == ext[j + 1];
      }
    } else {
      assert ext[1..][k - 1] == ext[k];
      var a', b' := ExternalSplit(codec, archive, ext[1..], dir, k - 1, before, name, after);
      var first := FileEvents(ext[0].0, ext[0].1, dir);
      a, b := first + a', b';
      FileEventsMembers(ext[0].0, ext[0].1, dir);
      assert first + (a' + [ev] + b') == first + a' + [ev] + b';
    }
  }

  /** After a successful import of a language with a usable external file, its content is that of the last such file of
      the language, whatever the elements say. Unless the text was there before, the provider is Custom. */
  lemma ExternalDecides(codec: Codec, st: TStore, videos: set<string>, archive: Archive, v: string, dir: string,
                        els: seq<TranscriptEl>, ext: Externals, names: seq<string>,
                        k: nat, before: seq<string>, name: string, after: seq<string>)
    requires UniqueLanguages(st.rows) && v in videos && UniqueKeys(ext)
    requires |Events(els, ext, v, dir)| <= |names| && FreshNames(st, names)
    requires ImportAll(codec, st, videos, archive, v, Events(els, ext, v, dir), names).1
    requires k < |ext| && ext[k].1 == before + [name] + after && Usable(codec, archive, dir + "/" + name)
    requires forall n :: n in after ==> !Usable(codec, archive, dir + "/" + n)
    ensures var l, text := ext[k].0, archive[dir + "/" + name].text;
            var x := Lookup(st, v, l);
            var r := Lookup(ImportAll(codec, st, videos, archive, v, Events(els, ext, v, dir), names).0, v, l);
            && r.Some? && r.value.content == Some(text)
            && (!(x.Some? && x.value.content == Some(text)) && !ValText(codec, archive, els, v, dir, l, text)
                && (forall n :: n in before && Usable(codec, archive, dir + "/" + n) ==>
                      archive[dir + "/" + n].text != text) ==>
                  r.value == Entry(Some(text), TranscriptText.FormatOf(codec, text).value, "Custom"))
  {
    var l, text := ext[k].0, archive[dir + "/" + name].text;
    var ev := Event(l, dir + "/" + name, "Custom");
    ImportView(codec, st, videos, archive, v, Events(els, ext, v, dir), names);
    var a, b := ExternalSplit(codec, archive, ext, dir, k, before, name, after);
    var vals := ValEvents(els, v, dir);
    assert vals + (a + [ev] + b) == (vals + a) + [ev] + b;
    EventDecides(codec, archive, Lookup(st, v, l), vals + a, ev, b);
    if !ValText(codec, archive, els, v, dir, l, text) {
      NoValFileWith(codec, archive, els, v, dir, l, text);
    }
  }

  lemma ElementSplit(els: seq<TranscriptEl>, ext: Externals, v: string, dir: string,
                     before: seq<TranscriptEl>, l: string, f: string, p: string, after: seq<TranscriptEl>)
    requires els == before + [TranscriptEl(Some(l), Some(f), Some(p))] + after
    ensures Events(els, ext, v, dir)
         == ValEvents(before, v, dir) + [Event(l, ValPath(v, l, f, dir), p)]
            + (ValEvents(after, v, dir) + ExternalEvents(ext, dir))
  {
    hide ValEvents, ExternalEvents, ValPath;
    var el := TranscriptEl(Some(l), Some(f), Some(p));
    ValEventsConcat(before + [el], after, v, dir);
    ValEventsConcat(before, [el], v, dir);
    OneElement(l, f, p, v, dir);
  }

  lemma OneElement(l: string, f: string, p: string, v: string, dir: string)
    ensures ValEvents([TranscriptEl(Some(l), Some(f), Some(p))], v, dir) == [Event(l, ValPath(v, l, f, dir), p)]
  {
    assert [TranscriptEl(Some(l), Some(f), Some(p))][1..] == [];
    assert Combine(dir, TranscriptName(v, l, f)) == ValPath(v, l, f, dir);
    var ev := Event(l, ValPath(v, l, f, dir), p);
    assert [ev] + [] == [ev];
  }

  /** Without a usable external file it is that of the last element with a usable file, which is the one named after the
      video, the language and the format; unless the text was there before, the provider is the element's. */
  lemma ElementDecides(codec: Codec, st: TStore, videos: set<string>, archive: Archive, v: string, dir: string,
                       els: seq<TranscriptEl>, ext: Externals, names: seq<string>,
                       before: seq<TranscriptEl>, l: string, f: string, p: string, after: seq<TranscriptEl>)
    requires UniqueLanguages(st.rows) && v in videos
    requires |Events(els, ext, v, dir)| <= |names| && FreshNames(st, names)
    requires ImportAll(codec, st, videos, archive, v, Events(els, ext, v, dir), names).1
    requires els == before + [TranscriptEl(Some(l), Some(f), Some(p))] + after
    requires Usable(codec, archive, ValPath(v, l, f, dir))
    requires !ValUsable(codec, archive, after, v, dir, l) && !ExternalUsable(codec, archive, ext, dir, l)
    ensures var text := archive[ValPath(v, l, f, dir)].text;
            var x := Lookup(st, v, l);
            var r := Lookup(ImportAll(codec, st, videos, archive, v, Events(els, ext, v, dir), names).0, v, l);
            && r.Some? && r.value.content == Some(text)
            && (!(x.Some? && x.value.content == Some(text)) && !ValText(codec, archive, before, v, dir, l, text)
                && p != "" ==>
                  r.value == Entry(Some(text), TranscriptText.FormatOf(codec, text).value, p))
  {
    hide ImportAll, Events, ValEvents, ExternalEvents, FilesFor, Fold;
    var text := archive[ValPath(v, l, f, dir)].text;
    var ev := Event(l, ValPath(v, l, f, dir), p);
    ImportView(codec, st, videos, archive, v, Events(els, ext, v, dir), names);
    var a, b := ValEvents(before, v, dir), ValEvents(after, v, dir) + ExternalEvents(ext, dir);
    ElementSplit(els, ext, v, dir, before, l, f, p, after);
    NoVal(codec, archive, after, v, dir, l);
    NoExternal(codec, archive, ext, dir, l);
    EventDecides(codec, archive, Lookup(st, v, l), a, ev, b);
    if !ValText(codec, archive, before, v, dir, l, text) {
      NoValFileWith(codec, archive, before, v, dir, l, text);
    }
  }

  /** And without any usable file the language keeps what it had. */
  lemma NothingDecides(codec: Codec, st: TStore, videos: set<string>, archive: Archive, v: string, dir: string,
                       els: seq<TranscriptEl>, ext: Externals, names: seq<string>, l: string)
    requires UniqueLanguages(st.rows) && v in videos
    requires |Events(els, ext, v, dir)| <= |names| && FreshNames(st, names)
    requires ImportAll(codec, st, videos, archive, v, Events(els, ext, v, dir), names).1
    requires !ValUsable(codec, archive, els, v, dir, l) && !ExternalUsable(codec, archive, ext, dir, l)
    ensures Lookup(ImportAll(codec, st, videos, archive, v, Events(els, ext, v, dir), names).0, v, l)
         == Lookup(st, v, l)
  {
    ImportView(codec, st, videos, archive, v, Events(els, ext, v, dir), names);
    NoVal(codec, archive, els, v, dir, l);
    NoExternal(codec, archive, ext, dir, l);
    NoFiles(codec, archive, Events(els, ext, v, dir), l);
  }

  // ---------------------------------------------------------------- an archive that is not idempotent

  /** One step over a single transcript whose content differs from the file's. */
  lemma OneRowStep(codec: Codec, t: Transcript, blobs: map<string, string>, archive: Archive, ev: Event, name: string)
    requires t.language == ev.language && t.file in blobs && ev.provider in PROVIDERS + {""}
    requires FileText(archive, ev.path).Some? && FileText(archive, ev.path).value != blobs[t.file]
    requires codec.loads(FileText(archive, ev.path).value).Some?
    ensures ImportStep(codec, TStore([t], blobs), {t.video}, archive, t.video, ev, name)
         == (TStore([t.(provider := Or(ev.provider, t.provider), format := "sjson", file := name)],
                    blobs[name := FileText(archive, ev.path).value]), true)
  {
    var st := TStore([t], blobs);
    assert Matches(st.rows[0], t.video, ev.language);
    assert FindRow(st.rows, t.video, ev.language) == Some(0);
    var row := t.(provider := Or(ev.provider, t.provider), format := "sjson", file := name);
    assert PutRow(st.rows, 0, row) == [row];
  }

  lemma TwoSteps(codec: Codec, s0: TStore, s1: TStore, s2: TStore, videos: set<string>, archive: Archive, v: string,
                 a: Event, b: Event, n: string, m: string)
    requires ImportStep(codec, s0, videos, archive, v, a, n) == (s1, true)
    requires ImportStep(codec, s1, videos, archive, v, b, m) == (s2, true)
    ensures ImportAll(codec, s0, videos, archive, v, [a, b], [n, m]) == (s2, true)
  {
    assert [a, b][1..] == [b] && [b][1..] == [] && [n, m][1..] == [m];
    assert ImportAll(codec, s1, videos, archive, v, [b], [m])
        == ImportAll(codec, s2, videos, archive, v, [], [m][1..]);
  }

  /** With an empty provider attribute, which keeps the row's old provider, a second import can change the provider. */
  lemma EmptyProviderNotIdempotent() returns (codec: Codec, st: TStore, archive: Archive, a: Event, b: Event)
    ensures a.provider in PROVIDERS && b.provider == ""
    ensures var once := ImportAll(codec, st, {"v"}, archive, "v", [a, b], ["1", "2"]);
            var twice := ImportAll(codec, once.0, {"v"}, archive, "v", [a, b], ["3", "4"]);
            once.1 && twice.1 && Lookup(twice.0, "v", "en") != Lookup(once.0, "v", "en")
  {
    codec := TranscriptText.Codec((s: string) => Some(TranscriptText.OtherDocument), (j: TranscriptText.Sjson) => "");
    var t := Transcript("v", "en", "Custom", "sjson", "0");
    st := TStore([t], map["0" := "x"]);
    archive := map["p" := Text("x"), "q" := Text("y")];
    a, b := Event("en", "p", "Cielo24"), Event("en", "q", "");
    var blobs1 := st.blobs["2" := "y"];
    assert Matches(t, "v", "en") && Lookup(st, "v", "en").value.content == Some("x");
    OneRowStep(codec, t, st.blobs, archive, b, "2");
    var t1 := t.(file := "2");
    TwoSteps(codec, st, st, TStore([t1], blobs1), {"v"}, archive, "v", a, b, "1", "2");
    var blobs2 := blobs1["3" := "x"];
    OneRowStep(codec, t1, blobs1, archive, a, "3");
    var t2 := t1.(provider := "Cielo24", file := "3");
    OneRowStep(codec, t2, blobs2, archive, b, "4");
    var t3 := t2.(file := "4");
    TwoSteps(codec, TStore([t1], blobs1), TStore([t2], blobs2), TStore([t3], blobs2["4" := "y"]),
             {"v"}, archive, "v", a, b, "3", "4");
    assert Matches(t1, "v", "en") && Matches(t3, "v", "en");
    assert Lookup(TStore([t1], blobs1), "v", "en").value.provider == "Custom";
  }
}
