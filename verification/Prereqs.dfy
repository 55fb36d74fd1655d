/** The install cache keyed by a fingerprint of the requirement files, and the bounded uninstall loop. */
module Prereqs {
  import opened Prelude
  import Ordering

  // ---------------------------------------------------------------- the fingerprint

  /** A path that exists: a file, or a directory with its listing and the modification times of its subdirectories. */
  datatype Node = File(content: string) | Dir(listing: seq<string>, times: map<string, string>)

  type Files = map<string, Node>

  function SubdirTimes(names: seq<string>, times: map<string, string>): string {
    if names == [] then ""
    else (if names[0] in times then times[names[0]] else "") + SubdirTimes(names[1..], times)
  }

  function StringOrder(): (string, string) -> bool {
    (a: string, b: string) => Ordering.StringLe(a, b)
  }

  /** What one path contributes to the hashed stream. */
  function Piece(files: Files, path: string): string {
    if path !in files then ""
    else
      match files[path]
      case File(content) => content
      case Dir(listing, times) => SubdirTimes(Ordering.Sort(StringOrder(), listing), times)
  }

  /** The stream fed to the hash; the hash itself is taken to be injective, so the stream stands for it. */
  function Stream(files: Files, paths: seq<string>): string {
    if paths == [] then "" else Piece(files, paths[0]) + Stream(files, paths[1..])
  }

  method ComputeFingerprint(files: Files, paths: seq<string>) returns (hashed: string)
    ensures hashed == Stream(files, paths)
  {
    hashed := "";
    for i := 0 to |paths|
      invariant hashed + Stream(files, paths[i..]) == Stream(files, paths)
    {
      assert paths[i..][0] == paths[i] && paths[i..][1..] == paths[i + 1..];
      var piece := "";
      if paths[i] in files {
        match files[paths[i]]
        case Dir(listing, times) => piece := HashSubdirs(Ordering.Sort(StringOrder(), listing), times);
        case File(content) => piece := content;
      }
      Associate(hashed, piece, Stream(files, paths[i + 1..]));
      hashed := hashed + piece;
    }
    assert hashed + "" == hashed;
  }

  method HashSubdirs(names: seq<string>, times: map<string, string>) returns (hashed: string)
    ensures hashed == SubdirTimes(names, times)
  {
    hashed := "";
    for i := 0 to |names|
      invariant hashed + SubdirTimes(names[i..], times) == SubdirTimes(names, times)
    {
      assert names[i..][0] == names[i] && names[i..][1..] == names[i + 1..];
      var time := if names[i] in times then times[names[i]] else "";
      Associate(hashed, time, SubdirTimes(names[i + 1..], times));
      hashed := hashed + time;
    }
    assert hashed + "" == hashed;
  }

  /** The order in which the system lists a directory does not reach the fingerprint. */
  lemma ListingOrderIrrelevant(path: string, listing: seq<string>, listing': seq<string>, times: map<string, string>)
    requires multiset(listing) == multiset(listing')
    ensures Piece(map[path := Dir(listing, times)], path) == Piece(map[path := Dir(listing', times)], path)
  {
    Ordering.StringLeIsTotalOrder();
    Ordering.SortSorts(StringOrder(), listing);
    Ordering.SortSorts(StringOrder(), listing');
    Ordering.SortPermutes(StringOrder(), listing);
    Ordering.SortPermutes(StringOrder(), listing');
    Ordering.SortedUnique(StringOrder(), Ordering.Sort(StringOrder(), listing), Ordering.Sort(StringOrder(), listing'));
  }

  /** What a path contributes: a file its content, a directory the times of its subdirectories in the order of their
      names, and a path that does not exist nothing. */
  lemma Contributions(files: Files, p: string)
    ensures p !in files ==> Stream(files, [p]) == ""
    ensures p in files && files[p].File? ==> Stream(files, [p]) == files[p].content
  {
    assert [p][1..] == [];
    assert Stream(files, [p]) == Piece(files, p) + "" == Piece(files, p);
  }

  lemma DirContributes(files: Files, p: string, listing: seq<string>, names: seq<string>, times: map<string, string>)
    requires p in files && files[p] == Dir(listing, times)
    requires Ordering.SortedBy(StringOrder(), names) && multiset(names) == multiset(listing)
    ensures Stream(files, [p]) == SubdirTimes(names, times)
  {
    Ordering.StringLeIsTotalOrder();
    Ordering.SortSorts(StringOrder(), listing);
    Ordering.SortPermutes(StringOrder(), listing);
    Ordering.SortedUnique(StringOrder(), Ordering.Sort(StringOrder(), listing), names);
    assert [p][1..] == [];
    assert Stream(files, [p]) == Piece(files, p) + "" == Piece(files, p);
  }

  /** Two subdirectories, listed in either order. */
  lemma TwoSubdirs(files: Files, p: string, listing: seq<string>, times: map<string, string>, a: string, b: string)
    requires p in files && files[p] == Dir(listing, times) && multiset(listing) == multiset{a, b}
    requires Ordering.StringLe(a, b) && a in times && b in times
    ensures Stream(files, [p]) == times[a] + times[b]
  {
    hide Stream, Ordering.StringLe;
    assert multiset([a, b]) == multiset{a, b};
    DirContributes(files, p, listing, [a, b], times);
    assert [a, b][1..] == [b] && [b][1..] == [];
    assert SubdirTimes([b], times) == times[b] + "" == times[b];
  }

  // ---------------------------------------------------------------- the cache

  datatype CacheState = CacheState(files: Files, stored: Option<string>)

  datatype Outcome = Skipped | Installed | Failed

  /** One call. `after` is what the files are once the install function has run, if it is called; `ok` whether it
      returns normally. */
  function PrereqCache(paths: seq<string>, s: CacheState, after: Files, ok: bool): (CacheState, Outcome) {
    if s.stored == Some(Stream(s.files, paths)) then (s, Skipped)
    else if !ok then (CacheState(after, s.stored), Failed)
    else (CacheState(after, Some(Stream(after, paths))), Installed)
  }

  class PrereqInstaller {
    var files: Files
    var stored: Option<string>

    function Value(): CacheState
      reads this
    {
      CacheState(files, stored)
    }

    /** The install function: it may rewrite the files, and it may fail. */
    method InstallFunc(after: Files, ok: bool) returns (done: bool)
      modifies this`files
      ensures files == after && done == ok
    {
      files := after;
      done := ok;
    }

    method Run(paths: seq<string>, after: Files, ok: bool) returns (outcome: Outcome)
      modifies this
      ensures (Value(), outcome) == PrereqCache(paths, old(Value()), after, ok)
    {
      var newHash := ComputeFingerprint(files, paths);
      if stored == Some(newHash) {
        return Skipped;
      }
      var done := InstallFunc(after, ok);
      if !done {
        return Failed;
      }
      var postInstallHash := ComputeFingerprint(files, paths);
      stored := Some(postInstallHash);
      outcome := Installed;
    }
  }

  // ---------------------------------------------------------------- runs of edits and calls

  datatype Event = Edit(files: Files) | Call(after: Files, ok: bool)

  /** A call's outcome with the fingerprints it found and left. */
  datatype Record = Record(outcome: Outcome, found: string, left: string)

  function RunEvents(paths: seq<string>, s: CacheState, log: seq<Record>, events: seq<Event>): (CacheState, seq<Record>)
    decreases |events|
  {
    if events == [] then (s, log)
    else
      match events[0]
      case Edit(files) => RunEvents(paths, s.(files := files), log, events[1..])
      case Call(after, ok) =>
        var (next, outcome) := PrereqCache(paths, s, after, ok);
        RunEvents(paths, next, log + [Record(outcome, Stream(s.files, paths), Stream(next.files, paths))], events[1..])
  }

  /** The fingerprint that the last successful install left. */
  function LastInstalled(log: seq<Record>): Option<string> {
    if log == [] then None
    else if log[|log| - 1].outcome == Installed then Some(log[|log| - 1].left)
    else LastInstalled(log[..|log| - 1])
  }

  /** A call skips exactly when it finds the fingerprint that the last successful install left, and a skip leaves it. */
  ghost predicate SkipsRight(log: seq<Record>) {
    forall i :: 0 <= i < |log| ==>
      && (log[i].outcome == Skipped <==> LastInstalled(log[..i]) == Some(log[i].found))
      && (log[i].outcome == Skipped ==> log[i].left == log[i].found)
  }

  /** Over any run of edits, installs that may edit the files, and failing installs: the stored hash is the one the last
      successful install left, and every call decides by it. */
  lemma {:induction false} CacheRun(paths: seq<string>, s: CacheState, log: seq<Record>, events: seq<Event>)
    requires s.stored == LastInstalled(log) && SkipsRight(log)
    ensures var (s', log') := RunEvents(paths, s, log, events); s'.stored == LastInstalled(log') && SkipsRight(log')
    decreases |events|
  {
    if events != [] {
      match events[0]
      case Edit(files) => CacheRun(paths, s.(files := files), log, events[1..]);
      case Call(after, ok) =>
        var (next, outcome) := PrereqCache(paths, s, after, ok);
        var r := Record(outcome, Stream(s.files, paths), Stream(next.files, paths));
        var log' := log + [r];
        assert log'[..|log|] == log;
        forall i | 0 <= i < |log'|
          ensures log'[i].outcome == Skipped <==> LastInstalled(log'[..i]) == Some(log'[i].found)
          ensures log'[i].outcome == Skipped ==> log'[i].left == log'[i].found
        {
          if i < |log| {
            assert log'[..i] == log[..i] && log'[i] == log[i];
          }
        }
        CacheRun(paths, next, log', events[1..]);
    }
  }

  /** From an empty cache. */
  lemma CacheAgrees(paths: seq<string>, files: Files, events: seq<Event>)
    ensures var (s, log) := RunEvents(paths, CacheState(files, None), [], events);
            s.stored == LastInstalled(log) && SkipsRight(log)
  {
    CacheRun(paths, CacheState(files, None), [], events);
  }

  /** Right after a call that returns normally another call skips; after a failure nothing is recorded. A call that does
      not skip has run the install function. */
  lemma CallTwice(paths: seq<string>, s: CacheState, after: Files, ok: bool, after': Files, ok': bool)
    ensures var (next, outcome) := PrereqCache(paths, s, after, ok);
            && (if outcome == Failed then !ok && next.stored == s.stored
                else PrereqCache(paths, next, after', ok') == (next, Skipped))
            && (if outcome == Skipped then next == s else next.files == after)
  {
  }

  /** Where skipping and reinstalling part: after a failed install, putting the old files back makes the next call
      skip. */
  lemma FailureThenRevertSkips(paths: seq<string>, good: Files, changed: Files, broken: Files)
    requires Stream(changed, paths) != Stream(good, paths)
    ensures var (s, log) := RunEvents(paths, CacheState(good, Some(Stream(good, paths))), [],
                                      [Edit(changed), Call(broken, false), Edit(good), Call(good, true)]);
            |log| == 2 && log[0].outcome == Failed && log[1].outcome == Skipped
  {
    var events := [Edit(changed), Call(broken, false), Edit(good), Call(good, true)];
    var stored := Some(Stream(good, paths));
    assert events[1..] == [Call(broken, false), Edit(good), Call(good, true)];
    assert events[1..][1..] == [Edit(good), Call(good, true)];
    assert events[1..][1..][1..] == [Call(good, true)];
    assert events[1..][1..][1..][1..] == [];
    var r := Record(Failed, Stream(changed, paths), Stream(broken, paths));
    assert [] + [r] == [r];
    assert RunEvents(paths, CacheState(good, stored), [r], [Call(good, true)])
        == RunEvents(paths, CacheState(good, stored), [r] + [Record(Skipped, stored.value, stored.value)],
                     [Call(good, true)][1..]);
    assert RunEvents(paths, CacheState(broken, stored), [r], [Edit(good), Call(good, true)])
        == RunEvents(paths, CacheState(good, stored), [r], [Edit(good), Call(good, true)][1..]);
  }

  /** The stream does not show where one file ends and the next begins: this edit is not noticed. */
  lemma MovedTextIsSkipped(p: string, q: string, a: string, b: string, c: string, after: Files, ok: bool)
    requires p != q
    ensures var before := map[p := File(a + b), q := File(c)];
            var edited := map[p := File(a), q := File(b + c)];
            PrereqCache([p, q], CacheState(edited, Some(Stream(before, [p, q]))), after, ok).1 == Skipped
  {
    var before := map[p := File(a + b), q := File(c)];
    var edited := map[p := File(a), q := File(b + c)];
    TwoPaths(before, p, q);
    TwoPaths(edited, p, q);
    Associate(a, b, c);
  }

  /** When every path contributes as many characters as before, equal streams mean equal contributions. */
  lemma {:induction false} EqualPieces(a: Files, b: Files, paths: seq<string>)
    requires forall p :: p in paths ==> |Piece(a, p)| == |Piece(b, p)|
    ensures Stream(a, paths) == Stream(b, paths) <==> forall p :: p in paths ==> Piece(a, p) == Piece(b, p)
  {
    if paths == [] {
    } else {
      var p, rest := paths[0], paths[1..];
      assert p in paths && forall q :: q in rest ==> q in paths;
      EqualPieces(a, b, rest);
      if Stream(a, paths) == Stream(b, paths) {
        assert Piece(a, p) == Stream(a, paths)[..|Piece(a, p)|] == Stream(b, paths)[..|Piece(b, p)|] == Piece(b, p);
        assert Stream(a, rest) == Stream(a, paths)[|Piece(a, p)|..]
            == Stream(b, paths)[|Piece(b, p)|..] == Stream(b, rest);
        forall q | q in paths ensures Piece(a, q) == Piece(b, q) {
          assert q == p || q in rest;
        }
      }
    }
  }

  /** So an edit that keeps these lengths is noticed exactly when it changes what some path contributes. */
  lemma EditNoticed(before: Files, edited: Files, paths: seq<string>, after: Files, ok: bool)
    requires forall p :: p in paths ==> |Piece(before, p)| == |Piece(edited, p)|
    ensures PrereqCache(paths, CacheState(edited, Some(Stream(before, paths))), after, ok).1 != Skipped
       <==> exists p :: p in paths && Piece(edited, p) != Piece(before, p)
  {
    EqualPieces(before, edited, paths);
  }

  lemma TwoPaths(files: Files, p: string, q: string)
    ensures Stream(files, [p, q]) == Piece(files, p) + Piece(files, q)
  {
    assert [p, q][1..] == [q] && [q][1..] == [];
    assert Stream(files, [q]) == Piece(files, q) + "" == Piece(files, q);
  }

  // ---------------------------------------------------------------- uninstalling

  /** How many copies of each package are installed. */
  type Copies = map<string, nat>

  function CopiesOf(m: Copies, p: string): nat { if p in m then m[p] else 0 }

  function Monus(a: nat, b: nat): nat { if a < b then 0 else a - b }

  /** `m` after `k` rounds that each remove one copy of every listed package that has one. */
  function Fewer(m: Copies, packages: seq<string>, k: nat): Copies {
    map p | p in m :: if p in packages then Monus(m[p], k) else m[p]
  }

  datatype UninstallResult = UpToDate | Clean | GaveUp

  class Uninstaller {
    var copies: Copies
    var version: Option<string>

    /** `pip uninstall`: removes one copy, if there is one. */
    method Uninstall(p: string)
      modifies this`copies
      ensures copies == Fewer(old(copies), [p], 1)
    {
      if p in copies {
        copies := copies[p := Monus(copies[p], 1)];
      }
    }

    /** One round: every package in the frozen output is uninstalled once. */
    method Round(packages: seq<string>) returns (uninstalled: bool)
      requires Distinct(packages)
      modifies this`copies
      ensures copies == Fewer(old(copies), packages, 1)
      ensures uninstalled <==> exists p :: p in packages && CopiesOf(old(copies), p) > 0
    {
      uninstalled := false;
      var frozen := copies;
      assert copies == Fewer(frozen, packages[..0], 1);
      for i := 0 to |packages|
        invariant copies == Fewer(frozen, packages[..i], 1)
        invariant uninstalled <==> exists p :: p in packages[..i] && CopiesOf(frozen, p) > 0
      {
        var p := packages[i];
        assert packages[..i + 1] == packages[..i] + [p];
        if CopiesOf(frozen, p) > 0 {
          Uninstall(p);
          uninstalled := true;
          assert p in packages[..i + 1];
        }
        forall q | q in packages[..i] ensures q != p {
          var j :| 0 <= j < i && packages[j] == q;
        }
        assert copies == Fewer(frozen, packages[..i + 1], 1);
      }
      assert packages[..|packages|] == packages;
    }

    /**
     Up to three rounds; the version file is written only when a round found nothing to remove. So from a state without
     a matching version file the method succeeds exactly when no listed package has more than two copies.
     */
    method UninstallPackages(packages: seq<string>, expected: string) returns (result: UninstallResult)
      requires Distinct(packages)
      modifies this
      ensures result == UpToDate <==> old(version) == Some(expected)
      ensures result == UpToDate ==> copies == old(copies) && version == old(version)
      ensures result != UpToDate ==>
                && copies == Fewer(old(copies), packages, 3)
                && (result == Clean <==> forall p :: p in packages ==> CopiesOf(old(copies), p) <= 2)
                && version == if result == Clean then Some(expected) else old(version)
      ensures result == Clean ==> forall p :: p in packages ==> CopiesOf(copies, p) == 0
      ensures forall p :: CopiesOf(copies, p)
                == if p !in packages || result == UpToDate then CopiesOf(old(copies), p)
                   else if CopiesOf(old(copies), p) <= 3 then 0 else CopiesOf(old(copies), p) - 3
    {
      if version == Some(expected) {
        return UpToDate;
      }
      var found := true;
      ghost var start := copies;
      var i := 0;
      while i < 3 && found
        invariant 0 <= i <= 3 && version == old(version)
        invariant copies == Fewer(start, packages, i)
        invariant !found ==> i > 0 && forall p :: p in packages ==> CopiesOf(start, p) <= i - 1
        invariant found ==> i == 0 || exists p :: p in packages && CopiesOf(start, p) >= i
        decreases 3 - i
      {
        ghost var before := copies;
        found := Round(packages);
        FewerAgain(start, packages, i);
        i := i + 1;
        forall p | p in packages ensures CopiesOf(before, p) == Monus(CopiesOf(start, p), i - 1) {}
      }
      if found {
        return GaveUp;
      }
      version := Some(expected);
      result := Clean;
      forall p | p in packages ensures CopiesOf(copies, p) == 0 && CopiesOf(start, p) <= 2 {}
      assert copies == Fewer(start, packages, 3);
    }
  }

  lemma FewerAgain(m: Copies, packages: seq<string>, k: nat)
    ensures Fewer(Fewer(m, packages, k), packages, 1) == Fewer(m, packages, k + 1)
  {
  }
}
