/** Removing a library prefix by renaming it into quarantine, with a way back. */
module LibraryRemoval {
  import opened Common
  import opened LibraryFiles
  import opened SqlLike
  import opened SyncDecisions
  import opened SyncRuns

  // ---------- Renaming ----------

  function Under(files: Files, top: Path): set<Path> {
    set p | p in files && Excludes(top, p)
  }

  /** Where a path at or below `source` goes when `source` is renamed. */
  function Moved(p: Path, source: Path, target: Path): Path {
    if source <= p then target + p[|source|..] else p
  }

  function MovedPaths(files: Files, source: Path, target: Path): set<Path> {
    set p | p in Under(files, source) :: Moved(p, source, target)
  }

  lemma MovedBack(p: Path, source: Path, target: Path)
    requires Excludes(source, p)
    ensures Excludes(target, Moved(p, source, target))
    ensures Moved(Moved(p, source, target), target, source) == p
  {
    assert source <= p;
    var tail := p[|source|..];
    assert p == source + tail;
    if p != source {
      assert (source + "/")[|source|] == '/' && p[|source|] == '/';
      assert target + "/" <= target + tail;
    } else {
      assert tail == "";
      assert target + tail == target;
    }
    assert (target + tail)[|target|..] == tail;
  }

  lemma MovedPathsComeFrom(files: Files, source: Path, target: Path)
    ensures forall q :: q in MovedPaths(files, source, target) ==> Moved(q, target, source) in Under(files, source)
  {
    forall q | q in MovedPaths(files, source, target) ensures Moved(q, target, source) in Under(files, source) {
      var p :| p in Under(files, source) && q == Moved(p, source, target);
      MovedBack(p, source, target);
    }
  }

  /** The files after `source` and all below it have become `target`. */
  function Renamed(files: Files, source: Path, target: Path): Files {
    MovedPathsComeFrom(files, source, target);
    (files - Under(files, source)) +
    map q | q in MovedPaths(files, source, target) :: files[Moved(q, target, source)]
  }

  /** No path lies below both. */
  ghost predicate Disjoint(a: Path, b: Path) {
    forall p: Path :: !(Excludes(a, p) && Excludes(b, p))
  }

  lemma RenamedLookup(files: Files, source: Path, target: Path, p: Path)
    requires Under(files, target) == {} && Disjoint(source, target)
    ensures Lookup(Renamed(files, source, target), p) ==
            if Excludes(target, p) then Lookup(files, Moved(p, target, source))
            else if Excludes(source, p) then None
            else Lookup(files, p)
  {
    hide Moved, Excludes;
    if Excludes(target, p) {
      MovedBack(p, target, source);
      var origin := Moved(p, target, source);
      if origin in files {
        assert origin in Under(files, source);
        assert p in MovedPaths(files, source, target);
      } else {
        MovedPathsComeFrom(files, source, target);
        assert p in files ==> p in Under(files, target);
      }
    } else {
      if p in MovedPaths(files, source, target) {
        var origin :| origin in Under(files, source) && p == Moved(origin, source, target);
        MovedBack(origin, source, target);
      }
    }
  }

  /** Renaming to a place where nothing is, and back, changes nothing. */
  lemma RenameRoundTrip(files: Files, source: Path, target: Path)
    requires Under(files, target) == {} && Disjoint(source, target)
    ensures Renamed(Renamed(files, source, target), target, source) == files
  {
    hide Renamed, Excludes, Moved;
    var there := Renamed(files, source, target);
    forall p | p in there ensures !Excludes(source, p) {
      RenamedLookup(files, source, target, p);
    }
    var back := Renamed(there, target, source);
    forall p ensures Lookup(back, p) == Lookup(files, p) {
      RenamedLookup(there, target, source, p);
      if Excludes(source, p) {
        MovedBack(p, source, target);
        RenamedLookup(files, source, target, Moved(p, source, target));
      } else {
        assert p in files && Excludes(target, p) ==> p in Under(files, target);
        RenamedLookup(files, source, target, p);
      }
    }
    SameLookups(back, files);
  }

  // ---------- Staging ----------

  const QUARANTINE := ".strmline/removal_quarantine/"

  function OperationRoot(id: string): Path {
    QUARANTINE + id
  }

  function Payload(id: string): Path {
    OperationRoot(id) + "/payload"
  }

  /** A file is a path with nothing below it. */
  predicate IsFile(files: Files, p: Path) {
    p in files && forall q :: q in files ==> !(p + "/" <= q)
  }

  predicate NamedStrm(p: Path) {
    EndsWith(p, ".strm") && |p| > 5 && p[|p| - 6] != '/'
  }

  /** What is staged: nothing for a file of another sort, else the target and all below it. */
  function StagedPaths(files: Files, target: Path): set<Path> {
    if IsFile(files, target) && !NamedStrm(target) then {} else Under(files, target)
  }

  predicate PlaybackName(p: Path, stem: string) {
    stem != "" && Last(stem) != '/' && p == stem + ".strm"
  }

  /** Staged are the files at and below the target, unless that is itself a file and not named as a playback file. */
  lemma StagedMeaning(files: Files, target: Path, p: Path)
    ensures p in StagedPaths(files, target) <==>
              && p in files && (p == target || target + "/" <= p)
              && (target in files && (forall q :: q in files ==> !(target + "/" <= q)) ==>
                    exists stem :: PlaybackName(target, stem))
  {
    if NamedStrm(target) {
      var stem := target[..|target| - 5];
      assert target == stem + target[|target| - 5..];
      assert PlaybackName(target, stem);
    }
    if stem :| PlaybackName(target, stem) {
      assert target[|target| - 5..] == ".strm";
    }
  }

  function Staged(files: Files, target: Path, id: string): Files {
    if StagedPaths(files, target) == {} then files else Renamed(files, target, Payload(id))
  }

  /** The operation's place in quarantine is unused. */
  predicate Unused(files: Files, id: string) {
    forall p :: p in files ==> !Excludes(OperationRoot(id), p)
  }

  function WithoutQuarantine(files: Files, id: string): Files {
    files - set p | p in files && Excludes(OperationRoot(id), p)
  }

  lemma PayloadIsInQuarantine(id: string, p: Path)
    requires Excludes(Payload(id), p)
    ensures Excludes(OperationRoot(id), p)
  {
    assert OperationRoot(id) + "/" <= Payload(id);
  }

  lemma QuarantineIsHidden(id: string, p: Path)
    requires Excludes(OperationRoot(id), p)
    ensures p != "" && p[0] == '.'
  {
    assert OperationRoot(id) <= p;
    assert OperationRoot(id)[0] == '.';
  }

  predicate Visible(target: Path) {
    target != "" && target[0] != '.' && target[0] != '/'
  }

  lemma CategoryIsApart(target: Path, id: string)
    requires Visible(target)
    ensures Disjoint(target, Payload(id))
  {
    forall p: Path ensures !(Excludes(target, p) && Excludes(Payload(id), p)) {
      if Excludes(Payload(id), p) {
        PayloadIsInQuarantine(id, p);
        QuarantineIsHidden(id, p);
      }
    }
  }

  /** A staged removal is undone exactly by restoring, and finalized it has removed the staged paths and
      nothing else. */
  lemma StagingRoundTrip(files: Files, target: Path, id: string)
    requires Visible(target) && Unused(files, id)
    ensures StagedPaths(files, target) != {} ==> Renamed(Staged(files, target, id), Payload(id), target) == files
    ensures WithoutQuarantine(Staged(files, target, id), id) == files - StagedPaths(files, target)
  {
    hide Renamed, Excludes, Moved, Visible, Payload, OperationRoot;
    CategoryIsApart(target, id);
    forall p | p in files ensures !Excludes(Payload(id), p) {
      if Excludes(Payload(id), p) {
        PayloadIsInQuarantine(id, p);
      }
    }
    var staged := StagedPaths(files, target);
    if staged != {} {
      RenameRoundTrip(files, target, Payload(id));
      var there := Staged(files, target, id);
      forall p ensures Lookup(WithoutQuarantine(there, id), p) == Lookup(files - staged, p) {
        RenamedLookup(files, target, Payload(id), p);
        if Excludes(Payload(id), p) {
          PayloadIsInQuarantine(id, p);
        }
      }
      SameLookups(WithoutQuarantine(there, id), files - staged);
    }
  }

  lemma StagedPlaces(files: Files, target: Path, id: string)
    requires Visible(target) && Unused(files, id) && StagedPaths(files, target) != {}
    ensures Under(Staged(files, target, id), Payload(id)) != {} && Under(Staged(files, target, id), target) == {}
  {
    hide Renamed, Excludes, Moved, Visible, Payload, OperationRoot;
    CategoryIsApart(target, id);
    forall p | p in files ensures !Excludes(Payload(id), p) {
      if Excludes(Payload(id), p) {
        PayloadIsInQuarantine(id, p);
      }
    }
    var there := Staged(files, target, id);
    forall p | p in there ensures !Excludes(target, p) {
      RenamedLookup(files, target, Payload(id), p);
    }
    var p :| p in StagedPaths(files, target);
    MovedBack(p, target, Payload(id));
    RenamedLookup(files, target, Payload(id), Moved(p, target, Payload(id)));
    assert Moved(p, target, Payload(id)) in Under(there, Payload(id));
  }

  /** Staging moves nothing into the library. */
  lemma StagedLookup(files: Files, target: Path, id: string, p: Path)
    requires Visible(target) && Unused(files, id) && (p != "" ==> p[0] != '.')
    ensures Lookup(Staged(files, target, id), p) == if p in StagedPaths(files, target) then None else Lookup(files, p)
  {
    hide Renamed, Moved, Payload, OperationRoot, Excludes;
    CategoryIsApart(target, id);
    if Excludes(OperationRoot(id), p) {
      QuarantineIsHidden(id, p);
    }
    forall q | q in files ensures !Excludes(Payload(id), q) {
      if Excludes(Payload(id), q) {
        PayloadIsInQuarantine(id, q);
      }
    }
    if Excludes(Payload(id), p) {
      PayloadIsInQuarantine(id, p);
    }
    RenamedLookup(files, target, Payload(id), p);
  }

  // ---------- Prefixes ----------

  /** The parts between slashes, empty ones included. */
  function Split(s: string): (parts: seq<string>)
    ensures parts != []
  {
    if s == "" then [""] else Before(s[0], Split(s[1..]))
  }

  /** The parts after one more character in front. */
  function Before(c: char, parts: seq<string>): (more: seq<string>)
    requires parts != []
    ensures more != []
  {
    if c == '/' then [""] + parts else [[c] + parts[0]] + parts[1..]
  }

  predicate Kept(part: string) {
    part != "" && part != "."
  }

  /** The path that a prefix resolves to: empty and dot parts do not count. */
  function Target(prefix: string): Path {
    JoinPath(Filter(Kept, Split(prefix)))
  }

  predicate Normal(path: string) {
    forall part :: part in Split(path) ==> Kept(part)
  }

  lemma {:induction false} JoinSplit(s: string)
    ensures JoinPath(Split(s)) == s
  {
    if s != "" {
      JoinSplit(s[1..]);
      var rest := Split(s[1..]);
      var parts := Split(s);
      if s[0] == '/' {
        assert parts[1..] == rest;
      } else {
        assert parts[1..] == rest[1..];
      }
    }
  }

  /** A normal prefix is the path that it resolves to. */
  lemma NormalTarget(prefix: string)
    requires Normal(prefix)
    ensures Target(prefix) == prefix
  {
    FilterAll(Kept, Split(prefix));
    JoinSplit(prefix);
  }

  lemma SplitStep(c: char, s: string)
    ensures Split([c] + s) == Before(c, Split(s))
  {
    assert ([c] + s)[1..] == s;
  }

  lemma BeforeConcat(c: char, a: seq<string>, b: seq<string>)
    requires a != []
    ensures Before(c, a + b) == Before(c, a) + b
  {
  }

  lemma {:induction false} SplitConcat(a: string, b: string)
    ensures Split(a + "/" + b) == Split(a) + Split(b)
  {
    if a == "" {
      SplitStep('/', b);
      assert a + "/" + b == ['/'] + b;
    } else {
      var head, rest := a[0], a[1..];
      SplitConcat(rest, b);
      SplitStep(head, rest + "/" + b);
      SplitStep(head, rest);
      assert a + "/" + b == [head] + (rest + "/" + b) && a == [head] + rest;
      hide Split, Before;
      BeforeConcat(head, Split(rest), Split(b));
    }
  }

  /** A prefix of a normal path, up to a slash, is normal. */
  lemma NormalPrefix(prefix: string, p: Path)
    requires Normal(p) && Excludes(prefix, p)
    ensures Normal(prefix)
  {
    if prefix != p {
      assert p == prefix + "/" + p[|prefix| + 1..];
      SplitConcat(prefix, p[|prefix| + 1..]);
    }
  }

  /** The request names a path in its category, without a part that climbs. */
  predicate ValidPrefix(prefix: string, category: string) {
    ".." !in Split(prefix) && category + "/" <= prefix
  }

  lemma {:induction false} SplitPlain(a: string)
    requires '/' !in a
    ensures Split(a) == [a]
  {
    if a != "" {
      assert forall c :: c in a[1..] ==> c in a;
      SplitPlain(a[1..]);
      assert a == [a[0]] + a[1..];
    }
  }

  lemma {:induction false} SplitHasNoSlash(s: string)
    ensures forall part :: part in Split(s) ==> '/' !in part
  {
    if s != "" {
      SplitHasNoSlash(s[1..]);
      var rest := Split(s[1..]);
      forall part | part in Split(s) ensures '/' !in part {
        assert part == "" || part in rest || part == [s[0]] + rest[0];
      }
    }
  }

  /** The prefix of a media item: the first two parts of a path of its, if there are two. */
  function EntryPrefix(path: Path): Option<string> {
    var parts := Filter(Kept, Split(path));
    if |parts| < 2 then None else Some(parts[0] + "/" + parts[1])
  }

  /** A removal by media item, which skips the check of the prefix, uses a normal one that covers the path. */
  lemma EntryPrefixIsNormal(path: Path)
    ensures var prefix := EntryPrefix(path);
            prefix.Some? ==> Normal(prefix.value) && (Normal(path) ==> Excludes(prefix.value, path))
  {
    var parts := Filter(Kept, Split(path));
    if |parts| >= 2 {
      assert parts[0] in parts && parts[1] in parts;
      SplitHasNoSlash(path);
      SplitPlain(parts[0]);
      SplitPlain(parts[1]);
      SplitConcat(parts[0], parts[1]);
      hide Split;
      if Normal(path) {
        NormalTarget(path);
        var prefix := parts[0] + "/" + parts[1];
        assert path == JoinPath(parts) == parts[0] + "/" + JoinPath(parts[1..]);
        if |parts| > 2 {
          var rest := JoinPath(parts[1..][1..]);
          assert JoinPath(parts[1..]) == parts[1] + "/" + rest;
          assert path == (prefix + "/") + rest;
        } else {
          assert JoinPath(parts[1..]) == parts[1];
        }
      }
    }
  }

  lemma TargetOfValid(prefix: string, category: string)
    requires ValidPrefix(prefix, category) && Kept(category) && '/' !in category && category[0] != '.'
    ensures category <= Target(prefix) && Visible(Target(prefix))
  {
    var rest := prefix[|category| + 1..];
    assert prefix == category + "/" + rest;
    SplitConcat(category, rest);
    SplitPlain(category);
    var parts := Split(prefix);
    assert parts == [category] + Split(rest);
    hide Split, ValidPrefix;
    assert parts[1..] == Split(rest);
    var kept := Filter(Kept, parts);
    assert kept == [category] + Filter(Kept, parts[1..]);
    assert category <= JoinPath(kept);
    assert category[0] in category && Target(prefix)[0] == category[0];
  }

  lemma {:induction false} JoinBoth(a: seq<string>, b: seq<string>)
    requires a != [] && b != []
    ensures JoinPath(a + b) == JoinPath(a) + "/" + JoinPath(b)
  {
    if |a| > 1 {
      assert (a + b)[1..] == a[1..] + b;
      JoinBoth(a[1..], b);
    } else {
      assert (a + b)[1..] == b;
    }
  }

  /** The path climbs by a part of two dots, in between or at its end. */
  ghost predicate Climbs(prefix: string) {
    (exists a, b :: prefix == a + "/../" + b) || (exists a :: prefix == a + "/..")
  }

  /** The request names a path in its category that climbs nowhere. */
  lemma ValidMeaning(prefix: string, category: string)
    requires '/' !in category && category != ".."
    ensures ValidPrefix(prefix, category) <==> category + "/" <= prefix && !Climbs(prefix)
  {
    SplitPlain("..");
    if a, b :| prefix == a + "/../" + b {
      assert prefix == a + "/" + ".." + "/" + b;
      SplitConcat(a + "/" + "..", b);
      SplitConcat(a, "..");
    }
    if a :| prefix == a + "/.." {
      assert prefix == a + "/" + "..";
      SplitConcat(a, "..");
    }
    if category + "/" <= prefix && ".." in Split(prefix) {
      PartClimbs(prefix, category);
    }
  }

  lemma JoinedClimbs(parts: seq<string>, k: nat)
    requires 0 < k < |parts| && parts[k] == ".."
    ensures Climbs(JoinPath(parts))
  {
    var a, rest := JoinPath(parts[..k]), parts[k + 1..];
    assert parts == parts[..k] + parts[k..] && parts[k..] == [".."] + rest;
    JoinBoth(parts[..k], parts[k..]);
    if rest != [] {
      JoinBoth([".."], rest);
      hide JoinPath;
      assert a + "/" + (".." + "/" + JoinPath(rest)) == a + "/../" + JoinPath(rest);
    } else {
      hide JoinPath;
      assert a + "/" + ".." == a + "/..";
    }
  }

  lemma PartClimbs(prefix: string, category: string)
    requires '/' !in category && category != ".." && category + "/" <= prefix && ".." in Split(prefix)
    ensures Climbs(prefix)
  {
    var rest := prefix[|category| + 1..];
    assert prefix == category + "/" + rest;
    SplitConcat(category, rest);
    SplitPlain(category);
    JoinSplit(prefix);
    hide Split, Climbs, JoinPath;
    var k :| 0 <= k < |Split(prefix)| && Split(prefix)[k] == "..";
    JoinedClimbs(Split(prefix), k);
  }

  lemma {:induction false} KeptOfBoth(a: seq<string>, b: seq<string>)
    ensures Filter(Kept, a + b) == Filter(Kept, a) + Filter(Kept, b)
  {
    if a == [] {
      assert a + b == b;
    } else {
      assert (a + b)[1..] == a[1..] + b;
      KeptOfBoth(a[1..], b);
    }
  }

  lemma DotIsDropped(dot: string)
    requires dot in ["", "."]
    ensures Split(dot) == [dot] && Filter(Kept, [dot]) == []
  {
    SplitPlain(dot);
    assert [dot][1..] == [];
  }

  lemma DotPart(a: string, dot: string, b: string)
    requires dot in ["", "."]
    ensures Target(a + "/" + dot + "/" + b) == Target(a + "/" + b)
    ensures Target(a + "/" + dot) == Target(a) && Target(dot + "/" + b) == Target(b)
  {
    hide Kept, Split;
    DotIsDropped(dot);
    SplitConcat(a + "/" + dot, b);
    SplitConcat(a, dot);
    SplitConcat(a, b);
    SplitConcat(dot, b);
    KeptOfBoth(Split(a) + [dot], Split(b));
    KeptOfBoth(Split(a), [dot]);
    KeptOfBoth(Split(a), Split(b));
    KeptOfBoth([dot], Split(b));
    assert Filter(Kept, Split(a)) + [] == Filter(Kept, Split(a)) && [] + Filter(Kept, Split(b)) == Filter(Kept, Split(b));
  }

  /** Empty parts and dots do not count: neither a doubled or trailing slash nor a dot part changes the path.  A normal
      prefix is the path itself (`NormalTarget`), so this says what any prefix resolves to. */
  lemma DotsDoNotCount(a: string, b: string)
    ensures Target(a + "//" + b) == Target(a + "/" + b) && Target(a + "/./" + b) == Target(a + "/" + b)
    ensures Target(a + "/") == Target(a) && Target(a + "/.") == Target(a)
    ensures Target("/" + b) == Target(b) && Target("./" + b) == Target(b)
  {
    hide Target;
    DotPart(a, "", b);
    DotPart(a, ".", b);
    assert a + "/" + "" + "/" + b == a + "//" + b && a + "/" + "." + "/" + b == a + "/./" + b;
    assert a + "/" + "" == a + "/" && "" + "/" + b == "/" + b;
    assert a + "/" + "." == a + "/." && "." + "/" + b == "./" + b;
  }

  lemma SplitSlash(prefix: string)
    ensures Split(prefix + "/") == Split(prefix) + [""]
  {
    SplitConcat(prefix, "");
    assert prefix + "/" + "" == prefix + "/";
  }

  /** A trailing slash changes nothing about the path, but it does change the prefix. */
  lemma TrailingSlash(prefix: string)
    requires Normal(prefix)
    ensures Target(prefix + "/") == prefix && !Normal(prefix + "/")
  {
    SplitSlash(prefix);
    JoinSplit(prefix);
    hide Split;
    assert "" in Split(prefix + "/");
    DotIsDropped("");
    KeptOfBoth(Split(prefix), [""]);
    FilterAll(Kept, Split(prefix));
    assert Split(prefix) + [] == Split(prefix);
  }

  lemma SlashedPair(category: string, title: string)
    requires '/' !in category && '/' !in title && Kept(category) && Kept(title) && category != ".." && title != ".."
    ensures var prefix := category + "/" + title;
            Target(prefix + "/") == prefix && ValidPrefix(prefix + "/", category)
  {
    var prefix := category + "/" + title;
    SplitPlain(category);
    SplitPlain(title);
    SplitConcat(category, title);
    SplitSlash(prefix);
    hide Split, Target;
    assert Split(prefix) == [category, title] && Split(prefix + "/") == [category, title, ""];
    assert category + "/" <= prefix + "/";
    TrailingSlash(prefix);
  }

  lemma SlashedPrefix()
    ensures Target("movies/X/") == "movies/X" && ValidPrefix("movies/X/", "movies")
  {
    hide *;
    PlainNames();
    SlashedPair("movies", "X");
    assert "movies" + "/" + "X" == "movies/X" && "movies/X" + "/" == "movies/X/";
  }

  lemma PlainNames()
    ensures '/' !in "movies" && '/' !in "X" && Kept("movies") && Kept("X")
  {
  }

  // ---------- The staged removal ----------

  class StagedLibraryRemoval {
    const library: Library
    const target: Path
    const quarantine: Option<string>
    const removedFiles: nat

    constructor (library: Library, target: Path, quarantine: Option<string>, removedFiles: nat)
      ensures this.library == library && this.target == target && this.quarantine == quarantine
      ensures this.removedFiles == removedFiles
    {
      this.library, this.target, this.quarantine, this.removedFiles := library, target, quarantine, removedFiles;
    }

    /** Renames the quarantined files back, unless something has taken their place. */
    method Restore() returns (o: Outcome<Error>)
      modifies library`files
      ensures var files := old(library.files);
              if quarantine.None? || Under(files, Payload(quarantine.value)) == {} then o == Pass && library.files == files
              else if Under(files, target) != {} then o == Fail(TargetExists) && library.files == files
              else o == Pass && library.files == Renamed(files, Payload(quarantine.value), target)
    {
      hide Renamed;
      if quarantine.None? || Under(library.files, Payload(quarantine.value)) == {} {
        return Pass;
      }
      if Under(library.files, target) != {} {
        return Fail(TargetExists);
      }
      library.files := Renamed(library.files, Payload(quarantine.value), target);
      return Pass;
    }

    /** Deletes the quarantined files one by one; if that fails, the rest stay in quarantine. */
    method Finalize() returns (o: Outcome<Error>)
      modifies library
      ensures quarantine.None? ==> o == Pass && library.files == old(library.files)
      ensures quarantine.Some? ==>
                && (o.Pass? ==> library.files == WithoutQuarantine(old(library.files), quarantine.value))
                && forall p :: !Excludes(OperationRoot(quarantine.value), p) ==>
                     Lookup(library.files, p) == Lookup(old(library.files), p)
      ensures o.Fail? ==> o.error == EffectFailed && library.faultIn == 0
    {
      if quarantine.None? {
        return Pass;
      }
      hide Excludes;
      var root := OperationRoot(quarantine.value);
      var all := Under(library.files, root);
      var todo := all;
      while todo != {}
        invariant todo <= all
        invariant library.files == old(library.files) - (all - todo)
        decreases |todo|
      {
        var p :| p in todo;
        :- library.Unlink(p);
        todo := todo - {p};
      }
      return Pass;
    }
  }

  /** Stages the removal of what a prefix resolves to, under a new operation id. */
  method StageLibraryPrefixRemoval(library: Library, prefix: string, id: string)
    returns (r: Result<StagedLibraryRemoval, Error>)
    modifies library
    ensures var files := old(library.files);
            match r
            case Raised(e) => library.files == files
            case Ok(removal) =>
              && removal.library == library && removal.target == Target(prefix)
              && removal.quarantine == (if StagedPaths(files, Target(prefix)) == {} then None else Some(id))
              && (removal.quarantine.Some? ==> Unused(files, id))
              && removal.removedFiles == |set p | p in StagedPaths(files, Target(prefix)) && EndsWith(p, ".strm")|
              && library.files == Staged(files, Target(prefix), id)
    ensures r.Raised? ==>
              || (r.error == QuarantineInUse && !Unused(old(library.files), id))
              || (r.error == EffectFailed && library.faultIn == 0)
  {
    hide Renamed, Excludes, EndsWith, Target;
    var target := Target(prefix);
    var staged := StagedPaths(library.files, target);
    var removed := set p | p in staged && EndsWith(p, ".strm");
    if staged == {} {
      var nothing := new StagedLibraryRemoval(library, target, None, |removed|);
      return Ok(nothing);
    }
    if !Unused(library.files, id) {
      return Raised(QuarantineInUse);
    }
    var o := library.Attempt();
    if o.Fail? {
      return Raised(o.error);
    }
    library.files := Renamed(library.files, target, Payload(id));
    var removal := new StagedLibraryRemoval(library, target, Some(id), |removed|);
    return Ok(removal);
  }
}
