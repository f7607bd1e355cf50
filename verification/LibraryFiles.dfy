/** The files below the library root, and undoing what a synchronization did to them. */
module LibraryFiles {
  import opened Common

  /** A path relative to the library root, with forward slashes. */
  type Path = string

  /** The contents of the files.  Text and its encoding determine each other, so texts stand for bytes. */
  type Files = map<Path, string>

  const MANIFEST_PATH := ".strmline/resolver_manifest.json"

  predicate EndsWith(s: string, tail: string) {
    |s| >= |tail| && s[|s| - |tail|..] == tail
  }

  /** The files that a full snapshot captures. */
  predicate Snapshotted(p: Path) {
    EndsWith(p, ".strm") || p == MANIFEST_PATH
  }

  // ---------- Specification ----------

  /** What restoring puts back: the originals of the tracked paths, and nothing else. */
  function Restored(files: Files, originals: map<Path, Option<string>>): Files {
    map p | p in files.Keys + originals.Keys && (p in originals ==> originals[p].Some?) ::
      if p in originals then originals[p].value else files[p]
  }

  /** Every path that may differ from `initial` is tracked, with its content in `initial`. */
  ghost predicate Covers(initial: Files, files: Files, originals: map<Path, Option<string>>) {
    && (forall p :: p in originals ==> originals[p] == Lookup(initial, p))
    && (forall p :: p !in originals ==> Lookup(files, p) == Lookup(initial, p))
  }

  lemma RestoredIsInitial(initial: Files, files: Files, originals: map<Path, Option<string>>)
    requires Covers(initial, files, originals)
    ensures Restored(files, originals) == initial
  {
    var r := Restored(files, originals);
    forall p ensures Lookup(r, p) == Lookup(initial, p) {
      if p !in originals {
        assert Lookup(files, p) == Lookup(initial, p);
      }
    }
    SameLookups(r, initial);
  }

  lemma SameLookups(a: Files, b: Files)
    requires forall p :: Lookup(a, p) == Lookup(b, p)
    ensures a == b
  {
    forall p ensures p in a <==> p in b {
      assert Lookup(a, p) == Lookup(b, p);
    }
    forall p | p in a ensures a[p] == b[p] {
      assert Lookup(a, p) == Lookup(b, p);
    }
  }

  lemma RestoreTwice(files: Files, originals: map<Path, Option<string>>)
    ensures Restored(Restored(files, originals), originals) == Restored(files, originals)
  {
  }

  ghost predicate AgreeOutside(initial: Files, files: Files, paths: set<Path>) {
    forall p :: p !in paths ==> Lookup(files, p) == Lookup(initial, p)
  }

  lemma CoversAgrees(initial: Files, files: Files, originals: map<Path, Option<string>>)
    requires Covers(initial, files, originals)
    ensures AgreeOutside(initial, files, originals.Keys)
  {
  }

  lemma AgreeStep(initial: Files, files: Files, paths: set<Path>, p: Path)
    requires AgreeOutside(initial, files, paths)
    ensures AgreeOutside(initial, if p in initial then files[p := initial[p]] else files - {p}, paths - {p})
  {
  }

  lemma AgreeEverywhere(initial: Files, files: Files)
    requires AgreeOutside(initial, files, {})
    ensures files == initial
  {
    SameLookups(files, initial);
  }

  /** The restore of a full snapshot: captured files are rewritten, new ones of the same sort deleted. */
  function SnapshotRestored(files: Files, snapshot: Files): Files {
    map p | p in files.Keys + snapshot.Keys && (p in snapshot || !Snapshotted(p)) ::
      if p in snapshot then snapshot[p] else files[p]
  }

  function Snapshot(files: Files): Files {
    map p | p in files && Snapshotted(p) :: files[p]
  }

  /** The snapshot undoes what was done to files that it captures. */
  lemma SnapshotRestores(initial: Files, files: Files)
    requires forall p :: !Snapshotted(p) ==> Lookup(files, p) == Lookup(initial, p)
    ensures SnapshotRestored(files, Snapshot(initial)) == initial
  {
    var r := SnapshotRestored(files, Snapshot(initial));
    forall p ensures Lookup(r, p) == Lookup(initial, p) {
      if !Snapshotted(p) {
        assert Lookup(files, p) == Lookup(initial, p);
      }
    }
    SameLookups(r, initial);
  }

  // ---------- Runs of mutations ----------

  /** The atomic steps of a synchronization as far as files go. */
  datatype Mutation = Track(path: Path) | Write(path: Path, content: string) | Unlink(path: Path)

  datatype Journaled = Journaled(files: Files, originals: map<Path, Option<string>>)

  function Tracked(j: Journaled, p: Path): Journaled {
    if p in j.originals then j else j.(originals := j.originals[p := Lookup(j.files, p)])
  }

  function Mutated(j: Journaled, m: Mutation): Journaled {
    match m
    case Track(p) => Tracked(j, p)
    case Write(p, c) => j.(files := j.files[p := c])
    case Unlink(p) => j.(files := j.files - {p})
  }

  /** Every path is tracked before it is written or unlinked. */
  ghost predicate Disciplined(j: Journaled, run: seq<Mutation>)
    decreases |run|
  {
    run != [] ==>
      && (run[0].Track? || run[0].path in j.originals)
      && Disciplined(Mutated(j, run[0]), run[1..])
  }

  function After(j: Journaled, run: seq<Mutation>): Journaled
    decreases |run|
  {
    if run == [] then j else After(Mutated(j, run[0]), run[1..])
  }

  lemma TrackCovers(initial: Files, j: Journaled, p: Path)
    requires Covers(initial, j.files, j.originals)
    ensures Covers(initial, j.files, Tracked(j, p).originals)
  {
  }

  lemma MutationCovers(initial: Files, j: Journaled, m: Mutation)
    requires Covers(initial, j.files, j.originals) && (m.Track? || m.path in j.originals)
    ensures Covers(initial, Mutated(j, m).files, Mutated(j, m).originals)
  {
    if !m.Track? {
      forall p | p !in j.originals ensures Lookup(Mutated(j, m).files, p) == Lookup(initial, p) {
        assert Lookup(j.files, p) == Lookup(initial, p);
      }
    }
  }

  lemma {:induction false} RunCovers(initial: Files, j: Journaled, run: seq<Mutation>, k: nat)
    requires Covers(initial, j.files, j.originals) && Disciplined(j, run) && k <= |run|
    ensures Covers(initial, After(j, run[..k]).files, After(j, run[..k]).originals)
    decreases |run|
  {
    hide Covers;
    if k > 0 {
      MutationCovers(initial, j, run[0]);
      RunCovers(initial, Mutated(j, run[0]), run[1..], k - 1);
      assert run[..k][1..] == run[1..][..k - 1];
    }
  }

  /** Only paths that a snapshot would capture are touched. */
  ghost predicate TouchesSnapshotted(run: seq<Mutation>) {
    forall m :: m in run ==> Snapshotted(m.path)
  }

  lemma {:induction false} UntouchedStays(j: Journaled, run: seq<Mutation>, p: Path)
    requires forall m :: m in run ==> m.path != p
    ensures Lookup(After(j, run).files, p) == Lookup(j.files, p)
    decreases |run|
  {
    if run != [] {
      assert run[0] in run;
      UntouchedStays(Mutated(j, run[0]), run[1..], p);
    }
  }

  /** A run that tracks before it mutates, stopped at any step: restoring gives back exactly the files
      at the journal's creation, restoring again changes nothing, and restoring the full snapshot
      taken at creation would give the same. */
  lemma RestoreUndoesRun(initial: Files, run: seq<Mutation>, k: nat)
    requires Disciplined(Journaled(initial, map[]), run) && k <= |run|
    ensures var j := After(Journaled(initial, map[]), run[..k]);
            && Restored(j.files, j.originals) == initial
            && Restored(Restored(j.files, j.originals), j.originals) == initial
            && (TouchesSnapshotted(run) ==> SnapshotRestored(j.files, Snapshot(initial)) == initial)
  {
    var start := Journaled(initial, map[]);
    var j := After(start, run[..k]);
    RunCovers(initial, start, run, k);
    RestoredIsInitial(initial, j.files, j.originals);
    RestoreTwice(j.files, j.originals);
    if TouchesSnapshotted(run) {
      forall p | !Snapshotted(p) ensures Lookup(j.files, p) == Lookup(initial, p) {
        UntouchedStays(start, run[..k], p);
      }
      SnapshotRestores(initial, j.files);
    }
  }

  /** The discipline is needed: an untracked write survives the journal's restore, though not the snapshot's. */
  lemma UntrackedWriteSurvives(initial: Files, p: Path, content: string)
    requires Lookup(initial, p) != Some(content) && Snapshotted(p)
    ensures var j := After(Journaled(initial, map[]), [Write(p, content)]);
            && Restored(j.files, j.originals) != initial
            && SnapshotRestored(j.files, Snapshot(initial)) == initial
  {
    var start, run := Journaled(initial, map[]), [Write(p, content)];
    var j := After(start, run);
    var rest := run[1..];
    assert rest == [] && After(Mutated(start, run[0]), rest) == Mutated(start, run[0]);
    assert Lookup(Restored(j.files, j.originals), p) == Some(content);
    var r := SnapshotRestored(j.files, Snapshot(initial));
    forall q ensures Lookup(r, q) == Lookup(initial, q) {
    }
    SameLookups(r, initial);
  }

  // ---------- The library and its journal ----------

  datatype Error = EffectFailed | ReadFailed | InvalidLimit | InvalidEntry | InvalidManifest | AmbiguousEntry | ConstraintViolated
    | ConfigurationMissing | ItemMissing | InvalidPrefix | QuarantineInUse | TargetExists

  /** The library on disk.  `faultIn` is the number of effects that still succeed before one raises:
      left arbitrary, it stands for a failure at any point. */
  class Library {
    var files: Files
    var faultIn: nat

    constructor (files: Files, faultIn: nat)
      ensures this.files == files && this.faultIn == faultIn
    {
      this.files, this.faultIn := files, faultIn;
    }

    /** A provider call or a read. */
    method Attempt() returns (o: Outcome<Error>)
      modifies `faultIn
      ensures faultIn == if o.Pass? then old(faultIn) - 1 else 0
      ensures o.Pass? <==> old(faultIn) > 0
      ensures o.Fail? ==> o.error == EffectFailed
    {
      if faultIn == 0 {
        return Fail(EffectFailed);
      }
      faultIn := faultIn - 1;
      return Pass;
    }

    /** An atomic replacement: it happens or it does not. */
    method Write(p: Path, content: string) returns (o: Outcome<Error>)
      modifies this
      ensures files == if o.Pass? then old(files)[p := content] else old(files)
      ensures faultIn == if o.Pass? then old(faultIn) - 1 else 0
      ensures o.Pass? <==> old(faultIn) > 0
      ensures o.Fail? ==> o.error == EffectFailed
    {
      o := Attempt();
      if o.Fail? {
        return;
      }
      files := files[p := content];
      return Pass;
    }

    method Unlink(p: Path) returns (o: Outcome<Error>)
      modifies this
      ensures files == if o.Pass? then old(files) - {p} else old(files)
      ensures faultIn == if o.Pass? then old(faultIn) - 1 else 0
      ensures o.Pass? <==> old(faultIn) > 0
      ensures o.Fail? ==> o.error == EffectFailed
    {
      o := Attempt();
      if o.Fail? {
        return;
      }
      files := files - {p};
      return Pass;
    }
  }

  class LibraryMutationJournal {
    const library: Library
    var originals: map<Path, Option<string>>
    ghost const initial: Files

    ghost predicate Valid()
      reads this, library
    {
      Covers(initial, library.files, originals)
    }

    constructor (library: Library)
      ensures this.library == library && originals == map[] && initial == library.files && Valid()
    {
      this.library, originals, initial := library, map[], library.files;
    }

    /** Captures a path once, before its first mutation. */
    method Track(p: Path) returns (o: Outcome<Error>)
      requires Valid()
      modifies `originals, library`faultIn
      ensures Valid() && originals == if o.Pass? then Tracked(old(Journaled(library.files, originals)), p).originals
                                      else old(originals)
      ensures o.Pass? ==> p in originals
      ensures old(library.faultIn) - 1 <= library.faultIn
      ensures o.Fail? ==> o.error == EffectFailed && library.faultIn == 0
    {
      TrackCovers(initial, Journaled(library.files, originals), p);
      if p in originals {
        return Pass;
      }
      :- library.Attempt();
      originals := originals[p := Lookup(library.files, p)];
      return Pass;
    }

    /** Writes to a tracked path. */
    method Write(p: Path, content: string) returns (o: Outcome<Error>)
      requires Valid() && p in originals
      modifies library
      ensures Valid()
      ensures library.files == if o.Pass? then old(library.files)[p := content] else old(library.files)
      ensures old(library.faultIn) - 1 <= library.faultIn
      ensures o.Fail? ==> o.error == EffectFailed && library.faultIn == 0
    {
      MutationCovers(initial, Journaled(library.files, originals), Mutation.Write(p, content));
      o := library.Write(p, content);
    }

    method Unlink(p: Path) returns (o: Outcome<Error>)
      requires Valid() && p in originals
      modifies library
      ensures Valid()
      ensures library.files == if o.Pass? then old(library.files) - {p} else old(library.files)
      ensures old(library.faultIn) - 1 <= library.faultIn
      ensures o.Fail? ==> o.error == EffectFailed && library.faultIn == 0
    {
      MutationCovers(initial, Journaled(library.files, originals), Mutation.Unlink(p));
      o := library.Unlink(p);
    }

    /** Rewrites or removes every tracked file.  What was not tracked is left alone. */
    method Restore()
      requires Valid()
      modifies library`files
      ensures library.files == Restored(old(library.files), originals) == initial
      ensures Valid()
    {
      hide AgreeOutside, Restored;
      RestoredIsInitial(initial, library.files, originals);
      CoversAgrees(initial, library.files, originals);
      var todo := originals.Keys;
      while todo != {}
        invariant todo <= originals.Keys
        invariant forall p :: p in originals ==> originals[p] == Lookup(initial, p)
        invariant AgreeOutside(initial, library.files, todo)
        decreases |todo|
      {
        var p :| p in todo;
        AgreeStep(initial, library.files, todo, p);
        match originals[p] {
          case None => library.files := library.files - {p};
          case Some(content) => library.files := library.files[p := content];
        }
        todo := todo - {p};
      }
      AgreeEverywhere(initial, library.files);
    }
  }

  /** The full copy that the journal replaces. */
  class LibrarySyncSnapshot {
    const library: Library
    const captured: Files

    constructor Capture(library: Library)
      ensures this.library == library && captured == Snapshot(library.files)
    {
      this.library, captured := library, Snapshot(library.files);
    }

    /** Deletes what was not captured, then rewrites what was. */
    method Restore()
      modifies library`files
      ensures library.files == SnapshotRestored(old(library.files), captured)
    {
      hide Snapshotted, AgreeOutside, SnapshotRestored;
      ghost var goal := SnapshotRestored(library.files, captured);
      ExtraGone(library.files, captured, Extra(library.files));
      DeleteExtra();
      var todo := captured.Keys;
      while todo != {}
        invariant todo <= captured.Keys && AgreeOutside(goal, library.files, todo)
        decreases |todo|
      {
        var p :| p in todo;
        SnapshotWins(old(library.files), captured, p);
        AgreeStep(goal, library.files, todo, p);
        library.files := library.files[p := captured[p]];
        todo := todo - {p};
      }
      AgreeEverywhere(goal, library.files);
    }

    /** The files of the captured sort that were not captured. */
    function Extra(files: Files): set<Path> {
      set p | p in files && Snapshotted(p) && p !in captured
    }

    method DeleteExtra()
      modifies library`files
      ensures library.files == old(library.files) - Extra(old(library.files))
    {
      hide Extra;
      var extra := Extra(library.files);
      var todo := extra;
      while todo != {}
        invariant todo <= extra && library.files == old(library.files) - (extra - todo)
        decreases |todo|
      {
        var p :| p in todo;
        library.files := library.files - {p};
        todo := todo - {p};
      }
      assert extra - todo == extra;
    }

    lemma SnapshotWins(files: Files, snapshot: Files, p: Path)
      requires p in snapshot
      ensures Lookup(SnapshotRestored(files, snapshot), p) == Some(snapshot[p])
    {
    }

    lemma ExtraGone(files: Files, snapshot: Files, extra: set<Path>)
      requires extra == set p | p in files && Snapshotted(p) && p !in snapshot
      ensures AgreeOutside(SnapshotRestored(files, snapshot), files - extra, snapshot.Keys)
    {
      hide Snapshotted;
    }
  }

  // ---------- Writing ----------

  /** Writes a playback file unless it already holds exactly the content; the path is tracked first. */
  method WriteStrmFile(journal: LibraryMutationJournal, p: Path, content: string) returns (o: Outcome<Error>)
    requires journal.Valid()
    modifies journal, journal.library
    ensures journal.Valid()
    ensures o.Pass? ==> journal.library.files == old(journal.library.files)[p := content]
    ensures old(journal.library.faultIn) - 2 <= journal.library.faultIn
    ensures o.Fail? ==> o.error == EffectFailed && journal.library.faultIn == 0
  {
    o := journal.Track(p);
    if o.Fail? {
      return;
    }
    if p in journal.library.files && journal.library.files[p] == content {
      assert journal.library.files[p := content] == journal.library.files;
      return Pass;
    }
    :- journal.Write(p, content);
    return Pass;
  }

  /** The manifest as text, and back: printing entries and reading the printed text is the identity. */
  datatype ManifestFormat = ManifestFormat(
    print_: map<string, string> -> string, read_: string -> Option<map<string, string>>)
  {
    ghost predicate Valid() {
      forall m :: read_(print_(m)) == Some(m)
    }
  }

  /** Later entries for an id replace earlier ones. */
  function Merged(existing: map<string, string>, entries: seq<(string, string)>): map<string, string> {
    if entries == [] then existing else Merged(existing, Front(entries))[Last(entries).0 := Last(entries).1]
  }

  /** The entries that a write starts from; a manifest that cannot be read stops a merge. */
  function ExistingEntries(files: Files, format: ManifestFormat, replaceExisting: bool): Option<map<string, string>> {
    if replaceExisting || MANIFEST_PATH !in files then Some(map[]) else format.read_(files[MANIFEST_PATH])
  }

  /** Merges into or replaces the manifest, writing only a change, and tracking before writing. */
  method WriteManifestEntries(
    journal: LibraryMutationJournal, entries: seq<(string, string)>, format: ManifestFormat, replaceExisting: bool)
    returns (o: Outcome<Error>)
    requires journal.Valid()
    modifies journal, journal.library
    ensures journal.Valid()
    ensures var existing := ExistingEntries(old(journal.library.files), format, replaceExisting);
            o.Pass? ==>
              && existing.Some?
              && journal.library.files ==
                 old(journal.library.files)[MANIFEST_PATH := format.print_(Merged(existing.value, entries))]
    ensures old(journal.library.faultIn) - 2 <= journal.library.faultIn
    ensures var existing := ExistingEntries(old(journal.library.files), format, replaceExisting);
            o.Fail? ==>
              if existing.None? then o.error == InvalidManifest
              else o.error == EffectFailed && journal.library.faultIn == 0
  {
    var existing := ExistingEntries(journal.library.files, format, replaceExisting);
    if existing.None? {
      return Fail(InvalidManifest);
    }
    var merged := existing.value;
    for i := 0 to |entries|
      invariant merged == Merged(existing.value, entries[..i])
    {
      merged := merged[entries[i].0 := entries[i].1];
      assert Front(entries[..i + 1]) == entries[..i];
    }
    assert entries[..|entries|] == entries;
    var content := format.print_(merged);
    if MANIFEST_PATH in journal.library.files && journal.library.files[MANIFEST_PATH] == content {
      assert journal.library.files[MANIFEST_PATH := content] == journal.library.files;
      return Pass;
    }
    :- journal.Track(MANIFEST_PATH);
    :- journal.Write(MANIFEST_PATH, content);
    return Pass;
  }

  /** After a merge the ids that were not written resolve to what they resolved to before. */
  lemma {:induction false} MergeKeepsOthers(existing: map<string, string>, entries: seq<(string, string)>, id: string)
    requires forall i :: 0 <= i < |entries| ==> entries[i].0 != id
    ensures Lookup(Merged(existing, entries), id) == Lookup(existing, id)
  {
    if entries != [] {
      MergeKeepsOthers(existing, Front(entries), id);
    }
  }

  /** And every id that was written resolves to its last target; after a replacement nothing else is left. */
  lemma {:induction false} MergeResolvesWritten(existing: map<string, string>, entries: seq<(string, string)>, k: nat)
    requires k < |entries| && forall i :: k < i < |entries| ==> entries[i].0 != entries[k].0
    ensures Lookup(Merged(existing, entries), entries[k].0) == Some(entries[k].1)
  {
    if k < |entries| - 1 {
      MergeResolvesWritten(existing, Front(entries), k);
    }
  }

  // ---------- Stale files ----------

  function LowerAscii(c: char): char {
    if 'A' <= c <= 'Z' then c + ('a' - 'A') else c
  }

  /** A name with something before a suffix that reads `.strm` in any case. */
  predicate HasStrmSuffix(p: Path) {
    && |p| > 5 && p[|p| - 6] != '/' && p[|p| - 5] == '.'
    && LowerAscii(p[|p| - 4]) == 's' && LowerAscii(p[|p| - 3]) == 't'
    && LowerAscii(p[|p| - 2]) == 'r' && LowerAscii(p[|p| - 1]) == 'm'
  }

  function WithoutStale(files: Files, stale: set<Path>): Files {
    files - set p | p in stale && HasStrmSuffix(p)
  }

  /** Tracks all stale paths, then removes those that are playback files. */
  method RemoveStaleFiles(journal: LibraryMutationJournal, stale: set<Path>) returns (o: Outcome<Error>)
    requires journal.Valid()
    modifies journal, journal.library
    ensures journal.Valid()
    ensures o.Pass? ==> journal.library.files == WithoutStale(old(journal.library.files), stale)
    ensures o.Fail? ==> o.error == EffectFailed && journal.library.faultIn == 0
  {
    var todo := stale;
    while todo != {}
      invariant todo <= stale && journal.Valid()
      invariant journal.library.files == old(journal.library.files)
      invariant forall p :: p in stale && p !in todo ==> p in journal.originals
      decreases |todo|
    {
      var p :| p in todo;
      :- journal.Track(p);
      todo := todo - {p};
    }
    todo := stale;
    while todo != {}
      invariant todo <= stale && journal.Valid()
      invariant forall p :: p in stale ==> p in journal.originals
      invariant journal.library.files == WithoutStale(old(journal.library.files), stale - todo)
      decreases |todo|
    {
      var p :| p in todo;
      if HasStrmSuffix(p) {
        o := journal.Unlink(p);
        if o.Fail? {
          return;
        }
      }
      StaleStep(old(journal.library.files), stale, todo, p);
      todo := todo - {p};
    }
    assert stale - todo == stale;
    return Pass;
  }

  lemma StaleStep(files: Files, stale: set<Path>, todo: set<Path>, p: Path)
    requires p in todo && todo <= stale
    ensures WithoutStale(files, stale - (todo - {p})) ==
            if HasStrmSuffix(p) then WithoutStale(files, stale - todo) - {p} else WithoutStale(files, stale - todo)
  {
  }
}
