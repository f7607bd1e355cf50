/** Conditions on the inputs of a run under which no two sources contend for a path. */
module ClashFreedom {
  import opened Common
  import opened IdentityInputs
  import opened LibraryFiles
  import opened LibraryPaths
  import opened StrmSync
  import opened SyncDecisions
  import opened SyncOwnership
  import opened SyncRuns
  import opened TorBoxFiles

  // ---------- Tags ----------

  /** The path ends in a bracket, as suffixed paths do. */
  predicate Bracketed(path: Path) {
    EndsWith(path, "].strm")
  }

  /** What the suffixed paths of a source end in. */
  function Tag(env: Env, key: SourceFileKey): string {
    " [" + Prefix8(env.entryId(key)) + "].strm"
  }

  /** The entry's canonical name ends in a year, an episode or a title without a closing bracket. */
  predicate PlainName(title: string, year: Option<int>) {
    year.Some? || !EndsWith(CleanTitle(title), "]")
  }

  predicate PlainKnown(k: Known) {
    PlainName(k.title, k.year)
  }

  /** Whatever title an entry of the run may get, it is plain. */
  ghost predicate PlainTitles(env: Env, batches: seq<Batch>) {
    && (forall b, f :: b in batches && f in b.files ==> PlainName(ParsedEntry(env, f).title, ParsedEntry(env, f).year))
    && PlainIdentities(env)
  }

  ghost predicate PlainIdentities(env: Env) {
    && (forall id :: id in env.byTorrentId ==> PlainKnown(env.byTorrentId[id]))
    && (forall h :: h in env.byInfoHash ==> PlainKnown(env.byInfoHash[h]))
    && (forall a :: a in env.byAlias ==> PlainKnown(env.byAlias[a]))
    && (env.provider.Some? ==> forall t, y, c :: PlainKnown(env.provider.value.resolve(t, y, c).known))
  }

  ghost predicate PlainLabels(env: Env) {
    forall source :: !EndsWith(VersionLabel(source, env.labels), "]")
  }

  /** The sources that take part in a run. */
  ghost predicate TakesPart(env: Env, batches: seq<Batch>, k: SourceFileKey) {
    k in env.reusable || exists b, f :: b in batches && f in b.files && Key(f) == k
  }

  /** Their ids have eight characters, and differ in them. */
  ghost predicate TagsApart(env: Env, batches: seq<Batch>) {
    && (forall k :: TakesPart(env, batches, k) ==> |env.entryId(k)| >= 8)
    && (forall k, j :: TakesPart(env, batches, k) && TakesPart(env, batches, j) ==>
          (Prefix8(env.entryId(k)) == Prefix8(env.entryId(j)) ==> k == j))
  }

  /** A path offered for reuse that ends in a bracket carries the tag of its own source. */
  ghost predicate OwnTags(env: Env) {
    forall k :: k in env.reusable && Bracketed(env.reusable[k].path) ==> EndsWith(env.reusable[k].path, Tag(env, k))
  }

  ghost predicate Uncontended(env: Env, batches: seq<Batch>) {
    PlainTitles(env, batches) && PlainLabels(env) && TagsApart(env, batches) && OwnTags(env)
  }

  // ---------- The ends of paths ----------

  lemma LastCharacter(s: string, c: char)
    ensures EndsWith(s, [c]) <==> s != "" && Last(s) == c
  {
    if s != "" {
      assert s[|s| - 1..] == [Last(s)];
    }
  }

  lemma TailOfTail(p: string, name: string, n: nat)
    requires EndsWith(p, name) && n <= |name|
    ensures |p| >= n && p[|p| - n..] == name[|name| - n..]
  {
    assert p[|p| - |name|..][|name| - n..] == p[|p| - n..];
  }

  lemma TailOfName(stem: string)
    requires stem != ""
    ensures (stem + ".strm")[|stem| - 1..] == [Last(stem)] + ".strm"
  {
  }

  lemma BracketIsLast(parts: seq<string>, stem: string)
    requires |parts| > 1 && Last(parts) == stem + ".strm" && stem != ""
    ensures Bracketed(JoinPath(parts)) <==> Last(stem) == ']'
  {
    JoinShape(parts);
    TailOfTail(JoinPath(parts), Last(parts), 6);
    TailOfName(stem);
    hide JoinPath;
    var tail := [Last(stem)] + ".strm";
    assert JoinPath(parts)[|JoinPath(parts)| - 6..] == tail;
    assert tail[0] == Last(stem) && "].strm" == [']'] + ".strm" && "].strm"[0] == ']';
  }

  lemma CanonicalIsPlain(e: Entry)
    requires ValidEntry(e) && PlainName(e.title, e.year)
    ensures !Bracketed(EntryPath(e))
  {
    StemEnds(e);
    LastCharacter(CleanTitle(e.title), ']');
    if !IsFilm(e) {
      assert IsDigit(Last(Padded(e.episode.value)));
    }
    hide ValidEntry, CleanTitle, Padded, JoinPath, SeasonFolder, CategoryName, Bracketed;
    assert Last(FileStem(e)) != ']';
    BracketIsLast(LibraryEntryRelativePath(e), FileStem(e));
  }

  lemma AlternateIsPlain(env: Env, e: Entry, f: TorBoxFile)
    requires ValidEntry(e) && PlainLabels(env)
    ensures !Bracketed(Alternate(env, e, f))
  {
    var canonical, version := LibraryEntryRelativePath(e), VersionLabel(SourceName(f), env.labels);
    LabelEnds(SourceName(f), env.labels);
    LastCharacter(version, ']');
    assert !EndsWith(version, "]");
    hide ValidEntry, VersionLabel, JoinPath, Bracketed, LibraryPaths.Stem, EndsWith, SourceName;
    var stem := LibraryPaths.Stem(Last(canonical)) + " - " + version;
    var parts := AlternateVersionPath(canonical, SourceName(f), env.labels, None);
    assert Last(parts) == stem + ".strm" by {
      assert stem + "" + ".strm" == stem + ".strm";
    }
    BracketIsLast(parts, stem);
  }

  lemma JoinedEnds(parts: seq<string>, tail: string)
    requires |parts| > 1 && EndsWith(Last(parts), tail)
    ensures EndsWith(JoinPath(parts), tail)
  {
    JoinShape(parts);
    var p, name := JoinPath(parts), Last(parts);
    assert p[|p| - |name|..][|name| - |tail|..] == tail;
  }

  lemma SuffixedIsTagged(env: Env, e: Entry, f: TorBoxFile)
    requires ValidEntry(e)
    ensures EndsWith(Suffixed(env, e, f), Tag(env, Key(f))) && Bracketed(Suffixed(env, e, f))
  {
    var canonical, version := LibraryEntryRelativePath(e), VersionLabel(SourceName(f), env.labels);
    var id := Prefix8(env.entryId(Key(f)));
    var parts := AlternateVersionPath(canonical, SourceName(f), env.labels, Some(id));
    hide ValidEntry, VersionLabel, JoinPath, LibraryPaths.Stem, SourceName, Prefix8;
    var front := LibraryPaths.Stem(Last(canonical)) + " - " + version;
    var tag := Tag(env, Key(f));
    assert Last(parts) == front + tag by {
      assert front + (" [" + id + "]") + ".strm" == front + (" [" + id + "].strm");
    }
    assert Last(parts)[|front|..] == tag;
    JoinedEnds(parts, tag);
    assert tag[|tag| - 6..] == "].strm";
    var p := JoinPath(parts);
    assert p[|p| - |tag|..][|tag| - 6..] == "].strm";
  }

  /** Two tags at the end of one path are one. */
  lemma TagsAgree(env: Env, path: Path, k: SourceFileKey, j: SourceFileKey)
    requires EndsWith(path, Tag(env, k)) && EndsWith(path, Tag(env, j))
    requires |env.entryId(k)| >= 8 && |env.entryId(j)| >= 8
    ensures Prefix8(env.entryId(k)) == Prefix8(env.entryId(j))
  {
    var a, b := Prefix8(env.entryId(k)), Prefix8(env.entryId(j));
    assert Tag(env, k) == Tag(env, j);
    assert Tag(env, k)[2..10] == a && Tag(env, j)[2..10] == b;
  }

  // ---------- Entries ----------

  lemma KnownIsPlain(env: Env, parsed: Entry, itemId: string, hash: Option<string>)
    requires PlainIdentities(env)
    ensures var k := KnownIdentity(env, parsed, SelectedIdentity(env, itemId, hash)); k.Some? ==> PlainKnown(k.value)
  {
    hide PlainKnown;
  }

  lemma ResolvedIsPlain(env: Env, parsed: Entry, itemId: string, hash: Option<string>)
    requires PlainIdentities(env) && ValidEntry(parsed) && PlainName(parsed.title, parsed.year)
    ensures var r := ResolveEntry(env, parsed, SelectedIdentity(env, itemId, hash));
            r.Ok? ==> PlainName(r.value.0.title, r.value.0.year)
  {
    KnownIsPlain(env, parsed, itemId, hash);
    hide ValidEntry, SourcePrefix, KnownIdentity, SelectedIdentity, EndsWith, CleanTitle;
  }

  lemma PrintedIsPlain(env: Env, files: Files, f: TorBoxFile, discovered: map<string, string>)
    requires PlainIdentities(env) && PlainName(ParsedEntry(env, f).title, ParsedEntry(env, f).year)
    ensures var d := Decide(env, files, f, discovered);
            d.Print? ==> ValidEntry(d.entry) && PlainName(d.entry.title, d.entry.year)
  {
    PrintedEntry(env, files, f, discovered);
    hide ValidEntry, ResolveEntry, Exclusions, Reuses, PlainIdentities, PlainName, SelectedIdentity, InfoHash, ParsedEntry;
    if ValidEntry(ParsedEntry(env, f)) {
      ResolvedIsPlain(env, ParsedEntry(env, f), f.itemId, InfoHash(env, discovered, f));
    }
  }

  // ---------- Runs ----------

  /** Claims are those of sources that take part, and bracketed ones carry the tag of their owner. */
  ghost predicate Tagged(env: Env, batches: seq<Batch>, claimed: Claims) {
    forall p :: p in claimed ==>
      TakesPart(env, batches, claimed[p]) && (Bracketed(p) ==> EndsWith(p, Tag(env, claimed[p])))
  }

  lemma TargetIsTagged(env: Env, claimed: Claims, e: Entry, f: TorBoxFile)
    requires ValidEntry(e) && PlainName(e.title, e.year) && PlainLabels(env) && OwnTags(env)
    ensures var p := TargetPath(env, claimed, e, f); Bracketed(p) ==> EndsWith(p, Tag(env, Key(f)))
  {
    CanonicalIsPlain(e);
    AlternateIsPlain(env, e, f);
    SuffixedIsTagged(env, e, f);
    hide ValidEntry, PlainName, PlainLabels, Bracketed, EndsWith, Tag, EntryPath, Alternate, Suffixed, Free;
  }

  lemma SuffixIsFree(env: Env, batches: seq<Batch>, claimed: Claims, e: Entry, f: TorBoxFile)
    requires ValidEntry(e) && TagsApart(env, batches) && Tagged(env, batches, claimed) && TakesPart(env, batches, Key(f))
    ensures Free(claimed, Suffixed(env, e, f), Key(f))
  {
    SuffixedIsTagged(env, e, f);
    hide ValidEntry, TakesPart, Bracketed, EndsWith, Tag, Suffixed, Prefix8;
    var p := Suffixed(env, e, f);
    if p in claimed {
      TagsAgree(env, p, claimed[p], Key(f));
    }
  }

  lemma ClaimStaysTagged(env: Env, batches: seq<Batch>, claimed: Claims, p: Path, key: SourceFileKey)
    requires Tagged(env, batches, claimed) && TakesPart(env, batches, key) && (Bracketed(p) ==> EndsWith(p, Tag(env, key)))
    ensures Tagged(env, batches, claimed[p := key])
  {
    hide TakesPart, Bracketed, EndsWith, Tag;
  }

  ghost predicate ListedPlain(env: Env, batches: seq<Batch>, f: TorBoxFile) {
    TakesPart(env, batches, Key(f)) && PlainName(ParsedEntry(env, f).title, ParsedEntry(env, f).year)
  }

  lemma StepIsUncontended(env: Env, batches: seq<Batch>, b: Batch, p: Progress, f: TorBoxFile)
    requires PlainIdentities(env) && PlainLabels(env) && TagsApart(env, batches) && OwnTags(env) && RowsOk(env)
    requires Tagged(env, batches, p.claimed) && ListedPlain(env, batches, f)
    ensures var d := Decide(env, p.files, f, Discovered(b));
            d.Print? ==> ValidEntry(d.entry) && !Clashes(env, p.claimed, d.entry, f)
    ensures var r := StepFile(env, Discovered(b), p, f);
            r.Ok? ==> Tagged(env, batches, r.value.claimed)
  {
    hide StepFile, Decide, RowsOk, RowOk, TargetPath, ValidEntry, Scanned, Describes, Content, PlaybackUrl, Tagged, TagsApart,
      TakesPart, PlainIdentities, PlainLabels, OwnTags, PlainName, Bracketed, EndsWith, Tag, Suffixed, EntryPath, Alternate, Free;
    var d, r := Decide(env, p.files, f, Discovered(b)), StepFile(env, Discovered(b), p, f);
    PrintedIsPlain(env, p.files, f, Discovered(b));
    var s := StepShape(env, Discovered(b), p, f);
    if d.Print? {
      SuffixIsFree(env, batches, p.claimed, d.entry, f);
      if r.Ok? {
        TargetIsTagged(env, p.claimed, d.entry, f);
        ClaimStaysTagged(env, batches, p.claimed, s.value.path, Key(f));
      }
    }
  }

  lemma {:induction false} FilesAreUncontended(
    env: Env, batches: seq<Batch>, maxFiles: Option<nat>, b: Batch, p: Progress, files: seq<TorBoxFile>)
    requires PlainIdentities(env) && PlainLabels(env) && TagsApart(env, batches) && OwnTags(env) && RowsOk(env)
    requires Tagged(env, batches, p.claimed) && forall f :: f in files ==> ListedPlain(env, batches, f)
    ensures FilesClashFree(env, maxFiles, b, Running(p), files)
    ensures var r := RunFiles(env, maxFiles, b, Running(p), files);
            !r.Failed? ==> Tagged(env, batches, r.p.claimed)
    decreases |files|
  {
    hide PlainIdentities, PlainLabels, TagsApart, OwnTags, RowsOk, Tagged, ListedPlain, StepFile, Decide, Clashes, ValidEntry, Full;
    if files != [] {
      assert forall f :: f in Front(files) ==> f in files;
      FilesAreUncontended(env, batches, maxFiles, b, p, Front(files));
      var r := RunFiles(env, maxFiles, b, Running(p), Front(files));
      assert Last(files) in files;
      if r.Running? {
        StepIsUncontended(env, batches, b, r.p, Last(files));
      }
    }
  }

  lemma StartIsTagged(env: Env, batches: seq<Batch>, files: Files)
    requires UniquePaths(env.reusable) && OwnTags(env)
    ensures Tagged(env, batches, Start(env, files).claimed)
  {
    hide Bracketed, EndsWith, Tag;
  }

  lemma BatchIsPlain(env: Env, batches: seq<Batch>, b: Batch)
    requires PlainTitles(env, batches) && b in batches
    ensures forall f :: f in b.files ==> ListedPlain(env, batches, f)
  {
    hide PlainName, ParsedEntry;
  }

  lemma {:induction false} BatchesAreUncontended(
    env: Env, all: seq<Batch>, maxFiles: Option<nat>, files: Files, batches: seq<Batch>)
    requires Uncontended(env, all) && UniquePaths(env.reusable) && RowsOk(env) && forall b :: b in batches ==> b in all
    ensures ClashFree(env, maxFiles, Running(Start(env, files)), batches)
    ensures var r := RunBatches(env, maxFiles, Running(Start(env, files)), batches);
            !r.Failed? ==> Tagged(env, all, r.p.claimed)
    decreases |batches|
  {
    hide PlainLabels, TagsApart, OwnTags, RowsOk, Tagged, ListedPlain, RunFiles, FilesClashFree, UniquePaths;
    if batches == [] {
      StartIsTagged(env, all, files);
    } else {
      assert forall b :: b in Front(batches) ==> b in batches;
      BatchesAreUncontended(env, all, maxFiles, files, Front(batches));
      var r := RunBatches(env, maxFiles, Running(Start(env, files)), Front(batches));
      var b := Last(batches);
      assert b in batches;
      BatchIsPlain(env, all, b);
      hide PlainTitles;
      if r.Running? {
        assert PlainIdentities(env) by { TitlesHoldIdentities(env, all); }
        FilesAreUncontended(env, all, maxFiles, b, WithListing(b, r.p), b.files);
      }
    }
  }

  lemma TitlesHoldIdentities(env: Env, batches: seq<Batch>)
    requires PlainTitles(env, batches)
    ensures PlainIdentities(env)
  {
  }

  /** If the sources that take part have ids that differ in their first eight characters, no label and no yearless
      title ends in a bracket, and every offered path that does carries its own source's tag, then in no run over these
      listings do two sources contend for a path, whatever is answered and whatever is on disk. */
  lemma UncontendedIsClashFree(env: Env, maxFiles: Option<nat>, files: Files, batches: seq<Batch>)
    requires Uncontended(env, batches) && UniquePaths(env.reusable) && RowsOk(env)
    ensures ClashFree(env, maxFiles, Running(Start(env, files)), batches)
  {
    BatchesAreUncontended(env, batches, maxFiles, files, batches);
  }
}
