/** How long an exclusion lasts: what full syncs drop, and what is kept away until they do. */
module ExclusionRuns {
  import opened Common
  import opened LibraryAgreement
  import opened LibraryFiles
  import opened LibraryPaths
  import LibraryRemoval
  import opened NextRun
  import opened RemovedStaysAway
  import opened SqlLike
  import opened StrmSync
  import opened SyncDecisions
  import opened SyncRuns
  import opened SyncState
  import opened TorBoxFiles

  // ---------- What happens at a listed file ----------

  /** The lookup for the file fails, or the prefix is excluded and the entry that the file comes to lies under it. */
  datatype Event = LookupFails | Observes(prefix: string)

  /** The entry is that of the reused row, or the one that the file resolves to without a failed lookup. */
  ghost predicate ComesTo(env: Env, disk: Files, b: Batch, f: TorBoxFile, e: Entry) {
    && ValidEntry(e)
    && if Reuses(env, disk, f, Discovered(b)) then e == EntryOf(env.reusable[Key(f)], PlaybackUrl(env, Key(f)))
       else
         && ValidEntry(ParsedEntry(env, f))
         && var r := ResolveEntry(env, ParsedEntry(env, f), SelectedIdentity(env, f.itemId, InfoHash(env, Discovered(b), f)));
            r.Ok? && r.value.0 == e && (r.value.1.Some? ==> !r.value.1.value.status.ProviderError?)
  }

  ghost predicate LooksUpInVain(env: Env, disk: Files, b: Batch, f: TorBoxFile) {
    && !Reuses(env, disk, f, Discovered(b)) && ValidEntry(ParsedEntry(env, f))
    && var r := ResolveEntry(env, ParsedEntry(env, f), SelectedIdentity(env, f.itemId, InfoHash(env, Discovered(b), f)));
       r.Ok? && r.value.1.Some? && r.value.1.value.status.ProviderError?
  }

  ghost predicate ComesUnder(env: Env, disk: Files, b: Batch, f: TorBoxFile, prefix: string) {
    exists e :: ComesTo(env, disk, b, f, e) && Excludes(prefix, EntryPath(e))
  }

  ghost predicate Happens(env: Env, disk: Files, b: Batch, f: TorBoxFile, event: Event) {
    match event
    case LookupFails => LooksUpInVain(env, disk, b, f)
    case Observes(prefix) => prefix in env.excluded && ComesUnder(env, disk, b, f, prefix)
  }

  /** It happens when the run comes to one of the files of the kind. */
  ghost predicate HappensInFiles(env: Env, b: Batch, p: Progress, files: seq<TorBoxFile>, event: Event)
    decreases |files|
  {
    && files != []
    && (|| HappensInFiles(env, b, p, Front(files), event)
        || (var r := RunFiles(env, None, b, Running(p), Front(files));
            r.Running? && Happens(env, r.p.files, b, Last(files), event)))
  }

  /** It happens at one of the listed files. */
  ghost predicate HappensIn(env: Env, disk: Files, batches: seq<Batch>, event: Event)
    requires UniquePaths(env.reusable)
    decreases |batches|
  {
    && batches != []
    && (|| HappensIn(env, disk, Front(batches), event)
        || (var r := RunBatches(env, None, Running(Start(env, disk)), Front(batches));
            r.Running? && HappensInFiles(env, Last(batches), WithListing(Last(batches), r.p), Last(batches).files, event)))
  }

  // ---------- What the run remembers of it ----------

  predicate Noted(t: Tally, event: Event) {
    match event
    case LookupFails => exists d :: d in t.diagnostics && d.LookupFailed?
    case Observes(prefix) => prefix in t.observed
  }

  /** The one entry that the file can come to. */
  lemma ComesToOne(env: Env, disk: Files, b: Batch, f: TorBoxFile, e: Entry)
    requires ComesTo(env, disk, b, f, e)
    ensures forall prefix :: ComesUnder(env, disk, b, f, prefix) <==> Excludes(prefix, EntryPath(e))
  {
    hide ValidEntry, ResolveEntry, Excludes, EntryPath, ParsedEntry, SelectedIdentity, Reuses, InfoHash, PlaybackUrl;
  }

  lemma ComesToNone(env: Env, disk: Files, b: Batch, f: TorBoxFile)
    requires forall e :: !ComesTo(env, disk, b, f, e)
    ensures forall prefix :: !ComesUnder(env, disk, b, f, prefix)
  {
    hide ComesTo, Excludes, EntryPath;
  }

  /** The decision notes what happens: what it observes, and a failed lookup. */
  ghost predicate Notes(env: Env, disk: Files, b: Batch, f: TorBoxFile, d: Decision) {
    && (LooksUpInVain(env, disk, b, f) <==> d.Skip? && exists g :: g in d.diagnostics && g.LookupFailed?)
    && (forall prefix :: prefix in env.excluded && ComesUnder(env, disk, b, f, prefix) <==> d.Skip? && prefix in d.observed)
    && (d.Print? ==> forall g :: g in d.diagnostics ==> !g.LookupFailed?)
  }

  lemma ExclusionsMeaning(env: Env, e: Entry)
    requires ValidEntry(e)
    ensures forall prefix :: prefix in Exclusions(env, e) <==> prefix in env.excluded && Excludes(prefix, EntryPath(e))
  {
  }

  /** What resolving the file gives, if its name parses. */
  ghost function Resolving(env: Env, b: Batch, f: TorBoxFile): Result<(Entry, Option<Resolution>), Error> {
    if ValidEntry(ParsedEntry(env, f))
    then ResolveEntry(env, ParsedEntry(env, f), SelectedIdentity(env, f.itemId, InfoHash(env, Discovered(b), f)))
    else Raised(InvalidEntry)
  }

  predicate InVain(r: Option<Resolution>) {
    r.Some? && r.value.status.ProviderError?
  }

  lemma ResolvingMeans(env: Env, disk: Files, b: Batch, f: TorBoxFile)
    requires !Reuses(env, disk, f, Discovered(b))
    ensures var r := Resolving(env, b, f);
            && (r.Ok? ==> ValidEntry(r.value.0))
            && (LooksUpInVain(env, disk, b, f) <==> r.Ok? && InVain(r.value.1))
            && (forall e :: ComesTo(env, disk, b, f, e) <==> r.Ok? && !InVain(r.value.1) && e == r.value.0)
  {
    if ValidEntry(ParsedEntry(env, f)) {
      ResolvedEntryIsValid(env, ParsedEntry(env, f), SelectedIdentity(env, f.itemId, InfoHash(env, Discovered(b), f)));
    }
    hide ValidEntry, ResolveEntry, ParsedEntry, SelectedIdentity, Reuses, InfoHash;
  }

  lemma FreshShape(env: Env, b: Batch, f: TorBoxFile)
    ensures var r := Resolving(env, b, f);
            var d := FreshDecision(env, f, SelectedIdentity(env, f.itemId, InfoHash(env, Discovered(b), f)));
            && (r.Raised? ==> d.Raise?)
            && (r.Ok? && InVain(r.value.1) ==> d == Skip({LookupFailed(ParsedEntry(env, f).title)}, {}))
            && (r.Ok? && !InVain(r.value.1) ==>
                  && ValidEntry(r.value.0)
                  && d.Skip? == (Exclusions(env, r.value.0) != {}) && d.Print? == !d.Skip?
                  && (forall g :: g in d.diagnostics ==> !g.LookupFailed?)
                  && (d.Skip? ==> d.observed == Exclusions(env, r.value.0)))
  {
    if ValidEntry(ParsedEntry(env, f)) {
      ResolvedEntryIsValid(env, ParsedEntry(env, f), SelectedIdentity(env, f.itemId, InfoHash(env, Discovered(b), f)));
    }
    hide ValidEntry, ResolveEntry, ParsedEntry, SelectedIdentity, InfoHash, Exclusions;
  }

  lemma FreshNotes(env: Env, disk: Files, b: Batch, f: TorBoxFile)
    requires !Reuses(env, disk, f, Discovered(b))
    ensures Notes(env, disk, b, f, FreshDecision(env, f, SelectedIdentity(env, f.itemId, InfoHash(env, Discovered(b), f))))
  {
    ResolvingMeans(env, disk, b, f);
    FreshShape(env, b, f);
    hide FreshDecision, SelectedIdentity, InfoHash, Resolving, LooksUpInVain, ComesTo, ComesUnder, InVain, ValidEntry, Exclusions,
      ParsedEntry, Reuses, EntryPath, Excludes;
    var r := Resolving(env, b, f);
    if r.Ok? && !InVain(r.value.1) {
      ComesToOne(env, disk, b, f, r.value.0);
      ExclusionsMeaning(env, r.value.0);
    } else {
      ComesToNone(env, disk, b, f);
      if r.Ok? {
        assert LookupFailed(ParsedEntry(env, f).title) in {LookupFailed(ParsedEntry(env, f).title)};
      }
    }
  }

  lemma ReusedNotes(env: Env, disk: Files, b: Batch, f: TorBoxFile)
    requires Reuses(env, disk, f, Discovered(b)) && Key(f) in env.reusable
    ensures Notes(env, disk, b, f, ReuseDecision(env, env.reusable[Key(f)], PlaybackUrl(env, Key(f))))
  {
    hide ValidEntry, ResolveEntry, Excludes, EntryPath, ParsedEntry, SelectedIdentity, Reuses, InfoHash, PlaybackUrl,
      Exclusions, ComesUnder;
    var e := EntryOf(env.reusable[Key(f)], PlaybackUrl(env, Key(f)));
    if ValidEntry(e) {
      ComesToOne(env, disk, b, f, e);
      ExclusionsMeaning(env, e);
    } else {
      ComesToNone(env, disk, b, f);
    }
  }

  lemma DecisionNotes(env: Env, disk: Files, b: Batch, f: TorBoxFile)
    ensures Notes(env, disk, b, f, Decide(env, disk, f, Discovered(b)))
  {
    if Reuses(env, disk, f, Discovered(b)) {
      ReusedIsOffered(env, disk, f, Discovered(b));
      ReusedNotes(env, disk, b, f);
    } else {
      FreshNotes(env, disk, b, f);
    }
    hide Reuses, Notes, ReuseDecision, FreshDecision, SelectedIdentity, InfoHash, PlaybackUrl;
  }

  lemma StepTallies(env: Env, b: Batch, p: Progress, f: TorBoxFile)
    ensures var d, r := Decide(env, p.files, f, Discovered(b)), StepFile(env, Discovered(b), p, f);
            r.Ok? ==>
              && r.value.tally.observed == p.tally.observed + (if d.Skip? then d.observed else {})
              && r.value.tally.diagnostics == p.tally.diagnostics + (if d.Skip? || d.Print? then d.diagnostics else {})
  {
    hide Decide, TargetPath, SyncedFile, ValidEntry, InfoHash, Content;
    PrintedEntry(env, p.files, f, Discovered(b));
  }

  /** A step notes exactly what happens at its file. */
  lemma StepNotes(env: Env, b: Batch, p: Progress, f: TorBoxFile, event: Event)
    ensures var r := StepFile(env, Discovered(b), p, f);
            r.Ok? ==> (Noted(r.value.tally, event) <==> Noted(p.tally, event) || Happens(env, p.files, b, f, event))
  {
    DecisionNotes(env, p.files, b, f);
    StepTallies(env, b, p, f);
    hide StepFile, Decide, LooksUpInVain, ComesUnder;
  }

  lemma {:induction false} FilesNote(env: Env, b: Batch, p: Progress, files: seq<TorBoxFile>, event: Event)
    ensures var r := RunFiles(env, None, b, Running(p), files);
            r.Running? ==> (Noted(r.p.tally, event) <==> Noted(p.tally, event) || HappensInFiles(env, b, p, files, event))
    decreases |files|
  {
    hide StepFile, Happens, Noted;
    if files != [] {
      FilesNote(env, b, p, Front(files), event);
      var r := RunFiles(env, None, b, Running(p), Front(files));
      if r.Running? {
        StepNotes(env, b, r.p, Last(files), event);
      }
    }
  }

  lemma NothingNoted(env: Env, disk: Files, event: Event)
    requires UniquePaths(env.reusable)
    ensures !Noted(Start(env, disk).tally, event)
  {
  }

  lemma ListingNotes(b: Batch, p: Progress, event: Event)
    ensures Noted(WithListing(b, p).tally, event) <==> Noted(p.tally, event)
  {
  }

  lemma {:induction false} RunNotes(env: Env, disk: Files, batches: seq<Batch>, event: Event)
    requires UniquePaths(env.reusable)
    ensures var r := RunBatches(env, None, Running(Start(env, disk)), batches);
            r.Running? ==> (Noted(r.p.tally, event) <==> HappensIn(env, disk, batches, event))
    decreases |batches|
  {
    hide RunFiles, HappensInFiles, Noted, UniquePaths;
    if batches == [] {
      NothingNoted(env, disk, event);
    } else {
      RunNotes(env, disk, Front(batches), event);
      var r := RunBatches(env, None, Running(Start(env, disk)), Front(batches));
      if r.Running? {
        var b := Last(batches);
        ListingNotes(b, r.p, event);
        FilesNote(env, b, WithListing(b, r.p), b.files, event);
      }
    }
  }

  // ---------- What listings make certain ----------

  lemma {:induction false} HappensAtFile(env: Env, b: Batch, p: Progress, files: seq<TorBoxFile>, f: TorBoxFile, event: Event)
    requires f in files && forall disk :: Happens(env, disk, b, f, event)
    requires RunFiles(env, None, b, Running(p), files).Running?
    ensures HappensInFiles(env, b, p, files, event)
    decreases |files|
  {
    hide Happens, StepFile;
    assert files == Front(files) + [Last(files)];
    var r := RunFiles(env, None, b, Running(p), Front(files));
    if f in Front(files) {
      HappensAtFile(env, b, p, Front(files), f, event);
    } else {
      assert Happens(env, r.p.files, b, f, event);
    }
  }

  /** What happens at a listed file whatever is on disk happens in every run that ends. */
  lemma {:induction false} HappensWhereListed(
    env: Env, disk: Files, batches: seq<Batch>, b: Batch, f: TorBoxFile, event: Event)
    requires UniquePaths(env.reusable) && b in batches && f in b.files && forall d :: Happens(env, d, b, f, event)
    requires RunBatches(env, None, Running(Start(env, disk)), batches).Running?
    ensures HappensIn(env, disk, batches, event)
    decreases |batches|
  {
    hide Happens, RunFiles, UniquePaths;
    assert batches == Front(batches) + [Last(batches)];
    var r := RunBatches(env, None, Running(Start(env, disk)), Front(batches));
    if b in Front(batches) {
      HappensWhereListed(env, disk, Front(batches), b, f, event);
    } else {
      HappensAtFile(env, b, WithListing(b, r.p), b.files, f, event);
    }
  }

  lemma {:induction false} HappensSomewhereInFiles(env: Env, b: Batch, p: Progress, files: seq<TorBoxFile>, event: Event)
    returns (f: TorBoxFile, disk: Files)
    requires HappensInFiles(env, b, p, files, event)
    ensures f in files && Happens(env, disk, b, f, event)
    decreases |files|
  {
    hide Happens, RunFiles;
    if HappensInFiles(env, b, p, Front(files), event) {
      f, disk := HappensSomewhereInFiles(env, b, p, Front(files), event);
    } else {
      f, disk := Last(files), RunFiles(env, None, b, Running(p), Front(files)).p.files;
    }
  }

  /** And what happens in a run happens at a listed file. */
  lemma {:induction false} HappensSomewhere(env: Env, start: Files, batches: seq<Batch>, event: Event)
    returns (b: Batch, f: TorBoxFile, disk: Files)
    requires UniquePaths(env.reusable) && HappensIn(env, start, batches, event)
    ensures b in batches && f in b.files && Happens(env, disk, b, f, event)
    decreases |batches|
  {
    hide Happens, RunFiles, HappensInFiles, UniquePaths;
    if HappensIn(env, start, Front(batches), event) {
      b, f, disk := HappensSomewhere(env, start, Front(batches), event);
    } else {
      var r := RunBatches(env, None, Running(Start(env, start)), Front(batches));
      b := Last(batches);
      f, disk := HappensSomewhereInFiles(env, b, WithListing(b, r.p), b.files, event);
    }
  }

  // ---------- One operation ----------

  lemma {:induction false} PersistKeepsExclusions(db: Db, synced: seq<Synced>, owners: Synced -> Id)
    ensures var r := PersistedFiles(db, synced, owners); r.Ok? ==> r.value.exclusions == db.exclusions
  {
    hide Found, Fits;
    if synced != [] {
      PersistKeepsExclusions(db, Front(synced), owners);
    }
  }

  lemma AppliedExclusions(
    s: System, env: Env, format: ManifestFormat, batches: seq<Batch>, partial: bool, owners: Synced -> Id,
    retained: set<string>)
    requires UniquePaths(env.reusable)
    ensures var run, r := RunBatches(env, None, Running(Start(env, s.files)), batches),
                          SyncApplied(s, env, format, batches, partial, owners, retained);
            r.Ok? ==>
              && run.Running?
              && (partial ==> r.value.db.exclusions == s.db.exclusions)
              && (!partial ==>
                    forall e :: e in r.value.db.exclusions <==>
                      e in s.db.exclusions && (Noted(run.p.tally, LookupFails) || Noted(run.p.tally, Observes(e))))
  {
    hide RunBatches, Start, UniquePaths, PersistedFiles, StalePaths, WithoutStale, PathsOf, Merged;
    NoLimitNoStop(env, Running(Start(env, s.files)), batches);
    var outcome := RunOutcome(env, format, None, partial, s.files, batches);
    if outcome.Ok? {
      PersistKeepsExclusions(s.db, outcome.value.0.synced, owners);
    }
  }

  /** After a completed sync of one item all exclusions stay.  After a full one exactly those do under which some listed
      file came, and all of them if some lookup failed. */
  lemma SyncKeepsExclusions(h: Hash, s: System, op: Operation, s': System)
    requires op.Sync? && Step(h, s, op, s')
    ensures op.partial ==> s'.db.exclusions == s.db.exclusions
    ensures !op.partial ==>
              forall e :: e in s'.db.exclusions <==>
                e in s.db.exclusions
                && (HappensIn(op.env, s.files, op.batches, LookupFails) || HappensIn(op.env, s.files, op.batches, Observes(e)))
  {
    hide IsReusable, UniquePaths, SyncApplied, RunBatches, Noted, HappensIn, Start;
    AppliedExclusions(s, op.env, op.format, op.batches, op.partial, op.owners, op.retained);
    RunNotes(op.env, s.files, op.batches, LookupFails);
    forall e ensures HappensIn(op.env, s.files, op.batches, Observes(e)) <==>
                     Noted(RunBatches(op.env, None, Running(Start(op.env, s.files)), op.batches).p.tally, Observes(e))
    {
      RunNotes(op.env, s.files, op.batches, Observes(e));
    }
  }

  /** After a committed removal the prefix is excluded besides those that were, and no row is left at or below it. */
  lemma RemovalExcludes(h: Hash, s: System, op: Operation, s': System)
    requires op.Removal? && Step(h, s, op, s')
    ensures s'.db.exclusions == s.db.exclusions + {op.prefix}
    ensures forall p :: p in s'.db.generated <==> p in s.db.generated && p != op.prefix && !(op.prefix + "/" <= p)
  {
    hide PathMatchesPrefix, GeneratedPath, LibraryRemoval.StagedPaths, LibraryRemoval.Target;
    forall p ensures PathMatchesPrefix(op.prefix, p) <==> p == op.prefix || op.prefix + "/" <= p {
      PrefixTestsAgree(op.prefix, p);
    }
  }

  // ---------- All runs ----------

  /** If it is a full sync, the operation still comes to something under the prefix, or fails to look something up. */
  ghost predicate StillSees(s: System, op: Operation, prefix: string) {
    op.Sync? && !op.partial ==>
      && UniquePaths(op.env.reusable)
      && (HappensIn(op.env, s.files, op.batches, LookupFails) || HappensIn(op.env, s.files, op.batches, Observes(prefix)))
  }

  lemma StepKeepsExclusion(h: Hash, s: System, op: Operation, s': System, prefix: string)
    requires Step(h, s, op, s') && prefix in s.db.exclusions && StillSees(s, op, prefix)
    ensures prefix in s'.db.exclusions
  {
    hide Step, HappensIn;
    match op {
      case Sync(_, _, _, _, _, _, _) => SyncKeepsExclusions(h, s, op, s');
      case Undone => UndoneStays(h, s, s');
      case Removal(_) => RemovalExcludes(h, s, op, s');
    }
  }

  lemma UndoneStays(h: Hash, s: System, s': System)
    requires Step(h, s, Undone, s')
    ensures s' == s
  {
  }

  /** An exclusion lasts for as long as full syncs still come to something under it. */
  lemma {:induction false} ExclusionLasts(h: Hash, states: seq<System>, ops: seq<Operation>, prefix: string, i: nat, n: nat)
    requires IsRun(h, states, ops) && i <= n < |states| && prefix in states[i].db.exclusions
    requires forall j :: i <= j < n ==> StillSees(states[j], ops[j], prefix)
    ensures prefix in states[n].db.exclusions
  {
    hide Step, StillSees;
    if i < n {
      ExclusionLasts(h, states, ops, prefix, i, n - 1);
      StepKeepsExclusion(h, states[n - 1], ops[n - 1], states[n], prefix);
    }
  }

  ghost predicate NothingBelow(s: System, prefix: string) {
    && (forall p :: p in s.db.generated ==> !(prefix + "/" <= p))
    && (forall p :: p in Disk(s.files) ==> !(prefix + "/" <= p))
  }

  lemma RowsBelow(h: Hash, s: System, prefix: string)
    requires Agreement(h, s) && forall p :: p in s.db.generated ==> !(prefix + "/" <= p)
    ensures NothingBelow(s, prefix)
  {
    hide DbOk, Hashed;
  }

  lemma NotBelowPrefix(excluded: set<string>, p: Path, prefix: string)
    requires NotBelow(excluded, p) && prefix in excluded
    ensures !(prefix + "/" <= p)
  {
  }

  /** Nothing is left below an excluded prefix by the next operation, even if that drops the exclusion. */
  lemma NextLeavesNothingBelow(h: Hash, s: System, op: Operation, s': System, prefix: string)
    requires Agreement(h, s) && StaysAway(s) && Step(h, s, op, s') && prefix in s.db.exclusions
    requires (op.Removal? ==> LibraryRemoval.Normal(op.prefix)) && (op.Sync? ==> forall k :: '/' !in op.env.entryId(k))
    ensures NothingBelow(s', prefix)
  {
    StepKeepsAgreement(h, s, op, s');
    hide Agreement, DbOk, SyncApplied, IsReusable, UniquePaths, RowsOk, InputsOk, NotBelow, RemovalApplied,
      LibraryRemoval.Normal, NothingBelow;
    match op {
      case Sync(env, format, batches, partial, owners, retained, view) =>
        AgreementHasDb(h, s);
        ReusableRows(s.db, view, env);
        OfferedNotBelow(s, view, env);
        SyncStaysAway(h, s, env, format, batches, partial, owners, retained);
        forall p | p in s'.db.generated ensures !(prefix + "/" <= p) {
          NotBelowPrefix(s.db.exclusions, p, prefix);
        }
      case Undone =>
        forall p | p in s'.db.generated ensures !(prefix + "/" <= p) {
          NotBelowPrefix(s.db.exclusions, p, prefix);
        }
      case Removal(_) =>
        RemovalExcludes(h, s, op, s');
        forall p | p in s'.db.generated ensures !(prefix + "/" <= p) {
          NotBelowPrefix(s.db.exclusions, p, prefix);
        }
    }
    RowsBelow(h, s', prefix);
  }

  /** From a committed removal on, nothing lies below its prefix in any state, up to and including the one that the first
      full sync leaves which comes to nothing under the prefix: whatever is listed in between. */
  lemma RemovedUntilUnseen(h: Hash, states: seq<System>, ops: seq<Operation>, i: nat, n: nat)
    requires IsRun(h, states, ops) && Agreement(h, states[0]) && StaysAway(states[0])
    requires forall op :: op in ops && op.Removal? ==> LibraryRemoval.Normal(op.prefix)
    requires forall op, k :: op in ops && op.Sync? ==> '/' !in op.env.entryId(k)
    requires i < n < |states| && ops[i].Removal?
    requires forall j :: i < j < n - 1 ==> StillSees(states[j], ops[j], ops[i].prefix)
    ensures NothingBelow(states[n], ops[i].prefix)
  {
    var prefix, last := ops[i].prefix, ops[n - 1];
    assert Step(h, states[i], ops[i], states[i + 1]) && Step(h, states[n - 1], last, states[n]) && last in ops && ops[i] in ops;
    hide Step, Agreement, StaysAway, StillSees, LibraryRemoval.Normal, NothingBelow;
    RunKeepsAgreement(h, states, ops, n);
    RemovalExcludes(h, states[i], ops[i], states[i + 1]);
    if n == i + 1 {
      RowsBelow(h, states[n], prefix);
    } else {
      RunKeepsAgreement(h, states, ops, n - 1);
      RemovedMediaStaysAway(h, states, ops, n - 1);
      ExclusionLasts(h, states, ops, prefix, i + 1, n - 1);
      NextLeavesNothingBelow(h, states[n - 1], last, states[n], prefix);
    }
  }

  /** A file is listed that comes under the prefix, whatever is on disk. */
  ghost predicate ListsUnder(op: Operation, prefix: string) {
    op.Sync? && !op.partial ==>
      exists b, f :: b in op.batches && f in b.files && forall disk :: ComesUnder(op.env, disk, b, f, prefix)
  }

  lemma ListedIsSeen(h: Hash, s: System, op: Operation, s': System, prefix: string)
    requires Step(h, s, op, s') && prefix in s.db.exclusions && ListsUnder(op, prefix)
    ensures StillSees(s, op, prefix)
  {
    if op.Sync? && !op.partial {
      hide IsReusable, UniquePaths, SyncApplied, RunBatches, ComesUnder, HappensIn, Start;
      AppliedExclusions(s, op.env, op.format, op.batches, op.partial, op.owners, op.retained);
      var b, f :| b in op.batches && f in b.files && forall disk :: ComesUnder(op.env, disk, b, f, prefix);
      assert forall disk :: Happens(op.env, disk, b, f, Observes(prefix));
      HappensWhereListed(op.env, s.files, op.batches, b, f, Observes(prefix));
    }
  }

  /** While every full sync lists a file that comes under it, an excluded prefix stays excluded, and nothing lies below it
      in any later state. */
  lemma {:induction false} ListedStaysExcluded(
    h: Hash, states: seq<System>, ops: seq<Operation>, prefix: string, i: nat, n: nat)
    requires IsRun(h, states, ops) && Agreement(h, states[0]) && StaysAway(states[0])
    requires forall op :: op in ops && op.Removal? ==> LibraryRemoval.Normal(op.prefix)
    requires forall op, k :: op in ops && op.Sync? ==> '/' !in op.env.entryId(k)
    requires i <= n < |states| && prefix in states[i].db.exclusions
    requires forall j :: i <= j < n ==> ListsUnder(ops[j], prefix)
    ensures prefix in states[n].db.exclusions && NothingBelow(states[n], prefix)
  {
    hide Step, Agreement, StaysAway, StillSees, ListsUnder, LibraryRemoval.Normal, NotBelow;
    RunKeepsAgreement(h, states, ops, n);
    RemovedMediaStaysAway(h, states, ops, n);
    if i < n {
      ListedStaysExcluded(h, states, ops, prefix, i, n - 1);
      ListedIsSeen(h, states[n - 1], ops[n - 1], states[n], prefix);
      StepKeepsExclusion(h, states[n - 1], ops[n - 1], states[n], prefix);
    }
    RowsOfExcluded(h, states[n], prefix);
  }

  lemma RowsOfExcluded(h: Hash, s: System, prefix: string)
    requires Agreement(h, s) && StaysAway(s) && prefix in s.db.exclusions
    ensures NothingBelow(s, prefix)
  {
    hide DbOk, Hashed, NothingBelow;
    forall p | p in s.db.generated ensures !(prefix + "/" <= p) {
      NotBelowPrefix(s.db.exclusions, p, prefix);
    }
    RowsBelow(h, s, prefix);
  }
}
