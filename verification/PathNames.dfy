/** What printed paths look like, letter by letter, and what cleaning a title keeps of it. */
module PathNames {
  import opened Common
  import opened LibraryFiles
  import opened LibraryPaths
  import opened StrmSync
  import opened SyncDecisions
  import opened TorBoxFiles

  // ---------- Cleaning ----------

  /** What cleaning may not take away: anything but spaces, reserved characters and dots. */
  predicate IsLetter(c: char) {
    !IsSpace(c) && !InvalidChar(c) && c != '.'
  }

  function Letters(s: string): string {
    if s == "" then "" else (if IsLetter(s[0]) then [s[0]] else "") + Letters(s[1..])
  }

  lemma {:induction false} LettersConcat(a: string, b: string)
    ensures Letters(a + b) == Letters(a) + Letters(b)
  {
    if a == "" {
      assert a + b == b;
    } else {
      LettersConcat(a[1..], b);
      assert (a + b)[1..] == a[1..] + b;
    }
  }

  lemma {:induction false} BlankInvalidKeepsLetters(s: string)
    ensures Letters(BlankInvalid(s)) == Letters(s)
  {
    if s != "" {
      BlankInvalidKeepsLetters(s[1..]);
      assert BlankInvalid(s)[1..] == BlankInvalid(s[1..]);
    }
  }

  lemma {:induction false} BlankDotsKeepsLetters(s: string)
    ensures Letters(BlankDots(s)) == Letters(s)
  {
    if |s| >= 2 {
      if s[0] == '.' && s[1] == '.' {
        BlankDotsKeepsLetters(s[2..]);
        assert s[1..][1..] == s[2..] && (" " + BlankDots(s[2..]))[1..] == BlankDots(s[2..]);
      } else {
        BlankDotsKeepsLetters(s[1..]);
        assert ([s[0]] + BlankDots(s[1..]))[1..] == BlankDots(s[1..]);
      }
    }
  }

  lemma {:induction false} CollapseKeepsLetters(s: string)
    ensures Letters(Collapse(s)) == Letters(s)
  {
    if s != "" {
      CollapseKeepsLetters(s[1..]);
      assert ([s[0]] + Collapse(s[1..]))[1..] == Collapse(s[1..]) && (" " + Collapse(s[1..]))[1..] == Collapse(s[1..]);
    }
  }

  lemma {:induction false} StripLeftKeepsLetters(s: string)
    ensures Letters(StripLeft(s)) == Letters(s)
  {
    if s != "" && s[0] in " ." {
      StripLeftKeepsLetters(s[1..]);
    }
  }

  lemma {:induction false} StripRightKeepsLetters(s: string)
    ensures Letters(StripRight(s)) == Letters(s)
  {
    if s != "" && Last(s) in " ." {
      StripRightKeepsLetters(Front(s));
      LettersConcat(Front(s), [Last(s)]);
      assert s == Front(s) + [Last(s)] && [Last(s)][1..] == "";
      assert Letters([Last(s)]) == "";
    }
  }

  /** Cleaning keeps every letter of a title, in order; only a title without any may give way to the fallback. */
  lemma CleaningKeepsLetters(title: string, fallback: string)
    ensures var cleaned := CleanPathSegment(Some(title), fallback);
            Letters(cleaned) == Letters(title) || (Letters(title) == "" && cleaned == fallback)
  {
    BlankInvalidKeepsLetters(title);
    BlankDotsKeepsLetters(BlankInvalid(title));
    CollapseKeepsLetters(BlankDots(BlankInvalid(title)));
    StripLeftKeepsLetters(Collapse(BlankDots(BlankInvalid(title))));
    StripRightKeepsLetters(StripLeft(Collapse(BlankDots(BlankInvalid(title)))));
  }

  // ---------- Canonical paths ----------

  predicate InFolder(c: Category, folder: string) {
    folder == match c
      case Movies => "movies"
      case Shows => "shows"
      case Anime => "anime"
  }

  lemma JoinThree(a: string, b: string, c: string)
    ensures JoinPath([a, b, c]) == a + "/" + b + "/" + c
  {
    assert [a, b, c][1..] == [b, c] && [b, c][1..] == [c];
    assert JoinPath([b, c]) == b + "/" + c;
    assert a + "/" + (b + "/" + c) == a + "/" + b + "/" + c;
  }

  lemma JoinFour(a: string, b: string, c: string, d: string)
    ensures JoinPath([a, b, c, d]) == a + "/" + b + "/" + c + "/" + d
  {
    assert [a, b, c, d][1..] == [b, c, d];
    JoinThree(b, c, d);
    assert a + "/" + (b + "/" + c + "/" + d) == a + "/" + b + "/" + c + "/" + d;
  }

  /** A film, or an anime without season and episode, stands in a folder of its own name and year. */
  lemma FilmPath(e: Entry, folder: string)
    requires ValidEntry(e) && InFolder(e.category, folder)
    requires e.category == Movies || (e.category == Anime && e.season.None? && e.episode.None?)
    ensures var name := CleanTitle(e.title) + (match e.year case None => "" case Some(y) => " (" + IntText(y) + ")");
            EntryPath(e) == folder + "/" + name + "/" + name + ".strm"
  {
    hide CleanTitle, IntText, Blank;
    var name := TitleYear(e.title, e.year);
    assert LibraryEntryRelativePath(e) == [folder, name, name + ".strm"];
    JoinThree(folder, name, name + ".strm");
  }

  lemma EpisodeText(folder: string, title: string, season: string, episode: string)
    ensures JoinPath([folder, title, "Season " + season, title + " - " + ("S" + season + "E" + episode) + ".strm"]) ==
            folder + "/" + title + "/Season " + season + "/" + title + " - S" + season + "E" + episode + ".strm"
  {
    var file := title + " - S" + season + "E" + episode + ".strm";
    assert title + " - " + ("S" + season + "E" + episode) + ".strm" == file;
    JoinFour(folder, title, "Season " + season, file);
    var front := folder + "/" + title + "/Season " + season + "/";
    assert folder + "/" + title + "/" + ("Season " + season) + "/" + file == front + file;
    assert front + file == front + title + " - S" + season + "E" + episode + ".strm";
  }

  /** An episode stands in the folder of its season, under the number of each in two digits or more. */
  lemma EpisodePath(e: Entry, folder: string)
    requires ValidEntry(e) && InFolder(e.category, folder)
    requires e.category == Shows || (e.category == Anime && (e.season.Some? || e.episode.Some?))
    ensures e.season.Some? && e.season.value >= 0 && e.episode.Some? && e.episode.value >= 0
    ensures var title, season, episode := CleanTitle(e.title), Padded(e.season.value), Padded(e.episode.value);
            EntryPath(e) == folder + "/" + title + "/Season " + season + "/" + title + " - S" + season + "E" + episode + ".strm"
  {
    hide CleanTitle, Blank, Padded, JoinPath;
    var title, season, episode := CleanTitle(e.title), Padded(e.season.value), Padded(e.episode.value);
    assert LibraryEntryRelativePath(e) ==
           [folder, title, "Season " + season, title + " - " + ("S" + season + "E" + episode) + ".strm"];
    EpisodeText(folder, title, season, episode);
  }

  // ---------- Other versions ----------

  /** Each version once, in the order in which they are first found. */
  lemma {:induction false} DedupMeaning(labels: seq<string>)
    ensures Distinct(Dedup(labels)) && (forall x :: x in Dedup(labels) <==> x in labels)
    ensures labels != [] ==> Dedup(Front(labels)) <= Dedup(labels)
  {
    if labels != [] {
      DedupMeaning(Front(labels));
      assert labels == Front(labels) + [Last(labels)];
    }
  }

  lemma {:induction false} JoinedPrefix(parts: seq<string>, tail: string)
    requires parts != []
    ensures JoinPath(Front(parts) + [Last(parts) + tail]) == JoinPath(parts) + tail
  {
    if |parts| == 1 {
      assert Front(parts) + [Last(parts) + tail] == [parts[0] + tail];
    } else {
      JoinedPrefix(parts[1..], tail);
      assert (Front(parts) + [Last(parts) + tail])[1..] == Front(parts[1..]) + [Last(parts[1..]) + tail];
    }
  }

  /** The name that versions are told apart by: folder and file, as far as there are any. */
  predicate NamesSource(f: TorBoxFile, source: string) {
    && (f.folderName != "" && f.fileName != "" ==> source == f.folderName + " " + f.fileName)
    && (f.folderName == "" ==> source == f.fileName)
    && (f.fileName == "" ==> source == f.folderName)
  }

  lemma VersionParts(folder: seq<string>, name: string, source: string, labels: Labels, suffix: Option<string>, tail: string)
    requires name != ""
    requires tail == " - " + VersionLabel(source, labels) + (if suffix.Some? then " [" + suffix.value + "]" else "") + ".strm"
    ensures AlternateVersionPath(folder + [name + ".strm"], source, labels, suffix) == folder + [name + tail]
    ensures JoinPath(folder + [name + tail]) == JoinPath(folder + [name]) + tail
  {
    hide VersionLabel;
    StemOfStrm(name);
    var parts, bare := folder + [name + ".strm"], folder + [name];
    assert Front(parts) == folder && Last(parts) == name + ".strm" && Front(bare) == folder && Last(bare) == name;
    hide Stem, JoinPath;
    JoinedPrefix(bare, tail);
    var version := VersionLabel(source, labels);
    var rest := (if suffix.Some? then " [" + suffix.value + "]" else "") + ".strm";
    assert name + " - " + version + (if suffix.Some? then " [" + suffix.value + "]" else "") + ".strm" == name + tail;
  }

  /** Another version goes beside the canonical path, with the labels of its source's name behind; the next with the
      first eight characters of its id behind that. */
  lemma VersionPaths(env: Env, e: Entry, f: TorBoxFile, source: string) returns (stem: string)
    requires ValidEntry(e) && NamesSource(f, source)
    ensures EntryPath(e) == stem + ".strm"
    ensures var found := env.labels(source);
            var version := if found == [] then "Alternate" else CleanPathSegment(Some(JoinWords(Dedup(found))), "Alternate");
            var id := env.entryId(SourceFileKey(f.kind, f.itemId, f.fileId));
            && Alternate(env, e, f) == stem + (" - " + version + ".strm")
            && Suffixed(env, e, f) == stem + (" - " + version + " [" + (if |id| <= 8 then id else id[..8]) + "].strm")
  {
    hide CleanPathSegment, Dedup, JoinWords, ValidEntry, FileStem, Folder, JoinPath, AlternateVersionPath;
    StemIsNonempty(e);
    stem := JoinPath(Folder(e) + [FileStem(e)]);
    JoinedPrefix(Folder(e) + [FileStem(e)], ".strm");
    assert Front(Folder(e) + [FileStem(e)]) == Folder(e);
    var version, id := VersionLabel(source, env.labels), Prefix8(env.entryId(Key(f)));
    assert SourceName(f) == source;
    VersionParts(Folder(e), FileStem(e), source, env.labels, None, " - " + version + ".strm");
    assert " - " + version + (" [" + id + "]") + ".strm" == " - " + version + " [" + id + "].strm";
    VersionParts(Folder(e), FileStem(e), source, env.labels, Some(id), " - " + version + " [" + id + "].strm");
  }

  /** A source keeps the path it is offered; a new one is printed to its canonical path, if that is free, and else to the
      path of another version, if that is; else to the one with its id. */
  lemma FirstFreePath(env: Env, claimed: Claims, e: Entry, f: TorBoxFile)
    requires ValidEntry(e)
    ensures var key, target := SourceFileKey(f.kind, f.itemId, f.fileId), TargetPath(env, claimed, e, f);
            var free := (p: Path) => p in claimed ==> claimed[p] == key;
            if key in env.reusable && free(env.reusable[key].path) then target == env.reusable[key].path
            else if free(EntryPath(e)) then target == EntryPath(e)
            else if free(Alternate(env, e, f)) then target == Alternate(env, e, f)
            else target == Suffixed(env, e, f)
  {
    hide ValidEntry, EntryPath, Alternate, Suffixed;
  }
}
