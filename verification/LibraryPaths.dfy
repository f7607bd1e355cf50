/** Cleaning titles into path segments, printing library paths, and the validator's view of them. */
module LibraryPaths {
  import opened Common

  // ---------- Cleaning ----------

  /** The characters that a segment may not hold: separators, reserved ones and controls. */
  predicate InvalidChar(c: char) {
    c in "/\\:*?\"<>|" || c < ' '
  }

  /** Whitespace as the expression `\s` sees it in a string. */
  predicate IsSpace(c: char) {
    || c == ' ' || '\U{9}' <= c <= '\U{D}' || '\U{1C}' <= c <= '\U{1F}' || c == '\U{85}' || c == '\U{A0}'
    || c == '\U{1680}' || '\U{2000}' <= c <= '\U{200A}' || c == '\U{2028}' || c == '\U{2029}'
    || c == '\U{202F}' || c == '\U{205F}' || c == '\U{3000}'
  }

  function BlankInvalid(s: string): string {
    seq(|s|, i requires 0 <= i < |s| => if InvalidChar(s[i]) then ' ' else s[i])
  }

  /** Pairs of dots, taken from the left, become spaces. */
  function BlankDots(s: string): string {
    if |s| < 2 then s
    else if s[0] == '.' && s[1] == '.' then " " + BlankDots(s[2..])
    else [s[0]] + BlankDots(s[1..])
  }

  /** Every run of whitespace becomes one space. */
  function Collapse(s: string): string {
    if s == "" then ""
    else if !IsSpace(s[0]) then [s[0]] + Collapse(s[1..])
    else if |s| > 1 && IsSpace(s[1]) then Collapse(s[1..])
    else " " + Collapse(s[1..])
  }

  function StripLeft(s: string): string {
    if s != "" && s[0] in " ." then StripLeft(s[1..]) else s
  }

  function StripRight(s: string): string {
    if s != "" && Last(s) in " ." then StripRight(Front(s)) else s
  }

  function Strip(s: string): string {
    StripRight(StripLeft(s))
  }

  function CleanPathSegment(value: Option<string>, fallback: string): string {
    if value.None? then fallback
    else
      var cleaned := Strip(Collapse(BlankDots(BlankInvalid(value.value))));
      if cleaned == "" then fallback else cleaned
  }

  ghost predicate NoInvalid(s: string) {
    forall i :: 0 <= i < |s| ==> !InvalidChar(s[i])
  }

  ghost predicate NoDotPair(s: string) {
    forall i :: 0 <= i < |s| - 1 ==> !(s[i] == '.' && s[i + 1] == '.')
  }

  ghost predicate SingleSpaces(s: string) {
    && (forall i :: 0 <= i < |s| && IsSpace(s[i]) ==> s[i] == ' ')
    && forall i :: 0 <= i < |s| - 1 ==> !(s[i] == ' ' && s[i + 1] == ' ')
  }

  ghost predicate Trimmed(s: string) {
    s != "" ==> s[0] !in " ." && Last(s) !in " ."
  }

  /** A segment that names exactly one directory entry, and is its own cleaned form. */
  ghost predicate Tidy(s: string) {
    s != "" && NoInvalid(s) && NoDotPair(s) && SingleSpaces(s) && Trimmed(s)
  }

  lemma {:induction false} BlankDotsMeaning(s: string)
    requires NoInvalid(s)
    ensures NoInvalid(BlankDots(s)) && NoDotPair(BlankDots(s))
    ensures s != "" ==> BlankDots(s) != "" && BlankDots(s)[0] == if |s| > 1 && s[0] == '.' && s[1] == '.' then ' ' else s[0]
  {
    if |s| >= 2 {
      if s[0] == '.' && s[1] == '.' {
        BlankDotsMeaning(s[2..]);
      } else {
        BlankDotsMeaning(s[1..]);
      }
    }
  }

  lemma {:induction false} CollapseMeaning(s: string)
    requires NoInvalid(s) && NoDotPair(s)
    ensures NoInvalid(Collapse(s)) && NoDotPair(Collapse(s)) && SingleSpaces(Collapse(s))
    ensures s != "" ==> Collapse(s) != "" && Collapse(s)[0] == if IsSpace(s[0]) then ' ' else s[0]
  {
    if s != "" {
      CollapseMeaning(s[1..]);
    }
  }

  lemma {:induction false} StripLeftMeaning(s: string) returns (k: nat)
    ensures k <= |s| && StripLeft(s) == s[k..]
    ensures StripLeft(s) != "" ==> StripLeft(s)[0] !in " ."
  {
    k := 0;
    if s != "" && s[0] in " ." {
      k := StripLeftMeaning(s[1..]);
      k := k + 1;
    }
  }

  lemma {:induction false} StripRightMeaning(s: string)
    ensures |StripRight(s)| <= |s| && StripRight(s) == s[..|StripRight(s)|]
    ensures StripRight(s) != "" ==> Last(StripRight(s)) !in " ."
  {
    if s != "" && Last(s) in " ." {
      StripRightMeaning(Front(s));
    }
  }

  lemma SliceKeeps(s: string, i: nat, j: nat)
    requires i <= j <= |s| && NoInvalid(s) && NoDotPair(s) && SingleSpaces(s)
    ensures NoInvalid(s[i..j]) && NoDotPair(s[i..j]) && SingleSpaces(s[i..j])
  {
  }

  lemma StripMeaning(s: string)
    requires NoInvalid(s) && NoDotPair(s) && SingleSpaces(s)
    ensures Strip(s) == "" || Tidy(Strip(s))
  {
    hide StripLeft, StripRight, NoInvalid, NoDotPair, SingleSpaces;
    var k := StripLeftMeaning(s);
    var left := StripLeft(s);
    StripRightMeaning(left);
    var n := |StripRight(left)|;
    assert left[..n] == s[k..k + n];
    SliceKeeps(s, k, k + n);
  }

  /** Whatever the title, the segment is tidy: it holds no separator, no reserved character and no
      "..", and neither begins nor ends with a dot or a space. */
  lemma CleanedIsTidy(value: Option<string>, fallback: string)
    requires Tidy(fallback)
    ensures Tidy(CleanPathSegment(value, fallback))
  {
    if value.Some? {
      var blanked := BlankInvalid(value.value);
      assert NoInvalid(blanked);
      BlankDotsMeaning(blanked);
      CollapseMeaning(BlankDots(blanked));
      StripMeaning(Collapse(BlankDots(blanked)));
    }
  }

  lemma {:induction false} BlankDotsIdentity(s: string)
    requires NoDotPair(s)
    ensures BlankDots(s) == s
  {
    if |s| >= 2 {
      BlankDotsIdentity(s[1..]);
    }
  }

  lemma {:induction false} CollapseIdentity(s: string)
    requires SingleSpaces(s)
    ensures Collapse(s) == s
  {
    if s != "" {
      CollapseIdentity(s[1..]);
    }
  }

  /** A tidy segment is left alone, so cleaning twice is cleaning once. */
  lemma TidyIsClean(s: string, fallback: string)
    requires Tidy(s)
    ensures CleanPathSegment(Some(s), fallback) == s
  {
    assert BlankInvalid(s) == s;
    BlankDotsIdentity(s);
    CollapseIdentity(s);
  }

  lemma CleaningIsIdempotent(value: Option<string>, fallback: string)
    requires Tidy(fallback)
    ensures CleanPathSegment(Some(CleanPathSegment(value, fallback)), fallback) == CleanPathSegment(value, fallback)
  {
    CleanedIsTidy(value, fallback);
    TidyIsClean(CleanPathSegment(value, fallback), fallback);
  }

  // ---------- Numbers ----------

  function DigitChar(d: nat): char
    requires d < 10
  {
    '0' + d as char
  }

  predicate IsDigit(c: char) {
    '0' <= c <= '9'
  }

  function Decimal(n: nat): (s: string)
    ensures s != "" && forall i :: 0 <= i < |s| ==> IsDigit(s[i])
  {
    if n < 10 then [DigitChar(n)] else Decimal(n / 10) + [DigitChar(n % 10)]
  }

  /** At least two digits. */
  function Padded(n: nat): (s: string)
    ensures |s| >= 2 && forall i :: 0 <= i < |s| ==> IsDigit(s[i])
  {
    if n < 10 then ['0', DigitChar(n)] else Decimal(n)
  }

  function NumberOf(digits: string): nat
    requires forall i :: 0 <= i < |digits| ==> IsDigit(digits[i])
  {
    if digits == "" then 0
    else
      var d := Last(digits);
      assert IsDigit(digits[|digits| - 1]);
      NumberOf(Front(digits)) * 10 + (d - '0') as nat
  }

  lemma {:induction false} DecimalRoundTrip(n: nat)
    ensures NumberOf(Decimal(n)) == n
  {
    if n >= 10 {
      DecimalRoundTrip(n / 10);
      assert Front(Decimal(n)) == Decimal(n / 10);
    } else {
      assert Front(Decimal(n)) == "";
    }
  }

  lemma PaddedRoundTrip(n: nat)
    ensures NumberOf(Padded(n)) == n
  {
    DecimalRoundTrip(n);
    if n < 10 {
      assert Front(Padded(n)) == "0" && Front("0") == "";
    }
  }

  lemma DecimalGrows(n: nat)
    ensures |Decimal(n)| == if n < 10 then 1 else |Decimal(n / 10)| + 1
  {
  }

  lemma PaddedLength(n: nat)
    ensures |Padded(n)| == 2 <==> n <= 99
    ensures |Padded(n)| <= 3 <==> n <= 999
  {
    DecimalGrows(n);
    DecimalGrows(n / 10);
    DecimalGrows(n / 10 / 10);
  }

  // ---------- Paths of entries ----------

  datatype Category = Movies | Shows | Anime

  function CategoryName(c: Category): string {
    match c
    case Movies => "movies"
    case Shows => "shows"
    case Anime => "anime"
  }

  datatype Entry = Entry(
    category: Category, title: string, year: Option<int>, season: Option<int>, episode: Option<int>, url: string)

  predicate Blank(s: string) {
    forall i :: 0 <= i < |s| ==> IsSpace(s[i])
  }

  predicate IsFilm(e: Entry) {
    e.category.Movies? || (e.category.Anime? && e.season.None? && e.episode.None?)
  }

  /** What the constructor of an entry accepts. */
  predicate ValidEntry(e: Entry) {
    && !Blank(e.title) && !Blank(e.url)
    && (IsFilm(e) || (e.season.Some? && e.episode.Some? && e.season.value >= 0 && e.episode.value >= 0))
  }

  function IntText(n: int): string {
    if n < 0 then "-" + Decimal(-n) else Decimal(n)
  }

  function CleanTitle(title: string): string {
    CleanPathSegment(Some(title), "Unknown")
  }

  function TitleYear(title: string, year: Option<int>): string {
    if year.None? then CleanTitle(title) else CleanTitle(title) + " (" + IntText(year.value) + ")"
  }

  function SeasonFolder(season: nat): string {
    "Season " + Padded(season)
  }

  function EpisodeSuffix(season: nat, episode: nat): string {
    "S" + Padded(season) + "E" + Padded(episode)
  }

  /** The name of the file without its extension. */
  function FileStem(e: Entry): string
    requires ValidEntry(e)
  {
    if IsFilm(e) then TitleYear(e.title, e.year)
    else CleanTitle(e.title) + " - " + EpisodeSuffix(e.season.value, e.episode.value)
  }

  function Folder(e: Entry): seq<string>
    requires ValidEntry(e)
  {
    if IsFilm(e) then [CategoryName(e.category), TitleYear(e.title, e.year)]
    else [CategoryName(e.category), CleanTitle(e.title), SeasonFolder(e.season.value)]
  }

  function LibraryEntryRelativePath(e: Entry): seq<string>
    requires ValidEntry(e)
  {
    Folder(e) + [FileStem(e) + ".strm"]
  }

  /** The `E` at position `k` splits a suffix into the digits of two numbers. */
  ghost predicate SplitsAt(s: string, k: nat, season: nat, episode: nat) {
    && 1 < k < |s| && s[0] == 'S' && s[k] == 'E'
    && (forall i :: 1 <= i < |s| && i != k ==> IsDigit(s[i]))
    && NumberOf(s[1..k]) == season && NumberOf(s[k + 1..]) == episode
  }

  /** Season and episode are read back from the printed suffix, whatever their size. */
  lemma SuffixRoundTrip(season: nat, episode: nat)
    ensures SplitsAt(EpisodeSuffix(season, episode), 1 + |Padded(season)|, season, episode)
  {
    var s, k := EpisodeSuffix(season, episode), 1 + |Padded(season)|;
    PaddedRoundTrip(season);
    PaddedRoundTrip(episode);
    assert s[1..k] == Padded(season) && s[k + 1..] == Padded(episode);
    forall i | 1 <= i < |s| && i != k ensures IsDigit(s[i]) {
      assert i < k ==> s[i] == Padded(season)[i - 1];
      assert i > k ==> s[i] == Padded(episode)[i - k - 1];
    }
  }

  lemma SplitIsUnique(s: string, j: nat, k: nat, s1: nat, e1: nat, s2: nat, e2: nat)
    requires SplitsAt(s, j, s1, e1) && SplitsAt(s, k, s2, e2)
    ensures s1 == s2 && e1 == e2
  {
    assert j == k;
  }

  /** So distinct numbers print differently. */
  lemma SuffixIsInjective(s1: nat, e1: nat, s2: nat, e2: nat)
    requires EpisodeSuffix(s1, e1) == EpisodeSuffix(s2, e2)
    ensures s1 == s2 && e1 == e2
  {
    hide SplitsAt;
    SuffixRoundTrip(s1, e1);
    SuffixRoundTrip(s2, e2);
    SplitIsUnique(EpisodeSuffix(s1, e1), 1 + |Padded(s1)|, 1 + |Padded(s2)|, s1, e1, s2, e2);
  }

  // ---------- Alternate versions ----------

  /** A name up to its last dot, unless that dot is its first or last character. */
  function Stem(name: string): string {
    var i := LastDot(name);
    if 0 < i < |name| - 1 then name[..i] else name
  }

  function LastDot(name: string): (i: int)
    ensures -1 <= i < |name|
  {
    if name == "" then -1 else if Last(name) == '.' then |name| - 1 else LastDot(Front(name))
  }

  lemma {:induction false} LastDotConcat(base: string, tail: string)
    requires '.' !in tail
    ensures LastDot(base + "." + tail) == |base|
  {
    var name := base + "." + tail;
    if tail == "" {
      assert Last(name) == '.';
    } else {
      LastDotConcat(base, Front(tail));
      assert Front(name) == base + "." + Front(tail);
    }
  }

  /** A name without a dot is its own stem; of another the stem is what comes before the last dot, if there is something before
      and behind it. */
  lemma StemMeaning(base: string, tail: string)
    requires '.' !in tail
    ensures Stem(tail) == tail
    ensures Stem(base + "." + tail) == if base == "" || tail == "" then base + "." + tail else base
  {
    LastDotConcat(base, tail);
    NoLastDot(tail);
  }

  lemma {:induction false} NoLastDot(name: string)
    requires '.' !in name
    ensures LastDot(name) == -1
  {
    if name != "" {
      NoLastDot(Front(name));
    }
  }

  lemma StemOfStrm(base: string)
    requires base != ""
    ensures Stem(base + ".strm") == base
  {
    StemMeaning(base, "strm");
    assert base + "." + "strm" == base + ".strm";
  }

  /** The labels that the release patterns find in a source name, in the order of the patterns. */
  type Labels = string -> seq<string>

  function Dedup(labels: seq<string>): seq<string> {
    if labels == [] then []
    else
      var rest := Dedup(Front(labels));
      if Last(labels) in rest then rest else rest + [Last(labels)]
  }

  function JoinWords(words: seq<string>): string {
    if words == [] then "" else if |words| == 1 then words[0] else words[0] + " " + JoinWords(words[1..])
  }

  function VersionLabel(source: string, labels: Labels): string {
    if labels(source) == [] then "Alternate"
    else CleanPathSegment(Some(JoinWords(Dedup(labels(source)))), "Alternate")
  }

  function AlternateVersionPath(parts: seq<string>, source: string, labels: Labels, suffix: Option<string>): seq<string>
    requires parts != []
  {
    Front(parts) + [Stem(Last(parts)) + " - " + VersionLabel(source, labels)
                    + (if suffix.Some? then " [" + suffix.value + "]" else "") + ".strm"]
  }

  // ---------- The validator ----------

  datatype Issue = MoviePathShape | SeriesPathShape | SeasonFolderShape | EpisodeFilenameShape

  predicate IsWord(c: char) {
    'A' <= c <= 'Z' || 'a' <= c <= 'z' || IsDigit(c) || c == '_'
  }

  predicate MatchesSeasonFolder(s: string) {
    |s| == 9 && s[..7] == "Season " && IsDigit(s[7]) && IsDigit(s[8])
  }

  /** A season and episode token at position `i`, with two or three episode digits, between word boundaries. */
  predicate TokenAt(s: string, i: nat, n: nat) {
    && 2 <= n <= 3 && i + 4 + n <= |s|
    && (i == 0 || !IsWord(s[i - 1]))
    && (s[i] == 'S' || s[i] == 's') && IsDigit(s[i + 1]) && IsDigit(s[i + 2])
    && (s[i + 3] == 'E' || s[i + 3] == 'e') && IsDigit(s[i + 4]) && IsDigit(s[i + 5])
    && (n == 3 ==> IsDigit(s[i + 6]))
    && (i + 4 + n == |s| || !IsWord(s[i + 4 + n]))
  }

  ghost predicate HasToken(s: string) {
    exists i: nat, n: nat :: TokenAt(s, i, n)
  }

  ghost function ValidateSeriesShape(parts: seq<string>): Option<Issue> {
    if |parts| != 4 then Some(SeriesPathShape)
    else if !MatchesSeasonFolder(parts[2]) then Some(SeasonFolderShape)
    else if !HasToken(Stem(parts[3])) then Some(EpisodeFilenameShape)
    else None
  }

  ghost function ValidateRelativeShape(parts: seq<string>, category: Category): Option<Issue> {
    match category
    case Movies => if |parts| != 3 then Some(MoviePathShape) else None
    case Shows => ValidateSeriesShape(parts)
    case Anime => if |parts| == 3 then None else ValidateSeriesShape(parts)
  }

  /** `S`, two digits, `E`, and two or three digits, the letters in either case. */
  predicate IsToken(t: string) {
    && (|t| == 6 || |t| == 7) && t[0] in "Ss" && t[3] in "Ee"
    && forall k :: 1 <= k < |t| && k != 3 ==> IsDigit(t[k])
  }

  predicate StandsAlone(name: string, before: string, token: string, behind: string) {
    && name == before + token + behind
    && (before == "" || !IsWord(Last(before))) && (behind == "" || !IsWord(behind[0]))
  }

  lemma TokenAlone(name: string, i: nat, n: nat)
    requires TokenAt(name, i, n)
    ensures StandsAlone(name, name[..i], name[i..i + 4 + n], name[i + 4 + n..]) && IsToken(name[i..i + 4 + n])
  {
    hide IsDigit, IsWord;
    var before, token, behind := name[..i], name[i..i + 4 + n], name[i + 4 + n..];
    assert StandsAlone(name, before, token, behind) by {
      assert name == before + token + behind;
      assert before != "" ==> Last(before) == name[i - 1];
      assert behind != "" ==> behind[0] == name[i + 4 + n];
    }
    hide StandsAlone;
    assert token[1] == name[i + 1] && token[2] == name[i + 2] && token[4] == name[i + 4] && token[5] == name[i + 5];
    assert n == 3 ==> token[6] == name[i + 6];
  }

  lemma AloneToken(name: string, before: string, token: string, behind: string)
    requires StandsAlone(name, before, token, behind) && IsToken(token)
    ensures TokenAt(name, |before|, |token| - 4)
  {
    var i := |before|;
    assert forall k :: 0 <= k < |token| ==> name[i + k] == token[k];
    assert IsDigit(token[1]) && IsDigit(token[2]) && IsDigit(token[4]) && IsDigit(token[5]);
    assert i > 0 ==> name[i - 1] == Last(before);
    assert behind != "" ==> name[i + |token|] == behind[0];
    hide IsDigit, IsWord;
  }

  lemma TokenMeaning(name: string)
    ensures HasToken(name) <==> exists before, token, behind :: StandsAlone(name, before, token, behind) && IsToken(token)
  {
    hide StandsAlone, IsDigit, IsWord;
    if i: nat, n: nat :| TokenAt(name, i, n) {
      TokenAlone(name, i, n);
    }
    if before, token, behind :| StandsAlone(name, before, token, behind) && IsToken(token) {
      AloneToken(name, before, token, behind);
    }
  }

  /** The validator accepts films of three parts, and series of four with a season folder and, in the name, a season and
      episode; an anime may be either.  Of a path that it refuses it names the first of these that is wrong. */
  lemma ShapeMeaning(parts: seq<string>, category: Category)
    ensures var issue, film := ValidateRelativeShape(parts, category), category.Movies? || (category.Anime? && |parts| == 3);
            if film then issue == if |parts| == 3 then None else Some(MoviePathShape)
            else if |parts| != 4 then issue == Some(SeriesPathShape)
            else
              && (issue == Some(SeasonFolderShape) <==> !exists x, y :: IsDigit(x) && IsDigit(y) && parts[2] == "Season " + [x, y])
              && (issue == None || issue == Some(EpisodeFilenameShape) || issue == Some(SeasonFolderShape))
              && (issue != Some(SeasonFolderShape) ==>
                    (issue == None <==> exists before, token, behind ::
                                          StandsAlone(Stem(parts[3]), before, token, behind) && IsToken(token)))
  {
    if |parts| == 4 {
      TokenMeaning(Stem(parts[3]));
      hide HasToken, Stem, StandsAlone, IsToken;
      var folder := parts[2];
      if MatchesSeasonFolder(folder) {
        assert folder == "Season " + [folder[7], folder[8]];
      }
    }
  }

  lemma SeasonFolderMatches(season: nat)
    ensures MatchesSeasonFolder(SeasonFolder(season)) <==> season <= 99
  {
    PaddedLength(season);
    var s := SeasonFolder(season);
    assert s[..7] == "Season ";
    if season <= 99 {
      assert s[7] == Padded(season)[0] && s[8] == Padded(season)[1];
    }
  }

  /** A token cannot straddle a space. */
  lemma TokensAroundSpace(a: string, b: string)
    requires b != "" && b[0] == ' '
    ensures HasToken(a + b) <==> HasToken(a) || HasToken(b)
  {
    var s := a + b;
    if i: nat, n: nat :| TokenAt(s, i, n) {
      if i + 4 + n <= |a| {
        assert TokenAt(a, i, n);
      } else if i >= |a| {
        assert s[|a|] == ' ';
        assert TokenAt(b, i - |a|, n);
      } else {
        assert s[|a|] == ' ' && !IsWord(' ');
      }
    }
    if i: nat, n: nat :| TokenAt(a, i, n) {
      assert TokenAt(s, i, n);
    }
    if i: nat, n: nat :| TokenAt(b, i, n) {
      assert TokenAt(s, i + |a|, n);
    }
  }

  lemma SuffixToken(season: nat, episode: nat)
    requires season <= 99
    ensures HasToken(" - " + EpisodeSuffix(season, episode)) <==> episode <= 999
  {
    PaddedLength(season);
    PaddedLength(episode);
    var s, p, q := " - " + EpisodeSuffix(season, episode), Padded(season), Padded(episode);
    assert s == " - S" + p + "E" + q;
    assert s[3] == 'S' && s[4] == p[0] && s[5] == p[1] && s[6] == 'E';
    assert forall k :: 7 <= k < |s| ==> s[k] == q[k - 7];
    if episode <= 999 {
      assert TokenAt(s, 3, |q|);
    } else {
      forall i: nat, n: nat ensures !TokenAt(s, i, n) {
        if i == 3 {
          assert n <= 3 ==> s[7 + n] == q[n];
        } else if i < |s| {
          assert i >= 7 ==> s[i] == q[i - 7] && IsDigit(q[i - 7]);
          assert s[0] == ' ' && s[1] == '-' && s[2] == ' ';
          assert s[i] != 'S' && s[i] != 's';
        }
      }
    }
  }

  /** A printed series path is accepted exactly when season and episode fit the expected digits, or
      the title itself happens to hold a token. */
  lemma CanonicalSeriesAccepted(e: Entry)
    requires ValidEntry(e) && !IsFilm(e)
    ensures ValidateRelativeShape(LibraryEntryRelativePath(e), e.category).None? <==>
            e.season.value <= 99 && (e.episode.value <= 999 || HasToken(CleanTitle(e.title)))
  {
    hide HasToken;
    var season, episode := e.season.value, e.episode.value;
    SeasonFolderMatches(season);
    StemOfStrm(FileStem(e));
    if season <= 99 {
      var tail := " - " + EpisodeSuffix(season, episode);
      TokensAroundSpace(CleanTitle(e.title), tail);
      assert FileStem(e) == CleanTitle(e.title) + tail;
      SuffixToken(season, episode);
    }
  }

  lemma FilmAccepted(e: Entry)
    requires ValidEntry(e) && IsFilm(e)
    ensures ValidateRelativeShape(LibraryEntryRelativePath(e), e.category).None?
  {
  }

  /** Another version's path lies beside the canonical one under another name, and is accepted whenever
      the canonical path is. */
  lemma AlternateAccepted(e: Entry, source: string, labels: Labels, suffix: Option<string>)
    requires ValidEntry(e)
    ensures var canonical := LibraryEntryRelativePath(e);
            var alternate := AlternateVersionPath(canonical, source, labels, suffix);
            && alternate != canonical && |alternate| == |canonical| && Front(alternate) == Front(canonical)
            && (ValidateRelativeShape(canonical, e.category).None? ==> ValidateRelativeShape(alternate, e.category).None?)
  {
    hide HasToken, VersionLabel, CleanTitle, TitleYear, EpisodeSuffix, SeasonFolder, CategoryName, Stem;
    var canonical := LibraryEntryRelativePath(e);
    var alternate := AlternateVersionPath(canonical, source, labels, suffix);
    var stem := FileStem(e);
    var tail := " - " + VersionLabel(source, labels) + (if suffix.Some? then " [" + suffix.value + "]" else "");
    StemIsNonempty(e);
    StemOfStrm(stem);
    assert Last(alternate) == stem + tail + ".strm";
    assert |Last(alternate)| > |Last(canonical)|;
    StemOfStrm(stem + tail);
    TokensAroundSpace(stem, tail);
  }

  lemma StemIsNonempty(e: Entry)
    requires ValidEntry(e)
    ensures FileStem(e) != ""
  {
  }
}
