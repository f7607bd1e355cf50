/** Extracting library files from provider downloads, and accounting for every file listed. */
module TorBoxFiles {
  import opened Common

  datatype TorBoxFile = TorBoxFile(
    kind: string, itemId: string, fileId: string, folderName: string, fileName: string, path: string,
    mimeType: string, size: Option<int>)

  /** The Blu-ray disc that the path of a stream file belongs to. */
  type Grouping = string -> Option<string>

  const MIN_BLURAY_STREAM_FILES := 2

  // ---------- Which files of an item are kept ----------

  predicate InGroup(files: seq<TorBoxFile>, groupOf: Grouping, g: string, i: int) {
    0 <= i < |files| && groupOf(files[i].path) == Some(g)
  }

  function Members(files: seq<TorBoxFile>, groupOf: Grouping, g: string, n: nat): set<int>
    requires n <= |files|
  {
    set i | 0 <= i < n && InGroup(files, groupOf, g, i)
  }

  /** The first of the largest files of known size among the first `n` of a group. */
  function Largest(files: seq<TorBoxFile>, groupOf: Grouping, g: string, n: nat): Option<nat>
    requires n <= |files|
  {
    if n == 0 then None
    else
      var best, i := Largest(files, groupOf, g, n - 1), n - 1;
      if !InGroup(files, groupOf, g, i) || files[i].size.None? then best
      else if best.None? || SizeAt(files, best.value) < SizeAt(files, i) then Some(i)
      else best
  }

  function SizeAt(files: seq<TorBoxFile>, i: int): int {
    if 0 <= i < |files| && files[i].size.Some? then files[i].size.value else 0
  }

  lemma {:induction false} LargestMeaning(files: seq<TorBoxFile>, groupOf: Grouping, g: string, n: nat)
    requires n <= |files|
    ensures var best := Largest(files, groupOf, g, n);
            && (best.None? ==> forall i :: 0 <= i < n && InGroup(files, groupOf, g, i) ==> files[i].size.None?)
            && (best.Some? ==>
                  && best.value < n && InGroup(files, groupOf, g, best.value) && files[best.value].size.Some?
                  && (forall i :: 0 <= i < n && InGroup(files, groupOf, g, i) && files[i].size.Some? ==>
                        SizeAt(files, i) <= SizeAt(files, best.value))
                  && (forall i :: 0 <= i < best.value && InGroup(files, groupOf, g, i) && files[i].size.Some? ==>
                        SizeAt(files, i) < SizeAt(files, best.value)))
  {
    if n > 0 {
      LargestMeaning(files, groupOf, g, n - 1);
    }
  }

  /** A group of several streams of which at least one has a known size keeps only its feature. */
  predicate Contested(files: seq<TorBoxFile>, groupOf: Grouping, g: string) {
    |Members(files, groupOf, g, |files|)| >= MIN_BLURAY_STREAM_FILES && Largest(files, groupOf, g, |files|).Some?
  }

  predicate Kept(files: seq<TorBoxFile>, groupOf: Grouping, i: int)
    requires 0 <= i < |files|
  {
    var g := groupOf(files[i].path);
    g.None? || !Contested(files, groupOf, g.value) || Largest(files, groupOf, g.value, |files|) == Some(i)
  }

  /** The kept ones among the first `n` files, in their order. */
  function KeptFiles(files: seq<TorBoxFile>, groupOf: Grouping, n: nat): seq<TorBoxFile>
    requires n <= |files|
  {
    if n == 0 then []
    else KeptFiles(files, groupOf, n - 1) + if Kept(files, groupOf, n - 1) then [files[n - 1]] else []
  }

  ghost predicate TwoOf(files: seq<TorBoxFile>, groupOf: Grouping, g: string, i: int, j: int) {
    i < j && InGroup(files, groupOf, g, i) && InGroup(files, groupOf, g, j)
  }

  /** A group is contested if it has two files or more, and the size of some is known. */
  lemma WhenContested(files: seq<TorBoxFile>, groupOf: Grouping, g: string)
    ensures Contested(files, groupOf, g) <==>
              && (exists i, j :: TwoOf(files, groupOf, g, i, j))
              && exists k :: InGroup(files, groupOf, g, k) && files[k].size.Some?
  {
    LargestMeaning(files, groupOf, g, |files|);
    var best, all := Largest(files, groupOf, g, |files|), Members(files, groupOf, g, |files|);
    if i, j :| TwoOf(files, groupOf, g, i, j) {
      SubsetSize({i, j}, all);
    }
    if |all| >= 2 {
      var i :| i in all;
      assert |all - {i}| > 0;
      var j :| j in all - {i};
      assert TwoOf(files, groupOf, g, if i < j then i else j, if i < j then j else i);
    }
    if best.Some? {
      assert InGroup(files, groupOf, g, best.value);
    }
  }

  /** A contested group keeps exactly one of its files, the first of known and maximal size; the files of
      every other group, and those of no group, are all kept. */
  lemma ContestedGroupKeepsOne(files: seq<TorBoxFile>, groupOf: Grouping, g: string)
    ensures Contested(files, groupOf, g) ==>
              exists w :: InGroup(files, groupOf, g, w) && files[w].size.Some? &&
                (forall i :: InGroup(files, groupOf, g, i) ==>
                   && (Kept(files, groupOf, i) <==> i == w)
                   && (files[i].size.Some? ==> SizeAt(files, i) <= SizeAt(files, w))
                   && (files[i].size.Some? && i < w ==> SizeAt(files, i) < SizeAt(files, w)))
    ensures !Contested(files, groupOf, g) ==> forall i :: InGroup(files, groupOf, g, i) ==> Kept(files, groupOf, i)
  {
    LargestMeaning(files, groupOf, g, |files|);
    if Contested(files, groupOf, g) {
      var w := Largest(files, groupOf, g, |files|).value;
      assert InGroup(files, groupOf, g, w);
    }
  }

  // ---------- Counting ----------

  /** The files that lose against the feature of a group in `gs`. */
  ghost function Dropped(files: seq<TorBoxFile>, groupOf: Grouping, gs: set<string>): set<int> {
    set i | 0 <= i < |files| && groupOf(files[i].path).Some? && groupOf(files[i].path).value in gs
            && !Kept(files, groupOf, i)
  }

  lemma DroppedOfOneMore(files: seq<TorBoxFile>, groupOf: Grouping, gs: set<string>, g: string)
    requires g !in gs
    ensures |Dropped(files, groupOf, gs + {g})| == |Dropped(files, groupOf, gs)| +
            if Contested(files, groupOf, g) then |Members(files, groupOf, g, |files|)| - 1 else 0
  {
    var before, after := Dropped(files, groupOf, gs), Dropped(files, groupOf, gs + {g});
    var members := Members(files, groupOf, g, |files|);
    if Contested(files, groupOf, g) {
      LargestMeaning(files, groupOf, g, |files|);
      var w := Largest(files, groupOf, g, |files|).value;
      assert w in members;
      assert after == before + (members - {w});
    } else {
      assert after == before;
    }
  }

  ghost function DroppedBelow(files: seq<TorBoxFile>, groupOf: Grouping, n: nat): set<int>
    requires n <= |files|
  {
    set i | 0 <= i < n && !Kept(files, groupOf, i)
  }

  lemma DroppedBelowGrows(files: seq<TorBoxFile>, groupOf: Grouping, n: nat)
    requires n < |files|
    ensures |DroppedBelow(files, groupOf, n + 1)| ==
            |DroppedBelow(files, groupOf, n)| + if Kept(files, groupOf, n) then 0 else 1
  {
    hide Kept;
    assert DroppedBelow(files, groupOf, n + 1) ==
           DroppedBelow(files, groupOf, n) + if Kept(files, groupOf, n) then {} else {n};
  }

  lemma {:induction false} KeptAndDropped(files: seq<TorBoxFile>, groupOf: Grouping, n: nat)
    requires n <= |files|
    ensures |KeptFiles(files, groupOf, n)| + |DroppedBelow(files, groupOf, n)| == n
  {
    hide Kept, DroppedBelow;
    if n > 0 {
      KeptAndDropped(files, groupOf, n - 1);
      DroppedBelowGrows(files, groupOf, n - 1);
    } else {
      NoneBelow(files, groupOf);
    }
  }

  lemma NoneBelow(files: seq<TorBoxFile>, groupOf: Grouping)
    ensures DroppedBelow(files, groupOf, 0) == {}
  {
  }

  // ---------- The selection ----------

  /** The groups after the first `n` files: the positions of each group's files, and the order of the keys. */
  ghost predicate GroupsHold(files: seq<TorBoxFile>, groupOf: Grouping, n: nat, keys: seq<string>, groups: map<string, seq<nat>>)
    requires n <= |files|
  {
    && Distinct(keys) && (forall g :: g in keys <==> g in groups)
    && (forall i :: 0 <= i < n && groupOf(files[i].path).Some? ==> groupOf(files[i].path).value in groups)
    && (forall g :: g in groups ==> IsListing(files, groupOf, g, n, groups[g]))
  }

  /** A list of the group's positions below `n`. */
  ghost predicate IsListing(files: seq<TorBoxFile>, groupOf: Grouping, g: string, n: nat, positions: seq<nat>)
    requires n <= |files|
  {
    && (forall i :: i in positions <==> 0 <= i < n && InGroup(files, groupOf, g, i))
    && |positions| == |Members(files, groupOf, g, n)|
  }

  lemma MembersGrow(files: seq<TorBoxFile>, groupOf: Grouping, g: string, n: nat)
    requires n < |files|
    ensures Members(files, groupOf, g, n + 1) ==
            Members(files, groupOf, g, n) + if InGroup(files, groupOf, g, n) then {n} else {}
    ensures |Members(files, groupOf, g, n + 1)| ==
            |Members(files, groupOf, g, n)| + if InGroup(files, groupOf, g, n) then 1 else 0
  {
    assert Members(files, groupOf, g, n + 1) ==
           Members(files, groupOf, g, n) + if InGroup(files, groupOf, g, n) then {n} else {};
  }

  lemma ListingGrows(files: seq<TorBoxFile>, groupOf: Grouping, g: string, n: nat, positions: seq<nat>)
    requires n < |files| && IsListing(files, groupOf, g, n, positions)
    ensures IsListing(files, groupOf, g, n + 1, if InGroup(files, groupOf, g, n) then positions + [n] else positions)
  {
    MembersGrow(files, groupOf, g, n);
  }

  lemma NoListing(files: seq<TorBoxFile>, groupOf: Grouping, n: nat, keys: seq<string>, groups: map<string, seq<nat>>, g: string)
    requires n <= |files| && GroupsHold(files, groupOf, n, keys, groups) && g !in groups
    ensures IsListing(files, groupOf, g, n, [])
  {
    assert Members(files, groupOf, g, n) == {};
  }

  lemma UngroupedFile(files: seq<TorBoxFile>, groupOf: Grouping, n: nat, keys: seq<string>, groups: map<string, seq<nat>>)
    requires n < |files| && GroupsHold(files, groupOf, n, keys, groups) && groupOf(files[n].path).None?
    ensures GroupsHold(files, groupOf, n + 1, keys, groups)
  {
    hide IsListing;
    forall k | k in groups ensures IsListing(files, groupOf, k, n + 1, groups[k]) {
      ListingGrows(files, groupOf, k, n, groups[k]);
    }
  }

  lemma GroupedFile(
    files: seq<TorBoxFile>, groupOf: Grouping, n: nat, keys: seq<string>, groups: map<string, seq<nat>>, g: string)
    requires n < |files| && GroupsHold(files, groupOf, n, keys, groups) && groupOf(files[n].path) == Some(g)
    ensures GroupsHold(files, groupOf, n + 1, if g in groups then keys else keys + [g],
                       groups[g := (if g in groups then groups[g] else []) + [n]])
  {
    hide IsListing;
    var groups' := groups[g := (if g in groups then groups[g] else []) + [n]];
    if g !in groups {
      NoListing(files, groupOf, n, keys, groups, g);
    }
    forall k | k in groups' ensures IsListing(files, groupOf, k, n + 1, groups'[k]) {
      ListingGrows(files, groupOf, k, n, if k in groups then groups[k] else []);
    }
  }

  lemma NoGroups(files: seq<TorBoxFile>, groupOf: Grouping)
    ensures GroupsHold(files, groupOf, 0, [], map[])
  {
  }

  method GroupFiles(files: seq<TorBoxFile>, groupOf: Grouping) returns (keys: seq<string>, groups: map<string, seq<nat>>)
    ensures GroupsHold(files, groupOf, |files|, keys, groups)
  {
    hide *;
    keys, groups := [], map[];
    NoGroups(files, groupOf);
    for n := 0 to |files|
      invariant GroupsHold(files, groupOf, n, keys, groups)
    {
      var g := groupOf(files[n].path);
      if g.Some? {
        GroupedFile(files, groupOf, n, keys, groups, g.value);
        keys := if g.value in groups then keys else keys + [g.value];
        groups := groups[g.value := (if g.value in groups then groups[g.value] else []) + [n]];
      } else {
        UngroupedFile(files, groupOf, n, keys, groups);
      }
    }
  }

  /** The first of the largest files of known size, and whether there is one. */
  method LargestSized(files: seq<TorBoxFile>, groupOf: Grouping, g: string, positions: seq<nat>) returns (best: Option<nat>)
    requires IsListing(files, groupOf, g, |files|, positions)
    ensures best == Largest(files, groupOf, g, |files|)
  {
    best := None;
    for n := 0 to |files|
      invariant best == Largest(files, groupOf, g, n)
      invariant best.Some? ==> best.value < n
    {
      if n in positions && files[n].size.Some? {
        if best.None? || SizeAt(files, best.value) < SizeAt(files, n) {
          best := Some(n);
        }
      }
    }
  }

  /** Keeps what is to be kept, in order, and counts everything else. */
  method SelectBlurayFeatureFiles(files: seq<TorBoxFile>, groupOf: Grouping)
    returns (selected: seq<TorBoxFile>, skipped: nat)
    ensures selected == KeptFiles(files, groupOf, |files|)
    ensures |selected| + skipped == |files|
  {
    hide Kept, Contested, Largest, Members, KeptFiles;
    var keys, groups := GroupFiles(files, groupOf);
    var features: map<string, nat> := map[];
    skipped := 0;
    NothingDropped(files, groupOf);
    for k := 0 to |keys|
      invariant skipped == |Dropped(files, groupOf, Elements(keys[..k]))|
      invariant FeaturesHold(files, groupOf, Elements(keys[..k]), features)
    {
      var g := keys[k];
      assert Elements(keys[..k + 1]) == Elements(keys[..k]) + {g};
      DroppedOfOneMore(files, groupOf, Elements(keys[..k]), g);
      var feature := LargestSized(files, groupOf, g, groups[g]);
      FeatureStep(files, groupOf, Elements(keys[..k]), features, g, feature);
      ContestedMeaning(files, groupOf, g, groups[g]);
      if |groups[g]| < MIN_BLURAY_STREAM_FILES || feature.None? {
        continue;
      }
      features := features[g := feature.value];
      skipped := skipped + (|groups[g]| - 1);
    }
    assert keys[..|keys|] == keys;
    selected := KeepFeatures(files, groupOf, Elements(keys), features);
    AllDropped(files, groupOf, keys, groups);
    KeptAndDropped(files, groupOf, |files|);
  }

  /** The feature of every contested group in `gs`, and of no other group. */
  ghost predicate FeaturesHold(files: seq<TorBoxFile>, groupOf: Grouping, gs: set<string>, features: map<string, nat>) {
    && (forall g :: g in features <==> g in gs && Contested(files, groupOf, g))
    && (forall g :: g in features ==> Largest(files, groupOf, g, |files|) == Some(features[g]))
  }

  lemma FeatureStep(
    files: seq<TorBoxFile>, groupOf: Grouping, gs: set<string>, features: map<string, nat>, g: string, feature: Option<nat>)
    requires FeaturesHold(files, groupOf, gs, features) && g !in gs && feature == Largest(files, groupOf, g, |files|)
    ensures Contested(files, groupOf, g) ==>
              feature.Some? && FeaturesHold(files, groupOf, gs + {g}, features[g := feature.value])
    ensures !Contested(files, groupOf, g) ==> FeaturesHold(files, groupOf, gs + {g}, features)
  {
  }

  lemma ContestedMeaning(files: seq<TorBoxFile>, groupOf: Grouping, g: string, positions: seq<nat>)
    requires IsListing(files, groupOf, g, |files|, positions)
    ensures Contested(files, groupOf, g) <==>
            |positions| >= MIN_BLURAY_STREAM_FILES && Largest(files, groupOf, g, |files|).Some?
    ensures |positions| == |Members(files, groupOf, g, |files|)|
  {
  }

  lemma NothingDropped(files: seq<TorBoxFile>, groupOf: Grouping)
    ensures |Dropped(files, groupOf, Elements([]))| == 0 && FeaturesHold(files, groupOf, Elements([]), map[])
  {
    assert Dropped(files, groupOf, Elements([])) == {};
  }

  lemma AllDropped(files: seq<TorBoxFile>, groupOf: Grouping, keys: seq<string>, groups: map<string, seq<nat>>)
    requires GroupsHold(files, groupOf, |files|, keys, groups)
    ensures Dropped(files, groupOf, Elements(keys)) == DroppedBelow(files, groupOf, |files|)
  {
  }

  method KeepFeatures(files: seq<TorBoxFile>, groupOf: Grouping, ghost gs: set<string>, features: map<string, nat>)
    returns (selected: seq<TorBoxFile>)
    requires FeaturesHold(files, groupOf, gs, features)
    requires forall i :: 0 <= i < |files| && groupOf(files[i].path).Some? ==> groupOf(files[i].path).value in gs
    ensures selected == KeptFiles(files, groupOf, |files|)
  {
    hide Contested, Largest;
    selected := [];
    for i := 0 to |files|
      invariant selected == KeptFiles(files, groupOf, i)
    {
      var g := groupOf(files[i].path);
      if g.None? || g.value !in features || features[g.value] == i {
        selected := selected + [files[i]];
      }
    }
  }

  // ---------- Extraction ----------

  /** A listed file, or something in its place that is not one. */
  datatype RawFile = RawFile(content: string) | NotAFile

  /** A listed download: whether it is known not to be cached, and its files if it lists any. */
  datatype RawItem = RawItem(id: string, uncached: bool, files: Option<seq<RawFile>>)

  /** How a raw file is read: nothing when it is no video, a sample, an extra, or incomplete. */
  type Builder = (RawItem, string) -> Option<TorBoxFile>

  function Built(item: RawItem, raw: seq<RawFile>, build: Builder): seq<TorBoxFile> {
    if raw == [] then []
    else Built(item, Front(raw), build)
         + if Last(raw).RawFile? && build(item, Last(raw).content).Some? then [build(item, Last(raw).content).value] else []
  }

  function ItemFiles(item: RawItem, build: Builder, groupOf: Grouping): seq<TorBoxFile> {
    if item.uncached || item.files.None? then []
    else var built := Built(item, item.files.value, build); KeptFiles(built, groupOf, |built|)
  }

  /** What an item counts for: one when it is passed over, and otherwise its files. */
  function Listed(item: RawItem): nat {
    if item.uncached || item.files.None? then 1 else |item.files.value|
  }

  function AllFiles(items: seq<RawItem>, build: Builder, groupOf: Grouping): seq<TorBoxFile> {
    if items == [] then [] else AllFiles(Front(items), build, groupOf) + ItemFiles(Last(items), build, groupOf)
  }

  function AllListed(items: seq<RawItem>): nat {
    if items == [] then 0 else AllListed(Front(items)) + Listed(Last(items))
  }

  lemma {:induction false} BuiltMeaning(item: RawItem, raw: seq<RawFile>, build: Builder, f: TorBoxFile)
    ensures f in Built(item, raw, build) <==> exists r :: r in raw && r.RawFile? && build(item, r.content) == Some(f)
  {
    if raw != [] {
      BuiltMeaning(item, Front(raw), build, f);
      assert raw == Front(raw) + [Last(raw)];
    }
  }

  lemma {:induction false} KeptMeaning(files: seq<TorBoxFile>, groupOf: Grouping, n: nat, f: TorBoxFile)
    requires n <= |files|
    ensures f in KeptFiles(files, groupOf, n) <==> exists i :: 0 <= i < n && Kept(files, groupOf, i) && files[i] == f
  {
    hide Kept;
    if n > 0 {
      KeptMeaning(files, groupOf, n - 1, f);
    }
  }

  /** Of the item: it is cached as far as is known, it lists files, and one of those is read as the file and not dropped for
      the feature of its disc. */
  ghost predicate ComesFrom(item: RawItem, build: Builder, groupOf: Grouping, f: TorBoxFile) {
    && !item.uncached && item.files.Some?
    && (exists r :: r in item.files.value && r.RawFile? && build(item, r.content) == Some(f))
    && var built := Built(item, item.files.value, build);
       exists i :: 0 <= i < |built| && Kept(built, groupOf, i) && built[i] == f
  }

  /** What is extracted comes from the listed items, and all that does is extracted. */
  lemma {:induction false} ExtractedMeaning(items: seq<RawItem>, build: Builder, groupOf: Grouping, f: TorBoxFile)
    ensures f in AllFiles(items, build, groupOf) <==> exists item :: item in items && ComesFrom(item, build, groupOf, f)
  {
    hide Kept, KeptFiles, Built;
    if items != [] {
      ExtractedMeaning(Front(items), build, groupOf, f);
      var item := Last(items);
      assert items == Front(items) + [item];
      if !item.uncached && item.files.Some? {
        var built := Built(item, item.files.value, build);
        KeptMeaning(built, groupOf, |built|, f);
        BuiltMeaning(item, item.files.value, build, f);
      }
      assert f in ItemFiles(item, build, groupOf) <==> ComesFrom(item, build, groupOf, f);
      hide ComesFrom;
    }
  }

  /** Everything listed is kept or skipped exactly once, and what is kept keeps its order. */
  method ExtractTorBoxFiles(items: seq<RawItem>, build: Builder, groupOf: Grouping)
    returns (files: seq<TorBoxFile>, skipped: nat)
    ensures files == AllFiles(items, build, groupOf)
    ensures |files| + skipped == AllListed(items)
  {
    hide KeptFiles;
    files, skipped := [], 0;
    for i := 0 to |items|
      invariant files == AllFiles(items[..i], build, groupOf)
      invariant |files| + skipped == AllListed(items[..i])
    {
      var item := items[i];
      assert Front(items[..i + 1]) == items[..i];
      if item.uncached || item.files.None? {
        skipped := skipped + 1;
        assert files + [] == files;
        continue;
      }
      var built, rejected := BuildFiles(item, item.files.value, build);
      var selected, passed := SelectBlurayFeatureFiles(built, groupOf);
      files := files + selected;
      skipped := skipped + rejected + passed;
    }
    assert items[..|items|] == items;
  }

  method BuildFiles(item: RawItem, raw: seq<RawFile>, build: Builder) returns (built: seq<TorBoxFile>, rejected: nat)
    ensures built == Built(item, raw, build) && |built| + rejected == |raw|
  {
    built, rejected := [], 0;
    for i := 0 to |raw|
      invariant built == Built(item, raw[..i], build) && |built| + rejected == i
    {
      assert Front(raw[..i + 1]) == raw[..i];
      if raw[i].NotAFile? {
        rejected := rejected + 1;
        continue;
      }
      var file := build(item, raw[i].content);
      if file.None? {
        rejected := rejected + 1;
        continue;
      }
      built := built + [file.value];
    }
    assert raw[..|raw|] == raw;
  }
}
