/** create_fixed_lmdbs.py: loading the split lists, and rebuilding an ArT
    store from one or more source stores, keeping only the crops whose scene
    id belongs to a split, re-indexed from 1. */
module CreateFixedLmdbs {
  import opened Wrappers
  import opened Numerals
  import opened Text
  import opened RecordStore
  import opened SceneIdPattern

  // ---------------------------------------------------------------------
  // Split files

  /** The six split lists: the key of the returned dictionary and the file it is read from. */
  const SplitFiles: seq<(string, string)> := [
    ("tt_train", "totaltext_train.txt"),
    ("tt_val", "totaltext_val.txt"),
    ("tt_test", "totaltext_test.txt"),
    ("art_train", "art_train_scenes.txt"),
    ("art_val", "art_val_scenes.txt"),
    ("art_test", "art_test_scenes.txt")
  ]

  /** The six dictionary keys are pairwise different (by length or first letter). */
  lemma SplitKeysDistinct()
    ensures forall j, k :: 0 <= j < k < |SplitFiles| ==> SplitFiles[j].0 != SplitFiles[k].0
  {
    var keys := seq(|SplitFiles|, j requires 0 <= j < |SplitFiles| => SplitFiles[j].0);
    assert |keys[0]| == 8 && |keys[1]| == 6 && |keys[2]| == 7 && |keys[3]| == 9 && |keys[4]| == 7 && |keys[5]| == 8;
    assert keys[0][0] == 't' && keys[2][0] == 't' && keys[4][0] == 'a' && keys[5][0] == 'a';
  }

  /** `set(line.strip() for line in f)` for a file with the given contents. */
  function MembershipSet(contents: string): set<string> {
    Stripped(FileLines(contents))
  }

  /** The stripped forms of some lines. */
  function Stripped(lines: seq<string>): set<string> {
    set line | line in lines :: Strip(line)
  }

  /** `load_split_files`: `files` maps a file name of the split directory to
      its contents (a name that is absent is a missing file, for which
      `open` raises; the first missing file in the order above is reported). */
  method LoadSplitFiles(files: map<string, string>) returns (r: Result<map<string, set<string>>, string>)
    ensures r.Success? <==> forall k :: 0 <= k < |SplitFiles| ==> SplitFiles[k].1 in files
    ensures r.Success? ==> forall key :: key in r.value <==> exists k :: 0 <= k < |SplitFiles| && SplitFiles[k].0 == key
    ensures r.Success? ==> forall k :: 0 <= k < |SplitFiles| ==>
      r.value[SplitFiles[k].0] == MembershipSet(files[SplitFiles[k].1])
    ensures r.Failure? ==>
      exists k :: 0 <= k < |SplitFiles| && r.error == SplitFiles[k].1 && r.error !in files &&
        (forall j :: 0 <= j < k ==> SplitFiles[j].1 in files)
  {
    var splits: map<string, set<string>> := map[];
    for k := 0 to |SplitFiles|
      invariant forall j :: 0 <= j < k ==> SplitFiles[j].1 in files
      invariant forall key :: key in splits <==> exists j :: 0 <= j < k && SplitFiles[j].0 == key
      invariant forall j :: 0 <= j < k ==> splits[SplitFiles[j].0] == MembershipSet(files[SplitFiles[j].1])
    {
      var (key, name) := SplitFiles[k];
      if name !in files {
        return Failure(name);
      }
      SplitKeysDistinct();
      splits := splits[key := MembershipSet(files[name])];
    }
    return Success(splits);
  }

  /** A split-file entry that loading gives back unchanged: no line break in
      it and no whitespace at either end. */
  predicate CleanEntry(id: string) {
    && NoNewline(id)
    && (forall i :: 0 <= i < |id| ==> id[i] != '\r')
    && (id == [] || (!IsSpace(id[0]) && !IsSpace(id[|id| - 1])))
  }

  lemma {:induction false} NewlinesIdentity(s: string)
    requires forall i :: 0 <= i < |s| ==> s[i] != '\r'
    ensures UniversalNewlines(s) == s
  {
    if s != [] {
      NewlinesIdentity(s[1..]);
      assert s == [s[0]] + s[1..];
    }
  }

  lemma {:induction false} JoinLinesNoCarriageReturn(ids: seq<string>)
    requires forall k :: 0 <= k < |ids| ==> CleanEntry(ids[k])
    ensures forall i :: 0 <= i < |JoinLines(ids)| ==> JoinLines(ids)[i] != '\r'
  {
    if ids != [] {
      JoinLinesNoCarriageReturn(ids[1..]);
      var rest := JoinLines(ids[1..]);
      assert JoinLines(ids) == ids[0] + ("\n" + rest);
      assert CleanEntry(ids[0]);
      forall i | 0 <= i < |JoinLines(ids)| ensures JoinLines(ids)[i] != '\r' {
        if i < |ids[0]| {
          assert JoinLines(ids)[i] == ids[0][i];
        } else if i > |ids[0]| {
          assert JoinLines(ids)[i] == rest[i - |ids[0]| - 1];
        }
      }
    }
  }

  lemma StripLine(id: string)
    requires CleanEntry(id)
    ensures Strip(id + "\n") == id
  {
    var s := id + "\n";
    assert IsSpace(s[|id|]);
    if id == [] {
      assert AllSpace(s);
    } else {
      assert s[0] == id[0] && LeadingSpaces(s) == 0;
      assert LStrip(s) == s[0..] == s;
      RStripLine(id);
    }
  }

  lemma RStripLine(id: string)
    requires id != [] && !IsSpace(id[|id| - 1])
    ensures RStrip(id + "\n") == id
  {
    var s := id + "\n";
    assert s[..|s| - 1] == id;
    assert TrailingStart(id) == |id|;
    assert TrailingStart(s) == |id|;
  }

  /** Writing entries one per line and loading the file gives back exactly
      the set of entries. */
  lemma MembershipRoundTrip(ids: seq<string>)
    requires forall k :: 0 <= k < |ids| ==> CleanEntry(ids[k])
    ensures MembershipSet(JoinLines(ids)) == set id | id in ids
  {
    ReadBackLines(ids);
    var lines := FileLines(JoinLines(ids));
    StrippedLinesWithin(ids, lines);
    StrippedLinesCover(ids, lines);
  }

  /** Every stripped line of the file is one of the entries written. */
  lemma StrippedLinesWithin(ids: seq<string>, lines: seq<string>)
    requires forall k :: 0 <= k < |ids| ==> CleanEntry(ids[k])
    requires |lines| == |ids| && forall k :: 0 <= k < |ids| ==> lines[k] == ids[k] + "\n"
    ensures forall line | line in lines :: Strip(line) in ids
  {
    forall line | line in lines ensures Strip(line) in ids {
      var k :| 0 <= k < |lines| && lines[k] == line;
      StripLine(ids[k]);
    }
  }

  /** Every entry written is the stripped form of its own line. */
  lemma StrippedLinesCover(ids: seq<string>, lines: seq<string>)
    requires forall k :: 0 <= k < |ids| ==> CleanEntry(ids[k])
    requires |lines| == |ids| && forall k :: 0 <= k < |ids| ==> lines[k] == ids[k] + "\n"
    ensures forall k :: 0 <= k < |ids| ==> ids[k] in Stripped(lines)
  {
    forall k | 0 <= k < |ids| ensures ids[k] in Stripped(lines) {
      StripLine(ids[k]);
      assert lines[k] in lines && Strip(lines[k]) == ids[k];
    }
  }

  /** Reading the written file line by line gives each entry with its newline. */
  lemma ReadBackLines(ids: seq<string>)
    requires forall k :: 0 <= k < |ids| ==> CleanEntry(ids[k])
    ensures FileLines(JoinLines(ids)) == seq(|ids|, k requires 0 <= k < |ids| => ids[k] + "\n")
  {
    JoinLinesNoCarriageReturn(ids);
    NewlinesIdentity(JoinLines(ids));
    JoinLinesLines(ids);
  }

  /** Every entry of a loaded split set is stripped: it neither starts nor ends with whitespace. */
  lemma MembershipEntriesStripped(contents: string, id: string)
    requires id in MembershipSet(contents)
    ensures id == [] || (!IsSpace(id[0]) && !IsSpace(id[|id| - 1]))
  {
    var line :| line in FileLines(contents) && Strip(line) == id;
  }

  // ---------------------------------------------------------------------
  // Scanning the source stores

  /** One retained crop: its image, label and original path bytes. */
  datatype Sample = Sample(image: Bytes, labelBytes: Bytes, path: Bytes)

  /** The source index `i` is retained: its path is present and non-empty,
      the pattern matches it, the scene id is in the split, and the image and
      the label are present and non-empty. */
  predicate Keep(db: Entries, sceneIds: set<string>, i: nat) {
    && HasValue(db, PathKey(i))
    && var id := SceneId(BytesToText(db[PathKey(i)]));
    && id.Some? && id.value in sceneIds
    && HasValue(db, ImageKey(i))
    && HasValue(db, LabelKey(i))
  }

  function SampleAt(db: Entries, sceneIds: set<string>, i: nat): Sample
    requires Keep(db, sceneIds, i)
  {
    Sample(db[ImageKey(i)], db[LabelKey(i)], db[PathKey(i)])
  }

  /** What index `i` yields: its crop when it is retained, nothing otherwise. */
  function Examined(db: Entries, sceneIds: set<string>, i: nat): Option<Sample> {
    if Keep(db, sceneIds, i) then Some(SampleAt(db, sceneIds, i)) else None
  }

  /** `Examined` for one store and split, as a function of the index. */
  function Examiner(db: Entries, sceneIds: set<string>): nat -> Option<Sample> {
    (i: nat) => Examined(db, sceneIds, i)
  }

  /** The optional value as a sequence of length 0 or 1. */
  function Opt<T>(o: Option<T>): (r: seq<T>)
    ensures |r| <= 1 && (r == [] <==> o.None?)
    ensures o.Some? ==> r == [o.value]
  {
    if o.Some? then [o.value] else []
  }

  /** What a scan of indices 1..n appends: the values `pick` yields, in index order. */
  function Collect<T>(pick: nat -> Option<T>, n: nat): seq<T> {
    if n == 0 then [] else Collect(pick, n - 1) + Opt(pick(n))
  }

  /** The indices among 1..n at which `pick` yields a value, in index order. */
  function Positions<T>(pick: nat -> Option<T>, n: nat): seq<nat> {
    if n == 0 then [] else Positions(pick, n - 1) + (if pick(n).Some? then [n] else [])
  }

  lemma {:induction false} PositionsMembers<T>(pick: nat -> Option<T>, n: nat)
    ensures forall i {:trigger i in Positions(pick, n)} :: i in Positions(pick, n) <==> 1 <= i <= n && pick(i).Some?
  {
    if n > 0 {
      PositionsMembers(pick, n - 1);
    }
  }

  lemma {:induction false} PositionsAscending<T>(pick: nat -> Option<T>, n: nat)
    ensures forall a :: 0 <= a < |Positions(pick, n)| ==> 1 <= Positions(pick, n)[a] <= n
    ensures forall a, b :: 0 <= a < b < |Positions(pick, n)| ==> Positions(pick, n)[a] < Positions(pick, n)[b]
  {
    if n > 0 {
      PositionsAscending(pick, n - 1);
      var prev, r := Positions(pick, n - 1), Positions(pick, n);
      assert forall a :: 0 <= a < |prev| ==> r[a] == prev[a];
    }
  }

  /** The k-th value collected is the one yielded at the k-th position. */
  lemma {:induction false} CollectAtPositions<T>(pick: nat -> Option<T>, n: nat)
    ensures |Collect(pick, n)| == |Positions(pick, n)|
    ensures forall k :: 0 <= k < |Positions(pick, n)| ==> pick(Positions(pick, n)[k]) == Some(Collect(pick, n)[k])
  {
    if n > 0 {
      CollectAtPositions(pick, n - 1);
      var ps, prevPs := Positions(pick, n), Positions(pick, n - 1);
      var cs, prevCs := Collect(pick, n), Collect(pick, n - 1);
      forall k | 0 <= k < |ps| ensures pick(ps[k]) == Some(cs[k]) {
        if k < |prevPs| {
          assert ps[k] == prevPs[k] && cs[k] == prevCs[k];
        } else {
          assert ps[k] == n && cs[k] == pick(n).value;
        }
      }
    }
  }

  /** Every value collected was yielded at some index in 1..n. */
  lemma {:induction false} CollectSound<T>(pick: nat -> Option<T>, n: nat, x: T)
    requires x in Collect(pick, n)
    ensures exists i :: 1 <= i <= n && pick(i) == Some(x)
  {
    assert n != 0;
    var prev := Collect(pick, n - 1);
    if x in prev {
      CollectSound(pick, n - 1, x);
    } else {
      assert pick(n) == Some(x);
    }
  }

  /** Every value yielded at an index in 1..n is collected. */
  lemma {:induction false} CollectComplete<T>(pick: nat -> Option<T>, n: nat, i: nat)
    requires 1 <= i <= n && pick(i).Some?
    ensures pick(i).value in Collect(pick, n)
  {
    if i < n {
      CollectComplete(pick, n - 1, i);
    }
  }

  /** Nothing is collected when no index yields a value. */
  lemma {:induction false} CollectNothing<T>(pick: nat -> Option<T>, n: nat)
    requires forall i :: 1 <= i <= n ==> pick(i).None?
    ensures Collect(pick, n) == []
  {
    if n > 0 {
      CollectNothing(pick, n - 1);
    }
  }

  /** The crops retained from indices 1..n of one store, in ascending index order. */
  function ScanRange(db: Entries, sceneIds: set<string>, n: nat): seq<Sample> {
    Collect(Examiner(db, sceneIds), n)
  }

  /** The retained indices among 1..n, in scan order. */
  function KeptIndices(db: Entries, sceneIds: set<string>, n: nat): seq<nat> {
    Positions(Examiner(db, sceneIds), n)
  }

  /** The retained indices are exactly the indices in 1..n that pass every
      filter, strictly ascending, so each appears once. */
  lemma KeptIndicesExact(db: Entries, sceneIds: set<string>, n: nat)
    ensures forall i {:trigger i in KeptIndices(db, sceneIds, n)} ::
      i in KeptIndices(db, sceneIds, n) <==> 1 <= i <= n && Keep(db, sceneIds, i)
    ensures forall a, b :: 0 <= a < b < |KeptIndices(db, sceneIds, n)| ==>
      KeptIndices(db, sceneIds, n)[a] < KeptIndices(db, sceneIds, n)[b]
  {
    PositionsMembers(Examiner(db, sceneIds), n);
    PositionsAscending(Examiner(db, sceneIds), n);
  }

  /** A store's scan keeps exactly its retained indices, each once, in
      ascending order: the k-th crop comes from the k-th retained index. */
  lemma ScanFollowsKeptIndices(db: Entries, sceneIds: set<string>, n: nat)
    ensures |ScanRange(db, sceneIds, n)| == |KeptIndices(db, sceneIds, n)|
    ensures forall k :: 0 <= k < |KeptIndices(db, sceneIds, n)| ==>
      Keep(db, sceneIds, KeptIndices(db, sceneIds, n)[k]) &&
      ScanRange(db, sceneIds, n)[k] == SampleAt(db, sceneIds, KeptIndices(db, sceneIds, n)[k])
  {
    CollectAtPositions(Examiner(db, sceneIds), n);
  }

  /** One step of the scan: index `n` adds the crop it yields, if any. */
  lemma ScanStep(db: Entries, sceneIds: set<string>, n: nat)
    requires n >= 1
    ensures ScanRange(db, sceneIds, n) == ScanRange(db, sceneIds, n - 1) + Opt(Examiner(db, sceneIds)(n))
  {
  }

  /** Every source that exists holds a store with a readable `num-samples`. */
  predicate SourcesWellFormed(paths: seq<string>, fs: map<string, Entries>) {
    forall k :: 0 <= k < |paths| && paths[k] in fs ==> WellFormed(fs[paths[k]])
  }

  /** The crops one source contributes; a path that does not exist contributes none. */
  function SourceSamples(fs: map<string, Entries>, path: string, sceneIds: set<string>): seq<Sample>
    requires path in fs ==> WellFormed(fs[path])
  {
    if path in fs then ScanRange(fs[path], sceneIds, DeclaredCount(fs[path])) else []
  }

  /** The `samples` list: the crops of every source, sources in list order. */
  function Retained(paths: seq<string>, fs: map<string, Entries>, sceneIds: set<string>): seq<Sample>
    requires SourcesWellFormed(paths, fs)
  {
    if paths == [] then []
    else
      var last := |paths| - 1;
      Retained(paths[..last], fs, sceneIds) + SourceSamples(fs, paths[last], sceneIds)
  }

  /** One step of `Retained`: the last source's crops come after the others'. */
  lemma RetainedLast(paths: seq<string>, fs: map<string, Entries>, sceneIds: set<string>)
    requires SourcesWellFormed(paths, fs) && paths != []
    ensures SourcesWellFormed(paths[..|paths| - 1], fs)
    ensures paths[|paths| - 1] in fs ==> WellFormed(fs[paths[|paths| - 1]])
    ensures Retained(paths, fs, sceneIds) ==
      Retained(paths[..|paths| - 1], fs, sceneIds) + SourceSamples(fs, paths[|paths| - 1], sceneIds)
  {
  }

  /** The sample list is the concatenation of what each part of the source list
      contributes: crops are grouped by source, in source order. */
  lemma {:induction false} RetainedAppend(ps: seq<string>, qs: seq<string>, fs: map<string, Entries>, sceneIds: set<string>)
    requires SourcesWellFormed(ps + qs, fs)
    ensures SourcesWellFormed(ps, fs) && SourcesWellFormed(qs, fs)
    ensures Retained(ps + qs, fs, sceneIds) == Retained(ps, fs, sceneIds) + Retained(qs, fs, sceneIds)
    decreases |qs|
  {
    SourcesWellFormedSplit(ps, qs, fs);
    if qs == [] {
      assert ps + qs == ps;
    } else {
      var last := |qs| - 1;
      var front := qs[..last];
      assert (ps + qs)[..|ps + qs| - 1] == ps + front;
      assert (ps + qs)[|ps + qs| - 1] == qs[last];
      RetainedLast(ps + qs, fs, sceneIds);
      RetainedLast(qs, fs, sceneIds);
      RetainedAppend(ps, front, fs, sceneIds);
      var a, b, c := Retained(ps, fs, sceneIds), Retained(front, fs, sceneIds), SourceSamples(fs, qs[last], sceneIds);
      assert (a + b) + c == a + (b + c);
    }
  }

  /** Both parts of a well-formed source list are well-formed. */
  lemma SourcesWellFormedSplit(ps: seq<string>, qs: seq<string>, fs: map<string, Entries>)
    requires SourcesWellFormed(ps + qs, fs)
    ensures SourcesWellFormed(ps, fs) && SourcesWellFormed(qs, fs)
  {
    assert forall k :: 0 <= k < |ps| ==> (ps + qs)[k] == ps[k];
    assert forall k :: 0 <= k < |qs| ==> (ps + qs)[|ps| + k] == qs[k];
  }

  /** A source path that does not exist contributes nothing. */
  lemma MissingSourceContributesNothing(ps: seq<string>, p: string, fs: map<string, Entries>, sceneIds: set<string>)
    requires SourcesWellFormed(ps, fs) && p !in fs
    ensures SourcesWellFormed(ps + [p], fs)
    ensures Retained(ps + [p], fs, sceneIds) == Retained(ps, fs, sceneIds)
  {
    assert (ps + [p])[..|ps|] == ps;
  }

  /** A retained crop passed every filter: its path is non-empty and holds a
      match of `gt_(\d+)_\d+\.jpg` whose captured digits are a scene id of the
      split, and its image and label are non-empty. */
  ghost predicate Selected(s: Sample, sceneIds: set<string>) {
    && |s.image| > 0 && |s.labelBytes| > 0 && |s.path| > 0
    && SceneId(BytesToText(s.path)).Some?
    && SceneId(BytesToText(s.path)).value in sceneIds
  }

  lemma KeptSelected(db: Entries, sceneIds: set<string>, i: nat)
    requires Keep(db, sceneIds, i)
    ensures Selected(SampleAt(db, sceneIds, i), sceneIds)
  {
  }

  lemma ScanSelected(db: Entries, sceneIds: set<string>, n: nat)
    ensures forall s :: s in ScanRange(db, sceneIds, n) ==> Selected(s, sceneIds)
  {
    forall s | s in ScanRange(db, sceneIds, n) ensures Selected(s, sceneIds) {
      CollectSound(Examiner(db, sceneIds), n, s);
      var i :| 1 <= i <= n && Examiner(db, sceneIds)(i) == Some(s);
      KeptSelected(db, sceneIds, i);
    }
  }

  /** Selection correctness: every retained crop passed every filter. */
  lemma {:induction false} RetainedSelected(paths: seq<string>, fs: map<string, Entries>, sceneIds: set<string>)
    requires SourcesWellFormed(paths, fs)
    ensures forall s :: s in Retained(paths, fs, sceneIds) ==> Selected(s, sceneIds)
  {
    if paths != [] {
      var last := |paths| - 1;
      RetainedSelected(paths[..last], fs, sceneIds);
      if paths[last] in fs {
        ScanSelected(fs[paths[last]], sceneIds, DeclaredCount(fs[paths[last]]));
      }
    }
  }

  /** Selection completeness: an index of an existing source that passes
      every filter is retained. */
  lemma {:induction false} RetainedComplete(paths: seq<string>, fs: map<string, Entries>, sceneIds: set<string>, k: nat, i: nat)
    requires SourcesWellFormed(paths, fs)
    requires k < |paths| && paths[k] in fs
    requires 1 <= i <= DeclaredCount(fs[paths[k]]) && Keep(fs[paths[k]], sceneIds, i)
    ensures SampleAt(fs[paths[k]], sceneIds, i) in Retained(paths, fs, sceneIds)
  {
    var last := |paths| - 1;
    var prefix := paths[..last];
    RetainedLast(paths, fs, sceneIds);
    var x := SampleAt(fs[paths[k]], sceneIds, i);
    var front, back := Retained(prefix, fs, sceneIds), SourceSamples(fs, paths[last], sceneIds);
    if k == last {
      ScanComplete(fs[paths[k]], sceneIds, DeclaredCount(fs[paths[k]]), i);
      assert x in back;
    } else {
      assert prefix[k] == paths[k];
      RetainedComplete(prefix, fs, sceneIds, k, i);
      assert x in front;
    }
    assert x in front + back;
  }

  lemma ScanComplete(db: Entries, sceneIds: set<string>, n: nat, i: nat)
    requires 1 <= i <= n && Keep(db, sceneIds, i)
    ensures SampleAt(db, sceneIds, i) in ScanRange(db, sceneIds, n)
  {
    CollectComplete(Examiner(db, sceneIds), n, i);
  }

  lemma ScanEmptySplit(db: Entries, n: nat)
    ensures ScanRange(db, {}, n) == []
  {
    CollectNothing(Examiner(db, {}), n);
  }

  /** With an empty split, nothing is retained. */
  lemma {:induction false} NothingRetainedForEmptySplit(paths: seq<string>, fs: map<string, Entries>)
    requires SourcesWellFormed(paths, fs)
    ensures Retained(paths, fs, {}) == []
  {
    if paths != [] {
      var last := |paths| - 1;
      RetainedLast(paths, fs, {});
      NothingRetainedForEmptySplit(paths[..last], fs);
      if paths[last] in fs {
        ScanEmptySplit(fs[paths[last]], DeclaredCount(fs[paths[last]]));
      }
    }
  }

  // ---------------------------------------------------------------------
  // Writing the new store

  /** The record entries written for `samples`: the k-th sample (from 1)
      under the keys of index k. */
  function Written(samples: seq<Sample>): Entries {
    if samples == [] then map[]
    else
      var k := |samples|;
      var s := samples[k - 1];
      Written(samples[..k - 1])[ImageKey(k) := s.image][LabelKey(k) := s.labelBytes][PathKey(k) := s.path]
  }

  /** Everything the write transaction puts: the records, then `num-samples`. */
  function Output(samples: seq<Sample>): Entries {
    Written(samples)[NumSamplesKey := CountValue(|samples|)]
  }

  /** Three writes under keys other than `key` leave its presence and value as they were. */
  lemma WritesElsewhere(m: Entries, a: string, b: string, c: string, va: Bytes, vb: Bytes, vc: Bytes, key: string)
    requires key != a && key != b && key != c
    ensures (key in m[a := va][b := vb][c := vc]) == (key in m)
    ensures key in m ==> m[a := va][b := vb][c := vc][key] == m[key]
  {
  }

  /** Writing into a store that already holds `m` gives the same entries as
      writing into an empty one and then laying the result over `m`. */
  lemma UpdatesAfterMerge(m: Entries, w: Entries, a: string, b: string, c: string, va: Bytes, vb: Bytes, vc: Bytes)
    ensures (m + w)[a := va][b := vb][c := vc] == m + w[a := va][b := vb][c := vc]
  {
  }

  /** The k-th sample is under the keys of index k: later writes, which use
      higher indices, never overwrite it. */
  lemma {:induction false} WrittenAt(samples: seq<Sample>, k: nat)
    requires 1 <= k <= |samples|
    ensures ImageKey(k) in Written(samples) && Written(samples)[ImageKey(k)] == samples[k - 1].image
    ensures LabelKey(k) in Written(samples) && Written(samples)[LabelKey(k)] == samples[k - 1].labelBytes
    ensures PathKey(k) in Written(samples) && Written(samples)[PathKey(k)] == samples[k - 1].path
  {
    var n := |samples|;
    var prev := samples[..n - 1];
    var w := Written(prev);
    var s := samples[n - 1];
    var ik, lk, pk := ImageKey(n), LabelKey(n), PathKey(n);
    assert Written(samples) == w[ik := s.image][lk := s.labelBytes][pk := s.path];
    if k < n {
      WrittenAt(prev, k);
      assert prev[k - 1] == samples[k - 1];
      OtherIndexKeys(k, n);
      WritesElsewhere(w, ik, lk, pk, s.image, s.labelBytes, s.path, ImageKey(k));
      WritesElsewhere(w, ik, lk, pk, s.image, s.labelBytes, s.path, LabelKey(k));
      WritesElsewhere(w, ik, lk, pk, s.image, s.labelBytes, s.path, PathKey(k));
    } else {
      KeysDistinct(n, n);
    }
  }

  /** No record key of index k is a record key of another index n. */
  lemma OtherIndexKeys(k: nat, n: nat)
    requires k != n
    ensures ImageKey(k) != ImageKey(n) && ImageKey(k) != LabelKey(n) && ImageKey(k) != PathKey(n)
    ensures LabelKey(k) != ImageKey(n) && LabelKey(k) != LabelKey(n) && LabelKey(k) != PathKey(n)
    ensures PathKey(k) != ImageKey(n) && PathKey(k) != LabelKey(n) && PathKey(k) != PathKey(n)
  {
    KeysDistinct(k, n);
    KeysDistinct(n, k);
  }

  /** A key is written for `samples` only if it is a record key of an index in 1..n. */
  lemma {:induction false} WrittenKeys(samples: seq<Sample>, key: string)
    requires key in Written(samples)
    ensures exists k :: 1 <= k <= |samples| && RecordKeyOf(key, k)
  {
    var n := |samples|;
    var prev := samples[..n - 1];
    var w := Written(prev);
    var s := samples[n - 1];
    assert Written(samples) == w[ImageKey(n) := s.image][LabelKey(n) := s.labelBytes][PathKey(n) := s.path];
    if key in w {
      WrittenKeys(prev, key);
    } else {
      assert RecordKeyOf(key, n);
    }
  }

  /** A record key determines its index. */
  lemma SameRecordKey(key: string, k: nat, j: nat)
    requires RecordKeyOf(key, k) && RecordKeyOf(key, j)
    ensures k == j
  {
    KeysDistinct(k, j);
    KeysDistinct(j, k);
  }

  /** Only indices 1..n have record keys in the records written for `samples`. */
  lemma WrittenIndexRange(samples: seq<Sample>, key: string, k: nat)
    requires key in Written(samples) && RecordKeyOf(key, k)
    ensures 1 <= k <= |samples|
  {
    WrittenKeys(samples, key);
    var j :| 1 <= j <= |samples| && RecordKeyOf(key, j);
    SameRecordKey(key, k, j);
  }

  predicate RecordKeyOf(key: string, k: nat) {
    key == ImageKey(k) || key == LabelKey(k) || key == PathKey(k)
  }

  /** The new store is dense and self-describing: its `num-samples` reads
      back as the number of samples, index k in 1..n holds the k-th sample,
      no other index (0 and n + 1 included) has a record key, and there is no
      other key. */
  lemma OutputContiguous(samples: seq<Sample>)
    ensures WellFormed(Output(samples)) && DeclaredCount(Output(samples)) == |samples|
    ensures forall k :: 1 <= k <= |samples| ==>
      && Get(Output(samples), ImageKey(k)) == Some(samples[k - 1].image)
      && Get(Output(samples), LabelKey(k)) == Some(samples[k - 1].labelBytes)
      && Get(Output(samples), PathKey(k)) == Some(samples[k - 1].path)
    ensures forall k: nat :: ImageKey(k) in Output(samples) <==> 1 <= k <= |samples|
    ensures forall k: nat :: LabelKey(k) in Output(samples) <==> 1 <= k <= |samples|
    ensures forall k: nat :: PathKey(k) in Output(samples) <==> 1 <= k <= |samples|
    ensures forall key :: key in Output(samples) ==>
      key == NumSamplesKey || exists k :: 1 <= k <= |samples| && RecordKeyOf(key, k)
  {
    var out := Output(samples);
    var w := Written(samples);
    CountRoundTrip(out, |samples|);
    forall k | 1 <= k <= |samples|
      ensures && Get(out, ImageKey(k)) == Some(samples[k - 1].image)
              && Get(out, LabelKey(k)) == Some(samples[k - 1].labelBytes)
              && Get(out, PathKey(k)) == Some(samples[k - 1].path)
    {
      WrittenAt(samples, k);
      KeysDistinct(k, k);
    }
    forall k: nat | ImageKey(k) in out || LabelKey(k) in out || PathKey(k) in out
      ensures 1 <= k <= |samples|
    {
      KeysDistinct(k, k);
      var key := if ImageKey(k) in out then ImageKey(k) else if LabelKey(k) in out then LabelKey(k) else PathKey(k);
      WrittenIndexRange(samples, key, k);
    }
    forall key | key in out && key != NumSamplesKey
      ensures exists k :: 1 <= k <= |samples| && RecordKeyOf(key, k)
    {
      WrittenKeys(samples, key);
    }
  }

  /** With an empty split the new store holds only `num-samples`, set to "0". */
  lemma EmptySplitOutput(paths: seq<string>, fs: map<string, Entries>)
    requires SourcesWellFormed(paths, fs)
    ensures Output(Retained(paths, fs, {})) == map[NumSamplesKey := ['0' as int]]
  {
    NothingRetainedForEmptySplit(paths, fs);
    assert Decimal(0) == "0";
    assert CountValue(0) == ['0' as int];
  }

  // ---------------------------------------------------------------------
  // create_art_lmdb

  /** The scan of one source inside `create_art_lmdb`: indices 1..num-samples
      are visited in order and every retained crop is appended to `samples`. */
  method ScanSource(db: Entries, sceneIds: set<string>, acc: seq<Sample>) returns (samples: seq<Sample>)
    requires WellFormed(db)
    ensures samples == acc + ScanRange(db, sceneIds, DeclaredCount(db))
  {
    var numSamples := DeclaredCount(db);
    samples := ScanIndices(db, sceneIds, acc, numSamples);
  }

  /** The loop over indices 1..numSamples of one store. */
  method ScanIndices(db: Entries, sceneIds: set<string>, acc: seq<Sample>, numSamples: nat) returns (samples: seq<Sample>)
    ensures samples == acc + ScanRange(db, sceneIds, numSamples)
  {
    samples := acc;
    for i := 1 to numSamples + 1
      invariant samples == acc + ScanRange(db, sceneIds, i - 1)
    {
      var sample := ExamineIndex(db, sceneIds, i);
      ScanStep(db, sceneIds, i);
      ghost var before := ScanRange(db, sceneIds, i - 1);
      assert acc + (before + Opt(sample)) == (acc + before) + Opt(sample);
      if sample.Some? {
        samples := samples + [sample.value];
      }
    }
  }

  /** The body of the scan loop for index `i`: the crop it appends, if any. */
  method ExamineIndex(db: Entries, sceneIds: set<string>, i: nat) returns (sample: Option<Sample>)
    ensures sample == Examiner(db, sceneIds)(i)
  {
    sample := None;
    var path := Get(db, PathKey(i));
    if path.Some? && |path.value| > 0 {
      var pathStr := BytesToText(path.value);
      var found := SceneId(pathStr);
      if found.Some? {
        var sceneId := found.value;
        if sceneId in sceneIds {
          var imageData := Get(db, ImageKey(i));
          var labelData := Get(db, LabelKey(i));
          if imageData.Some? && |imageData.value| > 0 && labelData.Some? && |labelData.value| > 0 {
            sample := Some(Sample(imageData.value, labelData.value, path.value));
          }
        }
      }
    }
  }

  /** The write transaction of `create_art_lmdb`: sample idx (from 1) under the
      keys of index idx, then the count under `num-samples`. */
  method WriteSamples(out: Store, samples: seq<Sample>)
    modifies out
    ensures out.entries == old(out.entries) + Output(samples)
  {
    for idx := 1 to |samples| + 1
      invariant out.entries == old(out.entries) + Written(samples[..idx - 1])
    {
      var sample := samples[idx - 1];
      assert samples[..idx][..idx - 1] == samples[..idx - 1];
      ghost var w := Written(samples[..idx - 1]);
      out.Put(ImageKey(idx), sample.image);
      out.Put(LabelKey(idx), sample.labelBytes);
      out.Put(PathKey(idx), sample.path);
      UpdatesAfterMerge(old(out.entries), w, ImageKey(idx), LabelKey(idx), PathKey(idx),
        sample.image, sample.labelBytes, sample.path);
    }
    assert samples[..|samples|] == samples;
    out.Put(NumSamplesKey, CountValue(|samples|));
  }

  /** `create_art_lmdb`: `fs` holds the stores found at each path at the time
      of the call (a path that is absent does not exist), `out` is the store
      opened at the destination, and the result is the number of crops
      written. All reads happen before the first write. The destination is
      opened, not emptied, so earlier entries that are not overwritten remain. */
  method CreateArtLmdb(oldPaths: seq<string>, fs: map<string, Entries>, out: Store, sceneIds: set<string>)
    returns (count: nat)
    requires SourcesWellFormed(oldPaths, fs)
    modifies out
    ensures count == |Retained(oldPaths, fs, sceneIds)|
    ensures out.entries == old(out.entries) + Output(Retained(oldPaths, fs, sceneIds))
    ensures old(out.entries) == map[] ==> WellFormed(out.entries) && DeclaredCount(out.entries) == count
  {
    var samples: seq<Sample> := [];
    for k := 0 to |oldPaths|
      invariant SourcesWellFormed(oldPaths[..k], fs)
      invariant samples == Retained(oldPaths[..k], fs, sceneIds)
      invariant out.entries == old(out.entries)
    {
      var prefix := oldPaths[..k + 1];
      assert prefix[..k] == oldPaths[..k];
      assert SourcesWellFormed(prefix, fs);
      RetainedLast(prefix, fs, sceneIds);
      var oldPath := oldPaths[k];
      assert prefix[k] == oldPath;
      if oldPath !in fs {
        continue;
      }
      samples := ScanSource(fs[oldPath], sceneIds, samples);
    }
    assert oldPaths[..|oldPaths|] == oldPaths;
    WriteSamples(out, samples);
    count := |samples|;
    if old(out.entries) == map[] {
      assert out.entries == Output(samples);
      OutputContiguous(samples);
    }
  }
}
