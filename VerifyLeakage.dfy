/** The leakage verifier: every split store is reduced to the set of MD5
    digests of its image payloads, the splits are compared pairwise by the
    size of the intersection of those sets, Total-Text and ArT separately and
    then their unions (the "curved mix"), and the mix comparison decides the
    verdict. MD5 is a parameter: nothing here needs it to be collision-free. */
module VerifyLeakage {
  import opened RecordStore
  import CreateFixedLmdbs

  /** `hashlib.md5(data).hexdigest()`. */
  type Digest = string

  // ---------------------------------------------------------------------
  // get_dataset_hashes

  /** The indices 1..n of `db` whose image is present and non-empty. */
  function HashedIndices(db: Entries, n: nat): set<nat> {
    if n == 0 then {}
    else HashedIndices(db, n - 1) + (if HasValue(db, ImageKey(n)) then {n} else {})
  }

  /** The digests the loop of `get_dataset_hashes` collects from indices 1..n. */
  function Fingerprints(db: Entries, n: nat, md5: Bytes -> Digest): set<Digest> {
    if n == 0 then {}
    else Fingerprints(db, n - 1, md5) + (if HasValue(db, ImageKey(n)) then {md5(db[ImageKey(n)])} else {})
  }

  /** The digests of the images under the indices `s`. */
  function Digests(db: Entries, s: set<nat>, md5: Bytes -> Digest): set<Digest>
    requires forall i :: i in s ==> ImageKey(i) in db
  {
    set i | i in s :: md5(db[ImageKey(i)])
  }

  /** The hashed indices are exactly the indices in 1..n whose image is
      present and non-empty. */
  lemma {:induction false} HashedIndicesMembers(db: Entries, n: nat)
    ensures forall i {:trigger i in HashedIndices(db, n)} ::
      i in HashedIndices(db, n) <==> 1 <= i <= n && HasValue(db, ImageKey(i))
  {
    if n > 0 {
      HashedIndicesMembers(db, n - 1);
    }
  }

  /** The count grows by one exactly at an index whose image is hashed. */
  lemma HashedCountStep(db: Entries, n: nat)
    requires n > 0
    ensures |HashedIndices(db, n)| == |HashedIndices(db, n - 1)| + (if HasValue(db, ImageKey(n)) then 1 else 0)
  {
    HashedIndicesMembers(db, n - 1);
    assert n !in HashedIndices(db, n - 1);
  }

  /** The collected digests are the digests of the images under the hashed indices. */
  lemma {:induction false} FingerprintsDigests(db: Entries, n: nat, md5: Bytes -> Digest)
    ensures forall i :: i in HashedIndices(db, n) ==> ImageKey(i) in db
    ensures Fingerprints(db, n, md5) == Digests(db, HashedIndices(db, n), md5)
  {
    HashedIndicesMembers(db, n);
    if n > 0 {
      FingerprintsDigests(db, n - 1, md5);
    }
  }

  /** `get_dataset_hashes(lmdb_path, name)` over the stores `fs` (a path that is
      absent does not exist): the set of digests of the non-empty images under
      indices 1..num-samples, and the number of such images. */
  method GetDatasetHashes(fs: map<string, Entries>, path: string, md5: Bytes -> Digest)
    returns (hashes: set<Digest>, count: nat)
    requires path in fs ==> WellFormed(fs[path])
    ensures path !in fs ==> hashes == {} && count == 0
    ensures path in fs ==>
      && hashes == Fingerprints(fs[path], DeclaredCount(fs[path]), md5)
      && count == |HashedIndices(fs[path], DeclaredCount(fs[path]))|
  {
    if path !in fs {
      return {}, 0;
    }
    var db := fs[path];
    var numSamples := DeclaredCount(db);
    hashes, count := HashIndices(db, numSamples, md5);
  }

  /** The loop of `get_dataset_hashes` over indices 1..numSamples. */
  method HashIndices(db: Entries, numSamples: nat, md5: Bytes -> Digest) returns (hashes: set<Digest>, count: nat)
    ensures hashes == Fingerprints(db, numSamples, md5)
    ensures count == |HashedIndices(db, numSamples)|
  {
    hashes := {};
    count := 0;
    for i := 1 to numSamples + 1
      invariant hashes == Fingerprints(db, i - 1, md5)
      invariant count == |HashedIndices(db, i - 1)|
    {
      HashedCountStep(db, i);
      var imageData := Get(db, ImageKey(i));
      if imageData.Some? && |imageData.value| > 0 {
        var imgHash := md5(imageData.value);
        hashes := hashes + {imgHash};
        count := count + 1;
      }
    }
  }

  /** The digests of the stores as `get_dataset_hashes` returns them, for use
      in the specification of the verdict. */
  function HashesOf(fs: map<string, Entries>, path: string, md5: Bytes -> Digest): set<Digest>
    requires path in fs ==> WellFormed(fs[path])
  {
    if path in fs then Fingerprints(fs[path], DeclaredCount(fs[path]), md5) else {}
  }

  /** Hashing never yields more digests than there are images. */
  lemma {:induction false} DigestsNoMore(db: Entries, s: set<nat>, md5: Bytes -> Digest)
    requires forall i :: i in s ==> ImageKey(i) in db
    ensures |Digests(db, s, md5)| <= |s|
    decreases |s|
  {
    if s != {} {
      var x :| x in s;
      var rest := s - {x};
      DigestsNoMore(db, rest, md5);
      assert Digests(db, s, md5) == Digests(db, rest, md5) + {md5(db[ImageKey(x)])};
    }
  }

  /** There are never more unique digests than hashed images. */
  lemma HashesAtMostCount(db: Entries, n: nat, md5: Bytes -> Digest)
    ensures |Fingerprints(db, n, md5)| <= |HashedIndices(db, n)|
  {
    FingerprintsDigests(db, n, md5);
    DigestsNoMore(db, HashedIndices(db, n), md5);
  }

  /** Duplicate payloads collapse: two hashed indices holding the same image
      leave fewer unique digests than hashed images. */
  lemma DuplicatesCollapse(db: Entries, n: nat, md5: Bytes -> Digest, i: nat, j: nat)
    requires i != j && 1 <= i <= n && 1 <= j <= n
    requires HasValue(db, ImageKey(i)) && HasValue(db, ImageKey(j))
    requires db[ImageKey(i)] == db[ImageKey(j)]
    ensures |Fingerprints(db, n, md5)| < |HashedIndices(db, n)|
  {
    FingerprintsDigests(db, n, md5);
    HashedIndicesMembers(db, n);
    DigestsCollapse(db, HashedIndices(db, n), md5, i, j);
  }

  /** Two indices of `s` holding the same image give one digest between them. */
  lemma DigestsCollapse(db: Entries, s: set<nat>, md5: Bytes -> Digest, i: nat, j: nat)
    requires forall k :: k in s ==> ImageKey(k) in db
    requires i != j && i in s && j in s && db[ImageKey(i)] == db[ImageKey(j)]
    ensures |Digests(db, s, md5)| < |s|
  {
    var rest := s - {j};
    DigestsNoMore(db, rest, md5);
    assert Digests(db, s, md5) == Digests(db, rest, md5) + {md5(db[ImageKey(j)])};
    assert md5(db[ImageKey(j)]) in Digests(db, rest, md5) by {
      assert i in rest;
    }
  }

  /** A subset is no larger than the set that contains it. */
  lemma SubsetNoLarger(a: set<Digest>, b: set<Digest>)
    requires a <= b
    ensures |a| <= |b|
  {
    assert b == a + (b - a);
    assert a * (b - a) == {};
  }

  // ---------------------------------------------------------------------
  // check_overlap

  /** `check_overlap(set1, name1, set2, name2)`: the number of digests both
      sets hold; zero exactly when the sets are disjoint, and never more
      than either set holds. */
  function CheckOverlap(a: set<Digest>, b: set<Digest>): (n: nat)
    ensures n == 0 <==> a !! b
    ensures n <= |a| && n <= |b|
  {
    if a !! b then
      0
    else
      SubsetNoLarger(a * b, a);
      SubsetNoLarger(a * b, b);
      var x :| x in a && x in b;
      assert x in a * b;
      |a * b|
  }

  /** The overlap does not depend on the order of the two sets. */
  lemma OverlapSymmetric(a: set<Digest>, b: set<Digest>)
    ensures CheckOverlap(a, b) == CheckOverlap(b, a)
  {
    assert a * b == b * a;
  }

  /** The overlap rate `num_overlap / len(set1)` that is reported only when
      the overlap is non-zero: the division is then by a positive number and
      the rate lies in (0, 1]. */
  function OverlapRate(a: set<Digest>, b: set<Digest>): (r: real)
    requires CheckOverlap(a, b) > 0
    ensures 0.0 < r <= 1.0
  {
    (CheckOverlap(a, b) as real) / (|a| as real)
  }

  /** Growing either set never shrinks the overlap. */
  lemma OverlapMonotone(a: set<Digest>, b: set<Digest>, a': set<Digest>, b': set<Digest>)
    requires a <= a' && b <= b'
    ensures CheckOverlap(a, b) <= CheckOverlap(a', b')
  {
    if !(a !! b) {
      SubsetNoLarger(a * b, a' * b');
    }
  }

  /** The overlap of two unions is at most the sum of the four overlaps of
      their parts. */
  lemma OverlapOfUnions(a: set<Digest>, c: set<Digest>, b: set<Digest>, d: set<Digest>)
    ensures CheckOverlap(a + c, b + d) <=
      CheckOverlap(a, b) + CheckOverlap(a, d) + CheckOverlap(c, b) + CheckOverlap(c, d)
  {
    var all := (a + c) * (b + d);
    assert all == (a * b) + (a * d) + (c * b) + (c * d);
    if all == {} {
      assert CheckOverlap(a + c, b + d) == 0;
    } else {
      SumBound(a * b, a * d, c * b, c * d);
      assert |a * b| == CheckOverlap(a, b);
      assert |a * d| == CheckOverlap(a, d);
      assert |c * b| == CheckOverlap(c, b);
      assert |c * d| == CheckOverlap(c, d);
    }
  }

  lemma SumBound(p: set<Digest>, q: set<Digest>, r: set<Digest>, s: set<Digest>)
    ensures |p + q + r + s| <= |p| + |q| + |r| + |s|
  {
    assert |p + q| == |p| + |q| - |p * q|;
    assert |p + q + r| == |p + q| + |r| - |(p + q) * r|;
    assert |p + q + r + s| == |p + q + r| + |s| - |(p + q + r) * s|;
  }

  // ---------------------------------------------------------------------
  // main: per-dataset checks, the curved mix and the verdict

  /** The digest sets of the train, val and test splits of one dataset. */
  datatype SplitHashes = SplitHashes(train: set<Digest>, val: set<Digest>, test: set<Digest>)

  /** The store paths of the three splits of one dataset. */
  datatype SplitPaths = SplitPaths(train: string, val: string, test: string)

  /** The three `leaks += check_overlap(...)` lines for one dataset:
      train/val, train/test and val/test. */
  function PairLeaks(h: SplitHashes): nat {
    CheckOverlap(h.train, h.val) + CheckOverlap(h.train, h.test) + CheckOverlap(h.val, h.test)
  }

  /** No digest is shared by two splits. */
  predicate Clean(h: SplitHashes) {
    h.train !! h.val && h.train !! h.test && h.val !! h.test
  }

  /** The leak total of a dataset is zero exactly when its splits are pairwise disjoint. */
  lemma PairLeaksZero(h: SplitHashes)
    ensures PairLeaks(h) == 0 <==> Clean(h)
  {
  }

  /** The curved mix: split by split, the union of the Total-Text and the ArT digests. */
  function Mix(tt: SplitHashes, art: SplitHashes): (m: SplitHashes)
    ensures tt.train <= m.train && art.train <= m.train
    ensures tt.val <= m.val && art.val <= m.val
    ensures tt.test <= m.test && art.test <= m.test
    ensures forall h :: h in m.train ==> h in tt.train || h in art.train
    ensures forall h :: h in m.val ==> h in tt.val || h in art.val
    ensures forall h :: h in m.test ==> h in tt.test || h in art.test
  {
    SplitHashes(tt.train + art.train, tt.val + art.val, tt.test + art.test)
  }

  /** Every mix overlap is at least the corresponding Total-Text and ArT overlaps. */
  lemma MixDominates(tt: SplitHashes, art: SplitHashes)
    ensures CheckOverlap(Mix(tt, art).train, Mix(tt, art).val) >= CheckOverlap(tt.train, tt.val)
    ensures CheckOverlap(Mix(tt, art).train, Mix(tt, art).val) >= CheckOverlap(art.train, art.val)
    ensures CheckOverlap(Mix(tt, art).train, Mix(tt, art).test) >= CheckOverlap(tt.train, tt.test)
    ensures CheckOverlap(Mix(tt, art).train, Mix(tt, art).test) >= CheckOverlap(art.train, art.test)
    ensures CheckOverlap(Mix(tt, art).val, Mix(tt, art).test) >= CheckOverlap(tt.val, tt.test)
    ensures CheckOverlap(Mix(tt, art).val, Mix(tt, art).test) >= CheckOverlap(art.val, art.test)
    ensures PairLeaks(Mix(tt, art)) >= PairLeaks(tt) && PairLeaks(Mix(tt, art)) >= PairLeaks(art)
  {
    var m := Mix(tt, art);
    OverlapMonotone(tt.train, tt.val, m.train, m.val);
    OverlapMonotone(art.train, art.val, m.train, m.val);
    OverlapMonotone(tt.train, tt.test, m.train, m.test);
    OverlapMonotone(art.train, art.test, m.train, m.test);
    OverlapMonotone(tt.val, tt.test, m.val, m.test);
    OverlapMonotone(art.val, art.test, m.val, m.test);
  }

  /** The mix is clean exactly when both datasets are clean and, in addition,
      no digest crosses from one dataset's split to the other dataset's
      different split (Total-Text train against ArT val, and so on). */
  lemma MixClean(tt: SplitHashes, art: SplitHashes)
    ensures Clean(Mix(tt, art)) <==>
      && Clean(tt) && Clean(art)
      && tt.train !! art.val && art.train !! tt.val
      && tt.train !! art.test && art.train !! tt.test
      && tt.val !! art.test && art.val !! tt.test
  {
  }

  /** The mix leak total is at most the sum of the within-dataset totals and
      the cross-dataset overlaps: taking unions first adds nothing that the
      separate comparisons and the cross pairs do not already count. */
  lemma MixLeaksBound(tt: SplitHashes, art: SplitHashes)
    ensures PairLeaks(Mix(tt, art)) <= PairLeaks(tt) + PairLeaks(art)
      + CheckOverlap(tt.train, art.val) + CheckOverlap(art.train, tt.val)
      + CheckOverlap(tt.train, art.test) + CheckOverlap(art.train, tt.test)
      + CheckOverlap(tt.val, art.test) + CheckOverlap(art.val, tt.test)
  {
    OverlapOfUnions(tt.train, art.train, tt.val, art.val);
    OverlapOfUnions(tt.train, art.train, tt.test, art.test);
    OverlapOfUnions(tt.val, art.val, tt.test, art.test);
  }

  /** What `main` computes: the leak total of each section and the verdict,
      which is taken from the mix total alone (`leaks` is reset before the
      mix section). */
  datatype Verdict = Verdict(ttLeaks: nat, artLeaks: nat, mixLeaks: nat, passed: bool)

  /** One dataset section of `main`: the three split stores are hashed and
      `leaks` sums the train/val, train/test and val/test overlaps. */
  method CheckDataset(fs: map<string, Entries>, paths: SplitPaths, md5: Bytes -> Digest)
    returns (h: SplitHashes, leaks: nat)
    requires Readable(fs, paths)
    ensures h == Hashes(fs, paths, md5)
    ensures leaks == PairLeaks(h)
  {
    var train, _ := GetDatasetHashes(fs, paths.train, md5);
    var val, _ := GetDatasetHashes(fs, paths.val, md5);
    var test, _ := GetDatasetHashes(fs, paths.test, md5);
    leaks := 0;
    leaks := leaks + CheckOverlap(train, val);
    leaks := leaks + CheckOverlap(train, test);
    leaks := leaks + CheckOverlap(val, test);
    h := SplitHashes(train, val, test);
  }

  /** `main` with its hard-coded base directory replaced by the six store
      paths and the stores `fs` they lead to. The verdict passes exactly when
      the mix splits are pairwise disjoint. */
  method VerifyFixedDataset(fs: map<string, Entries>, ttPaths: SplitPaths, artPaths: SplitPaths, md5: Bytes -> Digest)
    returns (v: Verdict)
    requires Readable(fs, ttPaths) && Readable(fs, artPaths)
    ensures v.ttLeaks == PairLeaks(Hashes(fs, ttPaths, md5))
    ensures v.artLeaks == PairLeaks(Hashes(fs, artPaths, md5))
    ensures v.mixLeaks == PairLeaks(Mix(Hashes(fs, ttPaths, md5), Hashes(fs, artPaths, md5)))
    ensures v.passed <==> Clean(Mix(Hashes(fs, ttPaths, md5), Hashes(fs, artPaths, md5)))
  {
    var tt, ttLeaks := CheckDataset(fs, ttPaths, md5);
    var art, artLeaks := CheckDataset(fs, artPaths, md5);

    var mixTrain := tt.train + art.train;
    var mixVal := tt.val + art.val;
    var mixTest := tt.test + art.test;

    var leaks := 0;
    leaks := leaks + CheckOverlap(mixTrain, mixVal);
    leaks := leaks + CheckOverlap(mixTrain, mixTest);
    leaks := leaks + CheckOverlap(mixVal, mixTest);

    assert Mix(tt, art) == SplitHashes(mixTrain, mixVal, mixTest);
    PairLeaksZero(Mix(tt, art));
    v := Verdict(ttLeaks, artLeaks, leaks, leaks == 0);
  }

  /** Each split store that exists has a readable `num-samples`. */
  predicate Readable(fs: map<string, Entries>, paths: SplitPaths) {
    && (paths.train in fs ==> WellFormed(fs[paths.train]))
    && (paths.val in fs ==> WellFormed(fs[paths.val]))
    && (paths.test in fs ==> WellFormed(fs[paths.test]))
  }

  /** The digest sets of a dataset's three split stores. */
  function Hashes(fs: map<string, Entries>, paths: SplitPaths, md5: Bytes -> Digest): SplitHashes
    requires Readable(fs, paths)
  {
    SplitHashes(HashesOf(fs, paths.train, md5), HashesOf(fs, paths.val, md5), HashesOf(fs, paths.test, md5))
  }

  /** A passing verdict implies that each dataset's own splits are pairwise
      disjoint, although the Total-Text and ArT totals do not enter it. */
  lemma PassedImpliesDatasetsClean(tt: SplitHashes, art: SplitHashes)
    requires PairLeaks(Mix(tt, art)) == 0
    ensures Clean(tt) && Clean(art)
    ensures PairLeaks(tt) == 0 && PairLeaks(art) == 0
  {
    PairLeaksZero(Mix(tt, art));
    MixClean(tt, art);
  }

  // ---------------------------------------------------------------------
  // The verifier applied to a store written by create_art_lmdb

  /** The digests the verifier finds in a store that `create_art_lmdb` wrote
      into an empty destination are the digests of the retained images, and
      every retained crop is hashed (its image is non-empty). */
  lemma FingerprintsOfOutput(samples: seq<CreateFixedLmdbs.Sample>, md5: Bytes -> Digest)
    requires forall s :: s in samples ==> |s.image| > 0
    ensures WellFormed(CreateFixedLmdbs.Output(samples))
    ensures DeclaredCount(CreateFixedLmdbs.Output(samples)) == |samples|
    ensures forall i: nat :: i in HashedIndices(CreateFixedLmdbs.Output(samples), |samples|) <==> 1 <= i <= |samples|
    ensures forall h :: h in Fingerprints(CreateFixedLmdbs.Output(samples), |samples|, md5) <==>
      exists k :: 0 <= k < |samples| && h == md5(samples[k].image)
  {
    var out := CreateFixedLmdbs.Output(samples);
    OutputImages(samples);
    HashedIndicesMembers(out, |samples|);
    FingerprintsOfImages(out, samples, |samples|, md5);
  }

  /** The store written for `samples` is well formed, declares their number
      and holds the k-th image under the image key of index k. */
  lemma OutputImages(samples: seq<CreateFixedLmdbs.Sample>)
    requires forall s :: s in samples ==> |s.image| > 0
    ensures WellFormed(CreateFixedLmdbs.Output(samples))
    ensures DeclaredCount(CreateFixedLmdbs.Output(samples)) == |samples|
    ensures forall i :: 1 <= i <= |samples| ==>
      HasValue(CreateFixedLmdbs.Output(samples), ImageKey(i)) && CreateFixedLmdbs.Output(samples)[ImageKey(i)] == samples[i - 1].image
  {
    var out := CreateFixedLmdbs.Output(samples);
    CreateFixedLmdbs.OutputContiguous(samples);
    forall i | 1 <= i <= |samples|
      ensures HasValue(out, ImageKey(i)) && out[ImageKey(i)] == samples[i - 1].image
    {
      assert samples[i - 1] in samples;
    }
  }

  /** When index i (from 1) holds the i-th image of `samples`, the digests
      collected from indices 1..k are those of the first k images. */
  lemma {:induction false} FingerprintsOfImages(db: Entries, samples: seq<CreateFixedLmdbs.Sample>, k: nat, md5: Bytes -> Digest)
    requires k <= |samples|
    requires forall i :: 1 <= i <= |samples| ==> HasValue(db, ImageKey(i)) && db[ImageKey(i)] == samples[i - 1].image
    ensures forall h {:trigger h in Fingerprints(db, k, md5)} ::
      h in Fingerprints(db, k, md5) <==> exists j :: 0 <= j < k && h == md5(samples[j].image)
  {
    if k > 0 {
      FingerprintsOfImages(db, samples, k - 1, md5);
      assert HasValue(db, ImageKey(k)) && db[ImageKey(k)] == samples[k - 1].image;
      forall h ensures h in Fingerprints(db, k, md5) <==> exists j :: 0 <= j < k && h == md5(samples[j].image) {
        if h == md5(samples[k - 1].image) {
          assert h in Fingerprints(db, k, md5);
        }
      }
    }
  }
}
