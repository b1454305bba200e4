# Leakage-free dataset splits: rebuild, verification and Total-Text conversion

This project models three scripts of a scene-text recognition repository.
They rebuild its training data so that no image is shared between the train,
validation and test splits, and then check that this holds.

- **create_fixed_lmdbs.py** reads the six split lists (Total-Text image names
  and ArT scene ids, one per line, stripped).
  - `create_art_lmdb` rebuilds an ArT record store from several source stores.
  - It scans indices `1..num-samples` of each source that exists.
  - It extracts the scene id from `imagepath-%09d` with the pattern
    `gt_(\d+)_\d+\.jpg`.
  - It keeps the crops whose id is in the split and whose image and label are
    non-empty.
  - It writes them at contiguous indices from 1, then writes `num-samples`.
- **verify_fixed_dataset_leakage.py** reduces each split store to the set of
  MD5 digests of its images.
  - It counts the shared digests of every pair of splits: Total-Text alone,
    ArT alone, and the "curved mix" (their split-by-split unions).
  - It passes when the mix shows no overlap.
- **tools/convert_totaltext.py** parses Total-Text polygon annotation lines
  (`x: [[..]], y: [[..]], ornt: [..], transcriptions: [..]`).
  - It clamps each word's bounding box into the image.
  - It names the crops `<image stem>_<line index>.jpg` and writes one
    ground-truth line `<crop name> <text>` per crop.
  - It processes a subset's image files in sorted order, each with its
    `poly_gt_<stem>.txt` annotation file.

Modules:

- `Wrappers`: Option and Result.
- `Numerals`: decimal text, `%09d`, and reading digits back.
- `Text`: Python's whitespace, `strip`, `split()`, text-mode line iteration,
  `str.split(sep)[1]`, and lexicographic order and sorting.
- `RecordStore`: an LMDB store as `map<string, Bytes>`, its key formats, and a
  `Store` class whose `Put` updates the destination in place.
- `SceneIdPattern`: the regular expression as an explicit matcher, proved
  against a declarative reading of the pattern with `re.search` semantics.
- `CreateFixedLmdbs`, `VerifyLeakage`, `TotalTextParse`, `ConvertTotalText`:
  the scripts themselves.

The source stores are values (`fs: map<string, Entries>`; a path that is
absent does not exist). The scripts only read them, so they cannot change.
The destination store is the only object a method modifies. Several things
become parameters:

- MD5: `md5: Bytes -> Digest`.
- `ast.literal_eval(...)[0]`: `evalFirst: string -> Option<string>`, where
  None stands for the exception the fallback catches.
- `cv2.boundingRect`: `bbox`.
- A decoded image: its size.
- Directory listings and file contents.

## Model

| member | source | states |
|---|---|---|
| Numerals.DecimalRoundTrip | create_fixed_lmdbs.py:123 | reading back the decimal text `str(n)` gives `n` |
| Numerals.DecimalInjective | tools/convert_totaltext.py:97 | different numbers have different decimal texts |
| Numerals.Pad9RoundTrip | create_fixed_lmdbs.py:83 | `%09d` of `n` is all digits, at least 9 of them, and reads back as `n` (leading zeros do not count) |
| Numerals.Pad9Injective | create_fixed_lmdbs.py:114-116 | different indices give different `%09d` texts, so no two record keys of one kind coincide |
| Numerals.Pad9Width | create_fixed_lmdbs.py:83 | below 10^9 the padded index is exactly 9 characters wide |
| Numerals.PadLeftValue | create_fixed_lmdbs.py:83 | zero-padding to a width never changes the value the digits denote |
| Text.Strip | create_fixed_lmdbs.py:20 | `str.strip()`: the result is a slice of the input with only whitespace cut at both ends, starts and ends with a non-space, and is empty exactly when the input is all whitespace |
| Text.UniversalNewlines | create_fixed_lmdbs.py:19 | text-mode reading leaves no carriage return in what the program sees |
| Text.LinesConcat | create_fixed_lmdbs.py:19-20 | iterating over a file yields lines that concatenate back to the whole text |
| Text.LinesShape | create_fixed_lmdbs.py:19-20 | every yielded line is non-empty, has a newline at most as its last character, and has it there unless it is the final line |
| Text.JoinLinesLines | create_fixed_lmdbs.py:19-20 | a file written as one entry per line reads back as exactly those entries, each with its newline |
| Text.Words | tools/convert_totaltext.py:17 | `split()` yields non-empty words without whitespace |
| Text.FindFrom | tools/convert_totaltext.py:13 | finds the first occurrence of a separator at or after a position, or reports that there is none |
| Text.UpTo | tools/convert_totaltext.py:13 | `s.split(sep)[0]`: a prefix of `s` that is all of `s` when `sep` never occurs, and otherwise ends exactly where `sep` first occurs |
| Text.SecondField | tools/convert_totaltext.py:13 | `s.split(sep)[1]`: None when `sep` does not occur (Python raises IndexError), otherwise the text after the first occurrence up to the next occurrence (or the end) |
| Text.Sort | tools/convert_totaltext.py:124 | `sorted`: the result is in ascending code-point order and is a permutation of the input |
| Text.Insert | tools/convert_totaltext.py:124 | inserting into a sorted list keeps it sorted and adds exactly that one element |
| Text.LexLeTotal | tools/convert_totaltext.py:124 | any two names are comparable in string order |
| Text.LexLeAntisymmetric | tools/convert_totaltext.py:124 | two names each at most the other are equal |
| Text.LexLeTransitive | tools/convert_totaltext.py:124 | string order is transitive |
| RecordStore.Get | create_fixed_lmdbs.py:84 | `txn.get` yields a value exactly when the key is present, and then the stored value |
| RecordStore.BytesToText | create_fixed_lmdbs.py:87 | decoding gives one character per byte with the byte's code |
| RecordStore.CountRoundTrip | create_fixed_lmdbs.py:123 | after `str(n)` is put under `num-samples`, `int(...)` of that value reads `n` back |
| RecordStore.KeysDistinct | create_fixed_lmdbs.py:114-116 | image, label and path keys are injective in the index, never equal to one another, and never `num-samples` |
| RecordStore.Store.Put | create_fixed_lmdbs.py:118-120 | `txn_out.put` sets one key and leaves every other entry as it was |
| SceneIdPattern.DigitRun | create_fixed_lmdbs.py:88 | `\d+` at a position covers the maximal run of digits there |
| SceneIdPattern.MatchAtSound | create_fixed_lmdbs.py:88-90 | an attempt at a position that succeeds is a match of `gt_(\d+)_\d+\.jpg` there, and it returns group 1 |
| SceneIdPattern.MatchAtComplete | create_fixed_lmdbs.py:88-90 | any match of the pattern at a position is found by the attempt there, with the same group 1 |
| SceneIdPattern.SearchFromNone | create_fixed_lmdbs.py:88-89 | `re.search` fails exactly when the pattern matches at no position |
| SceneIdPattern.SearchFromLeftmost | create_fixed_lmdbs.py:88-90 | when `re.search` succeeds, it returns group 1 of the leftmost match |
| SceneIdPattern.SceneIdDigits | create_fixed_lmdbs.py:90 | a scene id is a non-empty string of digits |
| CreateFixedLmdbs.SplitKeysDistinct | create_fixed_lmdbs.py:16-36 | the six dictionary keys are pairwise different, so no split overwrites another |
| CreateFixedLmdbs.LoadSplitFiles | create_fixed_lmdbs.py:12-38 | succeeds exactly when all six split files exist, and then maps exactly the six keys, each to the stripped lines of its file; otherwise reports the first missing file in reading order |
| CreateFixedLmdbs.MembershipRoundTrip | create_fixed_lmdbs.py:19-36 | a split file written as one clean id per line loads back as exactly the set of those ids |
| CreateFixedLmdbs.ReadBackLines | create_fixed_lmdbs.py:19-20 | such a file is read as exactly one line per id |
| CreateFixedLmdbs.StripLine | create_fixed_lmdbs.py:20 | stripping a written line gives back its id |
| CreateFixedLmdbs.MembershipEntriesStripped | create_fixed_lmdbs.py:20 | no loaded member starts or ends with whitespace |
| CreateFixedLmdbs.ExamineIndex | create_fixed_lmdbs.py:83-105 | one pass of the scan yields the crop of index `i` exactly when its path is present and non-empty, the pattern matches, the id is in the split, and the image and label are present and non-empty; otherwise nothing, without raising |
| CreateFixedLmdbs.ScanIndices | create_fixed_lmdbs.py:82-105 | the scan of indices `1..num_samples` appends exactly the retained crops of that store, in index order |
| CreateFixedLmdbs.ScanSource | create_fixed_lmdbs.py:79-105 | one source store contributes the retained crops of indices `1..int(num-samples)` |
| CreateFixedLmdbs.ScanStep | create_fixed_lmdbs.py:101-105 | index `n` appends its crop, if kept, after the crops of the indices before it |
| CreateFixedLmdbs.KeptIndicesExact | create_fixed_lmdbs.py:82-100 | the indices the scan keeps are exactly those in `1..n` that pass every filter, in strictly ascending order |
| CreateFixedLmdbs.ScanFollowsKeptIndices | create_fixed_lmdbs.py:82-105 | the k-th collected crop is the image, label and path of the k-th kept index |
| CreateFixedLmdbs.KeptSelected | create_fixed_lmdbs.py:86-100 | a kept index's crop has non-empty image, label and path, and its path holds a match whose id is in the split |
| CreateFixedLmdbs.ScanSelected | create_fixed_lmdbs.py:86-105 | every crop one source contributes passed all the filters |
| CreateFixedLmdbs.ScanComplete | create_fixed_lmdbs.py:82-105 | every index in range that passes the filters contributes its crop |
| CreateFixedLmdbs.RetainedLast | create_fixed_lmdbs.py:72-105 | the last source's crops come after those of the sources before it |
| CreateFixedLmdbs.RetainedAppend | create_fixed_lmdbs.py:72 | the sources are scanned in list order: the crops of `ps + qs` are those of `ps` followed by those of `qs` |
| CreateFixedLmdbs.MissingSourceContributesNothing | create_fixed_lmdbs.py:73-74 | a source path that does not exist adds no crop |
| CreateFixedLmdbs.RetainedSelected | create_fixed_lmdbs.py:72-105 | every collected sample passed every filter: non-empty image, label and path, with a pattern match whose id is in the split |
| CreateFixedLmdbs.RetainedComplete | create_fixed_lmdbs.py:72-105 | every index of an existing source that passes the filters has its crop collected |
| CreateFixedLmdbs.ScanEmptySplit | create_fixed_lmdbs.py:92 | with no scene ids a store contributes nothing |
| CreateFixedLmdbs.NothingRetainedForEmptySplit | create_fixed_lmdbs.py:92 | with no scene ids nothing is collected from any source |
| CreateFixedLmdbs.WrittenAt | create_fixed_lmdbs.py:113-120 | after the write loop, index k holds the k-th sample's image, label and path: no later write overwrote them |
| CreateFixedLmdbs.WrittenKeys | create_fixed_lmdbs.py:113-120 | the write loop creates no key but the record keys of indices `1..len(samples)` |
| CreateFixedLmdbs.WrittenIndexRange | create_fixed_lmdbs.py:113-120 | a record key the loop wrote has an index between 1 and the number of samples |
| CreateFixedLmdbs.SameRecordKey | create_fixed_lmdbs.py:114-116 | a record key determines its index |
| CreateFixedLmdbs.OutputContiguous | create_fixed_lmdbs.py:112-123 | the written store is dense: `num-samples` reads back as the sample count, index k in `1..n` holds the k-th sample under all three keys, no other index has a record key, and there are no other keys |
| CreateFixedLmdbs.EmptySplitOutput | create_fixed_lmdbs.py:123 | an empty scene set writes only `num-samples = "0"` |
| CreateFixedLmdbs.WriteSamples | create_fixed_lmdbs.py:112-123 | the write transaction adds exactly the records of the samples and `num-samples` to the destination, keeping its other entries |
| CreateFixedLmdbs.CreateArtLmdb | create_fixed_lmdbs.py:57-128 | returns the number of retained crops; the destination gains exactly their records, in source order, and `num-samples`; a fresh destination then declares that same count |
| VerifyLeakage.HashedIndicesMembers | verify_fixed_dataset_leakage.py:30-34 | the indices hashed are exactly those in `1..n` whose image is present and non-empty |
| VerifyLeakage.HashedCountStep | verify_fixed_dataset_leakage.py:34-38 | the count grows by one exactly at a hashed index |
| VerifyLeakage.FingerprintsDigests | verify_fixed_dataset_leakage.py:30-37 | the collected hashes are exactly the digests of the images at the hashed indices |
| VerifyLeakage.HashIndices | verify_fixed_dataset_leakage.py:30-38 | the hashing loop returns exactly those digests, and the number of images hashed |
| VerifyLeakage.GetDatasetHashes | verify_fixed_dataset_leakage.py:13-46 | a path that does not exist gives the empty set and 0; otherwise the digests of the non-empty images at indices `1..num-samples`, and how many such images there are |
| VerifyLeakage.DigestsNoMore | verify_fixed_dataset_leakage.py:36-41 | a set of images has no more digests than images |
| VerifyLeakage.HashesAtMostCount | verify_fixed_dataset_leakage.py:36-41 | the number of unique hashes never exceeds `count` |
| VerifyLeakage.DigestsCollapse | verify_fixed_dataset_leakage.py:36-37 | two images with the same bytes give one digest between them |
| VerifyLeakage.DuplicatesCollapse | verify_fixed_dataset_leakage.py:36-41 | two hashed indices holding the same payload make the unique hashes strictly fewer than `count`, whatever the hash function |
| VerifyLeakage.CheckOverlap | verify_fixed_dataset_leakage.py:48-60 | the overlap is zero exactly when the sets are disjoint, and is at most the size of either set |
| VerifyLeakage.OverlapSymmetric | verify_fixed_dataset_leakage.py:50-51 | the overlap does not depend on the order of the two sets |
| VerifyLeakage.OverlapRate | verify_fixed_dataset_leakage.py:54-58 | the rate is computed only when the overlap is non-zero, and it then divides by a non-empty set and lies in (0, 1] |
| VerifyLeakage.OverlapMonotone | verify_fixed_dataset_leakage.py:124-136 | growing either set never shrinks the overlap |
| VerifyLeakage.OverlapOfUnions | verify_fixed_dataset_leakage.py:124-136 | the overlap of two unions is at most the sum of the overlaps of their parts |
| VerifyLeakage.PairLeaksZero | verify_fixed_dataset_leakage.py:84-89 | a dataset's leak total is zero exactly when its three splits are pairwise disjoint |
| VerifyLeakage.Mix | verify_fixed_dataset_leakage.py:124-127 | each mix split contains both datasets' digests for that split and nothing else |
| VerifyLeakage.MixDominates | verify_fixed_dataset_leakage.py:124-136 | each mix pairwise overlap is at least the Total-Text one and the ArT one, and so is the mix total |
| VerifyLeakage.MixClean | verify_fixed_dataset_leakage.py:124-143 | the mix is clean exactly when both datasets are clean and no split of one shares a digest with a different split of the other |
| VerifyLeakage.MixLeaksBound | verify_fixed_dataset_leakage.py:124-136 | the mix total is at most the two dataset totals plus the six cross-dataset overlaps |
| VerifyLeakage.CheckDataset | verify_fixed_dataset_leakage.py:80-92 | one dataset section hashes its three split stores and sums the train/val, train/test and val/test overlaps |
| VerifyLeakage.VerifyFixedDataset | verify_fixed_dataset_leakage.py:62-147 | reports both dataset totals and the mix total; the verdict passes exactly when the three mix splits are pairwise disjoint |
| VerifyLeakage.PassedImpliesDatasetsClean | verify_fixed_dataset_leakage.py:133-143 | although `leaks` is reset before the mix section, a pass implies both datasets' splits are pairwise disjoint |
| VerifyLeakage.OutputImages | create_fixed_lmdbs.py:112-123 | a store written from crops with non-empty images is well formed and holds the k-th image, non-empty, at index k |
| VerifyLeakage.FingerprintsOfImages | verify_fixed_dataset_leakage.py:30-37 | hashing indices `1..k` of such a store yields exactly the digests of its first k images |
| VerifyLeakage.FingerprintsOfOutput | verify_fixed_dataset_leakage.py:30-37 | run on a store that `create_art_lmdb` wrote, the verifier hashes every index `1..n` and finds exactly the digests of the retained images |
| TotalTextParse.RemoveBrackets | tools/convert_totaltext.py:17 | `replace('[', '').replace(']', '')` leaves no bracket and never lengthens the text |
| TotalTextParse.RemoveBracketsAppend | tools/convert_totaltext.py:17 | bracket removal works piece by piece |
| TotalTextParse.ParseInt | tools/convert_totaltext.py:18 | `int(v)` succeeds exactly on an optional sign followed by digits, and is negative only after a minus |
| TotalTextParse.IntRoundTrip | tools/convert_totaltext.py:18 | `int(str(n)) == n` for every integer |
| TotalTextParse.ParseInts | tools/convert_totaltext.py:18 | the list comprehension succeeds exactly when every word is an integer, and gives each word's value in order |
| TotalTextParse.ParseIntsRoundTrip | tools/convert_totaltext.py:18 | the decimal texts of a list of integers read back as that list |
| TotalTextParse.DropQuoting | tools/convert_totaltext.py:35 | `trans_part[3:-2]` drops the first three and last two characters, and is empty on shorter text |
| TotalTextParse.ParseLine | tools/convert_totaltext.py:8-37 | raises (None) exactly when a key is missing or a coordinate is not an integer; x and y are the integers after the first `x: ` and `y: ` up to `]],`; the text is `literal_eval`'s first element, or the fallback when that fails |
| TotalTextParse.FormatX | tools/convert_totaltext.py:13-18 | the x list of a formatted annotation line reads back as its x coordinates |
| TotalTextParse.FormatY | tools/convert_totaltext.py:21-23 | the y list reads back as its y coordinates, although `x: ` occurs before it |
| TotalTextParse.FormatTrans | tools/convert_totaltext.py:27 | the transcription part of a formatted line is its quoted text |
| TotalTextParse.PointListValues | tools/convert_totaltext.py:17-18 | a point list `[[n1 n2 ...]]` reads back as its numbers |
| TotalTextParse.WordsJoinWords | tools/convert_totaltext.py:17 | `split()` of single-space-separated numbers gives back those numbers' words |
| TotalTextParse.CoordinatesAt | tools/convert_totaltext.py:13-18 | a key followed by a point list gives that list's numbers when the key does not occur earlier |
| TotalTextParse.CutTwice | tools/convert_totaltext.py:13 | the two successive `split(...)[0]` cuts stop at the first `]],` |
| TotalTextParse.TransPartAt | tools/convert_totaltext.py:27 | the text after `transcriptions: ` is the quoted transcription |
| TotalTextParse.ParseFormatRoundTrip | tools/convert_totaltext.py:8-37 | parsing a line in the Total-Text annotation format gives back its points and text, whenever `literal_eval` either fails or reads the quoted text correctly |
| ConvertTotalText.Clamp | tools/convert_totaltext.py:86-89 | the clamped region starts inside the image and ends within it, is never larger than the box, and lies fully inside the image when it is non-empty |
| ConvertTotalText.ClampInside | tools/convert_totaltext.py:86-89 | a box already inside the image is left unchanged |
| ConvertTotalText.ClampIdempotent | tools/convert_totaltext.py:86-89 | clamping twice is clamping once |
| ConvertTotalText.ClampKept | tools/convert_totaltext.py:86-92 | a crop survives clamping exactly when the box has positive size and its clamped origin lies within the image |
| ConvertTotalText.ClampMovesNegativeOrigin | tools/convert_totaltext.py:86-88 | a box with negative x is moved to x = 0 keeping its width, so its right edge moves right rather than being cut |
| ConvertTotalText.CropNameInjective | tools/convert_totaltext.py:97 | `<base>_<idx>.jpg` determines both the stem and the line index |
| ConvertTotalText.CropNameNoNewline | tools/convert_totaltext.py:97-105 | a crop name has no newline when the stem has none |
| ConvertTotalText.Zip | tools/convert_totaltext.py:78 | `zip(xs, ys)` pairs the coordinates up to the shorter list |
| ConvertTotalText.ParsedLine | tools/convert_totaltext.py:63-72 | a line yields an annotation only when it is not blank, and then the one `parse_line` gives for the stripped line |
| ConvertTotalText.CropFor | tools/convert_totaltext.py:74-97 | a crop that is kept is named after the stem and the line index, has a text that is neither `#` nor empty, and lies inside the image |
| ConvertTotalText.CropForKept | tools/convert_totaltext.py:74-92 | an annotation is kept exactly when its text is neither `#` nor empty and its clamped box is non-empty; the crop then has that text and box |
| ConvertTotalText.PlannedCropsStep | tools/convert_totaltext.py:63-105 | the crops of the first idx + 1 lines are those of the first idx lines followed by line idx's crop, if any |
| ConvertTotalText.PlannedCropsFromLines | tools/convert_totaltext.py:63-105 | every crop of an image lies inside it, has a text that is neither `#` nor empty, and comes from one of its lines |
| ConvertTotalText.PlannedCropsComplete | tools/convert_totaltext.py:63-105 | every line that gives a crop has that crop among the image's crops |
| ConvertTotalText.PlannedCropNamesDistinct | tools/convert_totaltext.py:63-97 | the crops of one image have pairwise distinct names, because the index counts every line, skipped ones included |
| ConvertTotalText.GtEntries | tools/convert_totaltext.py:105 | one ground-truth entry per crop, in order |
| ConvertTotalText.GtTextSnoc | tools/convert_totaltext.py:105 | a kept crop adds the line `<crop name> <text>\n` after what was written before |
| ConvertTotalText.GtTextAppend | tools/convert_totaltext.py:129-146 | the ground truth of two crop lists in turn is the one after the other |
| ConvertTotalText.GtTextLines | tools/convert_totaltext.py:105 | the ground-truth text is its entries, one per line |
| ConvertTotalText.GtLinePerCrop | tools/convert_totaltext.py:105 | with names and texts free of newlines, the file reads back as exactly one line `<crop name> <text>` per crop |
| ConvertTotalText.GtFile.constructor | tools/convert_totaltext.py:128 | opening the GT file with `'w'` starts it empty |
| ConvertTotalText.GtFile.Write | tools/convert_totaltext.py:105 | `gt_file.write` appends its text and changes nothing else |
| ConvertTotalText.Stem | tools/convert_totaltext.py:61 | `splitext(...)[0]` is a prefix of the name |
| ConvertTotalText.LastDot | tools/convert_totaltext.py:61 | finds the last dot of the name, or reports that there is none |
| ConvertTotalText.StemOfExtension | tools/convert_totaltext.py:138 | removing the extension of `s + ".ext"` gives `s` |
| ConvertTotalText.CropNamesCollideAcrossExtensions | tools/convert_totaltext.py:61-97 | two image names that differ only in their extension (`a.jpg`, `a.png`) are different names whose crops of the same line index get the same crop name |
| ConvertTotalText.CropAnnotation | tools/convert_totaltext.py:74-97 | the part of a pass after parsing skips ignored texts, clamps the box and skips an empty region, and so gives exactly the crop of the annotation |
| ConvertTotalText.CropLine | tools/convert_totaltext.py:63-97 | one pass of the loop gives exactly the crop that line's annotation yields, or none where the loop `continue`s |
| ConvertTotalText.CropAndSave | tools/convert_totaltext.py:39-105 | a missing or unreadable image or a missing annotation gives no crop and no GT line; otherwise the crops of the annotation lines, in line order, with exactly one GT line per crop appended |
| ConvertTotalText.ImageNames | tools/convert_totaltext.py:124 | keeps exactly the listed names that end in `.jpg`, `.png` or `.jpeg` in any letter case |
| ConvertTotalText.ImageNamesCount | tools/convert_totaltext.py:124 | the filter keeps every image name as often as it is listed, and drops every other name |
| ConvertTotalText.SelectImages | tools/convert_totaltext.py:124 | the images processed are exactly the listed image names, each as often as it is listed (a permutation of them), in sorted order |
| ConvertTotalText.SelectImagesOrderIndependent | tools/convert_totaltext.py:124 | the processing order does not depend on the order in which the directory is listed |
| ConvertTotalText.SortedUnique | tools/convert_totaltext.py:124 | two sorted lists of the same names are equal |
| ConvertTotalText.AnnotationNameOf | tools/convert_totaltext.py:138-140 | the annotation file of `<stem><ext>` is `poly_gt_<stem>.txt` for any extension with a single leading dot, so for every spelling the image filter accepts, in any letter case |
| ConvertTotalText.SubsetCropsStep | tools/convert_totaltext.py:129-146 | image k's crops come after those of the images before it |
| ConvertTotalText.ProcessImages | tools/convert_totaltext.py:129-146 | the loop over the images yields their crops in order, and the GT file gains their lines |
| ConvertTotalText.ProcessSubset | tools/convert_totaltext.py:107-146 | the subset's crops are those of its sorted image files in order, and the freshly opened GT file holds exactly their lines |

## Left out

- demo.py and evaluate_fixed_dataset.py are not part of this model. They are a
  web UI with model inference, and process orchestration.
- `create_totaltext_lmdb` (create_fixed_lmdbs.py:40-55) only prints and returns
  the length of its argument.
- All `main` functions' hard-coded paths, `os.makedirs`, and the symlink notes
  are left out. The stores, files and listings they lead to are parameters.
- `print` and `tqdm` output is left out.
- The LMDB library is left out: environments, `map_size`, transactions,
  locking and the read-only open flags. A store is a map from keys to bytes.
- MD5 is an uninterpreted function parameter. No property depends on its
  being collision-free.
- `cv2.imread`, `cv2.imwrite` and pixel slicing are left out. An image is its
  size, and a crop is its name, region and text.
- `cv2.boundingRect` is the parameter `bbox`. The model does not capture the
  error it raises on an empty point list.
- ConvertTotalText.Clamp: the `np.int32` point array is not modelled.
  Coordinates are unbounded integers, so an out-of-range coordinate does not
  raise.
- TotalTextParse.ParseLine: `ast.literal_eval(...)[0]` is the parameter
  `evalFirst` and always returns text. A transcription list whose first
  element is not a string is not modelled.
- TotalTextParse.ParseInt: `int()` is modelled on an optional sign and ASCII
  digits. Underscores between digits and non-ASCII digits are not accepted.
- SceneIdPattern.SceneId: `\d` is modelled as the ASCII digits. Python's `\d`
  on `str` also matches other Unicode decimal digits.
- RecordStore.BytesToText: `decode('utf-8')` is modelled as one character per
  byte. This agrees with UTF-8 on the ASCII text that the pattern can match,
  but the error raised on invalid UTF-8 is not modelled.
- ConvertTotalText.IsImageName: `lower()` is modelled on ASCII letters only.
- ConvertTotalText.CropAndSave: a UTF-8 decoding error in an annotation file
  is not modelled. The contents are given as text.
- CreateFixedLmdbs.CreateArtLmdb requires every existing source to hold a
  `num-samples` made of ASCII digits only (at least one). `int()` also accepts
  surrounding whitespace, a sign and underscores between digits; those
  spellings are not modelled, nor is a negative count, which gives an empty
  index range. The crash on a missing or malformed value is not modelled.
- VerifyLeakage.GetDatasetHashes requires a `num-samples` of ASCII digits only,
  as for CreateFixedLmdbs.CreateArtLmdb: whitespace, a sign, underscores and
  negative counts are not modelled. The
  try/except (verify_fixed_dataset_leakage.py:25-44), which returns partial
  results after an error, is not modelled.
- ConvertTotalText.PlannedCropNamesDistinct: crop names are distinct only
  within one image. Across a subset, `a.jpg` and `a.png` both give crops named
  `a_0.jpg`, ...; the second write overwrites the first on disk and the GT file
  lists that name twice (ConvertTotalText.CropNamesCollideAcrossExtensions).
  Crop files are not modelled as a directory, so the overwrite itself is not.
- ConvertTotalText.Stem: `os.path.basename` is not modelled. Image names are
  given without a directory part, as `os.listdir` returns them, and
  `os.path.join` is left out.
- ConvertTotalText.ProcessSubset: the GT file is a fresh `GtFile` object,
  which models opening it with `'w'` (truncation).
- Write failures and the destination's `map_size` limit are left out.
