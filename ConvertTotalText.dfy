/** `crop_and_save` and `process_subset` of tools/convert_totaltext.py: every
    annotated word of a Total-Text image becomes a crop file named after the
    image and the annotation line, and a line `<crop name> <text>` of the
    subset's ground-truth file. Image decoding, pixel slicing and
    `cv2.imwrite` are not modelled: an image is its size, and the crops are
    returned as the list of (name, rectangle, text) that would be written.
    `cv2.boundingRect` is the parameter `bbox`. */
module ConvertTotalText {
  import opened Wrappers
  import opened Numerals
  import opened Text
  import opened TotalTextParse

  /** `(x, y, w, h)` as `cv2.boundingRect` returns it, and the crop region after clamping. */
  datatype Rect = Rect(x: int, y: int, w: int, h: int)

  /** `img.shape[0]` and `img.shape[1]`: rows and columns of the decoded image. */
  datatype ImageSize = ImageSize(height: nat, width: nat)

  /** One crop that is saved: its file name, its region of the image, and its text. */
  datatype Crop = Crop(name: string, box: Rect, text: string)

  function Max(a: int, b: int): int { if a >= b then a else b }
  function Min(a: int, b: int): int { if a <= b then a else b }

  /** The region lies within the image and is not empty. */
  predicate Inside(r: Rect, size: ImageSize) {
    && 0 <= r.x && 0 <= r.y && 0 < r.w && 0 < r.h
    && r.x + r.w <= size.width && r.y + r.h <= size.height
  }

  // ---------------------------------------------------------------------
  // Clamping

  /** The clamping of `crop_and_save`: a negative origin is moved to 0, then
      the width and height are cut so the region ends inside the image. */
  function Clamp(r: Rect, size: ImageSize): (c: Rect)
    ensures c.x >= 0 && c.y >= 0
    ensures c.x + c.w <= size.width && c.y + c.h <= size.height
    ensures c.w <= r.w && c.h <= r.h
    ensures c.w > 0 && c.h > 0 ==> Inside(c, size)
  {
    var x := Max(0, r.x);
    var y := Max(0, r.y);
    Rect(x, y, Min(r.w, size.width - x), Min(r.h, size.height - y))
  }

  /** A region already inside the image is left as it is. */
  lemma ClampInside(r: Rect, size: ImageSize)
    requires Inside(r, size)
    ensures Clamp(r, size) == r
  {
  }

  /** Clamping twice is clamping once. */
  lemma ClampIdempotent(r: Rect, size: ImageSize)
    ensures Clamp(Clamp(r, size), size) == Clamp(r, size)
  {
  }

  /** A crop survives clamping exactly when the box has positive size and its
      (moved) origin lies inside the image. */
  lemma ClampKept(r: Rect, size: ImageSize)
    ensures (Clamp(r, size).w > 0 && Clamp(r, size).h > 0) <==>
      (r.w > 0 && r.h > 0 && Max(0, r.x) < size.width && Max(0, r.y) < size.height)
  {
  }

  /** A box that starts left of the image is moved, not trimmed: it keeps its
      width, so the crop covers columns the box did not. */
  lemma ClampMovesNegativeOrigin(r: Rect, size: ImageSize)
    requires r.x < 0 && 0 < r.w <= size.width
    ensures Clamp(r, size).x == 0 && Clamp(r, size).w == r.w
    ensures Clamp(r, size).x + Clamp(r, size).w > r.x + r.w
  {
  }

  // ---------------------------------------------------------------------
  // Crop names

  /** `f"{base_name}_{idx}.jpg"`. */
  function CropName(base: string, idx: nat): string {
    base + "_" + Decimal(idx) + ".jpg"
  }

  /** Different images (by stem) or different lines never give the same crop name. */
  lemma CropNameInjective(b1: string, i: nat, b2: string, j: nat)
    requires CropName(b1, i) == CropName(b2, j)
    ensures b1 == b2 && i == j
  {
    var s := CropName(b1, i);
    var d1, d2 := Decimal(i), Decimal(j);
    var t := b1 + "_" + d1;
    assert s == t + ".jpg" && s == (b2 + "_" + d2) + ".jpg";
    assert t == s[..|s| - 4] == b2 + "_" + d2;
    // The first '_' after the shorter stem would fall inside the other's digits.
    assert |b1| == |b2| by {
      assert t[|b1|] == '_' && t[|b2|] == '_';
    }
    assert b1 == t[..|b1|] == b2;
    assert d1 == t[|b1| + 1..] == d2;
    DecimalInjective(i, j);
  }

  lemma CropNameNoNewline(base: string, idx: nat)
    requires NoNewline(base)
    ensures NoNewline(CropName(base, idx))
  {
    var d := Decimal(idx);
    assert forall i :: 0 <= i < |d| ==> d[i] != '\n';
  }

  // ---------------------------------------------------------------------
  // One annotation line

  /** `list(zip(xs, ys))`: pairs up to the shorter list. */
  function Zip(xs: seq<int>, ys: seq<int>): (ps: seq<(int, int)>)
    ensures |ps| == Min(|xs|, |ys|)
    ensures forall k :: 0 <= k < |ps| ==> ps[k] == (xs[k], ys[k])
  {
    seq(Min(|xs|, |ys|), k requires 0 <= k < Min(|xs|, |ys|) => (xs[k], ys[k]))
  }

  /** A line of an annotation file after `line.strip()` and `parse_line`:
      None when the line is blank or `parse_line` raises. */
  function ParsedLine(line: string, evalFirst: string -> Option<string>): (p: Option<Annotation>)
    ensures p.Some? ==> Strip(line) != [] && p == ParseLine(Strip(line), evalFirst)
  {
    var t := Strip(line);
    if t == [] then None else ParseLine(t, evalFirst)
  }

  /** The annotation lines of a file, each parsed on its own. */
  function ParsedLines(lines: seq<string>, evalFirst: string -> Option<string>): (ps: seq<Option<Annotation>>)
    ensures |ps| == |lines|
  {
    seq(|lines|, k requires 0 <= k < |lines| => ParsedLine(lines[k], evalFirst))
  }

  /** The crop that the annotation on line `idx` gives, or None when it is
      skipped: there is no annotation, its text is `#` or empty, or the
      clamped region is empty. */
  function CropFor(idx: nat, p: Option<Annotation>, base: string, size: ImageSize,
                   bbox: seq<(int, int)> -> Rect): (r: Option<Crop>)
    ensures r.Some? ==>
      && r.value.name == CropName(base, idx)
      && r.value.text != "#" && r.value.text != ""
      && Inside(r.value.box, size)
  {
    match p
    case None => None
    case Some(a) =>
      if a.text == "#" || a.text == [] then None
      else
        var c := Clamp(bbox(Zip(a.xs, a.ys)), size);
        if c.w <= 0 || c.h <= 0 then None
        else Some(Crop(CropName(base, idx), c, a.text))
  }

  /** An annotation gives a crop exactly when its text is neither `#` nor
      empty and its box keeps a positive size after clamping; the crop then
      carries the annotation's text and the clamped box. */
  lemma CropForKept(idx: nat, a: Annotation, base: string, size: ImageSize, bbox: seq<(int, int)> -> Rect)
    ensures var r := CropFor(idx, Some(a), base, size, bbox);
      var c := Clamp(bbox(Zip(a.xs, a.ys)), size);
      && (r.Some? <==> a.text != "#" && a.text != "" && c.w > 0 && c.h > 0)
      && (r.Some? ==> r.value.text == a.text && r.value.box == c)
  {
  }

  function Opt(r: Option<Crop>): seq<Crop> {
    if r.Some? then [r.value] else []
  }

  /** The crops of one image, in line order: the annotation on line `idx`
      contributes its crop, if any. */
  function PlannedCrops(anns: seq<Option<Annotation>>, base: string, size: ImageSize,
                        bbox: seq<(int, int)> -> Rect): seq<Crop>
  {
    if anns == [] then []
    else
      var n := |anns| - 1;
      PlannedCrops(anns[..n], base, size, bbox) + Opt(CropFor(n, anns[n], base, size, bbox))
  }

  lemma PlannedCropsStep(anns: seq<Option<Annotation>>, idx: nat, base: string, size: ImageSize,
                         bbox: seq<(int, int)> -> Rect)
    requires idx < |anns|
    ensures PlannedCrops(anns[..idx + 1], base, size, bbox)
      == PlannedCrops(anns[..idx], base, size, bbox) + Opt(CropFor(idx, anns[idx], base, size, bbox))
  {
    assert anns[..idx + 1][..idx] == anns[..idx];
  }

  /** Every crop of an image comes from one of its lines: it is named after
      that line's position, lies inside the image and has a real text. */
  lemma {:induction false} PlannedCropsFromLines(anns: seq<Option<Annotation>>, base: string, size: ImageSize,
                                                 bbox: seq<(int, int)> -> Rect)
    ensures forall c :: c in PlannedCrops(anns, base, size, bbox) ==>
      && Inside(c.box, size) && c.text != "#" && c.text != ""
      && exists idx :: 0 <= idx < |anns| && CropFor(idx, anns[idx], base, size, bbox) == Some(c)
  {
    if anns != [] {
      var n := |anns| - 1;
      var prev := anns[..n];
      PlannedCropsFromLines(prev, base, size, bbox);
      forall c | c in PlannedCrops(anns, base, size, bbox)
        ensures exists idx :: 0 <= idx < |anns| && CropFor(idx, anns[idx], base, size, bbox) == Some(c)
      {
        if c in PlannedCrops(prev, base, size, bbox) {
          var idx :| 0 <= idx < |prev| && CropFor(idx, prev[idx], base, size, bbox) == Some(c);
          assert prev[idx] == anns[idx];
        } else {
          assert CropFor(n, anns[n], base, size, bbox) == Some(c);
        }
      }
    }
  }

  /** Every line that is not skipped gives a crop. */
  lemma {:induction false} PlannedCropsComplete(anns: seq<Option<Annotation>>, base: string, size: ImageSize,
                                                bbox: seq<(int, int)> -> Rect, idx: nat)
    requires idx < |anns| && CropFor(idx, anns[idx], base, size, bbox).Some?
    ensures CropFor(idx, anns[idx], base, size, bbox).value in PlannedCrops(anns, base, size, bbox)
  {
    var n := |anns| - 1;
    if idx < n {
      assert anns[..n][idx] == anns[idx];
      PlannedCropsComplete(anns[..n], base, size, bbox, idx);
    }
  }

  predicate NamesDistinct(cs: seq<Crop>) {
    forall a, b :: 0 <= a < b < |cs| ==> cs[a].name != cs[b].name
  }

  /** The crops of one image have pairwise different names, so none
      overwrites another: each is named after a different line. */
  lemma {:induction false} PlannedCropNamesDistinct(anns: seq<Option<Annotation>>, base: string, size: ImageSize,
                                                    bbox: seq<(int, int)> -> Rect)
    ensures NamesDistinct(PlannedCrops(anns, base, size, bbox))
  {
    if anns != [] {
      var n := |anns| - 1;
      var prev := anns[..n];
      var ps := PlannedCrops(prev, base, size, bbox);
      var cs := PlannedCrops(anns, base, size, bbox);
      PlannedCropNamesDistinct(prev, base, size, bbox);
      PlannedCropsFromLines(prev, base, size, bbox);
      var last := CropFor(n, anns[n], base, size, bbox);
      assert cs == ps + Opt(last);
      forall a, b | 0 <= a < b < |cs| ensures cs[a].name != cs[b].name {
        if b >= |ps| {
          assert last.Some? && cs[b] == last.value;
          assert cs[b].name == CropName(base, n);
          assert cs[a] == ps[a] && ps[a] in ps;
          var idx :| 0 <= idx < |prev| && CropFor(idx, prev[idx], base, size, bbox) == Some(ps[a]);
          assert cs[a].name == CropName(base, idx);
          if cs[a].name == cs[b].name {
            CropNameInjective(base, idx, base, n);
          }
        } else {
          assert cs[a] == ps[a] && cs[b] == ps[b];
        }
      }
    }
  }

  // ---------------------------------------------------------------------
  // The ground-truth file

  /** The GT line of a crop, without its newline. */
  function GtEntry(c: Crop): string {
    c.name + " " + c.text
  }

  function GtEntries(crops: seq<Crop>): (es: seq<string>)
    ensures |es| == |crops| && forall k :: 0 <= k < |crops| ==> es[k] == GtEntry(crops[k])
  {
    seq(|crops|, k requires 0 <= k < |crops| => GtEntry(crops[k]))
  }

  /** What the GT file receives for `crops`: `<name> <text>\n` for each, in order. */
  function GtText(crops: seq<Crop>): string {
    if crops == [] then [] else GtText(crops[..|crops| - 1]) + GtEntry(crops[|crops| - 1]) + "\n"
  }

  lemma GtTextSnoc(crops: seq<Crop>, c: Crop)
    ensures GtText(crops + [c]) == GtText(crops) + (c.name + " " + c.text + "\n")
  {
    assert (crops + [c])[..|crops|] == crops;
  }

  lemma AppendAssoc(a: string, b: string, c: string)
    ensures (a + b) + c == a + (b + c)
  {
  }

  /** Writing the crops of one image after those of another. */
  lemma {:induction false} GtTextAppend(a: seq<Crop>, b: seq<Crop>)
    ensures GtText(a + b) == GtText(a) + GtText(b)
    decreases |b|
  {
    if b == [] {
      assert a + b == a;
    } else {
      var n := |b| - 1;
      assert (a + b)[..|a + b| - 1] == a + b[..n];
      GtTextAppend(a, b[..n]);
    }
  }

  /** The GT text is the crops' entries written one per line. */
  lemma {:induction false} GtTextLines(crops: seq<Crop>)
    ensures GtText(crops) == JoinLines(GtEntries(crops))
    decreases |crops|
  {
    if crops != [] {
      var n := |crops| - 1;
      GtTextLines(crops[..n]);
      assert GtEntries(crops) == GtEntries(crops[..n]) + [GtEntry(crops[n])];
      JoinLinesSnoc(GtEntries(crops[..n]), GtEntry(crops[n]));
    }
  }

  /** Each crop adds exactly one line to the GT file, when neither its name
      nor its text holds a newline. */
  lemma GtLinePerCrop(crops: seq<Crop>)
    requires forall k :: 0 <= k < |crops| ==> NoNewline(crops[k].name) && NoNewline(crops[k].text)
    ensures |Lines(GtText(crops))| == |crops|
    ensures forall k :: 0 <= k < |crops| ==> Lines(GtText(crops))[k] == crops[k].name + " " + crops[k].text + "\n"
  {
    var es := GtEntries(crops);
    forall k | 0 <= k < |es| ensures NoNewline(es[k]) {
      var e := es[k];
      assert e == crops[k].name + " " + crops[k].text;
      forall i | 0 <= i < |e| ensures e[i] != '\n' {
        if i < |crops[k].name| {
          assert e[i] == crops[k].name[i];
        } else if i > |crops[k].name| {
          assert e[i] == crops[k].text[i - |crops[k].name| - 1];
        }
      }
    }
    JoinLinesLines(es);
    GtTextLines(crops);
  }

  /** The ground-truth file as `crop_and_save` writes to it. */
  class GtFile {
    var text: string

    constructor ()
      ensures text == []
    {
      text := [];
    }

    /** `gt_file.write(s)`. */
    method Write(s: string)
      modifies this
      ensures text == old(text) + s
    {
      text := text + s;
    }
  }

  // ---------------------------------------------------------------------
  // crop_and_save

  /** `os.path.splitext(name)[0]` for a file name without a directory part:
      the name up to its last dot, unless only dots come before that dot. */
  function Stem(name: string): (r: string)
    ensures |r| <= |name| && r == name[..|r|]
  {
    match LastDot(name, |name|)
    case None => name
    case Some(k) => if exists i :: 0 <= i < k && name[i] != '.' then name[..k] else name
  }

  /** The position of the last '.' before `end`. */
  function LastDot(name: string, end: nat): (r: Option<nat>)
    requires end <= |name|
    ensures r.Some? ==> r.value < end && name[r.value] == '.' && forall i :: r.value < i < end ==> name[i] != '.'
    ensures r.None? ==> forall i :: 0 <= i < end ==> name[i] != '.'
  {
    if end == 0 then None
    else if name[end - 1] == '.' then Some(end - 1)
    else LastDot(name, end - 1)
  }

  /** Dropping an extension: the stem of `s + ext` is `s` when `ext` is a dot
      followed by no other dot, and `s` has a character that is not a dot. */
  lemma StemOfExtension(s: string, ext: string)
    requires ext != [] && ext[0] == '.' && forall i :: 1 <= i < |ext| ==> ext[i] != '.'
    requires exists i :: 0 <= i < |s| && s[i] != '.'
    ensures Stem(s + ext) == s
  {
    var name := s + ext;
    var k := LastDot(name, |name|);
    assert name[|s|] == '.';
    assert forall m :: |s| < m < |name| ==> name[m] == ext[m - |s|];
    assert k == Some(|s|);
    var i :| 0 <= i < |s| && s[i] != '.';
    assert name[i] == s[i];
    assert name[..|s|] == s;
  }

  /** Crop names are distinct only within one image: two listed images that
      differ only in their extension, such as `a.jpg` and `a.png`, have the
      same stem, so their crops of the same line index share one name and the
      later file overwrites the earlier one. */
  lemma CropNamesCollideAcrossExtensions(s: string, e1: string, e2: string, idx: nat)
    requires e1 != [] && e1[0] == '.' && forall i :: 1 <= i < |e1| ==> e1[i] != '.'
    requires e2 != [] && e2[0] == '.' && forall i :: 1 <= i < |e2| ==> e2[i] != '.'
    requires exists i :: 0 <= i < |s| && s[i] != '.'
    ensures s + e1 == s + e2 <==> e1 == e2
    ensures CropName(Stem(s + e1), idx) == CropName(Stem(s + e2), idx)
  {
    StemOfExtension(s, e1);
    StemOfExtension(s, e2);
    if s + e1 == s + e2 {
      assert e1 == (s + e1)[|s|..] == (s + e2)[|s|..] == e2;
    }
  }

  /** One pass of the loop over the annotation lines of `crop_and_save`:
      the crop that line `idx` gives, or None where the loop `continue`s.
      `anns` is the ghost record of what every line parses to. */
  method CropLine(idx: nat, lines: seq<string>, ghost anns: seq<Option<Annotation>>, baseName: string,
                  size: ImageSize, bbox: seq<(int, int)> -> Rect, evalFirst: string -> Option<string>)
    returns (crop: Option<Crop>)
    requires idx < |lines| && anns == ParsedLines(lines, evalFirst)
    ensures crop == CropFor(idx, anns[idx], baseName, size, bbox)
  {
    assert anns[idx] == ParsedLine(lines[idx], evalFirst);
    var line := Strip(lines[idx]);
    if line == [] {
      return None;
    }
    var parsed := ParseLine(line, evalFirst);
    if parsed.None? {
      return None;
    }
    crop := CropAnnotation(idx, parsed.value, baseName, size, bbox);
  }

  /** The rest of that pass once the line has parsed: skip the ignored texts,
      clamp the bounding box, skip an empty region, name the crop. */
  method CropAnnotation(idx: nat, a: Annotation, baseName: string, size: ImageSize, bbox: seq<(int, int)> -> Rect)
    returns (crop: Option<Crop>)
    ensures crop == CropFor(idx, Some(a), baseName, size, bbox)
  {
    var Annotation(xs, ys, text) := a;
    if text == "#" || text == [] {
      return None;
    }
    var rect := bbox(Zip(xs, ys));
    var x, y, w, h := rect.x, rect.y, rect.w, rect.h;
    x := Max(0, x);
    y := Max(0, y);
    w := Min(w, size.width - x);
    h := Min(h, size.height - y);
    if w <= 0 || h <= 0 {
      return None;
    }
    var cropName := baseName + "_" + Decimal(idx) + ".jpg";
    return Some(Crop(cropName, Rect(x, y, w, h), text));
  }

  /** `crop_and_save(image_path, annotation_path, output_dir, gt_file)`.
      `image` is the decoded image's size, None when the file is missing or
      cannot be read; `annotation` is the annotation file's contents, None
      when it is missing; `imgName` is the image's file name. */
  method CropAndSave(image: Option<ImageSize>, annotation: Option<string>, imgName: string, gt: GtFile,
                     bbox: seq<(int, int)> -> Rect, evalFirst: string -> Option<string>)
    returns (crops: seq<Crop>)
    modifies gt
    ensures image.None? || annotation.None? ==> crops == []
    ensures image.Some? && annotation.Some? ==>
      crops == PlannedCrops(ParsedLines(FileLines(annotation.value), evalFirst), Stem(imgName), image.value, bbox)
    ensures gt.text == old(gt.text) + GtText(crops)
  {
    crops := [];
    if image.None? {
      return;
    }
    var size := image.value;
    if annotation.None? {
      return;
    }
    var lines := FileLines(annotation.value);
    ghost var anns := ParsedLines(lines, evalFirst);
    var baseName := Stem(imgName);
    for idx := 0 to |lines|
      invariant crops == PlannedCrops(anns[..idx], baseName, size, bbox)
      invariant gt.text == old(gt.text) + GtText(crops)
    {
      PlannedCropsStep(anns, idx, baseName, size, bbox);
      var crop := CropLine(idx, lines, anns, baseName, size, bbox, evalFirst);
      if crop.Some? {
        var Crop(cropName, _, text) := crop.value;
        var entry := cropName + " " + text + "\n";
        GtTextSnoc(crops, crop.value);
        AppendAssoc(old(gt.text), GtText(crops), entry);
        crops := crops + [crop.value];
        gt.Write(entry);
      }
    }
    assert anns[..|lines|] == anns;
  }

  // ---------------------------------------------------------------------
  // process_subset

  /** `f.lower().endswith(('.jpg', '.png', '.jpeg'))`. */
  predicate IsImageName(f: string) {
    var l := AsciiLower(f);
    EndsWith(l, ".jpg") || EndsWith(l, ".png") || EndsWith(l, ".jpeg")
  }

  /** The image names of a directory listing, in listing order. */
  function ImageNames(listing: seq<string>): (r: seq<string>)
    ensures forall f :: f in r <==> f in listing && IsImageName(f)
  {
    if listing == [] then []
    else
      var n := |listing| - 1;
      var prev := ImageNames(listing[..n]);
      assert forall f :: f in listing <==> f in listing[..n] || f == listing[n] by {
        assert listing == listing[..n] + [listing[n]];
      }
      prev + (if IsImageName(listing[n]) then [listing[n]] else [])
  }

  /** How often each name occurs among the image names. */
  lemma {:induction false} ImageNamesCount(listing: seq<string>, f: string)
    ensures multiset(ImageNames(listing))[f] == if IsImageName(f) then multiset(listing)[f] else 0
  {
    if listing != [] {
      var n := |listing| - 1;
      ImageNamesCount(listing[..n], f);
      assert listing == listing[..n] + [listing[n]];
    }
  }

  /** `sorted([f for f in os.listdir(img_dir) if ...])`. */
  function SelectImages(listing: seq<string>): (r: seq<string>)
    ensures Sorted(r)
    ensures multiset(r) == multiset(ImageNames(listing))
    ensures forall f :: f in r <==> f in listing && IsImageName(f)
  {
    var names := ImageNames(listing);
    var r := Sort(names);
    assert forall f :: f in r <==> f in names by {
      forall f ensures f in r <==> f in names {
        assert f in r <==> f in multiset(r);
        assert f in names <==> f in multiset(names);
      }
    }
    r
  }

  /** The order in which the directory is listed does not matter: the images
      are processed in the same order for any listing of the same names. */
  lemma SelectImagesOrderIndependent(l1: seq<string>, l2: seq<string>)
    requires multiset(l1) == multiset(l2)
    ensures SelectImages(l1) == SelectImages(l2)
  {
    var n1, n2 := ImageNames(l1), ImageNames(l2);
    forall f ensures multiset(n1)[f] == multiset(n2)[f] {
      ImageNamesCount(l1, f);
      ImageNamesCount(l2, f);
    }
    assert multiset(n1) == multiset(n2);
    SortedUnique(Sort(n1), Sort(n2));
  }

  /** Two sorted lists with the same elements are the same list. */
  lemma {:induction false} SortedUnique(a: seq<string>, b: seq<string>)
    requires Sorted(a) && Sorted(b) && multiset(a) == multiset(b)
    ensures a == b
    decreases |a|
  {
    if a == [] {
      assert |multiset(b)| == 0;
    } else {
      assert b != [] by {
        assert a[0] in multiset(b);
      }
      SortedSameFirst(a, b);
      TailMultiset(a, b);
      SortedTail(a);
      SortedTail(b);
      SortedUnique(a[1..], b[1..]);
      assert a == [a[0]] + a[1..] && b == [b[0]] + b[1..];
    }
  }

  /** Sorted lists with the same elements start with the same one: the least. */
  lemma SortedSameFirst(a: seq<string>, b: seq<string>)
    requires Sorted(a) && Sorted(b) && multiset(a) == multiset(b) && a != [] && b != []
    ensures a[0] == b[0]
  {
    assert a[0] in multiset(b) && b[0] in multiset(a);
    var i :| 0 <= i < |a| && a[i] == b[0];
    var j :| 0 <= j < |b| && b[j] == a[0];
    SortedFirstLeast(a, i);
    SortedFirstLeast(b, j);
    LexLeAntisymmetric(a[0], b[0]);
  }

  lemma TailMultiset(a: seq<string>, b: seq<string>)
    requires multiset(a) == multiset(b) && a != [] && b != [] && a[0] == b[0]
    ensures multiset(a[1..]) == multiset(b[1..])
  {
    assert a == [a[0]] + a[1..] && b == [b[0]] + b[1..];
    assert multiset(a[1..]) == multiset(a) - multiset{a[0]};
    assert multiset(b[1..]) == multiset(b) - multiset{b[0]};
  }

  lemma SortedTail(s: seq<string>)
    requires Sorted(s) && s != []
    ensures Sorted(s[1..])
  {
    forall i | 0 < i < |s| - 1 ensures LexLe(s[1..][i - 1], s[1..][i]) {
      assert s[1..][i - 1] == s[i] && s[1..][i] == s[i + 1];
    }
  }

  /** The first element of a sorted list is at most every element. */
  lemma {:induction false} SortedFirstLeast(s: seq<string>, i: nat)
    requires Sorted(s) && i < |s|
    ensures LexLe(s[0], s[i])
  {
    if i == 0 {
      LexLeReflexive(s[0]);
    } else {
      SortedFirstLeast(s, i - 1);
      LexLeTransitive(s[0], s[i - 1], s[i]);
    }
  }

  /** `f"poly_gt_{name_part}.txt"`: the annotation file of an image. */
  function AnnotationName(imgFile: string): string {
    "poly_gt_" + Stem(imgFile) + ".txt"
  }

  /** The annotation of `img<N><ext>` is `poly_gt_img<N>.txt` for any extension
      with a single dot, so for every spelling, in any letter case, that the
      image filter accepts. */
  lemma AnnotationNameOf(s: string, ext: string)
    requires ext != [] && ext[0] == '.' && forall i :: 1 <= i < |ext| ==> ext[i] != '.'
    requires exists i :: 0 <= i < |s| && s[i] != '.'
    ensures AnnotationName(s + ext) == "poly_gt_" + s + ".txt"
  {
    StemOfExtension(s, ext);
  }

  /** The crops of the images `files`, in order, for the decoded images and
      annotation files that exist. */
  function SubsetCrops(files: seq<string>, images: map<string, ImageSize>, annotations: map<string, string>,
                       bbox: seq<(int, int)> -> Rect, evalFirst: string -> Option<string>): seq<Crop>
  {
    if files == [] then []
    else
      var n := |files| - 1;
      var f := files[n];
      SubsetCrops(files[..n], images, annotations, bbox, evalFirst) + ImageCrops(f, images, annotations, bbox, evalFirst)
  }

  /** The crops of one image file: none when it does not decode or has no
      annotation file. */
  function ImageCrops(f: string, images: map<string, ImageSize>, annotations: map<string, string>,
                      bbox: seq<(int, int)> -> Rect, evalFirst: string -> Option<string>): seq<Crop>
  {
    if f in images && AnnotationName(f) in annotations
    then PlannedCrops(ParsedLines(FileLines(annotations[AnnotationName(f)]), evalFirst), Stem(f), images[f], bbox)
    else []
  }

  /** `process_subset(subset_name, data_root, output_root)`: `listing` is
      `os.listdir` of the image directory, `images` the images that decode
      (by file name), `annotations` the annotation directory (file name to
      contents). The GT file is created afresh (opened for writing), so it
      ends up holding exactly the lines of this subset's crops. */
  method ProcessSubset(listing: seq<string>, images: map<string, ImageSize>, annotations: map<string, string>,
                       bbox: seq<(int, int)> -> Rect, evalFirst: string -> Option<string>)
    returns (crops: seq<Crop>, gt: GtFile)
    ensures fresh(gt)
    ensures crops == SubsetCrops(SelectImages(listing), images, annotations, bbox, evalFirst)
    ensures gt.text == GtText(crops)
  {
    var files := SelectImages(listing);
    gt := new GtFile();
    crops := ProcessImages(files, images, annotations, gt, bbox, evalFirst);
  }

  /** The loop of `process_subset`: `crop_and_save` for each image file in
      turn, all writing to the one GT file. */
  method ProcessImages(files: seq<string>, images: map<string, ImageSize>, annotations: map<string, string>,
                       gt: GtFile, bbox: seq<(int, int)> -> Rect, evalFirst: string -> Option<string>)
    returns (crops: seq<Crop>)
    modifies gt
    ensures crops == SubsetCrops(files, images, annotations, bbox, evalFirst)
    ensures gt.text == old(gt.text) + GtText(crops)
  {
    crops := [];
    for k := 0 to |files|
      invariant crops == SubsetCrops(files[..k], images, annotations, bbox, evalFirst)
      invariant gt.text == old(gt.text) + GtText(crops)
    {
      SubsetCropsStep(files, k, images, annotations, bbox, evalFirst);
      var imgFile := files[k];
      var image := if imgFile in images then Some(images[imgFile]) else None;
      var annoFile := AnnotationName(imgFile);
      var annotation := if annoFile in annotations then Some(annotations[annoFile]) else None;
      var more := CropAndSave(image, annotation, imgFile, gt, bbox, evalFirst);
      GtTextAppend(crops, more);
      AppendAssoc(old(gt.text), GtText(crops), GtText(more));
      crops := crops + more;
    }
    assert files[..|files|] == files;
  }

  lemma SubsetCropsStep(files: seq<string>, k: nat, images: map<string, ImageSize>, annotations: map<string, string>,
                        bbox: seq<(int, int)> -> Rect, evalFirst: string -> Option<string>)
    requires k < |files|
    ensures SubsetCrops(files[..k + 1], images, annotations, bbox, evalFirst)
      == SubsetCrops(files[..k], images, annotations, bbox, evalFirst) + ImageCrops(files[k], images, annotations, bbox, evalFirst)
  {
    assert files[..k + 1][..k] == files[..k];
  }
}
