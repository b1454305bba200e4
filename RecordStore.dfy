/** An LMDB environment as the two scripts use it: a map from string keys to
    byte values, with per-sample keys `image-%09d`, `label-%09d`,
    `imagepath-%09d` and one `num-samples` entry holding the count as
    ASCII decimal text. */
module RecordStore {
  import opened Wrappers
  import opened Numerals

  type Byte = b: int | 0 <= b < 256
  type Bytes = seq<Byte>

  /** The key/value pairs of one store. */
  type Entries = map<string, Bytes>

  const NumSamplesKey: string := "num-samples"

  function ImageKey(i: nat): string { "image-" + Pad9(i) }
  function LabelKey(i: nat): string { "label-" + Pad9(i) }
  function PathKey(i: nat): string { "imagepath-" + Pad9(i) }

  /** `txn.get(key)`: the stored value, or None when the key is absent. */
  function Get(db: Entries, key: string): (r: Option<Bytes>)
    ensures r.Some? <==> key in db
    ensures r.Some? ==> r.value == db[key]
  {
    if key in db then Some(db[key]) else None
  }

  /** Python truthiness of `txn.get(key)`: the key is present and its value is not empty. */
  predicate HasValue(db: Entries, key: string) {
    key in db && |db[key]| > 0
  }

  /** `value.decode(...)` on the ASCII and Latin-1 range: one character per byte. */
  function BytesToText(b: Bytes): (s: string)
    ensures |s| == |b| && forall i :: 0 <= i < |b| ==> s[i] as int == b[i]
  {
    seq(|b|, i requires 0 <= i < |b| => b[i] as char)
  }

  /** `text.encode()` for text whose characters are all below 256. */
  function TextToBytes(s: string): (b: Bytes)
    requires forall i :: 0 <= i < |s| ==> s[i] as int < 256
    ensures |b| == |s| && BytesToText(b) == s
  {
    seq(|s|, i requires 0 <= i < |s| => s[i] as int)
  }

  /** `str(n).encode()`, the value written under `num-samples`. */
  function CountValue(n: nat): Bytes {
    TextToBytes(Decimal(n))
  }

  /** The store has a `num-samples` entry that `int(...)` reads as a natural number. */
  predicate WellFormed(db: Entries) {
    NumSamplesKey in db && |db[NumSamplesKey]| > 0 && AllDigits(BytesToText(db[NumSamplesKey]))
  }

  /** `int(txn.get('num-samples'))`. */
  function DeclaredCount(db: Entries): nat
    requires WellFormed(db)
  {
    ParseDigits(BytesToText(db[NumSamplesKey]))
  }

  /** Writing `str(n)` under `num-samples` makes any store well formed with declared count `n`. */
  lemma CountRoundTrip(db: Entries, n: nat)
    requires NumSamplesKey in db && db[NumSamplesKey] == CountValue(n)
    ensures WellFormed(db) && DeclaredCount(db) == n
  {
    DecimalRoundTrip(n);
  }

  /** The first `|p|` characters of `p + Pad9(i)` are `p`, and the rest are digits. */
  lemma KeyParts(p: string, i: nat)
    ensures (p + Pad9(i))[..|p|] == p && (p + Pad9(i))[|p|..] == Pad9(i)
  {
  }

  /** No two writes of the scripts' key scheme collide: keys of different
      kinds never coincide, and keys of one kind coincide only for equal
      indices (for every index, not only those below 10^9). */
  lemma {:induction false} KeysDistinct(i: nat, j: nat)
    ensures ImageKey(i) == ImageKey(j) ==> i == j
    ensures LabelKey(i) == LabelKey(j) ==> i == j
    ensures PathKey(i) == PathKey(j) ==> i == j
    ensures ImageKey(i) != LabelKey(j) && ImageKey(i) != PathKey(j) && LabelKey(i) != PathKey(j)
    ensures ImageKey(i) != NumSamplesKey && LabelKey(i) != NumSamplesKey && PathKey(i) != NumSamplesKey
  {
    KeyParts("image-", i);
    KeyParts("image-", j);
    KeyParts("label-", i);
    KeyParts("label-", j);
    KeyParts("imagepath-", i);
    KeyParts("imagepath-", j);
    Pad9Injective(i, j);
    assert ImageKey(i)[5] == '-' && PathKey(j)[5] == 'p';
    assert ImageKey(i)[0] == 'i' && LabelKey(j)[0] == 'l';
    assert LabelKey(i)[0] == 'l' && PathKey(j)[0] == 'i';
    assert NumSamplesKey[0] == 'n' && |NumSamplesKey| == 11;
    assert |ImageKey(i)| >= 15 && |LabelKey(i)| >= 15 && |PathKey(i)| >= 19;
  }

  /** A store open for writing: `txn.put` replaces or adds one entry. */
  class Store {
    var entries: Entries

    constructor (initial: Entries)
      ensures entries == initial
    {
      entries := initial;
    }

    /** `txn_out.put(key, value)`. */
    method Put(key: string, value: Bytes)
      modifies this
      ensures entries == old(entries)[key := value]
    {
      entries := entries[key := value];
    }
  }
}
