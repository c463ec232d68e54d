// Byte strings: slicing as the source's language does it, and fixed-width
// big-endian lengths.

module ByteStrings {

  type Byte = b: int | 0 <= b < 256
  type Bytes = seq<Byte>

  function Pow256(width: nat): (p: nat)
    ensures p >= 1
  {
    if width == 0 then 1 else 256 * Pow256(width - 1)
  }

  /** n as exactly width bytes, most significant first. */
  function BigEndian(n: nat, width: nat): (b: Bytes)
    requires n < Pow256(width)
    ensures |b| == width
  {
    if width == 0 then [] else BigEndian(n / 256, width - 1) + [n % 256]
  }

  /** The number a byte string of any length denotes; the empty string denotes 0. */
  function FromBigEndian(b: Bytes): nat {
    if b == [] then 0 else FromBigEndian(b[..|b| - 1]) * 256 + b[|b| - 1]
  }

  lemma {:induction false} BigEndianRoundTrip(n: nat, width: nat)
    requires n < Pow256(width)
    ensures FromBigEndian(BigEndian(n, width)) == n
  {
    if width > 0 {
      BigEndianRoundTrip(n / 256, width - 1);
      var b := BigEndian(n, width);
      assert b[..|b| - 1] == BigEndian(n / 256, width - 1);
    }
  }

  /** The more significant byte comes first. */
  lemma TwoBytes(n: nat)
    requires n < 0x1_0000
    ensures Pow256(2) == 0x1_0000 && BigEndian(n, 2) == [n / 256, n % 256]
  {
    Widths();
    assert BigEndian(n / 256, 1) == BigEndian(n / 256 / 256, 0) + [n / 256 % 256];
  }

  lemma Widths()
    ensures Pow256(1) == 0x100
    ensures Pow256(2) == 0x1_0000
    ensures Pow256(4) == 0x1_0000_0000
    ensures Pow256(8) == 0x1_0000_0000_0000_0000
  {
    assert Pow256(2) == 256 * Pow256(1) && Pow256(3) == 256 * Pow256(2) && Pow256(4) == 256 * Pow256(3);
    assert Pow256(6) == 0x1_0000 * Pow256(4) by { assert Pow256(5) == 256 * Pow256(4); }
    assert Pow256(7) == 256 * Pow256(6);
  }

  /** data[from:to]: a slice reaching past the end is cut short, never an error. */
  function Slice(data: Bytes, from: nat, to: nat): Bytes {
    if from >= |data| || to <= from then []
    else data[from..if to <= |data| then to else |data|]
  }

  /** piece stands in data at offset. */
  predicate At(data: Bytes, offset: nat, piece: Bytes) {
    offset + |piece| <= |data| && data[offset..offset + |piece|] == piece
  }

  lemma AtSplit(data: Bytes, offset: nat, a: Bytes, b: Bytes)
    requires At(data, offset, a + b)
    ensures At(data, offset, a) && At(data, offset + |a|, b)
  {
    assert data[offset..offset + |a|] == (a + b)[..|a|];
    assert data[offset + |a|..offset + |a| + |b|] == (a + b)[|a|..];
  }

  lemma AtSelf(data: Bytes)
    ensures At(data, 0, data)
  {}

  /** A prefixed field: its length, then itself, then what follows. */
  lemma PrefixedParts(data: Bytes, offset: nat, field: Bytes, width: nat, rest: Bytes)
    requires |field| < Pow256(width) && At(data, offset, Prefixed(field, width) + rest)
    ensures At(data, offset, BigEndian(|field|, width)) && At(data, offset + width, field)
    ensures At(data, offset + width + |field|, rest)
  {
    hide At, BigEndian, Pow256;
    AtSplit(data, offset, Prefixed(field, width), rest);
    AtSplit(data, offset, BigEndian(|field|, width), field);
  }

  lemma SliceOfPiece(data: Bytes, offset: nat, piece: Bytes)
    requires At(data, offset, piece)
    ensures Slice(data, offset, offset + |piece|) == piece
  {}

  // ---- Length-prefixed fields ---------------------------------------------

  function Prefixed(field: Bytes, width: nat): Bytes
    requires |field| < Pow256(width)
  {
    BigEndian(|field|, width) + field
  }

  /** Reads a length of the given width at offset and then that many bytes. */
  function ReadPrefixed(data: Bytes, offset: nat, width: nat): (r: (Bytes, nat))
  {
    var n := FromBigEndian(Slice(data, offset, offset + width));
    (Slice(data, offset + width, offset + width + n), offset + width + n)
  }

  lemma ReadsWhatWasPrefixed(data: Bytes, offset: nat, field: Bytes, width: nat)
    requires |field| < Pow256(width)
    requires At(data, offset, Prefixed(field, width))
    ensures ReadPrefixed(data, offset, width) == (field, offset + width + |field|)
  {
    hide Pow256, BigEndian, FromBigEndian, Slice, At;
    var length := BigEndian(|field|, width);
    AtSplit(data, offset, length, field);
    SliceOfPiece(data, offset, length);
    SliceOfPiece(data, offset + width, field);
    BigEndianRoundTrip(|field|, width);
  }

  /** A field behind a one-byte length, cut short where the data ends. */
  lemma OneByteLength(data: Bytes, offset: nat)
    requires offset < |data|
    ensures ReadPrefixed(data, offset, 1) == (Slice(data, offset + 1, offset + 1 + data[offset]), offset + 1 + data[offset])
  {
    var length := Slice(data, offset, offset + 1);
    assert length == [data[offset]];
    assert length[..0] == [] && FromBigEndian([]) == 0;
  }

  /** One prefixed field with more data behind it. */
  lemma ReadsFieldThenRest(data: Bytes, offset: nat, field: Bytes, width: nat, rest: Bytes)
    requires |field| < Pow256(width)
    requires At(data, offset, Prefixed(field, width) + rest)
    ensures ReadPrefixed(data, offset, width) == (field, offset + width + |field|)
    ensures At(data, offset + width + |field|, rest)
  {
    AtSplit(data, offset, Prefixed(field, width), rest);
    ReadsWhatWasPrefixed(data, offset, field, width);
  }

  /** How all three stored formats begin: four magic bytes, a version byte, and a name
      with a one-byte length. */
  function Headed(magic: Bytes, version: Byte, name: Bytes, rest: Bytes): Bytes
    requires |name| <= 255
  {
    magic + ([version] + (Prefixed(name, 1) + rest))
  }

  lemma HeaderReads(magic: Bytes, version: Byte, name: Bytes, rest: Bytes)
    requires |magic| == 4 && |name| <= 255
    ensures var data := Headed(magic, version, name, rest);
            && |data| > 5 && Slice(data, 0, 4) == magic && data[4] == version
            && ReadPrefixed(data, 5, 1) == (name, 6 + |name|)
            && At(data, 6 + |name|, rest) && data[6 + |name|..] == rest
  {
    var data, named := Headed(magic, version, name, rest), Prefixed(name, 1) + rest;
    AtSplit(data, 0, magic, [version] + named);
    AtSplit(data, 4, [version], named);
    assert data[4] == data[4..5][0];
    ReadsFieldThenRest(data, 5, name, 1, rest);
  }

  lemma OneByte(n: nat)
    requires n < 256
    ensures Pow256(1) == 256 && BigEndian(n, 1) == [n]
  {
    assert BigEndian(n / 256, 0) == [];
  }

  /** Where the parts of a header stand. */
  lemma HeaderFields(magic: Bytes, version: Byte, name: Bytes, rest: Bytes)
    requires |magic| == 4 && |name| <= 255
    ensures var data := Headed(magic, version, name, rest);
            && |data| == 6 + |name| + |rest|
            && data[..4] == magic && data[4] == version && data[5] == |name|
            && At(data, 6, name) && At(data, 6 + |name|, rest)
  {
    var data, named := Headed(magic, version, name, rest), Prefixed(name, 1) + rest;
    AtSelf(data);
    AtSplit(data, 0, magic, [version] + named);
    AtSplit(data, 4, [version], named);
    OneByte(|name|);
    PrefixedParts(data, 5, name, 1, rest);
    assert data[4..5] == [version] && data[5..6] == [|name|];
    assert data[4] == data[4..5][0] && data[5] == data[5..6][0];
  }
}
