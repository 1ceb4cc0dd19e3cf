/** The binary vector file (vector_file.cpp): little-endian codec, header, size check.

    `Image` is the file format as a value; `Parse` is the reader. The two are proved inverse to each
    other. `WriteAtomic` and `Read` are the byte-by-byte loops of the source. Vector components are
    32-bit patterns. */
module VectorFile {
  import opened Base

  // 'L' 'L' 'C' 'L' 'V' 'E' 'C' '1'
  const MAGIC: seq<byte> := [76, 76, 67, 76, 86, 69, 67, 49]
  const VERSION: u32 := 1
  const MODEL_HASH_BYTES := 32
  const HEADER_BYTES := 56

  datatype Metadata = Metadata(dimension: u32, modelHash: seq<byte>)
  datatype StoredVector = StoredVector(chunkId: u64, values: seq<u32>)

  // ---------------------------------------------------------------- little-endian integers

  function Pow256(n: nat): (p: nat)
    ensures p > 0
  {
    if n == 0 then 1 else 256 * Pow256(n - 1)
  }

  /** The low `n` bytes of `v`, least significant first. */
  function ToLe(v: nat, n: nat): (bs: seq<byte>)
    ensures |bs| == n
  {
    if n == 0 then [] else [v % 256] + ToLe(v / 256, n - 1)
  }

  function FromLe(bs: seq<byte>): (v: nat) {
    if bs == [] then 0 else bs[0] + 256 * FromLe(bs[1..])
  }

  lemma {:induction false} FromLeBound(bs: seq<byte>)
    ensures FromLe(bs) < Pow256(|bs|)
  {
    if bs != [] { FromLeBound(bs[1..]); }
  }

  lemma {:induction false} LeRoundTrip(v: nat, n: nat)
    requires v < Pow256(n)
    ensures FromLe(ToLe(v, n)) == v
  {
    if n > 0 {
      LeRoundTrip(v / 256, n - 1);
      assert ToLe(v, n)[1..] == ToLe(v / 256, n - 1);
    }
  }

  lemma {:induction false} LeInverse(bs: seq<byte>)
    ensures ToLe(FromLe(bs), |bs|) == bs
  {
    if bs != [] {
      LeInverse(bs[1..]);
      assert FromLe(bs) / 256 == FromLe(bs[1..]) && FromLe(bs) % 256 == bs[0];
    }
  }

  lemma {:induction false} PowValues()
    ensures Pow256(0) == 1 && Pow256(1) == 256
    ensures Pow256(4) == 0x1_0000_0000 && Pow256(8) == 0x1_0000_0000_0000_0000
  {
    PowTable();
  }

  lemma {:induction false} PowTable()
    ensures Pow256(0) == 1 && Pow256(1) == 256 && Pow256(2) == 0x1_0000 && Pow256(3) == 0x100_0000
    ensures Pow256(4) == 0x1_0000_0000 && Pow256(5) == 0x100_0000_0000 && Pow256(6) == 0x1_0000_0000_0000
    ensures Pow256(7) == 0x100_0000_0000_0000 && Pow256(8) == 0x1_0000_0000_0000_0000
  {
    assert Pow256(1) == 256 && Pow256(2) == 65536 && Pow256(3) == 16777216;
    assert Pow256(4) == 4294967296;
    assert Pow256(5) == 1099511627776;
    assert Pow256(6) == 281474976710656;
    assert Pow256(7) == 72057594037927936;
  }

  lemma {:induction false} ToLeAppend(v: nat, n: nat)
    ensures ToLe(v, n + 1) == ToLe(v, n) + [v / Pow256(n) % 256]
  {
    if n > 0 {
      ToLeAppend(v / 256, n - 1);
      DivDiv(v, Pow256(n - 1));
    }
  }

  /** Byte i holds the bits from 8 * i on: least significant byte first. */
  lemma {:induction false} LeByte(v: nat, n: nat, i: nat)
    requires i < n
    ensures ToLe(v, n)[i] == v / Pow256(i) % 256
    decreases i
  {
    if i > 0 {
      LeByte(v / 256, n - 1, i - 1);
      DivDiv(v, Pow256(i - 1));
    }
  }

  lemma {:induction false} DivDiv(v: nat, p: nat)
    requires p > 0
    ensures v / 256 / p == v / (256 * p)
  {
    var q := v / 256 / p;
    var r := v / 256 % p;
    assert v == 256 * (q * p + r) + v % 256;
    assert v == (256 * p) * q + (256 * r + v % 256);
    assert 0 <= 256 * r + v % 256 < 256 * p;
    DivUnique(v, 256 * p, q, 256 * r + v % 256);
  }

  lemma {:induction false} DivUnique(v: nat, d: nat, q: nat, r: nat)
    requires d > 0 && v == d * q + r && r < d
    ensures v / d == q
  {
    var q' := v / d;
    assert v == d * q' + v % d;
    if q' > q {
      MulMono(q + 1, q', d);
      MulSuccessor(q, d);
    } else if q' < q {
      MulMono(q' + 1, q, d);
      MulSuccessor(q', d);
    }
  }

  lemma {:induction false} FromLeAppend(bs: seq<byte>, b: byte)
    ensures FromLe(bs + [b]) == FromLe(bs) + b * Pow256(|bs|)
  {
    if bs == [] {
    } else {
      FromLeAppend(bs[1..], b);
      assert (bs + [b])[1..] == bs[1..] + [b];
      MulAssoc(256, b, Pow256(|bs| - 1));
    }
  }

  lemma {:induction false} MulAssoc(a: nat, b: nat, c: nat)
    ensures a * (b * c) == b * (a * c)
  {
  }

  /** write_le: one byte per shift by eight bits. */
  method WriteLe(output: seq<byte>, value: nat, size: nat) returns (output': seq<byte>)
    ensures output' == output + ToLe(value, size)
  {
    output' := output;
    var index := 0;
    while index < size
      invariant 0 <= index <= size
      invariant output' == output + ToLe(value, index)
    {
      ToLeAppend(value, index);
      output' := output' + [value / Pow256(index) % 256];
      index := index + 1;
    }
  }

  /** read_le at stream position `pos`; the or-ed bytes do not overlap, so they add up. */
  method ReadLe(input: seq<byte>, pos: nat, size: nat) returns (r: Outcome<nat>)
    requires pos <= |input|
    ensures r.Returned? <==> pos + size <= |input|
    ensures r.Returned? ==> r.value == FromLe(input[pos..pos + size]) && r.value < Pow256(size)
    ensures r.Threw? ==> r.error == RuntimeError
  {
    var value := 0;
    var index := 0;
    while index < size
      invariant 0 <= index <= size && pos + index <= |input|
      invariant value == FromLe(input[pos..pos + index])
    {
      if pos + index == |input| {
        return Threw(RuntimeError);
      }
      FromLeAppend(input[pos..pos + index], input[pos + index]);
      assert input[pos..pos + index + 1] == input[pos..pos + index] + [input[pos + index]];
      value := value + input[pos + index] * Pow256(index);
      index := index + 1;
    }
    FromLeBound(input[pos..pos + size]);
    return Returned(value);
  }

  // ---------------------------------------------------------------- the model hash field

  function Zeros(n: nat): seq<byte> { seq(n, _ => 0) }

  /** encode_hash: the hash followed by zero bytes. */
  function EncodeHash(hash: seq<byte>): (field: seq<byte>)
    requires |hash| <= MODEL_HASH_BYTES
    ensures |field| == MODEL_HASH_BYTES
  {
    hash + Zeros(MODEL_HASH_BYTES - |hash|)
  }

  /** decode_hash: the bytes before the first zero. */
  function DecodeHash(field: seq<byte>): (hash: seq<byte>)
    ensures |hash| <= |field| && hash == field[..|hash|] && 0 !in hash
    ensures |hash| < |field| ==> field[|hash|] == 0
  {
    if field == [] || field[0] == 0 then [] else [field[0]] + DecodeHash(field[1..])
  }

  /** The hash comes back exactly when it holds no zero byte. */
  lemma {:induction false} HashRoundTrip(hash: seq<byte>)
    requires |hash| <= MODEL_HASH_BYTES
    ensures DecodeHash(EncodeHash(hash)) == hash <==> 0 !in hash
  {
    if 0 !in hash { DecodeStopsAtZero(hash, MODEL_HASH_BYTES - |hash|); }
  }

  lemma {:induction false} DecodeStopsAtZero(hash: seq<byte>, padding: nat)
    requires 0 !in hash
    ensures DecodeHash(hash + Zeros(padding)) == hash
  {
    var field := hash + Zeros(padding);
    if hash == [] {
      assert field == Zeros(padding);
    } else {
      DecodeStopsAtZero(hash[1..], padding);
      assert field[1..] == hash[1..] + Zeros(padding);
    }
  }

  // ---------------------------------------------------------------- the file format

  function EncodeValues(values: seq<u32>): (bs: seq<byte>)
    ensures |bs| == 4 * |values|
  {
    if values == [] then [] else ToLe(values[0], 4) + EncodeValues(values[1..])
  }

  function EncodeRecord(r: StoredVector): seq<byte> {
    ToLe(r.chunkId, 8) + EncodeValues(r.values)
  }

  function EncodeRecords(rs: seq<StoredVector>): seq<byte> {
    if rs == [] then [] else EncodeRecord(rs[0]) + EncodeRecords(rs[1..])
  }

  function Header(dimension: u32, count: nat, field: seq<byte>): seq<byte> {
    MAGIC + ToLe(VERSION, 4) + ToLe(dimension, 4) + ToLe(count, 8) + field
  }

  function Image(dimension: u32, field: seq<byte>, rs: seq<StoredVector>): seq<byte> {
    Header(dimension, |rs|, field) + EncodeRecords(rs)
  }

  predicate Uniform(rs: seq<StoredVector>, dimension: nat) {
    forall i :: 0 <= i < |rs| ==> |rs[i].values| == dimension
  }

  function RecordBytes(dimension: nat): (n: nat)
    ensures n >= 8 && n % 4 == 0
  {
    8 + 4 * dimension
  }

  lemma {:induction false} RecordsSize(rs: seq<StoredVector>, dimension: nat)
    requires Uniform(rs, dimension)
    ensures |EncodeRecords(rs)| == |rs| * RecordBytes(dimension)
  {
    if rs != [] {
      RecordsSize(rs[1..], dimension);
      assert |EncodeRecord(rs[0])| == RecordBytes(dimension);
      MulSuccessor(|rs| - 1, RecordBytes(dimension));
    }
  }

  lemma {:induction false} MulSuccessor(n: nat, d: nat)
    ensures (n + 1) * d == d + n * d
  {
  }

  // ---------------------------------------------------------------- reading

  datatype Loaded = Loaded(metadata: Metadata, records: seq<StoredVector>)

  function ParseValues(data: seq<byte>): (values: seq<u32>)
    requires |data| % 4 == 0
    ensures |values| == |data| / 4
    decreases |data|
  {
    if data == [] then []
    else
      FromLeBound(data[..4]);
      PowValues();
      [FromLe(data[..4])] + ParseValues(data[4..])
  }

  function ParseRecord(data: seq<byte>): StoredVector
    requires |data| >= 8 && |data| % 4 == 0
  {
    FromLeBound(data[..8]);
    PowValues();
    StoredVector(FromLe(data[..8]), ParseValues(data[8..]))
  }

  predicate RecordSize(size: nat) { size >= 8 && size % 4 == 0 }

  function ParseRecords(data: seq<byte>, size: nat, count: nat): (rs: seq<StoredVector>)
    requires RecordSize(size) && |data| == count * size
    ensures |rs| == count
    decreases count
  {
    if count == 0 then []
    else
      MulSuccessor(count - 1, size);
      [ParseRecord(data[..size])] + ParseRecords(data[size..], size, count - 1)
  }

  /** The header test, with the size equation in unbounded integers. */
  predicate Accepts(file: seq<byte>) {
    && |file| >= HEADER_BYTES
    && file[..8] == MAGIC
    && FromLe(file[8..12]) == VERSION
    && FromLe(file[12..16]) != 0
    && |file| == HEADER_BYTES + FromLe(file[16..24]) * RecordBytes(FromLe(file[12..16]))
  }

  function Parse(file: seq<byte>): Option<Loaded> {
    if !Accepts(file) then None
    else
      FromLeBound(file[12..16]);
      PowValues();
      Some(Loaded(Metadata(FromLe(file[12..16]), DecodeHash(file[24..56])),
                  ParseRecords(file[56..], RecordBytes(FromLe(file[12..16])), FromLe(file[16..24]))))
  }

  // ---------------------------------------------------------------- the two directions

  lemma {:induction false} ValuesRoundTrip(values: seq<u32>)
    ensures ParseValues(EncodeValues(values)) == values
  {
    if values != [] {
      PowValues();
      LeRoundTrip(values[0], 4);
      var data := EncodeValues(values);
      assert data[..4] == ToLe(values[0], 4);
      assert data[4..] == EncodeValues(values[1..]);
      ValuesRoundTrip(values[1..]);
    }
  }

  lemma {:induction false} ValuesInverse(data: seq<byte>)
    requires |data| % 4 == 0
    ensures EncodeValues(ParseValues(data)) == data
    decreases |data|
  {
    if data != [] {
      LeInverse(data[..4]);
      ValuesInverse(data[4..]);
      assert data == data[..4] + data[4..];
    }
  }

  lemma {:induction false} RecordRoundTrip(r: StoredVector)
    ensures ParseRecord(EncodeRecord(r)) == r
  {
    PowValues();
    LeRoundTrip(r.chunkId, 8);
    ValuesRoundTrip(r.values);
    var data := EncodeRecord(r);
    assert data[..8] == ToLe(r.chunkId, 8) && data[8..] == EncodeValues(r.values);
  }

  lemma {:induction false} RecordInverse(data: seq<byte>)
    requires |data| >= 8 && |data| % 4 == 0
    ensures EncodeRecord(ParseRecord(data)) == data
    ensures |ParseRecord(data).values| == (|data| - 8) / 4
  {
    LeInverse(data[..8]);
    ValuesInverse(data[8..]);
    assert data == data[..8] + data[8..];
  }

  lemma {:induction false} RecordsRoundTrip(rs: seq<StoredVector>, dimension: nat)
    requires Uniform(rs, dimension)
    ensures |EncodeRecords(rs)| == |rs| * RecordBytes(dimension)
    ensures ParseRecords(EncodeRecords(rs), RecordBytes(dimension), |rs|) == rs
  {
    RecordsSize(rs, dimension);
    if rs != [] {
      RecordRoundTrip(rs[0]);
      var size, data := RecordBytes(dimension), EncodeRecords(rs);
      assert data[..size] == EncodeRecord(rs[0]);
      assert data[size..] == EncodeRecords(rs[1..]);
      RecordsRoundTrip(rs[1..], dimension);
    }
  }

  lemma {:induction false} RecordsInverse(data: seq<byte>, size: nat, count: nat)
    requires RecordSize(size) && |data| == count * size
    ensures Uniform(ParseRecords(data, size, count), (size - 8) / 4)
    ensures EncodeRecords(ParseRecords(data, size, count)) == data
    decreases count
  {
    if count != 0 {
      MulSuccessor(count - 1, size);
      RecordInverse(data[..size]);
      RecordsInverse(data[size..], size, count - 1);
      var r := ParseRecords(data, size, count);
      assert r[1..] == ParseRecords(data[size..], size, count - 1);
      assert data == data[..size] + data[size..];
    }
  }

  lemma {:induction false} HeaderFields(dimension: u32, count: u64, field: seq<byte>, tail: seq<byte>)
    requires |field| == MODEL_HASH_BYTES
    ensures var file := Header(dimension, count, field) + tail;
            && |file| == HEADER_BYTES + |tail|
            && file[..8] == MAGIC && file[8..12] == ToLe(VERSION, 4)
            && file[12..16] == ToLe(dimension, 4) && file[16..24] == ToLe(count, 8)
            && file[24..56] == field && file[56..] == tail
  {
  }

  lemma {:induction false} HeaderSlices(file: seq<byte>)
    requires |file| >= HEADER_BYTES
    ensures file == (file[..8] + file[8..12] + file[12..16] + file[16..24] + file[24..56]) + file[56..]
  {
  }

  /** Every image is accepted and read back as what it was made from. */
  lemma {:induction false} ParseOfImage(dimension: u32, field: seq<byte>, rs: seq<StoredVector>)
    requires |field| == MODEL_HASH_BYTES && dimension != 0 && Uniform(rs, dimension)
    requires |rs| < U64_MODULUS
    ensures Parse(Image(dimension, field, rs)) == Some(Loaded(Metadata(dimension, DecodeHash(field)), rs))
  {
    HeaderFields(dimension, |rs|, field, EncodeRecords(rs));
    PowValues();
    LeRoundTrip(VERSION, 4);
    LeRoundTrip(dimension, 4);
    LeRoundTrip(|rs|, 8);
    RecordsRoundTrip(rs, dimension);
  }

  /** Whatever is accepted is an image of what was read. */
  lemma {:induction false} ImageOfParse(file: seq<byte>)
    requires Parse(file).Some?
    ensures var l := Parse(file).value;
            && l.metadata.dimension != 0 && Uniform(l.records, l.metadata.dimension)
            && |l.records| < U64_MODULUS
            && l.metadata.modelHash == DecodeHash(file[24..56])
            && file == Image(l.metadata.dimension, file[24..56], l.records)
  {
    var dimension, count := FromLe(file[12..16]), FromLe(file[16..24]);
    LeInverse(file[8..12]);
    LeInverse(file[12..16]);
    LeInverse(file[16..24]);
    FromLeBound(file[16..24]);
    PowValues();
    RecordsInverse(file[56..], RecordBytes(dimension), count);
    HeaderSlices(file);
  }

  /** What write_atomic accepts. */
  predicate Writable(metadata: Metadata, rs: seq<StoredVector>) {
    && metadata.dimension != 0
    && 1 <= |metadata.modelHash| <= MODEL_HASH_BYTES
    && |rs| <= (U64_MODULUS - 1 - HEADER_BYTES) / RecordBytes(metadata.dimension)
    && Uniform(rs, metadata.dimension)
  }

  function FileOf(metadata: Metadata, rs: seq<StoredVector>): seq<byte>
    requires Writable(metadata, rs)
  {
    Image(metadata.dimension, EncodeHash(metadata.modelHash), rs)
  }

  /** Exactly what can be written: a dimension, a hash that fits its field, vectors of that dimension, and a
      file shorter than 2^64 bytes. */
  lemma {:induction false} WritableMeans(metadata: Metadata, rs: seq<StoredVector>)
    ensures Writable(metadata, rs) <==>
            && 0 < metadata.dimension && 1 <= |metadata.modelHash| <= 32
            && (forall i :: 0 <= i < |rs| ==> |rs[i].values| == metadata.dimension)
            && 56 + |rs| * (8 + 4 * metadata.dimension) < U64_MODULUS
    ensures Writable(metadata, rs) ==> |FileOf(metadata, rs)| == 56 + |rs| * (8 + 4 * metadata.dimension)
  {
    QuotientBound(|rs|, RecordBytes(metadata.dimension), U64_MODULUS - 1 - HEADER_BYTES);
    if Writable(metadata, rs) { RecordsSize(rs, metadata.dimension); }
  }

  /** A whole file, byte for byte: "LLCLVEC1", version 1, dimension 2, one record, the hash "ab" in its field,
      chunk 0x0102 with the components 1.0 and 2^-149. */
  lemma {:induction false} FileExample()
    ensures var m, r := Metadata(2, [0x61, 0x62]), StoredVector(0x0102, [0x3F80_0000, 1]);
            && Writable(m, [r])
            && FileOf(m, [r]) == [0x4C, 0x4C, 0x43, 0x4C, 0x56, 0x45, 0x43, 0x31] + [1, 0, 0, 0] + [2, 0, 0, 0]
                                 + [1, 0, 0, 0, 0, 0, 0, 0] + ([0x61, 0x62] + seq(30, _ => 0))
                                 + ([2, 1, 0, 0, 0, 0, 0, 0] + ([0, 0, 0x80, 0x3F] + [1, 0, 0, 0]))
  {
    var r := StoredVector(0x0102, [0x3F80_0000, 1]);
    SmallLe(1);
    SmallLe(2);
    OneLe();
    TwoLe();
    assert EncodeValues(r.values[1..]) == [1, 0, 0, 0] by { assert r.values[1..] == [1]; }
    assert EncodeValues(r.values) == [0, 0, 0x80, 0x3F] + [1, 0, 0, 0];
    assert EncodeRecord(r) == [2, 1, 0, 0, 0, 0, 0, 0] + ([0, 0, 0x80, 0x3F] + [1, 0, 0, 0]);
    assert EncodeRecords([r]) == EncodeRecord(r) + [];
  }

  lemma {:induction false} SmallLe(x: nat)
    requires x < 256
    ensures ToLe(x, 4) == [x, 0, 0, 0] && ToLe(x, 8) == [x, 0, 0, 0, 0, 0, 0, 0]
  {
    assert ToLe(0, 1) == [0];
    assert ToLe(0, 2) == [0, 0];
    assert ToLe(0, 3) == [0, 0, 0];
    assert ToLe(0, 5) == [0, 0, 0, 0, 0];
    assert ToLe(0, 7) == [0, 0, 0, 0, 0, 0, 0];
  }

  lemma {:induction false} OneLe()
    ensures ToLe(0x3F80_0000, 4) == [0, 0, 0x80, 0x3F]
  {
    PowTable();
    LeByte(0x3F80_0000, 4, 0);
    LeByte(0x3F80_0000, 4, 1);
    LeByte(0x3F80_0000, 4, 2);
    LeByte(0x3F80_0000, 4, 3);
  }

  lemma {:induction false} TwoLe()
    ensures ToLe(0x0102, 8) == [2, 1, 0, 0, 0, 0, 0, 0]
  {
    assert ToLe(0, 1) == [0];
    assert ToLe(0, 3) == [0, 0, 0];
    assert ToLe(0, 6) == [0, 0, 0, 0, 0, 0];
    assert ToLe(1, 7) == [1, 0, 0, 0, 0, 0, 0];
  }

  /** read inverts write_atomic bit for bit, exactly for the hashes without a zero byte. */
  lemma {:induction false} ReadInvertsWrite(metadata: Metadata, rs: seq<StoredVector>)
    requires Writable(metadata, rs)
    ensures Parse(FileOf(metadata, rs)).Some? && Parse(FileOf(metadata, rs)).value.records == rs
    ensures Parse(FileOf(metadata, rs)) == Some(Loaded(metadata, rs)) <==> 0 !in metadata.modelHash
  {
    CountFits(|rs|, RecordBytes(metadata.dimension));
    ParseOfImage(metadata.dimension, EncodeHash(metadata.modelHash), rs);
    HashRoundTrip(metadata.modelHash);
  }

  /** write_atomic inverts read on exactly the accepted files whose hash field is a non-empty hash
      padded with zeros; on the others it refuses or writes a different file. */
  lemma {:induction false} WriteInvertsRead(file: seq<byte>)
    requires Parse(file).Some? && |file| < U64_MODULUS
    ensures var l := Parse(file).value;
            (Writable(l.metadata, l.records) && FileOf(l.metadata, l.records) == file)
            <==> (l.metadata.modelHash != [] && file[24..56] == EncodeHash(l.metadata.modelHash))
  {
    ImageOfParse(file);
    var l := Parse(file).value;
    RecordsSize(l.records, l.metadata.dimension);
    QuotientBound(|l.records|, RecordBytes(l.metadata.dimension), U64_MODULUS - 1 - HEADER_BYTES);
    if l.metadata.modelHash != [] {
      HeaderFields(l.metadata.dimension, |l.records|, EncodeHash(l.metadata.modelHash), EncodeRecords(l.records));
    }
  }

  lemma {:induction false} QuotientBound(n: nat, d: nat, limit: nat)
    requires d > 0
    ensures n * d <= limit <==> n <= limit / d
  {
    var q := limit / d;
    assert limit == q * d + limit % d;
    if n <= q {
      assert n * d <= q * d by { MulMono(n, q, d); }
    } else {
      assert n * d >= (q + 1) * d by { MulMono(q + 1, n, d); }
      MulSuccessor(q, d);
    }
  }

  lemma {:induction false} MulMono(a: nat, b: nat, d: nat)
    requires a <= b
    ensures a * d <= b * d
  {
  }

  lemma {:induction false} CountFits(n: nat, d: nat)
    requires d >= 1 && n <= (U64_MODULUS - 1 - HEADER_BYTES) / d
    ensures n < U64_MODULUS
  {
    QuotientBound(n, d, U64_MODULUS - 1 - HEADER_BYTES);
    MulMono(1, d, n);
  }

  /** Truncating or extending an accepted file by any number of bytes makes it unreadable. */
  lemma {:induction false} NoPartialFile(file: seq<byte>, other: seq<byte>)
    requires Parse(file).Some? && |other| != |file|
    requires other <= file || file <= other
    ensures Parse(other).None?
  {
    if |other| >= HEADER_BYTES {
      assert forall i, j :: 0 <= i <= j <= HEADER_BYTES ==> other[i..j] == file[i..j];
      assert other[..8] == other[0..8] && file[..8] == file[0..8];
    }
  }

  // ---------------------------------------------------------------- the methods

  /** The guard of both functions makes the 64-bit size computation exact. */
  lemma {:induction false} GuardIsExact(count: nat, d: nat, fileSize: u64)
    requires d >= 1
    ensures (count <= (U64_MODULUS - 1 - HEADER_BYTES) / d
             && (HEADER_BYTES + count * d % U64_MODULUS) % U64_MODULUS == fileSize)
            <==> HEADER_BYTES + count * d == fileSize
  {
    QuotientBound(count, d, U64_MODULUS - 1 - HEADER_BYTES);
  }

  /** Without the guard a bare header announcing 2^62 records would pass the wrapped equation. */
  lemma {:induction false} GuardIsNeeded()
    ensures var count, d := 0x4000_0000_0000_0000, RecordBytes(1);
            && (HEADER_BYTES + count * d % U64_MODULUS) % U64_MODULUS == HEADER_BYTES
            && HEADER_BYTES + count * d != HEADER_BYTES
  {
  }

  /** What the operating system may refuse; a failing stream has put `reached` bytes on disk. */
  datatype FileFault = NoFault | CannotCreate | StreamFails(reached: nat) | CannotSync | CannotRename

  /** write_atomic. `left` is what the temporary file holds when it is renamed, or when an exception
      leaves it behind; None if it was never created. It is renamed exactly on success. */
  method WriteAtomic(metadata: Metadata, records: seq<StoredVector>, fault: FileFault)
    returns (r: Outcome<()>, left: Option<seq<byte>>)
    ensures r.Returned? <==> Writable(metadata, records) && fault.NoFault?
    ensures metadata.dimension == 0 || metadata.modelHash == [] ==> r == Threw(InvalidArgument) && left.None?
    ensures r.Returned? ==> left == Some(FileOf(metadata, records))
    ensures left.None? <==> fault.CannotCreate? || !Announceable(metadata, records)
    ensures left.Some? && |metadata.modelHash| <= MODEL_HASH_BYTES ==>
              left.value <= Image(metadata.dimension, EncodeHash(metadata.modelHash), records)
  {
    if metadata.dimension == 0 || metadata.modelHash == [] {
      return Threw(InvalidArgument), None;
    }
    var recordBytes := RecordBytes(metadata.dimension);
    if |records| > (U64_MODULUS - 1 - HEADER_BYTES) / recordBytes {
      return Threw(OverflowError), None;
    }
    if fault.CannotCreate? {
      return Threw(RuntimeError), None;
    }
    var ok, written := WriteStream(metadata, records);
    left := Some(if fault.StreamFails? then written[..Min(fault.reached, |written|)] else written);
    if !ok {
      return Threw(InvalidArgument), left;
    }
    return if fault.NoFault? then Returned(()) else Threw(RuntimeError), left;
  }

  /** What must hold before the temporary file is created. */
  predicate Announceable(metadata: Metadata, rs: seq<StoredVector>) {
    && metadata.dimension != 0 && metadata.modelHash != []
    && |rs| <= (U64_MODULUS - 1 - HEADER_BYTES) / RecordBytes(metadata.dimension)
  }

  /** The stream writes: all of the image, or what comes before a hash or record that is refused. */
  method WriteStream(metadata: Metadata, records: seq<StoredVector>) returns (ok: bool, written: seq<byte>)
    ensures ok <==> |metadata.modelHash| <= MODEL_HASH_BYTES && Uniform(records, metadata.dimension)
    ensures ok ==> written == Image(metadata.dimension, EncodeHash(metadata.modelHash), records)
    ensures |metadata.modelHash| <= MODEL_HASH_BYTES ==>
              written <= Image(metadata.dimension, EncodeHash(metadata.modelHash), records)
  {
    written := MAGIC;
    written := WriteLe(written, VERSION, 4);
    written := WriteLe(written, metadata.dimension, 4);
    written := WriteLe(written, |records|, 8);
    if |metadata.modelHash| > MODEL_HASH_BYTES {
      return false, written;
    }
    written := written + EncodeHash(metadata.modelHash);
    ok, written := WriteRecords(written, metadata.dimension, records);
  }

  method WriteRecords(output: seq<byte>, dimension: u32, records: seq<StoredVector>)
    returns (ok: bool, output': seq<byte>)
    ensures ok <==> Uniform(records, dimension)
    ensures ok ==> output' == output + EncodeRecords(records)
    ensures output' <= output + EncodeRecords(records)
  {
    output' := output;
    var i := 0;
    assert records[0..] == records;
    while i < |records|
      invariant 0 <= i <= |records|
      invariant Uniform(records[..i], dimension)
      invariant output + EncodeRecords(records) == output' + EncodeRecords(records[i..])
    {
      if |records[i].values| != dimension {
        return false, output';
      }
      ghost var before := output';
      output' := WriteLe(output', records[i].chunkId, 8);
      output' := WriteValues(output', records[i].values);
      assert output' == before + EncodeRecord(records[i]);
      EncodeRecordsStep(before, records[i..]);
      assert records[i..][1..] == records[i + 1..];
      i := i + 1;
    }
    assert records[..i] == records;
    return true, output';
  }

  lemma {:induction false} EncodeRecordsStep(before: seq<byte>, rs: seq<StoredVector>)
    requires rs != []
    ensures before + EncodeRecords(rs) == (before + EncodeRecord(rs[0])) + EncodeRecords(rs[1..])
  {
  }

  method WriteValues(output: seq<byte>, values: seq<u32>) returns (output': seq<byte>)
    ensures output' == output + EncodeValues(values)
  {
    output' := output;
    var i := 0;
    while i < |values|
      invariant 0 <= i <= |values|
      invariant output' + EncodeValues(values[i..]) == output + EncodeValues(values)
    {
      assert values[i..][1..] == values[i + 1..];
      output' := WriteLe(output', values[i], 4);
      i := i + 1;
    }
  }

  /** read: header checks in source order, the 64-bit size test, then the record loop. */
  method Read(file: seq<byte>) returns (r: Outcome<Loaded>)
    requires |file| < U64_MODULUS
    ensures r.Returned? <==> Parse(file).Some?
    ensures r.Returned? ==> r.value == Parse(file).value
    ensures r.Threw? ==> r.error == RuntimeError
  {
    if |file| < HEADER_BYTES {
      return Threw(RuntimeError);
    }
    var version := ReadLe(file, 8, 4);
    if file[..8] != MAGIC || version.value != VERSION {
      return Threw(RuntimeError);
    }
    var dimension := ReadLe(file, 12, 4);
    var count := ReadLe(file, 16, 8);
    PowValues();
    var hash := file[24..56];
    if dimension.value == 0 {
      return Threw(RuntimeError);
    }
    var recordBytes := RecordBytes(dimension.value);
    GuardIsExact(count.value, recordBytes, |file|);
    if recordBytes < 8
       || count.value > (U64_MODULUS - 1 - HEADER_BYTES) / recordBytes
       || (HEADER_BYTES + count.value * recordBytes % U64_MODULUS) % U64_MODULUS != |file| {
      return Threw(RuntimeError);
    }
    var records := ReadRecords(file[HEADER_BYTES..], recordBytes, count.value);
    return Returned(Loaded(Metadata(dimension.value, DecodeHash(hash)), records));
  }

  /** The record loop; `input` is what is left of the stream. */
  method ReadRecords(data: seq<byte>, size: nat, count: nat) returns (records: seq<StoredVector>)
    requires RecordSize(size) && (size - 8) / 4 < 0x1_0000_0000
    requires |data| == count * size
    ensures records == ParseRecords(data, size, count)
  {
    records := [];
    var input := data;
    var left := count;
    while left > 0
      invariant |input| == left * size
      invariant records + ParseRecords(input, size, left) == ParseRecords(data, size, count)
    {
      ParseRecordsStep(records, input, size, left);
      var record := ReadRecord(input, size);
      records := records + [record];
      input := input[size..];
      left := left - 1;
    }
  }

  lemma {:induction false} ParseRecordsStep(before: seq<StoredVector>, rest: seq<byte>, size: nat, left: nat)
    requires RecordSize(size) && left > 0 && |rest| == left * size
    ensures size <= |rest| && |rest[size..]| == (left - 1) * size
    ensures before + ParseRecords(rest, size, left)
            == (before + [ParseRecord(rest[..size])]) + ParseRecords(rest[size..], size, left - 1)
  {
    MulSuccessor(left - 1, size);
  }

  method ReadRecord(input: seq<byte>, size: nat) returns (record: StoredVector)
    requires RecordSize(size) && (size - 8) / 4 < 0x1_0000_0000 && size <= |input|
    ensures record == ParseRecord(input[..size])
  {
    PowValues();
    var id := ReadLe(input, 0, 8);
    var values := ReadValues(input, 8, (size - 8) / 4);
    ghost var data := input[..size];
    assert data[..8] == input[0..8] && data[8..] == input[8..size];
    record := StoredVector(id.value, values);
  }

  method ReadValues(file: seq<byte>, start: nat, dimension: u32) returns (values: seq<u32>)
    requires start + 4 * dimension <= |file|
    ensures values == ParseValues(file[start..start + 4 * dimension])
  {
    values := [];
    var component := 0;
    ghost var data := file[start..start + 4 * dimension];
    NothingRead(data);
    while component < dimension
      invariant 0 <= component <= dimension
      invariant ReadUpTo(data, 4 * component, values)
    {
      var value := ReadValue(file, start + 4 * component);
      ReadValueStep(file, start, 4 * dimension, 4 * component, values, value);
      values := values + [value];
      component := component + 1;
    }
    AllRead(data, values);
  }

  lemma {:induction false} NothingRead(data: seq<byte>)
    requires |data| % 4 == 0
    ensures ReadUpTo(data, 0, [])
  {
    assert data[0..] == data;
  }

  lemma {:induction false} AllRead(data: seq<byte>, values: seq<u32>)
    requires ReadUpTo(data, |data|, values)
    ensures values == ParseValues(data)
  {
  }

  /** What is read and what is left make up the whole. */
  ghost predicate ReadUpTo(data: seq<byte>, at: nat, values: seq<u32>) {
    at <= |data| && |data| % 4 == at % 4 == 0 && values + ParseValues(data[at..]) == ParseValues(data)
  }

  method ReadValue(file: seq<byte>, at: nat) returns (value: u32)
    requires at + 4 <= |file|
    ensures value == FromLe(file[at..at + 4])
  {
    PowValues();
    var v := ReadLe(file, at, 4);
    value := v.value;
  }

  lemma {:induction false} SliceOfSlice(file: seq<byte>, start: nat, size: nat, at: nat, n: nat)
    requires start + size <= |file| && at + n <= size
    ensures file[start..start + size][at..at + n] == file[start + at..start + at + n]
  {
    var data := file[start..start + size];
    assert forall k :: 0 <= k < size ==> data[k] == file[start + k];
  }

  lemma {:induction false} ReadValueStep(file: seq<byte>, start: nat, size: nat, at: nat, before: seq<u32>, value: u32)
    requires start + size <= |file| && at + 4 <= size
    requires value == FromLe(file[start + at..start + at + 4])
    requires ReadUpTo(file[start..start + size], at, before)
    ensures ReadUpTo(file[start..start + size], at + 4, before + [value])
  {
    SliceOfSlice(file, start, size, at, 4);
    ParseValuesStep(before, file[start..start + size], at);
  }

  lemma {:induction false} ParseValuesStep(before: seq<u32>, data: seq<byte>, at: nat)
    requires at + 4 <= |data| && (|data| - at) % 4 == 0
    requires FromLe(data[at..at + 4]) < 0x1_0000_0000
    ensures before + ParseValues(data[at..])
            == (before + [FromLe(data[at..at + 4])]) + ParseValues(data[at + 4..])
  {
    var rest := data[at..];
    assert rest[..4] == data[at..at + 4] && rest[4..] == data[at + 4..];
  }
}
