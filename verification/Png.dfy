/** The PNG writer of kernel/src/desktop/compositor.ts and a reader for what it writes.

    The writer emits the signature and three chunks (IHDR, IDAT, IEND) around a deflated buffer of
    unfiltered scanlines.  The reader follows RFC 2083: signature (3.1), length-prefixed chunks with
    their CRC (3.2, 3.4), the header and the critical chunks (4.1), and filter type 0 (6.2).
    `deflate` and `inflate` stay abstract; only that the second undoes the first is used.
 */
module Png {
  import opened Wrappers
  import opened Word32
  import Crc32

  type bytes = seq<byte>

  /** What Buffer.writeUInt32BE makes of a value outside 0 .. 2^32 - 1 is a RangeError. */
  datatype Result<+T> = Ok(value: T) | RangeError

  datatype Image = Image(w: int, h: int, rgba: bytes)

  const U32_LIMIT := 0x1_0000_0000
  const SIGNATURE: bytes := [137, 80, 78, 71, 13, 10, 26, 10]
  const IHDR: bytes := [73, 72, 68, 82]
  const IDAT: bytes := [73, 68, 65, 84]
  const IEND: bytes := [73, 69, 78, 68]

  predicate IsU32(n: int) {
    0 <= n < U32_LIMIT
  }

  // ----- big-endian fields -----

  function U32BE(n: int): (s: bytes)
    requires IsU32(n)
    ensures |s| == 4
  {
    [n / 0x100_0000, n / 0x1_0000 % 256, n / 256 % 256, n % 256]
  }

  function ReadU32(s: bytes): (n: int)
    requires |s| == 4
    ensures IsU32(n)
  {
    (s[0] as int) * 0x100_0000 + (s[1] as int) * 0x1_0000 + (s[2] as int) * 256 + s[3] as int
  }

  lemma U32RoundTrip(n: int)
    requires IsU32(n)
    ensures ReadU32(U32BE(n)) == n
  {
    assert n / 256 / 256 == n / 0x1_0000 && n / 0x1_0000 / 256 == n / 0x100_0000;
  }

  lemma LowestByte(high: nat, d: byte)
    ensures (high * 256 + d) / 256 == high && (high * 256 + d) % 256 == d
  {}

  /** The most significant byte comes first. */
  lemma FieldsAreBigEndian(a: byte, b: byte, c: byte, d: byte)
    ensures U32BE(((a * 256 + b) * 256 + c) * 256 + d) == [a, b, c, d]
  {
    var ab := a * 256 + b;
    var abc := ab * 256 + c;
    var n := abc * 256 + d;
    LowestByte(abc, d);
    LowestByte(ab, c);
    LowestByte(a, b);
    assert n / 256 / 256 == n / 0x1_0000 && n / 0x1_0000 / 256 == n / 0x100_0000;
  }

  // ----- scanlines -----

  /** The first n bytes of s, with zeros for the missing ones. */
  function Fit(s: bytes, n: nat): (r: bytes)
    ensures |r| == n
  {
    if |s| >= n then s[..n] else s + seq(n - |s|, _ => 0)
  }

  lemma FitFills(s: bytes, n: nat, k: nat)
    requires k < n
    ensures Fit(s, n)[k] == if k < |s| then s[k] else 0
  {}

  /** h scanlines of `stride` bytes, each behind filter type 0. */
  function Filtered(pixels: bytes, stride: nat, h: nat): bytes
    requires |pixels| == stride * h
    decreases h
  {
    if h == 0 then []
    else
      RowsLeft(stride, h);
      [0] + pixels[..stride] + Filtered(pixels[stride..], stride, h - 1)
  }

  lemma RowsLeft(stride: nat, h: nat)
    requires h > 0
    ensures stride * h - stride == stride * (h - 1) && stride <= stride * h
  {}

  /** Reads h scanlines back; None when they are not exactly h unfiltered ones. */
  function Unfilter(raw: bytes, stride: nat, h: nat): Option<bytes>
    decreases h
  {
    if h == 0 then (if raw == [] then Some([]) else None)
    else if |raw| <= stride || raw[0] != 0 then None
    else
      match Unfilter(raw[stride + 1..], stride, h - 1)
      case None => None
      case Some(rest) => Some(raw[1..stride + 1] + rest)
  }

  lemma {:induction false} UnfilterFiltered(pixels: bytes, stride: nat, h: nat)
    requires |pixels| == stride * h
    ensures Unfilter(Filtered(pixels, stride, h), stride, h) == Some(pixels)
    decreases h
  {
    if h > 0 {
      RowsLeft(stride, h);
      var raw, rest := Filtered(pixels, stride, h), Filtered(pixels[stride..], stride, h - 1);
      UnfilterFiltered(pixels[stride..], stride, h - 1);
      assert raw[stride + 1..] == rest;
      assert raw[1..stride + 1] == pixels[..stride];
      assert pixels == pixels[..stride] + pixels[stride..];
    } else {
      assert pixels == [];
    }
  }

  lemma FirstRowOf(pixels: bytes, row: bytes, stride: nat)
    requires stride <= |pixels|
    ensures (pixels + row)[..stride] == pixels[..stride] && (pixels + row)[stride..] == pixels[stride..] + row
  {}

  lemma Append3(a: bytes, b: bytes, c: bytes, d: bytes)
    ensures a + (b + c + d) == a + b + c + d
  {}

  lemma {:induction false} FilteredSnoc(pixels: bytes, row: bytes, stride: nat, h: nat)
    requires |pixels| == stride * h && |row| == stride
    ensures |pixels + row| == stride * (h + 1)
    ensures Filtered(pixels + row, stride, h + 1) == Filtered(pixels, stride, h) + [0] + row
    decreases h
  {
    RowsLeft(stride, h + 1);
    if h == 0 {
      assert pixels + row == row && row[..stride] == row && row[stride..] == [];
      assert Filtered(row[stride..], stride, 0) == [];
    } else {
      RowsLeft(stride, h);
      FirstRowOf(pixels, row, stride);
      FilteredSnoc(pixels[stride..], row, stride, h - 1);
      Append3([0] + pixels[..stride], Filtered(pixels[stride..], stride, h - 1), [0], row);
    }
  }

  // ----- the file -----

  datatype Chunk = Chunk(kind: bytes, data: bytes)

  predicate Writable(c: Chunk) {
    |c.kind| == 4 && |c.data| < U32_LIMIT
  }

  function CrcField(body: bytes): (s: bytes)
    ensures |s| == 4
  {
    U32BE(Number(Crc32.Crc(body)))
  }

  function Serialize(c: Chunk): bytes
    requires Writable(c)
  {
    U32BE(|c.data|) + (c.kind + c.data) + CrcField(c.kind + c.data)
  }

  function SerializeAll(cs: seq<Chunk>): bytes
    requires forall c :: c in cs ==> Writable(c)
  {
    if cs == [] then [] else Serialize(cs[0]) + SerializeAll(cs[1..])
  }

  function Header(w: int, h: int): bytes
    requires IsU32(w) && IsU32(h)
  {
    U32BE(w) + U32BE(h) + [8, 6, 0, 0, 0]
  }

  /** The bytes of a w by h image. */
  function Size(w: nat, h: nat): nat {
    w * 4 * h
  }

  /** The unfiltered scanlines of an image. */
  function Scanlines(w: nat, h: nat, rgba: bytes): bytes {
    Filtered(Fit(rgba, Size(w, h)), w * 4, h)
  }

  /** The chunks of an encoded image. */
  function ImageChunks(deflate: bytes -> bytes, w: int, h: int, rgba: bytes): seq<Chunk>
    requires IsU32(w) && IsU32(h)
  {
    [Chunk(IHDR, Header(w, h)), Chunk(IDAT, deflate(Scanlines(w, h, rgba))), Chunk(IEND, [])]
  }

  /** A chunk is the length of its data, its type, its data, and the CRC of type and data, in this order. */
  lemma ChunkLayout(c: Chunk)
    requires Writable(c)
    ensures var s, n := Serialize(c), |c.data|;
            && |s| == n + 12 && s[..4] == U32BE(n) && s[4..8] == c.kind && s[8..8 + n] == c.data
            && s[8 + n..] == U32BE(Number(Crc32.Crc(c.kind + c.data)))
  {}

  /** The three chunks of a file: the header with width, height, 8 bits a channel, colour and alpha, and
      the methods 0; the deflated scanlines; and the empty end. */
  lemma FileLayout(deflate: bytes -> bytes, w: int, h: int, rgba: bytes)
    requires IsU32(w) && IsU32(h)
    ensures var cs := ImageChunks(deflate, w, h, rgba);
            && |cs| == 3
            && cs[0] == Chunk([0x49, 0x48, 0x44, 0x52], U32BE(w) + U32BE(h) + [8, 6, 0, 0, 0])
            && cs[1].kind == [0x49, 0x44, 0x41, 0x54] && cs[2] == Chunk([0x49, 0x45, 0x4e, 0x44], [])
            && SIGNATURE == [0x89, 0x50, 0x4e, 0x47, 0x0d, 0x0a, 0x1a, 0x0a]
  {}

  // ----- the writer -----

  /** `chunk` */
  method WriteChunk(table: array<bv32>, kind: bytes, data: bytes) returns (r: Result<bytes>)
    requires Crc32.IsTable(table[..]) && |kind| == 4
    ensures r == if |data| < U32_LIMIT then Ok(Serialize(Chunk(kind, data))) else RangeError
  {
    if !IsU32(|data|) {
      return RangeError;
    }
    var len := U32BE(|data|);
    var body := kind + data;
    var c := Crc32.Compute(table, body);
    var crc := U32BE(Number(c));
    r := Ok(len + body + crc);
  }

  lemma RowBounds(stride: nat, y: nat, h: nat)
    requires y < h
    ensures stride * (y + 1) == stride * y + stride <= stride * h
    ensures (stride + 1) * (y + 1) == (stride + 1) * y + stride + 1 <= (stride + 1) * h
  {
    TimesMonotone(stride, y + 1, h);
    TimesMonotone(stride + 1, y + 1, h);
  }

  /** Appending one unfiltered row to y packed rows gives y + 1 packed rows. */
  lemma OneMoreRow(pixels: bytes, stride: nat, y: nat, from: nat, before: bytes)
    requires from == stride * y && from + stride <= |pixels|
    requires before == Filtered(pixels[..from], stride, y)
    ensures |pixels[..from + stride]| == stride * (y + 1)
    ensures before + [0] + pixels[from..from + stride] == Filtered(pixels[..from + stride], stride, y + 1)
  {
    FilteredSnoc(pixels[..from], pixels[from..from + stride], stride, y);
    assert pixels[..from + stride] == pixels[..from] + pixels[from..from + stride];
  }

  /** One round of the scanline loop: filter type 0 and a row go behind what is packed already. */
  method PackRow(raw: array<byte>, o: nat, rgba: bytes, from: nat, stride: nat, ghost row: bytes)
    requires |row| == stride && o + 1 + stride <= raw.Length
    requires forall k :: o <= k < raw.Length ==> raw[k] == 0
    requires forall k :: 0 <= k < |row| ==> row[k] == if from + k < |rgba| then rgba[from + k] else 0
    modifies raw
    ensures raw[..o + 1 + |row|] == old(raw[..o]) + [0] + row
    ensures forall k :: o + 1 + |row| <= k < raw.Length ==> raw[k] == 0
  {
    raw[o] := 0;
    var k := 0;
    while k < stride && from + k < |rgba|
      invariant 0 <= k <= stride
      invariant raw[..o] == old(raw[..o])
      invariant forall j :: o <= j < raw.Length ==>
        raw[j] == if o < j <= o + k then row[j - o - 1] else 0
    {
      raw[o + 1 + k] := rgba[from + k];
      k := k + 1;
    }
    assert raw[o + 1..o + 1 + |row|] == row;
    assert raw[..o + 1 + |row|] == raw[..o] + [raw[o]] + raw[o + 1..o + 1 + |row|];
  }

  /** The first y scanlines are in place, the rest of the buffer is still zero. */
  ghost predicate Packed(raw: bytes, pixels: bytes, stride: nat, y: nat, h: nat) {
    && y <= h && |pixels| == stride * h && |raw| == (stride + 1) * h
    && stride * y <= |pixels| && (stride + 1) * y <= |raw|
    && raw[..(stride + 1) * y] == Filtered(pixels[..stride * y], stride, y)
    && forall k :: (stride + 1) * y <= k < |raw| ==> raw[k] == 0
  }

  lemma PackedAtFirst(raw: bytes, pixels: bytes, stride: nat, h: nat)
    requires |pixels| == stride * h && |raw| == (stride + 1) * h && forall k :: 0 <= k < |raw| ==> raw[k] == 0
    ensures Packed(raw, pixels, stride, 0, h)
  {
    assert stride * 0 == 0 && (stride + 1) * 0 == 0;
    assert Filtered(pixels[..0], stride, 0) == [];
  }

  lemma PackedAtLast(raw: bytes, pixels: bytes, stride: nat, h: nat)
    requires Packed(raw, pixels, stride, h, h)
    ensures raw == Filtered(pixels, stride, h)
  {
    assert raw[..(stride + 1) * h] == raw && pixels[..stride * h] == pixels;
  }

  /** One more row after y, where the rows end at `from` in the pixels and at o in the buffer. */
  lemma PackedNext(before: bytes, raw: bytes, pixels: bytes, stride: nat, y: nat, h: nat, from: nat, o: nat)
    requires Packed(before, pixels, stride, y, h) && y < h && |raw| == |before|
    requires from == stride * y && o == (stride + 1) * y && from + stride <= |pixels| && o + stride + 1 <= |raw|
    requires raw[..o + 1 + stride] == before[..o] + [0] + pixels[from..from + stride]
    requires forall k :: o + 1 + stride <= k < |raw| ==> raw[k] == 0
    ensures Packed(raw, pixels, stride, y + 1, h)
  {
    RowBounds(stride, y, h);
    OneMoreRow(pixels, stride, y, from, before[..o]);
  }

  /** The scanline loop of `encodePNG`. */
  method PackRows(w: nat, h: nat, rgba: bytes) returns (raw: array<byte>)
    ensures fresh(raw)
    ensures raw[..] == Scanlines(w, h, rgba)
  {
    var stride := w * 4;
    ghost var pixels := Fit(rgba, Size(w, h));
    raw := new byte[(stride + 1) * h](_ => 0);
    PackedAtFirst(raw[..], pixels, stride, h);
    var y := 0;
    while y < h
      invariant 0 <= y <= h && Packed(raw[..], pixels, stride, y, h)
    {
      PackRowAt(raw, y, h, rgba, stride, pixels);
      y := y + 1;
    }
    PackedAtLast(raw[..], pixels, stride, h);
  }

  /** The body of the loop. */
  method PackRowAt(raw: array<byte>, y: nat, h: nat, rgba: bytes, stride: nat, ghost pixels: bytes)
    requires y < h && Packed(raw[..], pixels, stride, y, h) && pixels == Fit(rgba, stride * h)
    modifies raw
    ensures Packed(raw[..], pixels, stride, y + 1, h)
  {
    var o, from := y * (stride + 1), y * stride;
    ghost var before := raw[..];
    RowBounds(stride, y, h);
    PackRow(raw, o, rgba, from, stride, pixels[from..from + stride]);
    PackedNext(before, raw[..], pixels, stride, y, h, from, o);
  }

  predicate Encodable(deflate: bytes -> bytes, w: int, h: int, rgba: bytes) {
    && IsU32(w) && IsU32(h)
    && |deflate(Scanlines(w, h, rgba))| < U32_LIMIT
  }

  /** `encodePNG`: the signature and the three chunks, or the RangeError of a field that overflows. */
  method Encode(table: array<bv32>, deflate: bytes -> bytes, w: int, h: int, rgba: bytes)
    returns (r: Result<bytes>)
    requires Crc32.IsTable(table[..])
    ensures r.Ok? <==> Encodable(deflate, w, h, rgba)
    ensures r.Ok? ==> r.value == SIGNATURE + SerializeAll(ImageChunks(deflate, w, h, rgba))
  {
    if !IsU32(w) || !IsU32(h) {
      return RangeError;
    }
    var ihdr := Header(w, h);
    var raw := PackRows(w, h, rgba);
    var idat := deflate(raw[..]);
    var c1 := WriteChunk(table, IHDR, ihdr);
    var c2 := WriteChunk(table, IDAT, idat);
    var c3 := WriteChunk(table, IEND, []);
    if c2.RangeError? {
      return RangeError;
    }
    r := Ok(SIGNATURE + c1.value + c2.value + c3.value);
    AssembleThree(Chunk(IHDR, ihdr), Chunk(IDAT, idat), Chunk(IEND, []));
  }

  lemma SerializeCons(c: Chunk, cs: seq<Chunk>)
    requires Writable(c) && forall d :: d in cs ==> Writable(d)
    ensures SerializeAll([c] + cs) == Serialize(c) + SerializeAll(cs)
  {
    assert ([c] + cs)[1..] == cs;
  }

  lemma AssembleThree(a: Chunk, b: Chunk, c: Chunk)
    requires Writable(a) && Writable(b) && Writable(c)
    ensures SIGNATURE + SerializeAll([a, b, c]) == SIGNATURE + Serialize(a) + Serialize(b) + Serialize(c)
  {
    SerializeCons(c, []);
    SerializeCons(b, [c]);
    SerializeCons(a, [b, c]);
    assert [c] + [] == [c] && [b] + [c] == [b, c] && [a] + [b, c] == [a, b, c];
    assert SerializeAll([c]) == Serialize(c);
    Append4(SIGNATURE, Serialize(a), Serialize(b), Serialize(c));
  }

  lemma Append4(a: bytes, b: bytes, c: bytes, d: bytes)
    ensures a + (b + (c + d)) == a + b + c + d
  {}

  // ----- the reader -----

  /** The limits of section 3.2 on lengths and of section 4.1.1 on dimensions. */
  const MAX_FIELD := 0x7fff_ffff

  predicate CrcMatches(body: bytes, field: bytes)
    requires |field| == 4
  {
    ReadU32(field) == Number(Crc32.Crc(body))
  }

  /** One chunk off the front of s, or None when it is cut short or its CRC does not match. */
  function ReadChunk(strict: bool, s: bytes): Option<(Chunk, bytes)> {
    if |s| < 12 then None else ReadBody(strict, ReadU32(s[..4]), s)
  }

  /** The same, with the length field read. */
  function ReadBody(strict: bool, n: nat, s: bytes): Option<(Chunk, bytes)>
    requires |s| >= 12
  {
    if (strict && n > MAX_FIELD) || |s| < 12 + n then None
    else
      var body := s[4..8 + n];
      if CrcMatches(body, s[8 + n..12 + n]) then Some((Chunk(body[..4], body[4..]), s[12 + n..])) else None
  }

  function ReadChunks(strict: bool, s: bytes): Option<seq<Chunk>>
    decreases |s|
  {
    if s == [] then Some([])
    else
      match ReadChunk(strict, s)
      case None => None
      case Some((c, rest)) =>
        if |rest| >= |s| then None
        else
          match ReadChunks(strict, rest)
          case None => None
          case Some(cs) => Some([c] + cs)
  }

  /** The data of a run of IDAT chunks, joined. */
  function JoinData(cs: seq<Chunk>): Option<bytes> {
    if cs == [] then Some([])
    else if cs[0].kind != IDAT then None
    else
      match JoinData(cs[1..])
      case None => None
      case Some(rest) => Some(cs[0].data + rest)
  }

  function ReadImage(strict: bool, inflate: bytes -> Option<bytes>, cs: seq<Chunk>): Option<Image> {
    if |cs| < 3 || cs[0].kind != IHDR || |cs[0].data| != 13 || cs[|cs| - 1] != Chunk(IEND, []) then None
    else
      var head := cs[0].data;
      var w, h := ReadU32(head[..4]), ReadU32(head[4..8]);
      if head[8..] != [8, 6, 0, 0, 0] then None
      else if strict && !(1 <= w <= MAX_FIELD && 1 <= h <= MAX_FIELD) then None
      else
        match JoinData(cs[1..|cs| - 1])
        case None => None
        case Some(idat) =>
          match inflate(idat)
          case None => None
          case Some(raw) =>
            match Unfilter(raw, w * 4, h)
            case None => None
            case Some(pixels) => Some(Image(w, h, pixels))
  }

  /** Reads a whole file.  `strict` also enforces the limits on lengths and dimensions. */
  function Decode(strict: bool, inflate: bytes -> Option<bytes>, s: bytes): Option<Image> {
    if |s| < 8 || s[..8] != SIGNATURE then None
    else
      match ReadChunks(strict, s[8..])
      case None => None
      case Some(cs) => ReadImage(strict, inflate, cs)
  }

  // ----- the round trip -----

  lemma Slices(a: bytes, b: bytes, c: bytes, d: bytes)
    ensures var s, i, j := a + b + c + d, |a| + |b|, |a| + |b| + |c|;
            s[..|a|] == a && s[|a|..i] == b && s[i..j] == c && s[j..] == d
  {}

  lemma BodyParts(strict: bool, n: nat, s: bytes, body: bytes, crc: bytes, rest: bytes)
    requires |s| >= 12 + n && |body| == n + 4 && |crc| == 4
    requires s[4..8 + n] == body && s[8 + n..12 + n] == crc && s[12 + n..] == rest
    ensures ReadBody(strict, n, s)
         == if (strict && n > MAX_FIELD) || !CrcMatches(body, crc) then None
            else Some((Chunk(body[..4], body[4..]), rest))
  {}

  /** What a reader makes of a chunk with these parts. */
  lemma ReadParts(strict: bool, n: nat, body: bytes, crc: bytes, rest: bytes)
    requires IsU32(n) && |body| == n + 4 && |crc| == 4
    ensures ReadChunk(strict, U32BE(n) + body + crc + rest)
         == if (strict && n > MAX_FIELD) || !CrcMatches(body, crc) then None
            else Some((Chunk(body[..4], body[4..]), rest))
  {
    U32RoundTrip(n);
    Slices(U32BE(n), body, crc, rest);
    BodyParts(strict, n, U32BE(n) + body + crc + rest, body, crc, rest);
  }

  lemma CrcFieldMatches(body: bytes, good: bytes)
    ensures CrcMatches(body, CrcField(good)) <==> Crc32.Crc(body) == Crc32.Crc(good)
  {
    U32RoundTrip(Number(Crc32.Crc(good)));
    if Number(Crc32.Crc(body)) == Number(Crc32.Crc(good)) {
      NumberIsInjective(Crc32.Crc(body), Crc32.Crc(good));
    }
  }

  lemma ReadSerialized(strict: bool, c: Chunk, rest: bytes)
    requires Writable(c)
    ensures ReadChunk(strict, Serialize(c) + rest)
         == if strict && |c.data| > MAX_FIELD then None else Some((c, rest))
  {
    var body := c.kind + c.data;
    ReadParts(strict, |c.data|, body, CrcField(body), rest);
    CrcFieldMatches(body, body);
    assert body[..4] == c.kind && body[4..] == c.data;
  }

  /** Some chunk is longer than section 3.2 allows. */
  predicate TooLong(cs: seq<Chunk>) {
    cs != [] && (|cs[0].data| > MAX_FIELD || TooLong(cs[1..]))
  }

  /** Reading a file that starts with a serialized chunk. */
  lemma ReadOneMore(strict: bool, c: Chunk, rest: bytes)
    requires Writable(c)
    ensures ReadChunks(strict, Serialize(c) + rest)
         == if strict && |c.data| > MAX_FIELD then None
            else match ReadChunks(strict, rest)
                 case None => None
                 case Some(cs) => Some([c] + cs)
  {
    ReadSerialized(strict, c, rest);
  }

  lemma {:induction false} ReadSerializedAll(strict: bool, cs: seq<Chunk>)
    requires forall c :: c in cs ==> Writable(c)
    ensures ReadChunks(strict, SerializeAll(cs))
         == if strict && TooLong(cs) then None else Some(cs)
  {
    if cs != [] {
      assert cs[0] in cs;
      ReadOneMore(strict, cs[0], SerializeAll(cs[1..]));
      ReadSerializedAll(strict, cs[1..]);
      assert cs == [cs[0]] + cs[1..];
    }
  }

  ghost predicate InverseOf(inflate: bytes -> Option<bytes>, deflate: bytes -> bytes) {
    forall x: bytes :: inflate(deflate(x)) == Some(x)
  }

  /** What section 3.2 and 4.1.1 of RFC 2083 ask beyond the 32-bit fields. */
  predicate WithinLimits(deflate: bytes -> bytes, w: int, h: int, rgba: bytes)
    requires IsU32(w) && IsU32(h)
  {
    && 1 <= w <= MAX_FIELD && 1 <= h <= MAX_FIELD
    && |deflate(Scanlines(w, h, rgba))| <= MAX_FIELD
  }

  lemma ReadHeader(w: int, h: int)
    requires IsU32(w) && IsU32(h)
    ensures var head := Header(w, h);
            && |head| == 13
            && ReadU32(head[..4]) == w && ReadU32(head[4..8]) == h && head[8..] == [8, 6, 0, 0, 0]
  {
    U32RoundTrip(w);
    U32RoundTrip(h);
    var head := Header(w, h);
    assert head[..4] == U32BE(w) && head[4..8] == U32BE(h);
  }

  /** The image in the three chunks of an encoded file. */
  lemma ReadThreeChunks(strict: bool, inflate: bytes -> Option<bytes>,
                        w: int, h: int, idat: bytes, pixels: bytes)
    requires IsU32(w) && IsU32(h) && |pixels| == Size(w, h)
    requires inflate(idat) == Some(Filtered(pixels, w * 4, h))
    ensures ReadImage(strict, inflate, [Chunk(IHDR, Header(w, h)), Chunk(IDAT, idat), Chunk(IEND, [])])
         == if strict && !(1 <= w <= MAX_FIELD && 1 <= h <= MAX_FIELD) then None
            else Some(Image(w, h, pixels))
  {
    var cs := [Chunk(IHDR, Header(w, h)), Chunk(IDAT, idat), Chunk(IEND, [])];
    ReadHeader(w, h);
    assert cs[1..|cs| - 1] == [cs[1]];
    assert [cs[1]][1..] == [] && idat + [] == idat;
    assert JoinData([cs[1]]) == Some(idat);
    UnfilterFiltered(pixels, w * 4, h);
  }

  /** Reading an encoded file gives the image back.  Without the limits it always does; a strict
      reader accepts the file exactly when the limits hold, which the writer never checks. */
  lemma RoundTrip(strict: bool, deflate: bytes -> bytes, inflate: bytes -> Option<bytes>,
                  w: int, h: int, rgba: bytes)
    requires Encodable(deflate, w, h, rgba) && InverseOf(inflate, deflate)
    ensures Decode(strict, inflate, SIGNATURE + SerializeAll(ImageChunks(deflate, w, h, rgba)))
         == if strict && !WithinLimits(deflate, w, h, rgba) then None
            else Some(Image(w, h, Fit(rgba, Size(w, h))))
  {
    var cs := ImageChunks(deflate, w, h, rgba);
    var file := SIGNATURE + SerializeAll(cs);
    var pixels := Fit(rgba, Size(w, h));
    assert file[..8] == SIGNATURE && file[8..] == SerializeAll(cs);
    ReadSerializedAll(strict, cs);
    TooLongOfThree(cs[0], cs[1], cs[2]);
    ReadThreeChunks(strict, inflate, w, h, cs[1].data, pixels);
  }

  lemma TooLongOfThree(a: Chunk, b: Chunk, c: Chunk)
    ensures TooLong([a, b, c])
        <==> |a.data| > MAX_FIELD || |b.data| > MAX_FIELD || |c.data| > MAX_FIELD
  {
    assert [a, b, c][1..] == [b, c] && [b, c][1..] == [c];
    assert TooLong([c]) <==> |c.data| > MAX_FIELD;
  }

  /** The pixels survive exactly when the buffer has the size the dimensions ask for. */
  lemma PixelsSurvive(rgba: bytes, n: nat)
    ensures Fit(rgba, n) == rgba <==> |rgba| == n
  {
    if |rgba| == n {
      assert rgba[..n] == rgba;
    }
  }

  /** Whatever undoes `deflate`, decoding the file gives back exactly this image. */
  ghost predicate Saves(deflate: bytes -> bytes, w: int, h: int, rgba: bytes, file: bytes) {
    forall inflate: bytes -> Option<bytes> ::
      InverseOf(inflate, deflate) ==> Decode(false, inflate, file) == Some(Image(w, h, rgba))
  }

  /** An image whose buffer has the right size comes back as it was. */
  lemma EncodedSaves(deflate: bytes -> bytes, w: int, h: int, rgba: bytes)
    requires Encodable(deflate, w, h, rgba) && |rgba| == Size(w, h)
    ensures Saves(deflate, w, h, rgba, SIGNATURE + SerializeAll(ImageChunks(deflate, w, h, rgba)))
  {
    var file := SIGNATURE + SerializeAll(ImageChunks(deflate, w, h, rgba));
    forall inflate: bytes -> Option<bytes> | InverseOf(inflate, deflate)
      ensures Decode(false, inflate, file) == Some(Image(w, h, rgba))
    {
      RoundTrip(false, deflate, inflate, w, h, rgba);
      PixelsSurvive(rgba, Size(w, h));
    }
  }

  // ----- damage -----

  /** A chunk whose type and data were hit by a burst of at most 32 bits under an intact length and
      CRC field: no reader takes it. */
  lemma DamagedChunkIsRejected(strict: bool, c: Chunk, body: bytes, i: nat, n: nat, rest: bytes)
    requires Writable(c) && body != c.kind + c.data
    requires n <= 32 && Crc32.DifferOnlyInBits(c.kind + c.data, body, i, n)
    ensures ReadChunk(strict, U32BE(|c.data|) + body + CrcField(c.kind + c.data) + rest) == None
  {
    Crc32.BurstIsDetected(c.kind + c.data, body, i, n);
    CrcFieldMatches(body, c.kind + c.data);
    ReadParts(strict, |c.data|, body, CrcField(c.kind + c.data), rest);
  }

  lemma U32FieldRoundTrip(s: bytes)
    requires |s| == 4
    ensures U32BE(ReadU32(s)) == s
  {
    var n := ReadU32(s);
    var high := (s[0] as int) * 256 + s[1] as int;
    assert n == high * 0x1_0000 + (s[2] as int) * 256 + s[3] as int;
    assert n / 256 == high * 256 + s[2] as int && n / 0x1_0000 == high;
  }

  /** A word as a CRC field. */
  function WordField(w: bv32): (s: bytes)
    ensures |s| == 4
  {
    U32BE(Number(w))
  }

  lemma MatchesIff(body: bytes, field: bytes)
    requires |field| == 4
    ensures CrcMatches(body, field) <==> field == WordField(Crc32.Crc(body))
  {
    U32FieldRoundTrip(field);
    U32RoundTrip(Number(Crc32.Crc(body)));
  }

  /** Damage to the CRC field alone never goes unnoticed. */
  lemma DamagedFieldIsRejected(strict: bool, c: Chunk, field: bytes, rest: bytes)
    requires Writable(c) && |field| == 4 && field != CrcField(c.kind + c.data)
    ensures ReadChunk(strict, U32BE(|c.data|) + (c.kind + c.data) + field + rest) == None
  {
    ReadParts(strict, |c.data|, c.kind + c.data, field, rest);
    MatchesIff(c.kind + c.data, field);
  }

  lemma TakenIff(strict: bool, n: nat, body: bytes, field: bytes, w: bv32, rest: bytes)
    requires IsU32(n) && |body| == n + 4 && |field| == 4 && !(strict && n > MAX_FIELD) && Crc32.Crc(body) == w
    ensures ReadChunk(strict, U32BE(n) + body + field + rest).Some? <==> field == WordField(w)
  {
    ReadParts(strict, n, body, field, rest);
    MatchesIff(body, field);
  }

  /** Damage to type, data and CRC field together: with a burst of at most 32 bits in type and data, the
      chunk is taken exactly when the field was changed by the burst's syndrome, which does not depend on
      the data.  So of the bursts across the boundary exactly these are missed. */
  lemma DamageIsMissedIff(strict: bool, c: Chunk, body: bytes, i: nat, n: nat, field: bytes, rest: bytes)
    requires Writable(c) && !(strict && |c.data| > MAX_FIELD) && |field| == 4
    requires n <= 32 && Crc32.DifferOnlyInBits(c.kind + c.data, body, i, n)
    ensures ReadChunk(strict, U32BE(|c.data|) + body + field + rest).Some?
       <==> field == WordField(Xor(Crc32.Crc(c.kind + c.data), Crc32.BurstSyndrome(c.kind + c.data, body, i, n)))
  {
    var good := c.kind + c.data;
    Crc32.CrcDifference(good, body, i, n);
    TakenIff(strict, |c.data|, body, field, Xor(Crc32.Crc(good), Crc32.BurstSyndrome(good, body, i, n)), rest);
  }

  function FlipLast(bits: seq<bool>): (r: seq<bool>)
    requires bits != []
    ensures |r| == |bits|
  {
    bits[..|bits| - 1] + [!bits[|bits| - 1]]
  }

  lemma LastSplits(bits: seq<bool>)
    requires bits != []
    ensures bits == bits[..|bits| - 1] + [bits[|bits| - 1]]
  {}

  /** The type and data of a chunk with the last bit flipped. */
  function Flipped(body: bytes): (r: bytes)
    requires body != []
    ensures |r| == |body|
  {
    Crc32.BytesOf(FlipLast(Crc32.Bits(body)))
  }

  lemma FlippedBits(body: bytes)
    requires body != []
    ensures var x := Crc32.Bits(body);
            var pre, last := x[..|x| - 1], x[|x| - 1];
            x == pre + [last] && Crc32.Bits(Flipped(body)) == pre + [!last]
  {
    Crc32.BitsOfBytes(FlipLast(Crc32.Bits(body)));
    LastSplits(Crc32.Bits(body));
  }

  /** The transmitted bits of a field from the 25th on. */
  lemma FieldBits(w: bv32)
    ensures Crc32.Bits(WordField(w))[24..] == LowBits(8, w)
  {
    var s := WordField(w);
    assert s == s[..3] + [s[3]];
    Crc32.BitsConcat(s[..3], [s[3]]);
    assert Crc32.Bits([s[3]]) == IntBits(8, s[3]) + [];
    LowByteBits(w);
  }

  /** Fields of words that do not differ in bits 6 and 7 agree in their last two transmitted bits. */
  lemma FieldTail(w: bv32, p: bv32)
    requires !LowBits(8, p)[6] && !LowBits(8, p)[7]
    ensures Crc32.Bits(WordField(Xor(w, p)))[30..] == Crc32.Bits(WordField(w))[30..]
  {
    FieldBits(w);
    FieldBits(Xor(w, p));
    LowBitsXor(8, w, p, 6);
    LowBitsXor(8, w, p, 7);
    LastTwo(Crc32.Bits(WordField(w)));
    LastTwo(Crc32.Bits(WordField(Xor(w, p))));
  }

  lemma LastTwo(s: seq<bool>)
    requires |s| == 32
    ensures s[30..] == [s[24..][6], s[24..][7]]
  {}

  /** There are such bursts in every chunk, of 31 bits only: the CRC is sent with its high byte first, but
      each byte with its low bit first, so a burst across the boundary is not one burst to the CRC. */
  lemma BoundaryBurstIsMissed(c: Chunk, rest: bytes)
    requires Writable(c)
    ensures var good := c.kind + c.data;
            var bad := Flipped(good);
            && bad != good && |bad| == |good|
            && Crc32.DifferOnlyInBits(good + CrcField(good), bad + CrcField(bad), 8 * |good| - 1, 31)
            && ReadChunk(false, U32BE(|c.data|) + bad + CrcField(bad) + rest)
               == Some((Chunk(bad[..4], bad[4..]), rest))
  {
    FlipIsMissed(c.kind + c.data);
    var bad := Flipped(c.kind + c.data);
    ReadParts(false, |c.data|, bad, CrcField(bad), rest);
    CrcFieldMatches(bad, bad);
  }

  lemma FlipIsMissed(good: bytes)
    requires good != []
    ensures var bad := Flipped(good);
            bad != good
            && Crc32.DifferOnlyInBits(good + CrcField(good), bad + CrcField(bad), 8 * |good| - 1, 31)
  {
    var x, bad := Crc32.Bits(good), Flipped(good);
    var pre, last := x[..|x| - 1], x[|x| - 1];
    FlippedBits(good);
    assert (pre + [last])[|pre|] == last && (pre + [!last])[|pre|] != last;
    FieldsAgree(good, bad, pre, last);
    BoundaryBurst(good, bad, CrcField(good), CrcField(bad), pre, last);
  }

  lemma FieldsAgree(a: bytes, b: bytes, pre: seq<bool>, last: bool)
    requires Crc32.Bits(a) == pre + [last] && Crc32.Bits(b) == pre + [!last]
    ensures Crc32.Bits(CrcField(a))[30..] == Crc32.Bits(CrcField(b))[30..]
  {
    Crc32.LastBitFlipped(a, b, pre, last);
    Crc32.PolynomialGap();
    FieldTail(Crc32.Crc(a), Crc32.POLYNOMIAL);
  }

  lemma BoundaryBurst(a: bytes, b: bytes, f: bytes, g: bytes, pre: seq<bool>, last: bool)
    requires Crc32.Bits(a) == pre + [last] && Crc32.Bits(b) == pre + [!last] && |a| == |b|
    requires |f| == |g| == 4 && Crc32.Bits(f)[30..] == Crc32.Bits(g)[30..]
    ensures 8 * |a| == |pre| + 1 && Crc32.DifferOnlyInBits(a + f, b + g, |pre|, 31)
  {
    Crc32.BitsConcat(a, f);
    Crc32.BitsConcat(b, g);
    BitsAround(pre, last, Crc32.Bits(f));
    BitsAround(pre, !last, Crc32.Bits(g));
  }

  lemma BitsAround(pre: seq<bool>, last: bool, field: seq<bool>)
    requires |field| == 32
    ensures var s := pre + [last] + field; s[..|pre|] == pre && s[|pre| + 31..] == field[30..]
  {}

  lemma SerializeHead(before: seq<Chunk>, bad: bytes)
    requires before != [] && forall b :: b in before ==> Writable(b)
    ensures SerializeAll(before) + bad == Serialize(before[0]) + (SerializeAll(before[1..]) + bad)
  {
    Associative(Serialize(before[0]), SerializeAll(before[1..]), bad);
  }

  /** A tail that does not start with a chunk spoils the file, whatever comes before it. */
  lemma {:induction false} BadTailSpoilsFile(strict: bool, before: seq<Chunk>, bad: bytes)
    requires forall b :: b in before ==> Writable(b)
    requires bad != [] && ReadChunk(strict, bad) == None
    ensures ReadChunks(strict, SerializeAll(before) + bad) == None
  {
    if before == [] {
      assert SerializeAll(before) + bad == bad;
    } else {
      SerializeHead(before, bad);
      BadTailSpoilsFile(strict, before[1..], bad);
      ReadOneMore(strict, before[0], SerializeAll(before[1..]) + bad);
    }
  }

  /** A file with a damaged chunk anywhere among its chunks has no image. */
  lemma DamagedFileIsRejected(strict: bool, inflate: bytes -> Option<bytes>, before: seq<Chunk>,
                              c: Chunk, body: bytes, i: nat, n: nat, rest: bytes)
    requires forall b :: b in before ==> Writable(b)
    requires Writable(c) && body != c.kind + c.data
    requires n <= 32 && Crc32.DifferOnlyInBits(c.kind + c.data, body, i, n)
    ensures var bad := U32BE(|c.data|) + body + CrcField(c.kind + c.data) + rest;
            Decode(strict, inflate, SIGNATURE + (SerializeAll(before) + bad)) == None
  {
    var bad := U32BE(|c.data|) + body + CrcField(c.kind + c.data) + rest;
    DamagedChunkIsRejected(strict, c, body, i, n, rest);
    BadTailSpoilsFile(strict, before, bad);
    assert (SIGNATURE + (SerializeAll(before) + bad))[8..] == SerializeAll(before) + bad;
  }
}
