/** The frame of a table file: block handles, stored blocks with their trailers, and the footer. */
module TableFormat {
  import opened Coding
  import opened Wrappers
  import LogFormat

  // ---- Handles ----

  /** Where a block is, and how many bytes it takes without its trailer. */
  datatype Handle = Handle(offset: Quad, size: Quad)

  function EncodeHandle(h: Handle): (s: Bytes) {
    Varint(h.offset) + Varint(h.size)
  }

  function DecodeHandle(s: Bytes): (r: Option<(Handle, Bytes)>) {
    var offset := GetVarint64(s);
    if offset.None? then None else
    var size := GetVarint64(offset.value.1);
    if size.None? then None else Some((Handle(offset.value.0, size.value.0), size.value.1))
  }

  lemma HandleRoundTrip(h: Handle, rest: Bytes)
    ensures DecodeHandle(EncodeHandle(h) + rest) == Some((h, rest))
  {
    assert EncodeHandle(h) + rest == Varint(h.offset) + (Varint(h.size) + rest);
    Varint64RoundTrip(h.offset, Varint(h.size) + rest);
    Varint64RoundTrip(h.size, rest);
  }

  const MAX_HANDLE_SIZE: nat := 20

  lemma HandleLength(h: Handle)
    ensures |EncodeHandle(h)| <= MAX_HANDLE_SIZE
  {
    var most := 10;
    Quad64Fits(h.offset, most);
    Quad64Fits(h.size, most);
    VarintLength(h.offset, most);
    VarintLength(h.size, most);
  }

  // ---- The footer ----

  const FOOTER_SIZE: nat := 48
  const MAGIC_LOW: Word := 0x8b80_fb57
  const MAGIC_HIGH: Word := 0xdb47_7524

  datatype Footer = Footer(metaindex: Handle, index: Handle)

  /** Both handles, padded to forty bytes, and the magic number. */
  function EncodeFooter(f: Footer): (s: Bytes)
    ensures |s| == FOOTER_SIZE
  {
    HandleLength(f.metaindex);
    HandleLength(f.index);
    var handles := EncodeHandle(f.metaindex) + EncodeHandle(f.index);
    handles + seq(2 * MAX_HANDLE_SIZE - |handles|, _ => 0) + EncodeFixed32(MAGIC_LOW) + EncodeFixed32(MAGIC_HIGH)
  }

  function DecodeFooter(s: Bytes): (r: Option<Footer>)
    requires |s| == FOOTER_SIZE
  {
    if DecodeFixed32(s[40..]) != MAGIC_LOW || DecodeFixed32(s[44..]) != MAGIC_HIGH then None else
    var metaindex := DecodeHandle(s);
    if metaindex.None? then None else
    var index := DecodeHandle(metaindex.value.1);
    if index.None? then None else Some(Footer(metaindex.value.0, index.value.0))
  }

  lemma FooterRoundTrip(f: Footer)
    ensures DecodeFooter(EncodeFooter(f)) == Some(f)
  {
    HandleLength(f.metaindex);
    HandleLength(f.index);
    var handles := EncodeHandle(f.metaindex) + EncodeHandle(f.index);
    var padding: Bytes := seq(2 * MAX_HANDLE_SIZE - |handles|, _ => 0);
    var low, high := EncodeFixed32(MAGIC_LOW), EncodeFixed32(MAGIC_HIGH);
    var s := EncodeFooter(f);
    var tail := EncodeHandle(f.index) + (padding + low + high);
    assert s == handles + padding + low + high;
    assert s == EncodeHandle(f.metaindex) + tail;
    HandleRoundTrip(f.metaindex, tail);
    HandleRoundTrip(f.index, padding + low + high);
    assert s[40..] == low + high && s[44..] == high;
    WordRead(low, high);
    WordRead(high, []);
  }

  lemma WordRead(word: Bytes, rest: Bytes)
    requires |word| == 4
    ensures DecodeFixed32(word + rest) == DecodeFixed32(word)
    ensures forall w: Word :: word == EncodeFixed32(w) ==> DecodeFixed32(word + rest) == w
  {
    forall w: Word | word == EncodeFixed32(w) ensures DecodeFixed32(word + rest) == w {
      Fixed32RoundTrip(w);
    }
  }

  // ---- Stored blocks ----

  const TRAILER_SIZE: nat := 5

  /** The checksum and the compressor of the platform, and whether reads verify checksums. */
  datatype Platform = Platform(
    crc: Bytes -> Word, compress: Bytes -> Option<Bytes>, uncompress: Bytes -> Option<Bytes>, verify: bool)

  ghost predicate LawfulCodec(p: Platform) {
    forall raw :: p.compress(raw).Some? ==> p.uncompress(p.compress(raw).value) == Some(raw)
  }

  /** Compressed bytes are kept if they save an eighth. */
  function Compressed(p: Platform, raw: Bytes): (r: Option<Bytes>) {
    var c := p.compress(raw);
    if c.Some? && |c.value| < |raw| - |raw| / 8 then c else None
  }

  /** Compressed bytes are stored exactly when they save more than an eighth of the block. */
  lemma CompressionPays(p: Platform, raw: Bytes)
    requires p.compress(raw).Some?
    ensures Compressed(p, raw).Some? <==> |raw| - |p.compress(raw).value| > |raw| / 8
    ensures Compressed(p, raw).Some? ==> 8 * |StoredData(p, raw)| < 7 * |raw| + 8
    ensures Compressed(p, raw).None? ==> StoredData(p, raw) == raw
  {
  }

  function Trailer(p: Platform, data: Bytes, kind: Byte): (s: Bytes)
    ensures |s| == TRAILER_SIZE
  {
    [kind] + EncodeFixed32(LogFormat.Mask(p.crc(data + [kind])))
  }

  /** What is stored for a block, without its trailer. */
  function StoredData(p: Platform, raw: Bytes): (s: Bytes)
    ensures |s| <= |raw|
  {
    var c := Compressed(p, raw);
    if c.Some? then c.value else raw
  }

  function StoredBlock(p: Platform, raw: Bytes): (s: Bytes)
    ensures |s| == |StoredData(p, raw)| + TRAILER_SIZE
  {
    StoredData(p, raw) + Trailer(p, StoredData(p, raw), if Compressed(p, raw).Some? then 1 else 0)
  }

  /** A block stored as it is. */
  function RawBlock(p: Platform, raw: Bytes): (s: Bytes)
    ensures |s| == |raw| + TRAILER_SIZE
  {
    raw + Trailer(p, raw, 0)
  }

  function ReadBlock(p: Platform, file: Bytes, h: Handle): (r: Option<Bytes>) {
    if h.offset + h.size + TRAILER_SIZE > |file| then None
    else
      var data := file[h.offset..h.offset + h.size];
      var trailer := file[h.offset + h.size..h.offset + h.size + TRAILER_SIZE];
      if p.verify && LogFormat.Unmask(DecodeFixed32(trailer[1..])) != p.crc(data + [trailer[0]]) then None
      else if trailer[0] == 0 then Some(data)
      else if trailer[0] == 1 then p.uncompress(data)
      else None
  }

  lemma TrailerChecks(p: Platform, data: Bytes, kind: Byte)
    ensures Trailer(p, data, kind)[0] == kind
    ensures LogFormat.Unmask(DecodeFixed32(Trailer(p, data, kind)[1..])) == p.crc(data + [kind])
  {
    var masked := LogFormat.Mask(p.crc(data + [kind]));
    assert Trailer(p, data, kind)[1..] == EncodeFixed32(masked);
    Fixed32RoundTrip(masked);
    LogFormat.UnmaskUndoesMask(p.crc(data + [kind]));
  }

  lemma ThreeParts(a: Bytes, b: Bytes, c: Bytes, d: Bytes)
    ensures var s := a + (b + c) + d;
      s[|a|..|a| + |b|] == b && s[|a| + |b|..|a| + |b| + |c|] == c && |s| >= |a| + |b| + |c|
  {
  }

  /** A stored block reads back, wherever it lies in the file. */
  lemma StoredReadsBack(p: Platform, front: Bytes, raw: Bytes, rest: Bytes)
    requires LawfulCodec(p) && |front| < 0x1_0000_0000_0000_0000 && |StoredData(p, raw)| < 0x1_0000_0000_0000_0000
    ensures ReadBlock(p, front + StoredBlock(p, raw) + rest, Handle(|front|, |StoredData(p, raw)|)) == Some(raw)
  {
    var data, kind := StoredData(p, raw), if Compressed(p, raw).Some? then 1 else 0;
    ThreeParts(front, data, Trailer(p, data, kind), rest);
    TrailerChecks(p, data, kind);
  }

  lemma RawReadsBack(p: Platform, front: Bytes, raw: Bytes, rest: Bytes)
    requires |front| < 0x1_0000_0000_0000_0000 && |raw| < 0x1_0000_0000_0000_0000
    ensures ReadBlock(p, front + RawBlock(p, raw) + rest, Handle(|front|, |raw|)) == Some(raw)
  {
    ThreeParts(front, raw, Trailer(p, raw, 0), rest);
    TrailerChecks(p, raw, 0);
  }

  /** Blocks stay readable as the file grows. */
  lemma GrowingKeepsBlocks(p: Platform, file: Bytes, more: Bytes, h: Handle)
    requires h.offset + h.size + TRAILER_SIZE <= |file|
    ensures ReadBlock(p, file + more, h) == ReadBlock(p, file, h)
  {
    var a, b, c := h.offset, h.offset + h.size, h.offset + h.size + TRAILER_SIZE;
    assert (file + more)[a..b] == file[a..b] && (file + more)[b..c] == file[b..c];
  }
}
