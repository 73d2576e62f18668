/** The formats byte by byte, for numbers small enough to take one byte: what any other
  * implementation of them reads and writes. */
module WireVectors {
  import opened Coding
  import opened Wrappers
  import LogFormat
  import VersionEdits
  import TableFormat
  import TableFiles
  import Separators
  import ProtoMessages
  import ProtoScalars
  import ProtoEncoding

  type Small = n: int | 0 <= n < 128

  lemma OneByte(v: Small)
    ensures Varint(v) == [v]
  {
  }

  lemma TwoBytes(low: Small, high: Small)
    requires high > 0
    ensures Varint(128 * high + low) == [128 + low, high]
  {
    assert (128 * high + low) / 128 == high && (128 * high + low) % 128 == low;
  }

  /** Varints and fixed words put the low bits first, and strings follow their length. */
  lemma IntegersOnTheWire(low: Small, high: Small, b0: Byte, b1: Byte, b2: Byte, b3: Byte, s: Bytes)
    requires high > 0 && |s| < 128
    ensures Varint(low) == [low] && Varint(128 * high + low) == [128 + low, high]
    ensures EncodeFixed32(b0 + 0x100 * b1 + 0x1_0000 * b2 + 0x100_0000 * b3) == [b0, b1, b2, b3]
    ensures LengthPrefixed(s) == [|s|] + s
  {
    TwoBytes(low, high);
    Fixed32Spells([b0, b1, b2, b3]);
  }

  // ---- LevelDB ----

  /** A log record's header where the checksum is zero: masked checksum, length and type. */
  lemma LogHeaderOnTheWire(crc: LogFormat.Crc, p: LogFormat.Phys)
    requires crc.extend(crc.value([LogFormat.TypeByte(p.kind)]), p.payload) == 0 && |p.payload| < 0x1_0000
    ensures LogFormat.Header(crc, p)
      == [0xD8, 0xEA, 0x82, 0xA2, |p.payload| % 256, |p.payload| / 256, LogFormat.TypeByte(p.kind)]
    ensures LogFormat.TypeByte(LogFormat.Full) == 1 && LogFormat.TypeByte(LogFormat.First) == 2
    ensures LogFormat.TypeByte(LogFormat.Middle) == 3 && LogFormat.TypeByte(LogFormat.Last) == 4
  {
    Fixed32Spells([0xD8, 0xEA, 0x82, 0xA2]);
    assert LogFormat.Mask(0) == DecodeFixed32([0xD8, 0xEA, 0x82, 0xA2]);
  }

  /** An internal key: the user key, the type, and seven bytes of sequence number. */
  lemma InternalKeyOnTheWire(user: Bytes, kind: Byte, s0: Byte, s1: Byte, s2: Byte)
    ensures TableFiles.KeyBytes(Separators.Key(user, kind + 256 * (s0 + 0x100 * s1 + 0x1_0000 * s2)))
      == user + [kind, s0, s1, s2, 0, 0, 0, 0]
  {
    Fixed32Spells([kind, s0, s1, s2]);
  }

  lemma ScalarsOnTheWire(n: Small, level: Small)
    ensures VersionEdits.EncodeItem(VersionEdits.LogNumber(n)) == [2, n]
    ensures VersionEdits.EncodeItem(VersionEdits.NextFileNumber(n)) == [3, n]
    ensures VersionEdits.EncodeItem(VersionEdits.LastSequence(n)) == [4, n]
    ensures VersionEdits.EncodeItem(VersionEdits.DeletedFile(level, n)) == [6, level, n]
    ensures VersionEdits.EncodeItem(VersionEdits.PrevLogNumber(n)) == [9, n]
  {
    OneByte(n);
    OneByte(level);
  }

  lemma KeysOnTheWire(level: Small, n: Small, size: Small, a: Bytes, b: Bytes)
    requires |a| < 128 && |b| < 128
    ensures VersionEdits.EncodeItem(VersionEdits.Comparator(a)) == [1, |a|] + a
    ensures VersionEdits.EncodeItem(VersionEdits.CompactPointer(level, a)) == [5, level, |a|] + a
    ensures VersionEdits.EncodeItem(VersionEdits.AddedFile(VersionEdits.NewFile(level, n, size, a, b)))
      == [7, level, n, size, |a|] + a + [|b|] + b
  {
    OneByte(n);
    OneByte(level);
    OneByte(size);
    var sa, sb := LengthPrefixed(a), LengthPrefixed(b);
    assert sa == [|a|] + a && sb == [|b|] + b;
    assert [1] + sa == [1, |a|] + a;
    assert [5] + ([level] + sa) == [5, level, |a|] + a;
    assert [7] + ([level] + ([n] + ([size] + (sa + sb)))) == [7, level, n, size, |a|] + a + [|b|] + b;
  }

  /** A stored block ends in its compression type and the masked checksum of both. */
  lemma TrailerOnTheWire(p: TableFormat.Platform, raw: Bytes)
    requires p.compress(raw).None? && p.crc(raw + [0]) == 0
    ensures TableFormat.StoredBlock(p, raw) == raw + [0, 0xD8, 0xEA, 0x82, 0xA2]
  {
    Fixed32Spells([0xD8, 0xEA, 0x82, 0xA2]);
    assert LogFormat.Mask(0) == DecodeFixed32([0xD8, 0xEA, 0x82, 0xA2]);
  }

  lemma FooterOnTheWire(a: Byte, b: Byte, c: Byte, d: Byte)
    requires a < 128 && b < 128 && c < 128 && d < 128
    ensures TableFormat.EncodeFooter(TableFormat.Footer(TableFormat.Handle(a, b), TableFormat.Handle(c, d)))
      == [a, b, c, d] + seq(36, _ => 0) + [0x57, 0xFB, 0x80, 0x8B, 0x24, 0x75, 0x47, 0xDB]
  {
    Fixed32Spells([0x57, 0xFB, 0x80, 0x8B]);
    Fixed32Spells([0x24, 0x75, 0x47, 0xDB]);
  }

  // ---- Protocol buffers ----

  function FieldOf(tag: nat, ltype: ProtoMessages.LType, size: nat): (f: ProtoMessages.Field) {
    ProtoMessages.Field(tag, ltype, ProtoMessages.Required, size, 0, ProtoMessages.Number(0))
  }

  /** The key is the tag above three bits of wire type. */
  lemma KeyOnTheWire(tag: nat, wire: nat)
    requires 0 < tag < 16 && wire < 8
    ensures ProtoEncoding.Key(tag, wire) == [8 * tag + wire]
  {
    OneByte(8 * tag + wire);
  }

  lemma NumbersOnTheWire(tag: nat, n: Small)
    requires 0 < tag < 16
    ensures ProtoEncoding.Tagged(FieldOf(tag, ProtoMessages.Uint, 4), ProtoMessages.Number(n)) == Some([8 * tag, n])
    ensures ProtoEncoding.Tagged(FieldOf(tag, ProtoMessages.Fixed64, 8), ProtoMessages.Number(n))
      == Some([8 * tag + 1, n, 0, 0, 0, 0, 0, 0, 0])
    ensures ProtoEncoding.Tagged(FieldOf(tag, ProtoMessages.Fixed32, 4), ProtoMessages.Number(n))
      == Some([8 * tag + 5, n, 0, 0, 0])
  {
    KeyOnTheWire(tag, 0);
    KeyOnTheWire(tag, 1);
    KeyOnTheWire(tag, 5);
    OneByte(n);
    assert [8 * tag] + [n] == [8 * tag, n];
    assert ProtoScalars.ToQuad(n) == n;
    assert [8 * tag + 1] + EncodeFixed64(n) == [8 * tag + 1, n, 0, 0, 0, 0, 0, 0, 0];
    assert [8 * tag + 5] + EncodeFixed32(n) == [8 * tag + 5, n, 0, 0, 0];
  }

  lemma DataOnTheWire(tag: nat, d: Bytes)
    requires 0 < tag < 16 && |d| < 100
    ensures ProtoEncoding.Tagged(FieldOf(tag, ProtoMessages.String, 128), ProtoMessages.Data(d))
      == Some([8 * tag + 2, |d|] + d)
    ensures ProtoEncoding.Tagged(FieldOf(tag, ProtoMessages.SizedBytes, 128), ProtoMessages.Data(d))
      == Some([8 * tag + 2, |d|] + d)
  {
    KeyOnTheWire(tag, 2);
    OneByte(|d|);
    assert [8 * tag + 2] + LengthPrefixed(d) == [8 * tag + 2, |d|] + d;
  }

  /** Signed numbers take their places in turn: 0, -1, 1, -2, and so on. */
  lemma ZigzagAlternates(n: int)
    requires -0x8000_0000_0000_0000 <= n < 0x8000_0000_0000_0000
    ensures ProtoScalars.Zigzag(n) == if n >= 0 then 2 * n else -2 * n - 1
  {
  }
}
