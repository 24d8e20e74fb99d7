/** Little-endian 4-byte words and the masked merge of src/memacc.c lines 62-64. */
module Words {
  type Byte = bv8
  type Word = bv32

  function Pack(b0: Byte, b1: Byte, b2: Byte, b3: Byte): Word {
    (b0 as Word) | ((b1 as Word) << 8) | ((b2 as Word) << 16) | ((b3 as Word) << 24)
  }

  function ByteOf(w: Word, i: nat): Byte
    requires i < 4
  {
    if i == 0 then (w & 0xFF) as Byte
    else if i == 1 then ((w >> 8) & 0xFF) as Byte
    else if i == 2 then ((w >> 16) & 0xFF) as Byte
    else ((w >> 24) & 0xFF) as Byte
  }

  function Unpack(w: Word): (s: seq<Byte>)
    ensures |s| == 4
  {
    [ByteOf(w, 0), ByteOf(w, 1), ByteOf(w, 2), ByteOf(w, 3)]
  }

  lemma UnpackPack(b0: Byte, b1: Byte, b2: Byte, b3: Byte)
    ensures Unpack(Pack(b0, b1, b2, b3)) == [b0, b1, b2, b3]
  {
  }

  /** `word &= mask; word |= *src & ~mask` with mask = ULONG_MAX << 8n. */
  function Merge(prior: Word, src: Word, n: nat): Word
    requires 0 < n < 4
  {
    var mask: Word := if n == 1 then 0xFFFF_FFFF << 8 else if n == 2 then 0xFFFF_FFFF << 16 else 0xFFFF_FFFF << 24;
    (prior & mask) | (src & !mask)
  }

  lemma MergeByte(prior: Word, src: Word, n: nat, i: nat)
    requires 0 < n < 4 && i < 4
    ensures ByteOf(Merge(prior, src, n), i) == if i < n then ByteOf(src, i) else ByteOf(prior, i)
  {
    if n == 1 {
      Merge1(prior, src);
    } else if n == 2 {
      Merge2(prior, src);
    } else {
      Merge3(prior, src);
    }
  }

  lemma Merge1(p: Word, s: Word)
    ensures var m := (p & 0xFFFF_FF00) | (s & 0xFF);
            m & 0xFF == s & 0xFF && (m >> 8) & 0xFF == (p >> 8) & 0xFF &&
            (m >> 16) & 0xFF == (p >> 16) & 0xFF && (m >> 24) & 0xFF == (p >> 24) & 0xFF
  {
  }

  lemma Merge2(p: Word, s: Word)
    ensures var m := (p & 0xFFFF_0000) | (s & 0xFFFF);
            m & 0xFF == s & 0xFF && (m >> 8) & 0xFF == (s >> 8) & 0xFF &&
            (m >> 16) & 0xFF == (p >> 16) & 0xFF && (m >> 24) & 0xFF == (p >> 24) & 0xFF
  {
  }

  lemma Merge3(p: Word, s: Word)
    ensures var m := (p & 0xFF00_0000) | (s & 0xFF_FFFF);
            m & 0xFF == s & 0xFF && (m >> 8) & 0xFF == (s >> 8) & 0xFF &&
            (m >> 16) & 0xFF == (s >> 16) & 0xFF && (m >> 24) & 0xFF == (p >> 24) & 0xFF
  {
  }

  /** The merge takes the first n bytes from src and leaves the others. */
  lemma MergeBytes(prior: Word, src: Word, n: nat)
    requires 0 < n < 4
    ensures Unpack(Merge(prior, src, n)) == Unpack(src)[..n] + Unpack(prior)[n..]
  {
    MergeByte(prior, src, n, 0);
    MergeByte(prior, src, n, 1);
    MergeByte(prior, src, n, 2);
    MergeByte(prior, src, n, 3);
    Mixed(Unpack(Merge(prior, src, n)), Unpack(src), Unpack(prior), n);
  }

  lemma Mixed<T>(u: seq<T>, a: seq<T>, b: seq<T>, n: nat)
    requires |u| == 4 && |a| == 4 && |b| == 4 && n <= 4
    requires u[0] == if 0 < n then a[0] else b[0]
    requires u[1] == if 1 < n then a[1] else b[1]
    requires u[2] == if 2 < n then a[2] else b[2]
    requires u[3] == if 3 < n then a[3] else b[3]
    ensures u == a[..n] + b[n..]
  {
  }
}
