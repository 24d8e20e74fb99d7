/** Packed directory records (src/filesystems/vfs_readdir.c lines 87-169) as sequences of bytes:
    what a fill holds and what a reader that walks by d_reclen gets out of it. */
module DirentSpec {

  type Byte = x: int | 0 <= x < 256

  /** struct dirent64 has 8-byte d_ino and d_off and a d_type; struct dirent has 4-byte ones and none. */
  datatype Layout = Dirent64 | Dirent {
    function Width(): nat {
      if Dirent64? then 8 else 4
    }

    /** Where d_name starts. */
    function NameAt(): nat {
      if Dirent64? then 19 else 10
    }
  }

  /** struct okfs_dirent without the link to the next one; name_len is strlen(name). */
  datatype Entry = Entry(name: seq<Byte>, ino: nat, kind: nat)

  /** What a reader of a record sees; `kind` is 0 where the layout has no d_type. */
  datatype Item = Item(name: seq<Byte>, ino: nat, off: nat, kind: Byte)

  function Pow256(n: nat): (p: nat)
    ensures p > 0
  {
    if n == 0 then 1 else 256 * Pow256(n - 1)
  }

  /** The n low bytes of v, least significant first. */
  function LittleEndian(v: nat, n: nat): (b: seq<Byte>)
    ensures |b| == n
    decreases n, v
  {
    if n == 0 then [] else [v % 256] + LittleEndian(v / 256, n - 1)
  }

  function Number(b: seq<Byte>): nat {
    if b == [] then 0 else b[0] + 256 * Number(b[1..])
  }

  lemma AtLeastOnce(k: int, m: int)
    requires k >= 1 && m >= 0
    ensures k * m >= m
  {
    assert (k - 1) * m >= 0;
  }

  lemma RemainderIs(x: int, m: int, a: int, s: int)
    requires m > 0 && 0 <= s < m && x == m * a + s
    ensures x % m == s
  {
    var k := x / m;
    assert x == m * k + x % m;
    assert (k - a) * m == s - x % m;
    if k > a {
      AtLeastOnce(k - a, m);
    } else if k < a {
      AtLeastOnce(a - k, m);
    }
  }

  lemma RemainderByBytes(v: nat, p: nat)
    requires p > 0
    ensures v % 256 + 256 * ((v / 256) % p) == v % (256 * p)
  {
    var q, r := v / 256, v % 256;
    var a, b := q / p, q % p;
    assert q == p * a + b;
    assert v == 256 * (p * a + b) + r;
    assert 256 * (p * a) == (256 * p) * a;
    RemainderIs(v, 256 * p, a, 256 * b + r);
  }

  lemma {:induction false} NumberOf(v: nat, n: nat)
    ensures Number(LittleEndian(v, n)) == v % Pow256(n)
  {
    if n > 0 {
      NumberOf(v / 256, n - 1);
      RemainderByBytes(v, Pow256(n - 1));
      assert LittleEndian(v, n)[1..] == LittleEndian(v / 256, n - 1);
    }
  }

  /** Everything before the first NUL. */
  function Name(b: seq<Byte>): seq<Byte> {
    if b == [] || b[0] == 0 then [] else [b[0]] + Name(b[1..])
  }

  lemma {:induction false} NameIs(name: seq<Byte>, rest: seq<Byte>)
    requires 0 !in name
    ensures Name(name + [0] + rest) == name
  {
    var b := name + [0] + rest;
    if name != [] {
      NameIs(name[1..], rest);
      assert b[0] == name[0] && b[0] in name;
      assert b[1..] == name[1..] + [0] + rest;
      assert name == [name[0]] + name[1..];
    }
  }

  function Header(l: Layout, ino: nat, off: nat, reclen: nat, kind: nat): (b: seq<Byte>)
    ensures |b| == l.NameAt()
  {
    LittleEndian(ino, l.Width()) + LittleEndian(off, l.Width()) + LittleEndian(reclen, 2) + Kind(l, kind)
  }

  function Kind(l: Layout, kind: nat): seq<Byte> {
    if l.Dirent64? then [kind % 256] else []
  }

  /** A record: header, name, NUL and, in records of the kernel, padding. */
  function Record(l: Layout, name: seq<Byte>, ino: nat, off: nat, kind: nat, pad: seq<Byte>): (b: seq<Byte>)
    ensures |b| == l.NameAt() + |name| + 1 + |pad|
  {
    Header(l, ino, off, l.NameAt() + |name| + 1 + |pad|, kind) + (name + [0] + pad)
  }

  /** d_reclen of the record at the front. */
  function RecLen(l: Layout, b: seq<Byte>): nat
    requires |b| >= l.NameAt()
  {
    Number(b[2 * l.Width()..2 * l.Width() + 2])
  }

  /** The record at the front, read field by field. */
  function First(l: Layout, b: seq<Byte>): Item
    requires |b| >= l.NameAt()
  {
    var w := l.Width();
    Item(Name(b[l.NameAt()..]), Number(b[..w]), Number(b[w..2 * w]), if l.Dirent64? then b[18] else 0)
  }

  /** What a record is meant to say: the numbers as far as their fields hold them. */
  function Meant(l: Layout, name: seq<Byte>, ino: nat, off: nat, kind: nat): Item {
    Item(name, ino % Pow256(l.Width()), off % Pow256(l.Width()), if l.Dirent64? then kind % 256 else 0)
  }

  /** The fields of a record, and the places where a reader looks for them. */
  lemma Parts(b: seq<Byte>, i: seq<Byte>, o: seq<Byte>, r: seq<Byte>, t: seq<Byte>, tail: seq<Byte>, rest: seq<Byte>)
    requires |i| == |o| && |r| == 2 && b == (i + o + r + t + tail) + rest
    ensures |b| >= 2 * |i| + 2 + |t|
    ensures b[..|i|] == i && b[|i|..2 * |i|] == o && b[2 * |i|..2 * |i| + 2] == r
    ensures b[2 * |i| + 2..2 * |i| + 2 + |t|] == t && b[2 * |i| + 2 + |t|..] == tail + rest
  {
  }

  lemma FieldsRead(l: Layout, b: seq<Byte>, i: seq<Byte>, o: seq<Byte>, r: seq<Byte>, t: seq<Byte>, tail: seq<Byte>, rest: seq<Byte>)
    requires |i| == |o| == l.Width() && |r| == 2 && |t| == (if l.Dirent64? then 1 else 0)
    requires b == (i + o + r + t + tail) + rest
    ensures |b| >= l.NameAt() && RecLen(l, b) == Number(r)
    ensures First(l, b) == Item(Name(tail + rest), Number(i), Number(o), if l.Dirent64? then t[0] else 0)
  {
    Parts(b, i, o, r, t, tail, rest);
    assert l.Dirent64? ==> b[18] == b[18..19][0];
  }

  lemma NameOf(name: seq<Byte>, pad: seq<Byte>, rest: seq<Byte>)
    requires 0 !in name
    ensures Name((name + [0] + pad) + rest) == name
  {
    NameIs(name, pad + rest);
    assert (name + [0] + pad) + rest == name + [0] + (pad + rest);
  }

  lemma ShortNumber(n: nat)
    requires n < 65536
    ensures Number(LittleEndian(n, 2)) == n
  {
    NumberOf(n, 2);
    assert Pow256(2) == 256 * Pow256(1) == 65536;
  }

  /** Reading undoes packing, whatever follows the record. */
  lemma RecordReads(l: Layout, name: seq<Byte>, ino: nat, off: nat, kind: nat, pad: seq<Byte>, rest: seq<Byte>)
    requires 0 !in name && l.NameAt() + |name| + 1 + |pad| < 65536
    ensures var b := Record(l, name, ino, off, kind, pad) + rest;
            First(l, b) == Meant(l, name, ino, off, kind) && RecLen(l, b) == l.NameAt() + |name| + 1 + |pad|
  {
    var n, w := l.NameAt() + |name| + 1 + |pad|, l.Width();
    var i, o, r, t := LittleEndian(ino, w), LittleEndian(off, w), LittleEndian(n, 2), Kind(l, kind);
    NumberOf(ino, w);
    NumberOf(off, w);
    ShortNumber(n);
    NameOf(name, pad, rest);
    FieldsRead(l, Record(l, name, ino, off, kind, pad) + rest, i, o, r, t, name + [0] + pad, rest);
  }

  function Cut(name: seq<Byte>): seq<Byte> {
    if |name| <= 255 then name else name[..255]
  }

  /** The record that creat_dirent64 or creat_dirent makes of an entry at offset off. */
  function RecordOf(l: Layout, e: Entry, off: nat): (b: seq<Byte>)
    ensures |b| == Size(l, e)
  {
    Record(l, Cut(e.name), e.ino, off, e.kind, [])
  }

  function Size(l: Layout, e: Entry): nat {
    l.NameAt() + |Cut(e.name)| + 1
  }

  /** The offset of entry k: the name lengths in front of it. */
  function Offset(dir: seq<Entry>, k: nat): nat
    requires k <= |dir|
  {
    if k == 0 then 0 else Offset(dir, k - 1) + |dir[k - 1].name|
  }

  /** The record of every entry of a list. */
  function Records(l: Layout, dir: seq<Entry>): (rs: seq<seq<Byte>>)
    ensures |rs| == |dir|
  {
    FirstRecords(l, dir, |dir|)
  }

  function FirstRecords(l: Layout, dir: seq<Entry>, n: nat): (rs: seq<seq<Byte>>)
    requires n <= |dir|
    ensures |rs| == n
  {
    if n == 0 then [] else FirstRecords(l, dir, n - 1) + [RecordOf(l, dir[n - 1], Offset(dir, n - 1))]
  }

  lemma {:induction false} FirstRecordsAt(l: Layout, dir: seq<Entry>, n: nat, k: nat)
    requires k < n <= |dir|
    ensures FirstRecords(l, dir, n)[k] == RecordOf(l, dir[k], Offset(dir, k))
  {
    if k < n - 1 {
      FirstRecordsAt(l, dir, n - 1, k);
    }
  }

  /** The records from j up to k behind each other. */
  function Packed(rs: seq<seq<Byte>>, j: nat, k: nat): seq<Byte>
    requires j <= k <= |rs|
    decreases k - j
  {
    if j == k then [] else rs[j] + Packed(rs, j + 1, k)
  }

  function PackedSize(rs: seq<seq<Byte>>, j: nat, k: nat): nat
    requires j <= k <= |rs|
  {
    if j == k then 0 else PackedSize(rs, j, k - 1) + |rs[k - 1]|
  }

  /** The item a reader should find for every entry of a list. */
  function Items(l: Layout, dir: seq<Entry>): (items: seq<Item>)
    ensures |items| == |dir| && forall k :: 0 <= k < |dir| ==> items[k] == ItemOf(l, dir[k], Offset(dir, k))
  {
    seq(|dir|, k requires 0 <= k < |dir| => ItemOf(l, dir[k], Offset(dir, k)))
  }

  function ItemOf(l: Layout, e: Entry, off: nat): Item {
    Meant(l, Cut(e.name), e.ino, off, e.kind)
  }

  /** Walking by d_reclen to the end of the bytes, or up to a record that is not whole. */
  function Walk(l: Layout, b: seq<Byte>): seq<Item>
    decreases |b|
  {
    if |b| < l.NameAt() || RecLen(l, b) == 0 || RecLen(l, b) > |b| then []
    else [First(l, b)] + Walk(l, b[RecLen(l, b)..])
  }

  /** The record r reads as the item, whatever follows it. */
  ghost predicate ReadsAs(l: Layout, r: seq<Byte>, item: Item) {
    |r| >= l.NameAt() && forall rest :: First(l, r + rest) == item && RecLen(l, r + rest) == |r|
  }

  lemma EntryReads(l: Layout, e: Entry, off: nat)
    requires 0 !in e.name
    ensures ReadsAs(l, RecordOf(l, e, off), ItemOf(l, e, off))
  {
    assert forall x :: x in Cut(e.name) ==> x in e.name;
    forall rest ensures var b := RecordOf(l, e, off) + rest; First(l, b) == ItemOf(l, e, off) && RecLen(l, b) == Size(l, e) {
      RecordReads(l, Cut(e.name), e.ino, off, e.kind, [], rest);
    }
  }

  lemma {:induction false} WalkPacked(l: Layout, rs: seq<seq<Byte>>, items: seq<Item>, j: nat, k: nat)
    requires |rs| == |items| && forall n :: 0 <= n < |rs| ==> ReadsAs(l, rs[n], items[n])
    requires j <= k <= |rs|
    ensures Walk(l, Packed(rs, j, k)) == items[j..k]
    decreases k - j
  {
    if j < k {
      var rest := Packed(rs, j + 1, k);
      WalkPacked(l, rs, items, j + 1, k);
      assert ReadsAs(l, rs[j], items[j]);
      assert (rs[j] + rest)[|rs[j]|..] == rest;
      assert [items[j]] + items[j + 1..k] == items[j..k];
    }
  }

  lemma WalkGivesItems(l: Layout, dir: seq<Entry>, j: nat, k: nat)
    requires j <= k <= |dir| && forall e :: e in dir ==> 0 !in e.name
    ensures Walk(l, Packed(Records(l, dir), j, k)) == Items(l, dir)[j..k]
  {
    forall n | 0 <= n < |dir| ensures ReadsAs(l, Records(l, dir)[n], Items(l, dir)[n]) {
      assert dir[n] in dir;
      FirstRecordsAt(l, dir, |dir|, n);
      EntryReads(l, dir[n], Offset(dir, n));
    }
    WalkPacked(l, Records(l, dir), Items(l, dir), j, k);
  }

  /** All names of a list behind each other. */
  function Names(dir: seq<Entry>): seq<Byte> {
    if dir == [] then [] else Names(dir[..|dir| - 1]) + dir[|dir| - 1].name
  }

  /** The offset of an entry counts the bytes of all names in front of it. */
  lemma {:induction false} OffsetIs(dir: seq<Entry>, k: nat)
    requires k <= |dir|
    ensures Offset(dir, k) == |Names(dir[..k])|
  {
    if k > 0 {
      OffsetIs(dir, k - 1);
      assert dir[..k][..k - 1] == dir[..k - 1];
    }
  }

  lemma Widths(l: Layout)
    ensures Pow256(l.Width()) == if l.Dirent64? then 0x1_0000_0000_0000_0000 else 0x1_0000_0000
  {
    assert Pow256(1) == 0x100 && Pow256(2) == 0x1_0000 && Pow256(3) == 0x100_0000 && Pow256(4) == 0x1_0000_0000;
    assert Pow256(5) == 0x100_0000_0000 && Pow256(6) == 0x1_0000_0000_0000 && Pow256(7) == 0x100_0000_0000_0000;
  }

  /** What a reader is to be told of an entry: at most 255 bytes of its name, and its numbers as far as the
      fields hold them; there is room for a kind in one of the layouts only. */
  ghost predicate Tells(l: Layout, e: Entry, before: seq<Entry>, item: Item) {
    && item.name == (if |e.name| <= 255 then e.name else e.name[..255])
    && item.ino == e.ino % (if l.Dirent64? then 0x1_0000_0000_0000_0000 else 0x1_0000_0000)
    && item.off == |Names(before)| % (if l.Dirent64? then 0x1_0000_0000_0000_0000 else 0x1_0000_0000)
    && item.kind == if l.Dirent64? then e.kind % 256 else 0
  }

  lemma ItemsTell(l: Layout, dir: seq<Entry>, n: nat)
    requires n < |dir|
    ensures Tells(l, dir[n], dir[..n], Items(l, dir)[n])
  {
    OffsetIs(dir, n);
    Widths(l);
  }

  /** A record takes 20 or 11 bytes more than what is kept of the name. */
  lemma RecordSizes(l: Layout, dir: seq<Entry>, n: nat)
    requires n < |dir|
    ensures |Records(l, dir)[n]| == (if l.Dirent64? then 20 else 11) + if |dir[n].name| <= 255 then |dir[n].name| else 255
  {
    FirstRecordsAt(l, dir, |dir|, n);
  }

  /** A reader is told of the entries from j on, one after the other. */
  ghost predicate AllTold(l: Layout, dir: seq<Entry>, j: nat, items: seq<Item>) {
    j + |items| <= |dir| && forall m :: j <= m < j + |items| ==> Tells(l, dir[m], dir[..m], items[m - j])
  }

  lemma ItemsAllTell(l: Layout, dir: seq<Entry>, all: seq<Item>, j: nat, k: nat)
    requires j <= k <= |dir| && all == Items(l, dir)
    ensures AllTold(l, dir, j, all[j..k])
  {
    var items := all[j..k];
    forall m | j <= m < k ensures Tells(l, dir[m], dir[..m], items[m - j]) {
      assert items[m - j] == all[m];
      ItemsTell(l, dir, m);
    }
  }

  /** Walking over a fill gives back exactly its entries: names of up to 255 bytes whole and the first 255
      bytes of longer ones, numbers as far as their fields hold them, and for an offset the bytes of all
      names in front. */
  lemma WalkReadsPacked(l: Layout, dir: seq<Entry>, j: nat, k: nat)
    requires j <= k <= |dir| && forall e :: e in dir ==> 0 !in e.name
    ensures Walk(l, Packed(Records(l, dir), j, k)) == Items(l, dir)[j..k]
    ensures |Walk(l, Packed(Records(l, dir), j, k))| == k - j && AllTold(l, dir, j, Walk(l, Packed(Records(l, dir), j, k)))
  {
    WalkGivesItems(l, dir, j, k);
    ItemsAllTell(l, dir, Items(l, dir), j, k);
  }

  /** k is the first entry at or behind `start`, or the end of the list. */
  ghost predicate FirstFrom(dir: seq<Entry>, start: int, k: nat) {
    k <= |dir| && (forall j :: 0 <= j < k ==> Offset(dir, j) < start) && (k < |dir| ==> start <= Offset(dir, k))
  }

  /** The records from j up to k fit into count bytes and no longer run does. */
  ghost predicate LongestRun(rs: seq<seq<Byte>>, j: nat, k: nat, count: nat) {
    && j <= k <= |rs| && PackedSize(rs, j, k) <= count
    && forall n :: k < n <= |rs| ==> PackedSize(rs, j, n) > count
  }

  lemma {:induction false} SizesGrow(rs: seq<seq<Byte>>, j: nat, k: nat, n: nat)
    requires j <= k <= n <= |rs|
    ensures PackedSize(rs, j, k) <= PackedSize(rs, j, n)
    decreases n
  {
    if k < n {
      SizesGrow(rs, j, k, n - 1);
    }
  }

  lemma StopsAtLongest(rs: seq<seq<Byte>>, j: nat, k: nat, count: nat)
    requires j <= k <= |rs| && PackedSize(rs, j, k) <= count
    requires k < |rs| ==> PackedSize(rs, j, k) + |rs[k]| > count
    ensures LongestRun(rs, j, k, count)
  {
    forall n | k < n <= |rs| ensures PackedSize(rs, j, n) > count {
      SizesGrow(rs, j, k + 1, n);
    }
  }

  /** One more record at the end. */
  lemma {:induction false} PackedMore(rs: seq<seq<Byte>>, j: nat, k: nat)
    requires j <= k < |rs|
    ensures Packed(rs, j, k + 1) == Packed(rs, j, k) + rs[k]
    decreases k - j
  {
    if j == k {
      assert Packed(rs, k + 1, k + 1) == [];
    } else {
      PackedMore(rs, j + 1, k);
      assert rs[j] + (Packed(rs, j + 1, k) + rs[k]) == (rs[j] + Packed(rs, j + 1, k)) + rs[k];
    }
  }
}
