/** The loops over directory records: creat_dirent64 and creat_dirent fill a buffer
    (src/filesystems/vfs_readdir.c lines 87-169), localfs_readdir walks one
    (src/filesystems/localfs/localfs.c lines 127-145). */
module Dirents {
  import opened DirentSpec

  const EINVAL := 22

  /** `size`, `count` and their sums are unsigned ints. */
  const UINT_RANGE := 0x1_0000_0000

  /** The fill returns its size as an int: from 2^31 bytes on the result is negative. */
  function AsInt(size: nat): int {
    if size < UINT_RANGE / 2 then size else size - UINT_RANGE
  }

  /** The first loop: entries in front of the position, counted in bytes of their names. */
  method SkipTo(dir: seq<Entry>, start: int) returns (j: nat, i: nat)
    ensures FirstFrom(dir, start, j) && i == Offset(dir, j)
  {
    j, i := 0, 0;
    while j < |dir| && i < start
      invariant j <= |dir| && i == Offset(dir, j)
      invariant forall n :: 0 <= n < j ==> Offset(dir, n) < start
    {
      i := i + |dir[j].name|;
      j := j + 1;
    }
  }

  /** okfs_memcpy of one record to its place in the buffer. */
  method Copy(buf: array<Byte>, at: nat, r: seq<Byte>)
    requires at + |r| <= buf.Length
    modifies buf
    ensures buf[..at + |r|] == old(buf[..at]) + r && buf[at + |r|..] == old(buf[at + |r|..])
  {
    var n := 0;
    while n < |r|
      invariant n <= |r|
      invariant forall k :: at <= k < at + n ==> buf[k] == r[k - at]
      invariant forall k :: 0 <= k < at || at + n <= k < buf.Length ==> buf[k] == old(buf[k])
    {
      buf[at + n] := r[n];
      n := n + 1;
    }
  }

  lemma Advance(whole: seq<Byte>, tail: seq<Byte>, size: nat, n: nat)
    requires size + n <= |whole| && tail == whole[size..]
    ensures tail[n..] == whole[size + n..]
  {
  }

  /** The records from j up to n are in the buffer, the rest of it is as it was. */
  ghost predicate Filled(rs: seq<seq<Byte>>, j: nat, n: nat, b: seq<Byte>, before: seq<Byte>, size: nat) {
    && j <= n <= |rs| && |b| == |before| && size == PackedSize(rs, j, n) <= |b| && (j < n ==> size > 0)
    && b[..size] == Packed(rs, j, n) && b[size..] == before[size..]
  }

  /** Lines 116-118 and 159-161: one more record. */
  method AddRecord(buf: array<Byte>, size: nat, newdir: seq<Byte>, ghost rs: seq<seq<Byte>>, ghost j: nat, ghost n: nat,
                   ghost before: seq<Byte>) returns (size': nat)
    requires Filled(rs, j, n, buf[..], before, size) && n < |rs| && newdir == rs[n] != [] && |newdir| + size <= buf.Length
    modifies buf
    ensures size' == size + |newdir| && Filled(rs, j, n + 1, buf[..], before, size')
  {
    PackedMore(rs, j, n);
    ghost var b := buf[..];
    assert b[..size] == buf[..size] && b[size..] == buf[size..] && b[size + |newdir|..] == buf[size + |newdir|..];
    Advance(before, b[size..], size, |newdir|);
    Advance(b, b[size..], size, |newdir|);
    Copy(buf, size, newdir);
    size' := size + |newdir|;
    assert buf[..][..size'] == buf[..size'] && buf[..][size'..] == buf[size'..];
  }

  /** Lines 104-113 and 148-156: the structure newdir. */
  method NewDir(l: Layout, dir: seq<Entry>, n: nat, i: nat, ghost rs: seq<seq<Byte>>) returns (newdir: seq<Byte>)
    requires n < |dir| && i == Offset(dir, n) && rs == Records(l, dir)
    ensures newdir == rs[n] != [] && |newdir| <= 275
  {
    newdir := RecordOf(l, dir[n], i);
    FirstRecordsAt(l, dir, |dir|, n);
  }

  /** The second loop, from entry n at offset i. A sum that wraps around passes for one that fits, and
      the record is written past the end of the buffer. */
  method Fill(l: Layout, dir: seq<Entry>, buf: array<Byte>, n0: nat, i0: nat) returns (size: nat, ghost k: nat, overrun: bool)
    requires n0 <= |dir| && i0 == Offset(dir, n0) && buf.Length < UINT_RANGE
    modifies buf
    ensures LongestRun(Records(l, dir), n0, k, buf.Length) && Filled(Records(l, dir), n0, k, buf[..], old(buf[..]), size)
    ensures overrun <==> Wraps(Records(l, dir), n0, k)
  {
    var n, i := n0, i0;
    ghost var rs, before := Records(l, dir), buf[..];
    size, overrun := 0, false;
    while n < |dir|
      invariant n0 <= n <= |dir| && i == Offset(dir, n) && Filled(rs, n0, n, buf[..], before, size)
    {
      var newdir := NewDir(l, dir, n, i, rs);
      if (|newdir| + size) % UINT_RANGE > buf.Length {
        break;
      }
      if |newdir| + size > buf.Length {
        overrun := true;
        break;
      }
      size := AddRecord(buf, size, newdir, rs, n0, n, before);
      i := i + |dir[n].name|;
      n := n + 1;
    }
    k := n;
    StopsAtLongest(rs, n0, k, buf.Length);
  }

  /** The size with the first record that does not fit is no unsigned int. */
  ghost predicate Wraps(rs: seq<seq<Byte>>, j: nat, k: nat) {
    j <= k < |rs| && PackedSize(rs, j, k) + |rs[k]| >= UINT_RANGE
  }

  /** creat_dirent64 and creat_dirent. j is the first entry that is copied, k the first that is
      not: they are the longest run that fits, and a reader finds exactly them. The result is their size
      as an int, so that it is negative, and the caller takes it for an error, exactly when they fill
      2^31 bytes or more. The buffer is overrun exactly when a sum wraps around, for which count has to
      be within 275 bytes of 2^32. */
  method CreatDirent(l: Layout, dir: seq<Entry>, buf: array<Byte>, start: int, count: nat)
    returns (ret: int, overrun: bool, ghost j: nat, ghost k: nat)
    requires buf.Length == count < UINT_RANGE && forall e :: e in dir ==> 0 !in e.name
    modifies buf
    ensures FirstFrom(dir, start, j) && LongestRun(Records(l, dir), j, k, count)
    ensures overrun <==> Wraps(Records(l, dir), j, k)
    ensures count + 275 < UINT_RANGE ==> !overrun
    ensures j == |dir| ==> ret == 0
    ensures j < |dir| && k == j ==> ret == -EINVAL
    ensures var size := PackedSize(Records(l, dir), j, k);
            && size <= count && buf[..size] == Packed(Records(l, dir), j, k) && Walk(l, buf[..size]) == Items(l, dir)[j..k]
            && (j < k ==> ret == AsInt(size) && ret != 0 && (ret < 0 <==> size >= UINT_RANGE / 2))
            && (!overrun ==> buf[..][size..] == old(buf[..])[size..])
    ensures var items := Walk(l, buf[..PackedSize(Records(l, dir), j, k)]);
            |items| == k - j && AllTold(l, dir, j, items)
            && forall n :: 0 <= n < k - j ==>
                 items[n].name == if |dir[j + n].name| <= 255 then dir[j + n].name else dir[j + n].name[..255]
  {
    var n, i := SkipTo(dir, start);
    j, k := n, n;
    WalkReadsPacked(l, dir, j, k);
    if n == |dir| {
      return 0, false, j, k;
    }
    var size;
    size, k, overrun := Fill(l, dir, buf, n, i);
    RecordsAreShort(l, dir, k);
    WalkReadsPacked(l, dir, j, k);
    NamesTold(l, dir, j, k, Walk(l, Packed(Records(l, dir), j, k)));
    assert buf[..][..size] == buf[..size];
    return if size == 0 then -EINVAL else AsInt(size), overrun, j, k;
  }

  lemma NamesTold(l: Layout, dir: seq<Entry>, j: nat, k: nat, items: seq<Item>)
    requires j <= k <= |dir| && |items| == k - j && AllTold(l, dir, j, items)
    ensures forall n :: 0 <= n < k - j ==>
              items[n].name == if |dir[j + n].name| <= 255 then dir[j + n].name else dir[j + n].name[..255]
  {
    forall n | 0 <= n < k - j
      ensures items[n].name == if |dir[j + n].name| <= 255 then dir[j + n].name else dir[j + n].name[..255]
    {
      assert Tells(l, dir[j + n], dir[..j + n], items[j + n - j]);
    }
  }

  lemma RecordsAreShort(l: Layout, dir: seq<Entry>, k: nat)
    ensures k < |dir| ==> |Records(l, dir)[k]| <= 275
  {
    if k < |dir| {
      FirstRecordsAt(l, dir, |dir|, k);
    }
  }

  /** okfs_add_dirent puts the new entry in front of the list. */
  function Collected(items: seq<Item>, list: seq<Entry>): seq<Entry> {
    if items == [] then list
    else Collected(items[1..], [Entry(items[0].name, items[0].ino, items[0].kind)] + list)
  }

  /** The last one comes first, in front of what was there. */
  lemma {:induction false} CollectedIs(items: seq<Item>, list: seq<Entry>)
    ensures var r, n := Collected(items, list), |items|;
            && |r| == n + |list| && r[n..] == list
            && forall k :: 0 <= k < n ==> r[k] == Entry(items[n - 1 - k].name, items[n - 1 - k].ino, items[n - 1 - k].kind)
  {
    if items != [] {
      var first := Entry(items[0].name, items[0].ino, items[0].kind);
      CollectedIs(items[1..], [first] + list);
      var r := Collected(items, list);
      assert r[|items| - 1..] == [first] + list;
      assert r[|items|..] == r[|items| - 1..][1..] && r[|items| - 1] == r[|items| - 1..][0];
    }
  }

  /** One batch of localfs_readdir: `res` bytes of whole records from the kernel, padded or not. */
  method CollectBatch(dtab: array<Byte>, res: nat, ghost rs: seq<seq<Byte>>, ghost items: seq<Item>, head: seq<Entry>)
    returns (list: seq<Entry>)
    requires |rs| == |items| && forall n :: 0 <= n < |rs| ==> ReadsAs(Dirent64, rs[n], items[n])
    requires res <= dtab.Length && dtab[..res] == Packed(rs, 0, |rs|)
    ensures list == Collected(items, head)
    ensures |list| == |items| + |head| && list[|items|..] == head
    ensures forall k :: 0 <= k < |items| ==>
              var item := items[|items| - 1 - k]; list[k] == Entry(item.name, item.ino, item.kind)
  {
    CollectedIs(items, head);
    list := head;
    var p := 0;
    ghost var n := 0;
    while p < res
      invariant n <= |rs| && p <= res && dtab[p..res] == Packed(rs, n, |rs|)
      invariant Collected(items[n..], list) == Collected(items, head)
      decreases res - p
    {
      ghost var rest := Packed(rs, n + 1, |rs|);
      assert ReadsAs(Dirent64, rs[n], items[n]) && dtab[p..res] == rs[n] + rest;
      var dp := dtab[p..res];
      var d := First(Dirent64, dp);
      list := [Entry(d.name, d.ino, d.kind)] + list;
      assert items[n..][1..] == items[n + 1..];
      p := p + RecLen(Dirent64, dp);
      assert dtab[p..res] == dp[|rs[n]|..] == rest;
      n := n + 1;
    }
    SomethingPacked(rs, n, items);
    assert items[n..] == [];
  }

  lemma SomethingPacked(rs: seq<seq<Byte>>, n: nat, items: seq<Item>)
    requires |rs| == |items| && forall n :: 0 <= n < |rs| ==> ReadsAs(Dirent64, rs[n], items[n])
    ensures n < |rs| ==> Packed(rs, n, |rs|) != []
  {
    if n < |rs| {
      assert ReadsAs(Dirent64, rs[n], items[n]);
    }
  }
}
