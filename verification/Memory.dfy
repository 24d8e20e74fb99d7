/** Word-granular access to a traced task's memory (src/memacc.c), the patch that is undone
    later, and both copies of it after a fork. */
module Memory {
  import opened Common
  import opened Words

  const WORDNBYTES: nat := 4
  const STRING_START_SIZE: nat := WORDNBYTES * 8

  /** m with s written at d. */
  function Overwrite(m: seq<Byte>, d: nat, s: seq<Byte>): (r: seq<Byte>)
    requires d + |s| <= |m|
    ensures |r| == |m|
  {
    m[..d] + s + m[d + |s|..]
  }

  /** Writing a piece and then the next piece is writing both. */
  lemma OverwriteMore(m: seq<Byte>, d: nat, s: seq<Byte>, j: nat, k: nat)
    requires j <= k <= |s| && d + |s| <= |m|
    ensures Overwrite(Overwrite(m, d, s[..j]), d + j, s[j..k]) == Overwrite(m, d, s[..k])
  {
  }

  /** Writing back what was there undoes any write of the same length. */
  lemma RestoreUndoes(m: seq<Byte>, d: nat, s: seq<Byte>)
    requires d + |s| <= |m|
    ensures Overwrite(Overwrite(m, d, s), d, m[d..d + |s|]) == m
  {
  }

  /** Bytes of whole words that cover n bytes. */
  function Covered(n: nat): (r: nat)
    ensures n <= r < n + 4
  {
    if n == 0 then 0 else if n < 4 then 4 else 4 + Covered(n - 4)
  }

  /** Whatever lies behind a buffer. */
  method Behind(n: nat) returns (pad: seq<Byte>)
    requires n <= 3
    ensures |pad| == n
  {
    var a: Byte, b: Byte, c: Byte := *, *, *;
    pad := [a, b, c][..n];
  }

  class Tracee {
    const mem: array<Byte>
    var rplCode: Option<seq<Byte>>
    var rplDest: nat

    constructor (mem: array<Byte>)
      ensures this.mem == mem && rplCode == None
    {
      this.mem := mem;
      rplCode, rplDest := None, 0;
    }

    /** The known k bytes and every word that is read or written for n bytes at dest exist. */
    predicate Mapped(dest: nat, n: nat, k: nat) {
      dest + k <= mem.Length && dest + Covered(n) <= mem.Length && (n > k ==> dest + k + Covered(n - k) <= mem.Length)
    }

    /** PTRACE_PEEKDATA. */
    method Peek(a: nat) returns (w: Word)
      requires a + 4 <= mem.Length
      ensures Unpack(w) == mem[a..a + 4]
    {
      w := Pack(mem[a], mem[a + 1], mem[a + 2], mem[a + 3]);
      UnpackPack(mem[a], mem[a + 1], mem[a + 2], mem[a + 3]);
    }

    /** PTRACE_POKEDATA. */
    method Poke(a: nat, w: Word)
      requires a + 4 <= mem.Length
      modifies mem
      ensures mem[..] == Overwrite(old(mem[..]), a, Unpack(w))
    {
      PutBytes(mem, a, Unpack(w));
    }

    /** The bytes of a word, in the order in which they are stored. */
    method PeekBytes(a: nat) returns (u: seq<Byte>)
      requires a + 4 <= mem.Length
      ensures u == mem[a..a + 4]
    {
      var w := Peek(a);
      u := Unpack(w);
    }

    /** Poke a word taken from a buffer. */
    method PokeFrom(a: nat, s: seq<Byte>)
      requires |s| == 4 && a + 4 <= mem.Length
      modifies mem
      ensures mem[..] == Overwrite(old(mem[..]), a, s)
    {
      Poke(a, WordAt(s));
    }

    /** slave_memset (lines 45-70): exactly the n bytes at d change, although whole words are
        written and the last one is read past the end of the source. */
    method MemSet(d: nat, s: seq<Byte>)
      requires d + Covered(|s|) <= mem.Length
      modifies mem
      ensures mem[..] == Overwrite(old(mem[..]), d, s)
    {
      ghost var m := mem[..];
      var j: nat := 0;
      while |s| - j >= WORDNBYTES
        invariant j <= |s| && Covered(|s|) == j + Covered(|s| - j)
        invariant mem[..] == Overwrite(m, d, s[..j])
      {
        SetWord(d, s, j, m);
        j := j + 4;
      }
      SetTail(d, s, j, m);
    }

    /** One word of it (lines 51-55). */
    method SetWord(d: nat, s: seq<Byte>, j: nat, ghost m: seq<Byte>)
      requires j + 4 <= |s| && d + |s| <= mem.Length == |m| && mem[..] == Overwrite(m, d, s[..j])
      modifies mem
      ensures mem[..] == Overwrite(m, d, s[..j + 4])
    {
      OverwriteMore(m, d, s, j, j + 4);
      PokeFrom(d + j, s[j..j + 4]);
    }

    /** What is left of it. */
    method SetTail(d: nat, s: seq<Byte>, j: nat, ghost m: seq<Byte>)
      requires j <= |s| < j + 4 && d + |s| <= mem.Length == |m| && (j < |s| ==> d + j + 4 <= mem.Length)
      requires mem[..] == Overwrite(m, d, s[..j])
      modifies mem
      ensures mem[..] == Overwrite(m, d, s)
    {
      assert s[..|s|] == s && s[j..|s|] == s[j..];
      if j < |s| {
        OverwriteMore(m, d, s, j, |s|);
        Tail(d + j, s[j..]);
      }
    }

    /** The masked tail (lines 59-67). */
    method Tail(a: nat, s: seq<Byte>)
      requires 0 < |s| < 4 && a + 4 <= mem.Length
      modifies mem
      ensures mem[..] == Overwrite(old(mem[..]), a, s)
    {
      ghost var m := mem[..];
      var word := Peek(a);
      var pad := Behind(4 - |s|);
      var src := WordAt(s + pad);
      MergeBytes(word, src, |s|);
      assert (s + pad)[..|s|] == s;
      Poke(a, Merge(word, src, |s|));
      TailKept(m, a, s);
    }

    /** slave_memget (lines 73-101), into a buffer of OKFS. */
    method MemGet(dest: array<Byte>, at: nat, src: nat, n: nat)
      requires src + Covered(n) <= mem.Length && at + n <= dest.Length && dest != mem
      modifies dest
      ensures dest[..] == Overwrite(old(dest[..]), at, mem[src..src + n])
    {
      var j: nat := 0;
      while n - j >= WORDNBYTES
        invariant j <= n && Covered(n) == j + Covered(n - j)
        invariant forall k :: 0 <= k < dest.Length ==> dest[k] == if at <= k < at + j then mem[src + k - at] else old(dest[k])
      {
        GetWord(dest, at + j, src + j);
        j := j + 4;
      }
      if j < n {
        GetTail(dest, at + j, src + j, n - j);
      }
    }

    /** One word into a buffer (line 80). */
    method GetWord(dest: array<Byte>, at: nat, src: nat)
      requires src + 4 <= mem.Length && at + 4 <= dest.Length && dest != mem
      modifies dest
      ensures forall k :: 0 <= k < dest.Length ==> dest[k] == if at <= k < at + 4 then mem[src + k - at] else old(dest[k])
    {
      var u := PeekBytes(src);
      dest[at], dest[at + 1], dest[at + 2], dest[at + 3] := u[0], u[1], u[2], u[3];
    }

    /** The last bytes, one at a time (lines 88-91). */
    method GetTail(dest: array<Byte>, at: nat, src: nat, n: nat)
      requires 0 < n < 4 && src + 4 <= mem.Length && at + n <= dest.Length && dest != mem
      modifies dest
      ensures forall k :: 0 <= k < dest.Length ==> dest[k] == if at <= k < at + n then mem[src + k - at] else old(dest[k])
    {
      var u := PeekBytes(src);
      var i: nat := 0;
      while i < n
        invariant i <= n
        invariant forall k :: 0 <= k < dest.Length ==> dest[k] == if at <= k < at + i then u[k - at] else old(dest[k])
      {
        dest[at + i] := u[i];
        i := i + 1;
      }
    }

    /** slave_rpl_mem (lines 132-142); fails when another patch is outstanding. */
    method RplMem(dest: nat, src: seq<Byte>) returns (ok: bool)
      requires dest + Covered(|src|) <= mem.Length
      modifies this, mem
      ensures ok == old(rplCode.None?)
      ensures ok ==> mem[..] == Overwrite(old(mem[..]), dest, src)
      ensures ok ==> rplDest == dest && rplCode == Some(old(mem[dest..dest + |src|]))
      ensures !ok ==> mem[..] == old(mem[..]) && rplCode == old(rplCode) && rplDest == old(rplDest)
    {
      if rplCode.Some? {
        return false;
      }
      var saved := new Byte[|src|];
      MemGet(saved, 0, dest, |src|);
      assert saved[..] == mem[dest..dest + |src|];
      rplCode, rplDest := Some(saved[..]), dest;
      MemSet(dest, src);
      return true;
    }

    /** slave_rpl_known_str (lines 109-127): what is saved is what is in memory, put together
        from the known string and, when the new one is longer, from the bytes behind it. */
    method RplKnownStr(dest: nat, newString: seq<Byte>, origString: seq<Byte>) returns (ok: bool)
      requires Mapped(dest, |newString| + 1, |origString| + 1)
      requires mem[dest..dest + |origString| + 1] == origString + [0]
      modifies this, mem
      ensures ok == old(rplCode.None?)
      ensures ok ==> mem[..] == Overwrite(old(mem[..]), dest, newString + [0])
      ensures ok ==> rplDest == dest && rplCode == Some(old(mem[dest..dest + |newString| + 1]))
      ensures !ok ==> mem[..] == old(mem[..]) && rplCode == old(rplCode) && rplDest == old(rplDest)
    {
      if rplCode.Some? {
        return false;
      }
      ghost var m := mem[..];
      var saved := SaveKnown(dest, |newString| + 1, origString);
      rplCode := Some(saved);
      assert saved == m[dest..dest + |newString| + 1];
      MemSet(dest, newString + [0]);
      rplDest := dest;
      return true;
    }

    /** The n bytes at dest, of which origString and its terminator are known (lines 117-123). */
    method SaveKnown(dest: nat, n: nat, origString: seq<Byte>) returns (saved: seq<Byte>)
      requires n > 0 && Mapped(dest, n, |origString| + 1)
      requires mem[dest..dest + |origString| + 1] == origString + [0]
      ensures saved == mem[dest..dest + n]
    {
      var k := |origString| + 1;
      ghost var known := origString + [0];
      var buf := new Byte[n];
      StrNCpy(buf, origString);
      if n > k {
        MemGet(buf, k, dest + k, n - k);
        assert mem[dest..dest + n] == known + mem[dest + k..dest + n];
      } else {
        assert mem[dest..dest + n] == known[..n];
      }
      saved := buf[..];
    }

    /** slave_restore_mem (lines 144-151); fails when no patch is outstanding. */
    method RestoreMem() returns (ok: bool)
      requires rplCode.Some? ==> rplDest + Covered(|rplCode.value|) <= mem.Length
      modifies this, mem
      ensures ok == old(rplCode.Some?)
      ensures ok ==> mem[..] == Overwrite(old(mem[..]), old(rplDest), old(rplCode.value))
      ensures rplCode == None && rplDest == old(rplDest)
      ensures !ok ==> mem[..] == old(mem[..])
    {
      if rplCode.None? {
        return false;
      }
      MemSet(rplDest, rplCode.value);
      rplCode := None;
      return true;
    }

    /** slave_getstr (lines 155-178): a buffer that doubles while words come in. The string
        ends len bytes behind s. */
    method GetStr(s: nat, ghost len: nat) returns (r: seq<Byte>)
      requires s + Covered(len + 1) <= mem.Length
      requires mem[s + len] == 0 && 0 !in mem[s..s + len]
      ensures r == mem[s..s + len]
    {
      var n := STRING_START_SIZE;
      var buf := new Byte[n];
      var nread: nat := 0;
      ghost var q, c := 0, 8;
      ghost var t := mem[s..s + len + 1];
      assert forall j :: 0 <= j < len ==> t[j] == mem[s..s + len][j];
      while true
        invariant fresh(buf) && buf.Length == n && n == 4 * c && nread == 4 * q && q < c
        invariant nread <= len && Covered(len + 1) == nread + Covered(len + 1 - nread)
        invariant buf[..nread] == t[..nread]
        decreases len - nread
      {
        var i := FetchWord(buf, nread, s, t);
        if i < WORDNBYTES {
          return buf[..nread + i];
        }
        nread, q := nread + WORDNBYTES, q + 1;
        if nread == n {
          buf := Doubled(buf);
          n, c := 2 * n, 2 * c;
        }
      }
    }

    /** One word into the buffer, and the scan of it (lines 164-168). */
    method FetchWord(buf: array<Byte>, nread: nat, s: nat, ghost t: seq<Byte>) returns (i: nat)
      requires nread + 4 <= buf.Length && buf != mem && s + nread + 4 <= mem.Length
      requires nread < |t| && s + |t| <= mem.Length && t == mem[s..s + |t|] && buf[..nread] == t[..nread]
      requires t[|t| - 1] == 0 && (forall j :: 0 <= j < |t| - 1 ==> t[j] != 0)
      modifies buf
      ensures i < 4 ==> nread + i == |t| - 1 && buf[..nread + i] == t[..|t| - 1]
      ensures i >= 4 ==> nread + 4 < |t| && buf[..nread + 4] == t[..nread + 4]
    {
      var u := PeekBytes(s + nread);
      ghost var head := buf[..nread];
      PutBytes(buf, nread, u);
      assert buf[..nread + 4] == head + u;
      i := FirstNul(u);
      assert forall j :: nread <= j < nread + 4 && j < |t| ==> u[j - nread] == mem[s + j] == t[j];
      if i < WORDNBYTES {
        StringEnds(t, u, nread, i);
        assert buf[..nread + i] == (head + u)[..nread + i];
      } else {
        StringGoesOn(t, u, nread);
      }
      WordRead(t, u, nread, head);
    }
  }

  /** A patched call, as open makes it: after the restore all memory is as it was. */
  method PatchAndRestore(t: Tracee, dest: nat, newString: seq<Byte>, origString: seq<Byte>)
    requires t.rplCode.None? && t.Mapped(dest, |newString| + 1, |origString| + 1)
    requires t.mem[dest..dest + |origString| + 1] == origString + [0]
    modifies t, t.mem
    ensures t.mem[..] == old(t.mem[..]) && t.rplCode.None?
  {
    var patched := t.RplKnownStr(dest, newString, origString);
    RestoreUndoes(old(t.mem[..]), dest, newString + [0]);
    var restored := t.RestoreMem();
  }

  /** before_fork and after_fork (src/control.c lines 237-278, src/task.c lines 159-165): the
      kernel copies the patched memory, OKFS copies the record of the patch, and both are
      restored. Parent and child end up with the memory from before the fork. */
  method ForkPatched(parent: Tracee, eip: nat, code: seq<Byte>) returns (child: Tracee)
    requires parent.rplCode.None? && eip + Covered(|code|) <= parent.mem.Length
    modifies parent, parent.mem
    ensures fresh(child) && fresh(child.mem)
    ensures parent.mem[..] == old(parent.mem[..]) && child.mem[..] == old(parent.mem[..])
    ensures parent.rplCode.None? && child.rplCode.None?
  {
    ghost var m := parent.mem[..];
    var patched := parent.RplMem(eip, code);
    RestoreUndoes(m, eip, code);
    child := Duplicate(parent);
    ghost var both := child.mem[..];
    var p := parent.RestoreMem();
    assert child.mem[..] == both;
    var c := child.RestoreMem();
  }

  /** What fork and add_slave copy: all memory, and the record of the patch. */
  method Duplicate(parent: Tracee) returns (child: Tracee)
    ensures fresh(child) && fresh(child.mem) && child.mem.Length == parent.mem.Length && child.mem[..] == parent.mem[..]
    ensures child.rplCode == parent.rplCode && child.rplDest == parent.rplDest
  {
    var copy := new Byte[parent.mem.Length];
    forall k | 0 <= k < copy.Length {
      copy[k] := parent.mem[k];
    }
    child := new Tracee(copy);
    child.rplCode, child.rplDest := parent.rplCode, parent.rplDest;
  }

  /** A word without a NUL is not the last one. */
  lemma StringGoesOn(t: seq<Byte>, u: seq<Byte>, nread: nat)
    requires |t| > 0 && t[|t| - 1] == 0 && |u| == 4 && nread < |t| && (forall k :: 0 <= k < 4 ==> u[k] != 0)
    requires forall j :: nread <= j < nread + 4 && j < |t| ==> u[j - nread] == t[j]
    ensures nread + 4 < |t|
  {
  }

  /** What is in the buffer after a word is the front of the string, as far as it goes. */
  lemma WordRead(t: seq<Byte>, u: seq<Byte>, nread: nat, head: seq<Byte>)
    requires |u| == 4 && nread < |t| && head == t[..nread]
    requires forall j :: nread <= j < nread + 4 && j < |t| ==> u[j - nread] == t[j]
    ensures forall n :: nread <= n <= nread + 4 && n <= |t| ==> (head + u)[..n] == t[..n]
  {
  }

  /** A word of a string that ends at |t| - 1: a NUL in it is the terminator. */
  lemma StringEnds(t: seq<Byte>, u: seq<Byte>, nread: nat, i: nat)
    requires |t| > 0 && t[|t| - 1] == 0 && (forall j :: 0 <= j < |t| - 1 ==> t[j] != 0)
    requires |u| == 4 && nread < |t| && i < 4 && u[i] == 0 && (forall k :: 0 <= k < i ==> u[k] != 0)
    requires forall j :: nread <= j < nread + 4 && j < |t| ==> u[j - nread] == t[j]
    ensures nread + i == |t| - 1
  {
    assert nread + i < |t| ==> t[nread + i] == 0;
  }

  /** The scan of one word for its first NUL; 4 when there is none (lines 166-168). */
  method FirstNul(u: seq<Byte>) returns (i: nat)
    requires |u| == 4
    ensures i <= 4 && (i < 4 ==> u[i] == 0) && forall k :: 0 <= k < i ==> u[k] != 0
  {
    i := 0;
    while i < WORDNBYTES
      invariant i <= 4 && forall k :: 0 <= k < i ==> u[k] != 0
    {
      if u[i] == 0 {
        return;
      }
      i := i + 1;
    }
  }

  method Doubled(buf: array<Byte>) returns (bigger: array<Byte>)
    ensures fresh(bigger) && bigger.Length == 2 * buf.Length && bigger[..buf.Length] == buf[..]
  {
    bigger := new Byte[2 * buf.Length];
    forall k | 0 <= k < buf.Length {
      bigger[k] := buf[k];
    }
  }

  /** The store of a word. */
  method PutBytes(d: array<Byte>, at: nat, u: seq<Byte>)
    requires |u| == 4 && at + 4 <= d.Length
    modifies d
    ensures d[..] == Overwrite(old(d[..]), at, u)
  {
    d[at], d[at + 1], d[at + 2], d[at + 3] := u[0], u[1], u[2], u[3];
  }

  function WordAt(s: seq<Byte>): (w: Word)
    requires |s| == 4
    ensures Unpack(w) == s
  {
    UnpackPack(s[0], s[1], s[2], s[3]);
    Pack(s[0], s[1], s[2], s[3])
  }

  /** The bytes of the last word behind the tail are written back as they were. */
  lemma TailKept(m: seq<Byte>, a: nat, s: seq<Byte>)
    requires |s| < 4 && a + 4 <= |m|
    ensures Overwrite(m, a, s + m[a..a + 4][|s|..]) == Overwrite(m, a, s)
  {
  }

  /** strncpy of a NUL-terminated string: padded with NULs, cut when it does not fit. */
  method StrNCpy(d: array<Byte>, s: seq<Byte>)
    modifies d
    ensures forall k :: 0 <= k < d.Length ==> d[k] == if k < |s| then s[k] else 0
  {
    var i: nat := 0;
    while i < d.Length
      invariant i <= d.Length
      invariant forall k :: 0 <= k < i ==> d[k] == if k < |s| then s[k] else 0
    {
      d[i] := if i < |s| then s[i] else 0;
      i := i + 1;
    }
  }
}
