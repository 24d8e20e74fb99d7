/** NUL-terminated text in byte buffers, and the overlapping copy of src/lib/okfs_lib.c. */
module CText {

  predicate NulFree(s: string) {
    '\0' !in s
  }

  /** The C string stored at the front of a buffer: everything before the first NUL. */
  function CStr(s: seq<char>): string {
    if s == [] || s[0] == '\0' then [] else [s[0]] + CStr(s[1..])
  }

  lemma {:induction false} CStrAt(s: seq<char>, n: nat)
    requires n < |s| && NulFree(s[..n]) && s[n] == '\0'
    ensures CStr(s) == s[..n]
  {
    if n > 0 {
      assert s[0] in s[..n];
      assert s[1..][..n - 1] == s[..n][1..];
      CStrAt(s[1..], n - 1);
      assert s[..n] == [s[0]] + s[..n][1..];
    }
  }

  /** okfs_memmove: copies forwards or backwards so that overlapping areas survive.
      For two different buffers the address comparison may go either way. */
  method MemMove<T>(d: array<T>, di: nat, s: array<T>, si: nat, count: nat)
    requires di + count <= d.Length && si + count <= s.Length
    modifies d
    ensures d[..] == old(d[..di]) + old(s[si..si + count]) + old(d[di + count..])
  {
    var forward := *;
    if d == s {
      forward := di <= si;
    }
    if forward {
      var i := 0;
      while i < count
        invariant 0 <= i <= count
        invariant forall k :: di <= k < di + i ==> d[k] == old(s[si + k - di])
        invariant forall k :: 0 <= k < d.Length && !(di <= k < di + i) ==> d[k] == old(d[k])
        invariant d != s ==> s[..] == old(s[..])
      {
        d[di + i] := s[si + i];
        i := i + 1;
      }
    } else {
      var i := count;
      while i > 0
        invariant 0 <= i <= count
        invariant forall k :: di + i <= k < di + count ==> d[k] == old(s[si + k - di])
        invariant forall k :: 0 <= k < d.Length && !(di + i <= k < di + count) ==> d[k] == old(d[k])
        invariant d != s ==> s[..] == old(s[..])
      {
        i := i - 1;
        d[di + i] := s[si + i];
      }
    }
  }

  /** okfs_memcpy / strcpy of a value into a buffer at an offset. */
  method Store(d: array<char>, at: nat, s: string)
    requires at + |s| <= d.Length
    modifies d
    ensures d[..] == old(d[..at]) + s + old(d[at + |s|..])
  {
    var i := 0;
    while i < |s|
      invariant 0 <= i <= |s|
      invariant forall k :: at <= k < at + i ==> d[k] == s[k - at]
      invariant forall k :: 0 <= k < d.Length && !(at <= k < at + i) ==> d[k] == old(d[k])
    {
      d[at + i] := s[i];
      i := i + 1;
    }
  }
}
