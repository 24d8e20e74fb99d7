/** sock_read and sock_readln (src/filesystems/shfs/proc.c lines 54-162): the line buffer is
    filled, searched and shifted in place. What they deliver is a function of the bytes alone. */
module Connection {
  import opened Common
  import opened CText
  import opened Stream

  lemma NoLineIn(t: seq<char>, n: nat)
    requires n <= |t| && '\n' !in t[..n]
    ensures LineEnd(t) >= n
  {
    forall i | 0 <= i < n ensures t[i] != '\n' {
      assert t[i] == t[..n][i];
    }
  }

  lemma LineIs(t: seq<char>, i: nat)
    requires i < |t| && t[i] == '\n' && '\n' !in t[..i]
    ensures LineEnd(t) == i
  {
    NoLineIn(t, i);
    forall j | 0 <= j < LineEnd(t) ensures t[j] != '\n' {
      assert t[j] == t[..LineEnd(t)][j];
    }
  }

  /** A line end in the buffer answers the call. */
  lemma LineInBuffer(buf: seq<char>, more: seq<char>, ending: Errno, nl: nat, count: nat)
    requires |buf| <= READLNBUF_SIZE && count > 0
    requires nl < |buf| && buf[nl] == '\n' && '\n' !in buf[..nl]
    ensures Answer(Some(Source(buf + more, ending)), Line(count)) ==
            Outcome(Ok(Shown(buf[..nl], count)), Some(Source(buf[nl + 1..] + more, ending)))
  {
    var t := buf + more;
    assert t[..nl] == buf[..nl] && t[nl + 1..] == buf[nl + 1..] + more;
    LineIs(t, nl);
  }

  lemma NoLineAtAll(buf: seq<char>, ending: Errno, count: nat)
    requires |buf| < READLNBUF_SIZE && count > 0 && '\n' !in buf
    ensures Answer(Some(Source(buf, ending)), Line(count)) == Outcome(Err(ending), None)
  {
    assert buf[..|buf|] == buf;
    NoLineIn(buf, |buf|);
  }

  /** A line end written over the last byte of a full buffer gives the line that is cut there. */
  lemma ForcedLineEnd(buf: seq<char>, more: seq<char>, ending: Errno, count: nat)
    requires |buf| == READLNBUF_SIZE && '\n' !in buf && count > 0
    ensures Answer(Some(Source(buf + more, ending)), Line(count)) ==
            Answer(Some(Source(buf[READLNBUF_SIZE - 1 := '\n'] + more, ending)), Line(count))
  {
    var n := READLNBUF_SIZE - 1;
    var t, buf' := buf + more, buf[n := '\n'];
    assert t[..READLNBUF_SIZE] == buf;
    NoLineIn(t, READLNBUF_SIZE);
    assert t[..n] == buf[..n] == buf'[..n] && t[n + 1..] == more && buf'[n + 1..] + more == more;
    assert forall x :: x in buf[..n] ==> x in buf;
    LineInBuffer(buf', more, ending, n, count);
  }

  /** `struct shfs_data`, as far as reading goes; `arrivals` is what the kernel will deliver. */
  class ShfsData {
    var open: bool
    const readlnbuf: array<char>
    var readlnbufLen: nat
    var arrivals: seq<Arrival>
    var errno: nat

    ghost predicate Valid()
      reads this
    {
      readlnbuf.Length == READLNBUF_SIZE && readlnbufLen <= READLNBUF_SIZE && NoEmptyData(arrivals)
    }

    /** Everything still to be delivered: the first LEN bytes of the buffer, then the stream. */
    ghost function Pending(): Option<Source>
      reads this, readlnbuf
      requires Valid()
    {
      if !open then None
      else
        var s := Incoming(arrivals);
        Some(Source(readlnbuf[..readlnbufLen] + s.text, s.ending))
    }

    constructor (arrivals: seq<Arrival>)
      requires NoEmptyData(arrivals)
      ensures Valid() && fresh(readlnbuf) && Pending() == Some(Incoming(arrivals))
    {
      open := true;
      readlnbuf := new char[READLNBUF_SIZE];
      readlnbufLen := 0;
      this.arrivals := arrivals;
      errno := 0;
      new;
      assert readlnbuf[..0] + Incoming(arrivals).text == Incoming(arrivals).text;
    }

    /** read(): at most c bytes of what has arrived and their number, zero when the peer has closed the
        connection, or -1 with the reason in errno. */
    method Read(c: nat) returns (result: int, b: seq<char>)
      requires Valid() && c > 0
      modifies this`arrivals, this`errno
      ensures Valid() && -1 <= result <= c
      ensures result > 0 ==> |b| == result && Incoming(old(arrivals)) == Source(b + Incoming(arrivals).text, Incoming(arrivals).ending)
      ensures result > 0 ==> Weight(arrivals) < Weight(old(arrivals))
      ensures result == 0 ==> Incoming(old(arrivals)) == Source([], EIO)
      ensures result == -1 ==> old(arrivals) != [] && old(arrivals)[0] == Failed(errno)
                               && Incoming(old(arrivals)) == Source([], READ_FAILED)
    {
      if arrivals == [] {
        return 0, [];
      }
      var first := arrivals[0];
      if first.Failed? {
        arrivals := arrivals[1..];
        errno := first.errno;
        return -1, [];
      }
      if |first.bytes| > c {
        b := first.bytes[..c];
        arrivals := [Data(first.bytes[c..])] + arrivals[1..];
        assert arrivals[1..] == old(arrivals)[1..];
        assert first.bytes == first.bytes[..c] + first.bytes[c..];
      } else {
        b := first.bytes;
        arrivals := arrivals[1..];
      }
      result := |b|;
    }

    /** memchr(BUFFER, '\n', LEN). */
    method FindLineEnd() returns (nl: nat)
      requires Valid()
      ensures var buf := readlnbuf[..readlnbufLen];
              nl <= |buf| && '\n' !in buf[..nl] && (nl < |buf| ==> buf[nl] == '\n') && (nl == |buf| ==> '\n' !in buf)
    {
      nl := 0;
      while nl < readlnbufLen && readlnbuf[nl] != '\n'
        invariant nl <= readlnbufLen && '\n' !in readlnbuf[..nl]
      {
        assert readlnbuf[..nl + 1] == readlnbuf[..nl] + [readlnbuf[nl]];
        nl := nl + 1;
      }
      assert readlnbuf[..nl] == readlnbuf[..readlnbufLen][..nl];
    }

    /** Take n bytes off the front of the buffer (lines 75-77 and 129-132). */
    method Shift(n: nat)
      requires Valid() && n <= readlnbufLen
      modifies this`readlnbufLen, readlnbuf
      ensures Valid() && readlnbufLen == old(readlnbufLen) - n
      ensures readlnbuf[..readlnbufLen] == old(readlnbuf[..readlnbufLen])[n..]
    {
      var c := readlnbufLen - n;
      if c > 0 {
        MemMove(readlnbuf, 0, readlnbuf, n, c);
      }
      readlnbufLen := c;
    }

    /** The part of sock_readln that has a line in the buffer (lines 125-135). */
    method TakeLine(nl: nat, count: nat) returns (line: string)
      requires Valid() && nl < readlnbufLen && count > 0
      modifies this`readlnbufLen, readlnbuf
      ensures Valid() && line == Shown(old(readlnbuf[..readlnbufLen])[..nl], count)
      ensures readlnbuf[..readlnbufLen] == old(readlnbuf[..readlnbufLen])[nl + 1..]
    {
      assert readlnbuf[..nl] == readlnbuf[..readlnbufLen][..nl];
      line := Shown(readlnbuf[..nl], count);
      Shift(nl + 1);
    }

    /** A full buffer without a line end gets one (lines 139-142). */
    method ForceLineEnd(count: nat)
      requires Valid() && open && count > 0 && readlnbufLen == READLNBUF_SIZE && '\n' !in readlnbuf[..readlnbufLen]
      modifies readlnbuf
      ensures Valid() && '\n' in readlnbuf[..readlnbufLen]
      ensures Answer(Pending(), Line(count)) == Answer(old(Pending()), Line(count))
    {
      ghost var buf, inc := readlnbuf[..readlnbufLen], Incoming(arrivals);
      ForcedLineEnd(buf, inc.text, inc.ending, count);
      readlnbuf[READLNBUF_SIZE - 1] := '\n';
      assert readlnbuf[..readlnbufLen] == buf[READLNBUF_SIZE - 1 := '\n'];
      assert readlnbuf[..readlnbufLen][READLNBUF_SIZE - 1] == '\n';
    }

    /** More bytes into the buffer, or the end of the connection (lines 144-156): the negative result that
        the caller is given. The comparison with -EAGAIN never holds, whatever errno says. */
    method ReadMore() returns (result: int)
      requires Valid() && open && readlnbufLen < READLNBUF_SIZE
      modifies this, readlnbuf
      ensures Valid()
      ensures result >= 0 ==> open && Pending() == old(Pending()) && Weight(arrivals) < Weight(old(arrivals))
      ensures result < 0 ==> !open && old(Pending()) == Some(Source(old(readlnbuf[..readlnbufLen]), Reported(result)))
    {
      ghost var buf := readlnbuf[..readlnbufLen];
      var b;
      result, b := Read(READLNBUF_SIZE - readlnbufLen);
      if result == 0 {
        result := -EIO_NO;
      }
      if result < 0 {
        if result == -EAGAIN_NO {
          assert false; // the code would go back to read() here
        }
        assert buf + [] == buf;
        open := false;
        return;
      }
      Append(b);
      assert (buf + b) + Incoming(arrivals).text == buf + (b + Incoming(arrivals).text);
    }

    /** sock_readln (lines 110-162). */
    method ReadLine(count: nat) returns (r: Result<string>)
      requires Valid() && count > 0
      modifies this, readlnbuf
      ensures Valid() && Outcome(r, Pending()) == Answer(old(Pending()), Line(count))
    {
      if !open {
        return Err(EIO);
      }
      ghost var goal := Answer(Pending(), Line(count));
      while true
        invariant Valid() && open && Answer(Pending(), Line(count)) == goal
        decreases Weight(arrivals), '\n' !in readlnbuf[..readlnbufLen]
      {
        ghost var buf, inc := readlnbuf[..readlnbufLen], Incoming(arrivals);
        var nl := FindLineEnd();
        if nl < readlnbufLen {
          LineInBuffer(buf, inc.text, inc.ending, nl, count);
          var line := TakeLine(nl, count);
          return Ok(line);
        }
        if readlnbufLen == READLNBUF_SIZE {
          ForceLineEnd(count);
          continue;
        }
        var result := ReadMore();
        if result < 0 {
          NoLineAtAll(buf, Reported(result), count);
          return Err(Reported(result));
        }
      }
    }

    /** What read() has put behind the buffered bytes is buffered now (lines 144-156). */
    method Append(b: seq<char>)
      requires Valid() && readlnbufLen + |b| <= READLNBUF_SIZE
      modifies this`readlnbufLen, readlnbuf
      ensures Valid() && readlnbuf[..readlnbufLen] == old(readlnbuf[..readlnbufLen]) + b
    {
      Store(readlnbuf, readlnbufLen, b);
      readlnbufLen := readlnbufLen + |b|;
    }

    /** The buffered bytes, as far as they go (lines 69-79). */
    method FromBuffer(count: nat) returns (got: seq<char>)
      requires Valid()
      modifies this`readlnbufLen, readlnbuf
      ensures Valid() && |got| <= count && (|got| < count ==> readlnbufLen == 0)
      ensures got + readlnbuf[..readlnbufLen] == old(readlnbuf[..readlnbufLen])
    {
      got := [];
      if readlnbufLen > 0 {
        var c := if count > readlnbufLen then readlnbufLen else count;
        got := readlnbuf[..c];
        assert readlnbuf[..readlnbufLen] == got + readlnbuf[..readlnbufLen][c..];
        Shift(c);
      }
    }

    /** sock_read (lines 57-108): the buffered bytes first, then directly from the connection. As in
        sock_readln, the comparison with -EAGAIN never holds. */
    method ReadBytes(count: nat) returns (r: Result<seq<char>>)
      requires Valid()
      modifies this, readlnbuf
      ensures Valid() && Outcome(r, Pending()) == Answer(old(Pending()), Bytes(count))
    {
      if !open {
        return Err(EIO);
      }
      ghost var t, ending := Pending().value.text, Pending().value.ending;
      var got := FromBuffer(count);
      ghost var buf := readlnbuf[..readlnbufLen];
      assert (got + buf) + Incoming(arrivals).text == got + (buf + Incoming(arrivals).text);
      while |got| < count
        invariant Valid() && open && |got| <= count && buf == readlnbuf[..readlnbufLen]
        invariant |got| < count ==> buf == []
        invariant Incoming(arrivals).ending == ending && got + (buf + Incoming(arrivals).text) == t
        decreases Weight(arrivals)
      {
        assert buf + Incoming(arrivals).text == Incoming(arrivals).text;
        var result, b := Read(count - |got|);
        if result == 0 {
          result := -EIO_NO;
        }
        if result < 0 {
          if result == -EAGAIN_NO {
            assert false; // the code would go back to read() here
          }
          open := false;
          return Err(Reported(result));
        }
        assert (got + b) + Incoming(arrivals).text == got + (b + Incoming(arrivals).text);
        assert buf + Incoming(arrivals).text == Incoming(arrivals).text;
        got := got + b;
      }
      assert t[..count] == got && t[count..] == buf + Incoming(arrivals).text;
      return Ok(got);
    }

    /** A client's whole conversation: the replies and what is left depend on the bytes, not on
        their pieces; and when every line fits, no byte is lost, doubled or changed. */
    method Serve(reqs: seq<Request>) returns (replies: seq<Result<seq<char>>>)
      requires Valid() && forall q :: q in reqs ==> Proper(q)
      modifies this, readlnbuf
      ensures Valid() && replies == Replies(old(Pending()), reqs) && Pending() == Left(old(Pending()), reqs)
      ensures old(Pending()).Some? && AllFit(old(Pending()), reqs) ==>
                Delivered(reqs, replies) <= old(Pending()).value.text
      ensures old(Pending()).Some? && Pending().Some? ==>
                (AllFit(old(Pending()), reqs) <==> Delivered(reqs, replies) + Pending().value.text == old(Pending()).value.text)
    {
      replies := [];
      ghost var start := Pending();
      var i := 0;
      while i < |reqs|
        invariant Valid() && 0 <= i <= |reqs|
        invariant replies + Replies(Pending(), reqs[i..]) == Replies(start, reqs)
        invariant Left(Pending(), reqs[i..]) == Left(start, reqs)
      {
        ghost var before, todo := Pending(), reqs[i..];
        assert reqs[i] in reqs && todo[0] == reqs[i] && todo[1..] == reqs[i + 1..];
        var r;
        match reqs[i] {
          case Line(count) => r := ReadLine(count);
          case Bytes(count) => r := ReadBytes(count);
        }
        assert Replies(before, todo) == [r] + Replies(Pending(), reqs[i + 1..]);
        assert replies + ([r] + Replies(Pending(), reqs[i + 1..])) == (replies + [r]) + Replies(Pending(), reqs[i + 1..]);
        replies := replies + [r];
        i := i + 1;
      }
      Conserved(start, reqs);
    }
  }

  lemma Conserved(start: Option<Source>, reqs: seq<Request>)
    requires forall q :: q in reqs ==> Proper(q)
    ensures start.Some? && AllFit(start, reqs) ==> Delivered(reqs, Replies(start, reqs)) <= start.value.text
    ensures start.Some? && Left(start, reqs).Some? ==>
              (AllFit(start, reqs) <==> Delivered(reqs, Replies(start, reqs)) + Left(start, reqs).value.text == start.value.text)
  {
    if start.Some? {
      if AllFit(start, reqs) {
        FittingConversation(start.value, reqs);
      }
      if Left(start, reqs).Some? {
        ConversationConserves(start.value, reqs);
      }
    }
  }

  /** Two connections that carry the same bytes and end the same way give the same replies,
      however the bytes are cut into pieces. */
  method ChunkingDoesNotMatter(a: seq<Arrival>, b: seq<Arrival>, reqs: seq<Request>)
    returns (x: seq<Result<seq<char>>>, y: seq<Result<seq<char>>>)
    requires NoEmptyData(a) && NoEmptyData(b) && Incoming(a) == Incoming(b)
    requires forall q :: q in reqs ==> Proper(q)
    ensures x == y == Replies(Some(Incoming(a)), reqs)
  {
    var first := new ShfsData(a);
    x := first.Serve(reqs);
    var second := new ShfsData(b);
    y := second.Serve(reqs);
  }
}
