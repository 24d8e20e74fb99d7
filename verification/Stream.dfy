/** The buffered line and byte reader of src/filesystems/shfs/proc.c over a connection that
    delivers its bytes in arbitrary pieces. */
module Stream {
  import opened Common
  import opened CText

  const READLNBUF_SIZE: nat := 5120

  /** Error numbers, as the code writes them. */
  const EIO_NO := 5
  const EAGAIN_NO := 11

  /** The error that a caller finds in a negative result. */
  function Reported(result: int): Errno {
    if result == -EIO_NO then EIO else if result == -EAGAIN_NO then EAGAIN else EOTHER(-result)
  }

  /** read() returns -1 on every error, and the reason is in errno (src/lib/okfs_unistd.c). */
  const READ_FAILED: Errno := Reported(-1)

  /** What successive calls of read() meet: some bytes, or an error with its errno. At the end
      of the list the peer has closed the connection. */
  datatype Arrival = Data(bytes: seq<char>) | Failed(errno: nat)

  /** All that a reader can learn from the arrivals: the bytes, and how they end. */
  datatype Source = Source(text: seq<char>, ending: Errno)

  function Incoming(arrivals: seq<Arrival>): Source {
    if arrivals == [] then Source([], EIO)
    else
      match arrivals[0]
      case Data(b) => var s := Incoming(arrivals[1..]); Source(b + s.text, s.ending)
      case Failed(_) => Source([], READ_FAILED)
  }

  /** read() never delivers zero bytes while the connection is open. */
  predicate NoEmptyData(arrivals: seq<Arrival>) {
    forall i :: 0 <= i < |arrivals| ==> arrivals[i].Data? ==> arrivals[i].bytes != []
  }

  function Weight(arrivals: seq<Arrival>): nat {
    if arrivals == [] then 0
    else Weight(arrivals[1..]) + (if arrivals[0].Data? then 1 + |arrivals[0].bytes| else 1)
  }

  // ----- what the calls deliver, as functions of the bytes alone -----

  /** Position of the first line end, or the length of t. */
  function LineEnd(t: seq<char>): (i: nat)
    ensures i <= |t| && '\n' !in t[..i] && (i < |t| ==> t[i] == '\n')
  {
    if t == [] || t[0] == '\n' then 0
    else
      var i := 1 + LineEnd(t[1..]);
      assert t[..i] == [t[0]] + t[1..][..i - 1];
      i
  }

  /** A line is cut when it does not fit the line buffer: its byte number READLNBUF_SIZE is lost. */
  function LineLength(t: seq<char>): nat {
    if LineEnd(t) < READLNBUF_SIZE then LineEnd(t) else READLNBUF_SIZE - 1
  }

  predicate HasLine(t: seq<char>) {
    LineEnd(t) < |t| || |t| >= READLNBUF_SIZE
  }

  /** What strncpy and strlen leave of a line in a buffer of count bytes. */
  function Shown(line: seq<char>, count: nat): string
    requires count > 0
  {
    var c := CStr(line);
    if |c| > count - 1 then c[..count - 1] else c
  }

  datatype Request = Line(count: nat) | Bytes(count: nat)

  predicate Proper(req: Request) {
    req.Line? ==> req.count > 0
  }

  /** A reply, and what is left to read; None when the connection is closed. */
  datatype Outcome = Outcome(reply: Result<seq<char>>, rest: Option<Source>)

  /** One call. After an error the connection is closed for good. */
  function Answer(src: Option<Source>, req: Request): Outcome
    requires Proper(req)
  {
    if src.None? then Outcome(Err(EIO), None)
    else
      var t, ending := src.value.text, src.value.ending;
      match req
      case Line(count) =>
        if HasLine(t) then Outcome(Ok(Shown(t[..LineLength(t)], count)), Some(Source(t[LineLength(t) + 1..], ending)))
        else Outcome(Err(ending), None)
      case Bytes(count) =>
        if |t| >= count then Outcome(Ok(t[..count]), Some(Source(t[count..], ending))) else Outcome(Err(ending), None)
  }

  // ----- what one call answers, spelled out -----

  /** The line at the front ends at byte n: there is the first line end, within the 5120 bytes of the line
      buffer, or there is none in 5120 bytes, and the last of them is taken for one. */
  ghost predicate LineEndsAt(t: seq<char>, n: nat) {
    n < |t| && n < 5120 && '\n' !in t[..n] && (t[n] == '\n' || (n == 5119 && |t| >= 5120))
  }

  lemma LineLengthIs(t: seq<char>, n: nat)
    ensures LineEndsAt(t, n) <==> HasLine(t) && n == LineLength(t)
  {
    var e := LineEnd(t);
    if LineEndsAt(t, n) {
      assert forall i :: 0 <= i < n ==> t[i] in t[..n];
      assert forall i :: 0 <= i < e ==> t[i] in t[..e];
    }
    if HasLine(t) && n == LineLength(t) {
      assert n <= e && t[..n] == t[..e][..n];
    }
  }

  lemma {:induction false} CStrIs(s: seq<char>)
    ensures CStr(s) <= s && NulFree(CStr(s)) && (|CStr(s)| < |s| ==> s[|CStr(s)|] == '\0')
  {
    if s != [] && s[0] != '\0' {
      CStrIs(s[1..]);
      assert s == [s[0]] + s[1..];
    }
  }

  /** A line is answered with its front: up to a NUL, to the room for it, or to its end, whichever comes
      first. The line and its end are taken off the stream, all else stays. */
  lemma LineAnswered(t: seq<char>, ending: Errno, count: nat, n: nat)
    requires count > 0 && LineEndsAt(t, n)
    ensures var a := Answer(Some(Source(t, ending)), Line(count));
            && a.rest == Some(Source(t[n + 1..], ending)) && a.reply.Ok?
            && var r := a.reply.value;
               r <= t[..n] && NulFree(r) && |r| < count && (|r| == count - 1 || |r| == n || t[|r|] == '\0')
  {
    LineLengthIs(t, n);
    CStrIs(t[..n]);
    var c := CStr(t[..n]);
    assert Shown(t[..n], count) <= c;
  }

  /** Without a line the call fails as the connection ends, and so does one for more bytes than there are;
      a call for bytes that are there gets exactly them; a closed connection answers EIO for ever. */
  lemma OtherAnswers(t: seq<char>, ending: Errno, count: nat, req: Request)
    requires Proper(req)
    ensures count > 0 && (forall n: nat :: !LineEndsAt(t, n)) ==>
              Answer(Some(Source(t, ending)), Line(count)) == Outcome(Err(ending), None)
    ensures count <= |t| ==> Answer(Some(Source(t, ending)), Bytes(count)) == Outcome(Ok(t[..count]), Some(Source(t[count..], ending)))
    ensures count > |t| ==> Answer(Some(Source(t, ending)), Bytes(count)) == Outcome(Err(ending), None)
    ensures Answer(None, req) == Outcome(Err(EIO), None)
  {
    if count > 0 && (forall n: nat :: !LineEndsAt(t, n)) {
      LineLengthIs(t, LineLength(t));
      assert !LineEndsAt(t, LineLength(t));
    }
  }

  /** A sequence of calls: the replies, and what is left. */
  function Replies(src: Option<Source>, reqs: seq<Request>): (rs: seq<Result<seq<char>>>)
    requires forall q :: q in reqs ==> Proper(q)
    ensures |rs| == |reqs|
    decreases |reqs|
  {
    if reqs == [] then [] else [Answer(src, reqs[0]).reply] + Replies(Answer(src, reqs[0]).rest, reqs[1..])
  }

  function Left(src: Option<Source>, reqs: seq<Request>): Option<Source>
    requires forall q :: q in reqs ==> Proper(q)
    decreases |reqs|
  {
    if reqs == [] then src else Left(Answer(src, reqs[0]).rest, reqs[1..])
  }

  // ----- lines and bytes put together again -----

  /** The bytes a delivered reply stands for. */
  function Spelled(req: Request, r: Result<seq<char>>): seq<char> {
    if r.Err? then [] else if req.Line? then r.value + ['\n'] else r.value
  }

  /** All that a conversation has delivered. */
  function Delivered(reqs: seq<Request>, replies: seq<Result<seq<char>>>): seq<char>
    requires |reqs| == |replies|
  {
    if reqs == [] then [] else Spelled(reqs[0], replies[0]) + Delivered(reqs[1..], replies[1..])
  }

  function TextOf(src: Option<Source>): seq<char> {
    if src.None? then [] else src.value.text
  }

  /** The line at the front is free of NULs, fits the line buffer and the caller's buffer. */
  ghost predicate Fits(src: Source, req: Request) {
    req.Line? && HasLine(src.text) ==>
      LineEnd(src.text) < READLNBUF_SIZE && LineEnd(src.text) < req.count && NulFree(src.text[..LineEnd(src.text)])
  }

  /** Every line that the conversation reads fits. */
  ghost predicate AllFit(src: Option<Source>, reqs: seq<Request>)
    requires forall q :: q in reqs ==> Proper(q)
    decreases |reqs|
  {
    src.Some? && reqs != [] ==> Fits(src.value, reqs[0]) && AllFit(Answer(src, reqs[0]).rest, reqs[1..])
  }

  lemma {:induction false} CStrWhole(s: seq<char>)
    requires NulFree(s)
    ensures CStr(s) == s
  {
    if s != [] {
      assert s[0] in s;
      CStrWhole(s[1..]);
    }
  }

  /** A delivered reply and what is left are together what was there, exactly when the line
      fits: no byte is lost, doubled or changed. */
  lemma AnswerConserves(src: Source, req: Request)
    requires Proper(req)
    ensures var a := Answer(Some(src), req);
            a.reply.Ok? ==> a.rest.Some? && (Spelled(req, a.reply) + a.rest.value.text == src.text <==> Fits(src, req))
  {
    var r := Answer(Some(src), req).reply;
    var rest := if r.Ok? then Answer(Some(src), req).rest.value.text else [];
    if r.Ok? && req.Line? {
      var t, n := src.text, LineLength(src.text);
      var line := t[..n];
      if Fits(src, req) {
        CStrWhole(line);
        assert t == line + ['\n'] + t[n + 1..];
      }
      if Spelled(req, r) + rest == t {
        CStrLength(line);
        assert |r.value| + 1 + |rest| == |t|;
        assert r.value == line;
        assert t[n] == (Spelled(req, r) + rest)[n];
      }
    }
  }

  lemma {:induction false} CStrLength(s: seq<char>)
    ensures |CStr(s)| <= |s|
    ensures |CStr(s)| == |s| ==> CStr(s) == s && NulFree(s)
  {
    if s != [] && s[0] != '\0' {
      CStrLength(s[1..]);
      assert s == [s[0]] + s[1..];
    }
  }

  /** No call makes bytes up. */
  lemma AnswerShrinks(src: Source, req: Request)
    requires Proper(req)
    ensures var a := Answer(Some(src), req);
            a.reply.Ok? ==> a.rest.Some? && |Spelled(req, a.reply)| + |a.rest.value.text| <= |src.text|
                            && a.rest.value.text == src.text[|src.text| - |a.rest.value.text|..]
  {
    if req.Line? && HasLine(src.text) {
      CStrLength(src.text[..LineLength(src.text)]);
    }
  }

  /** The first call of a conversation, and the rest of it. */
  lemma FirstCall(src: Option<Source>, reqs: seq<Request>)
    requires reqs != [] && forall q :: q in reqs ==> Proper(q)
    ensures Proper(reqs[0])
    ensures var a, more := Answer(src, reqs[0]), reqs[1..];
            && Delivered(reqs, Replies(src, reqs)) == Spelled(reqs[0], a.reply) + Delivered(more, Replies(a.rest, more))
            && Left(src, reqs) == Left(a.rest, more)
            && (src.Some? ==> (AllFit(src, reqs) <==> Fits(src.value, reqs[0]) && AllFit(a.rest, more)))
  {
    assert reqs[0] in reqs;
    assert Replies(src, reqs)[1..] == Replies(Answer(src, reqs[0]).rest, reqs[1..]);
  }

  lemma {:induction false} ClosedStaysClosed(reqs: seq<Request>)
    requires forall q :: q in reqs ==> Proper(q)
    ensures Left(None, reqs) == None && Delivered(reqs, Replies(None, reqs)) == []
    decreases |reqs|
  {
    if reqs != [] {
      FirstCall(None, reqs);
      ClosedStaysClosed(reqs[1..]);
    }
  }

  lemma {:induction false} LeftShrinks(src: Source, reqs: seq<Request>)
    requires forall q :: q in reqs ==> Proper(q)
    ensures |Delivered(reqs, Replies(Some(src), reqs))| + |TextOf(Left(Some(src), reqs))| <= |src.text|
    decreases |reqs|
  {
    if reqs != [] {
      FirstCall(Some(src), reqs);
      AnswerShrinks(src, reqs[0]);
      var rest := Answer(Some(src), reqs[0]).rest;
      if rest.Some? {
        LeftShrinks(rest.value, reqs[1..]);
      } else {
        ClosedStaysClosed(reqs[1..]);
      }
    }
  }

  /** Text in two steps is whole exactly when each step is. */
  lemma Chained(text: seq<char>, first: seq<char>, rest: seq<char>, d: seq<char>, left: seq<char>)
    requires |first| + |rest| <= |text| && rest == text[|text| - |rest|..] && |d| + |left| <= |rest|
    ensures (first + d) + left == text <==> first + rest == text && d + left == rest
  {
    assert (first + d) + left == first + (d + left);
    if first + (d + left) == text {
      assert d + left == text[|first|..] == rest;
    }
  }

  /** A whole conversation. While every call is answered, what was delivered followed by what is
      left is what was there exactly when every line fitted. */
  lemma {:induction false} ConversationConserves(src: Source, reqs: seq<Request>)
    requires forall q :: q in reqs ==> Proper(q)
    requires Left(Some(src), reqs).Some?
    ensures Delivered(reqs, Replies(Some(src), reqs)) + Left(Some(src), reqs).value.text == src.text <==> AllFit(Some(src), reqs)
    decreases |reqs|
  {
    if reqs == [] {
      assert [] + src.text == src.text;
    } else {
      var rest, more := Answer(Some(src), reqs[0]).rest, reqs[1..];
      AnsweredFirst(src, reqs);
      ConversationConserves(rest.value, more);
      ConservesFirst(src, reqs, rest.value, Left(rest, more).value.text);
    }
  }

  lemma AnsweredFirst(src: Source, reqs: seq<Request>)
    requires reqs != [] && forall q :: q in reqs ==> Proper(q)
    requires Left(Some(src), reqs).Some?
    ensures Proper(reqs[0])
    ensures var a := Answer(Some(src), reqs[0]); a.reply.Ok? && a.rest.Some? && Left(a.rest, reqs[1..]) == Left(Some(src), reqs)
  {
    FirstCall(Some(src), reqs);
    ClosedStaysClosed(reqs[1..]);
  }

  lemma ConservesFirst(src: Source, reqs: seq<Request>, rest: Source, left: seq<char>)
    requires reqs != [] && forall q :: q in reqs ==> Proper(q)
    requires Answer(Some(src), reqs[0]).rest == Some(rest) && Answer(Some(src), reqs[0]).reply.Ok?
    requires left == TextOf(Left(Some(rest), reqs[1..]))
    requires Delivered(reqs[1..], Replies(Some(rest), reqs[1..])) + left == rest.text <==> AllFit(Some(rest), reqs[1..])
    ensures Delivered(reqs, Replies(Some(src), reqs)) + left == src.text <==> AllFit(Some(src), reqs)
  {
    FirstCall(Some(src), reqs);
    AnswerShrinks(src, reqs[0]);
    AnswerConserves(src, reqs[0]);
    LeftShrinks(rest, reqs[1..]);
    var first, d := Spelled(reqs[0], Answer(Some(src), reqs[0]).reply), Delivered(reqs[1..], Replies(Some(rest), reqs[1..]));
    Chained(src.text, first, rest.text, d, left);
  }

  lemma Prefixed(text: seq<char>, first: seq<char>, rest: seq<char>, d: seq<char>)
    requires first + rest == text && d <= rest
    ensures first + d <= text
  {
    assert first + rest == (first + d) + rest[|d|..];
  }

  /** Whether or not the connection breaks on the way: when every line fits, what was delivered
      is the front of the stream. */
  lemma {:induction false} FittingConversation(src: Source, reqs: seq<Request>)
    requires forall q :: q in reqs ==> Proper(q)
    requires AllFit(Some(src), reqs)
    ensures Delivered(reqs, Replies(Some(src), reqs)) <= src.text
    decreases |reqs|
  {
    if reqs != [] {
      FirstCall(Some(src), reqs);
      var a, more := Answer(Some(src), reqs[0]), reqs[1..];
      if a.rest.Some? {
        AnswerConserves(src, reqs[0]);
        FittingConversation(a.rest.value, more);
        Prefixed(src.text, Spelled(reqs[0], a.reply), a.rest.value.text, Delivered(more, Replies(a.rest, more)));
      } else {
        ClosedStaysClosed(more);
      }
    }
  }

  // ----- an error on the way -----

  /** The bytes are enough for the call. */
  predicate Enough(t: seq<char>, req: Request) {
    match req
    case Line(_) => HasLine(t)
    case Bytes(count) => |t| >= count
  }

  /** How many calls are answered before the connection closes. */
  function Answered(src: Option<Source>, reqs: seq<Request>): nat
    requires forall q :: q in reqs ==> Proper(q)
    decreases |reqs|
  {
    if reqs == [] || Answer(src, reqs[0]).reply.Err? then 0 else 1 + Answered(Answer(src, reqs[0]).rest, reqs[1..])
  }

  lemma {:induction false} LineEndOf(t: seq<char>, u: seq<char>)
    ensures LineEnd(t) < |t| ==> LineEnd(t + u) == LineEnd(t)
    ensures LineEnd(t) == |t| ==> LineEnd(t + u) >= |t|
  {
    if t != [] && t[0] != '\n' {
      assert (t + u)[1..] == t[1..] + u;
      LineEndOf(t[1..], u);
    }
  }

  /** A call on the bytes t, with and without more bytes behind them. */
  lemma MoreBehind(t: seq<char>, u: seq<char>, e: Errno, e': Errno, req: Request)
    requires Proper(req)
    ensures var a, b := Answer(Some(Source(t, e)), req), Answer(Some(Source(t + u, e')), req);
            if Enough(t, req) then
              && a.reply.Ok? && a.reply == b.reply && a.rest.Some?
              && b.rest == Some(Source(a.rest.value.text + u, e')) && a.rest.value.ending == e
            else a == Outcome(Err(e), None)
  {
    if Enough(t, req) {
      match req
      case Line(count) => LineBehind(t, u, e, e', count);
      case Bytes(count) => assert (t + u)[..count] == t[..count] && (t + u)[count..] == t[count..] + u;
    }
  }

  lemma LineBehind(t: seq<char>, u: seq<char>, e: Errno, e': Errno, count: nat)
    requires count > 0 && HasLine(t)
    ensures HasLine(t + u) && LineLength(t) < |t|
    ensures Answer(Some(Source(t + u, e')), Line(count)) ==
            Outcome(Answer(Some(Source(t, e)), Line(count)).reply, Some(Source(t[LineLength(t) + 1..] + u, e')))
  {
    LineEndOf(t, u);
    var n := LineLength(t);
    assert LineLength(t + u) == n < |t|;
    assert (t + u)[..n] == t[..n] && (t + u)[n + 1..] == t[n + 1..] + u;
  }

  /** A conversation over the bytes t that ends in a failed read, and over more bytes. */
  lemma {:induction false} FailureSeen(t: seq<char>, u: seq<char>, ending: Errno, reqs: seq<Request>)
    requires forall q :: q in reqs ==> Proper(q)
    ensures var cut, whole := Some(Source(t, READ_FAILED)), Some(Source(t + u, ending));
            Replies(cut, reqs) == Replies(whole, reqs) <==>
              Left(cut, reqs).Some? || (ending == READ_FAILED && Answered(cut, reqs) == Answered(whole, reqs))
    decreases |reqs|
  {
    if reqs != [] {
      assert reqs[0] in reqs;
      var cut, whole := Some(Source(t, READ_FAILED)), Some(Source(t + u, ending));
      var a, b := Answer(cut, reqs[0]), Answer(whole, reqs[0]);
      MoreBehind(t, u, READ_FAILED, ending, reqs[0]);
      assert Replies(cut, reqs)[0] == a.reply && Replies(whole, reqs)[0] == b.reply;
      assert Replies(cut, reqs)[1..] == Replies(a.rest, reqs[1..]) && Replies(whole, reqs)[1..] == Replies(b.rest, reqs[1..]);
      if a.reply.Ok? {
        FailureSeen(a.rest.value.text, u, ending, reqs[1..]);
        assert Replies(cut, reqs) == Replies(whole, reqs) <==> Replies(a.rest, reqs[1..]) == Replies(b.rest, reqs[1..]) by {
          assert Replies(cut, reqs) == [a.reply] + Replies(a.rest, reqs[1..]);
          assert Replies(whole, reqs) == [b.reply] + Replies(b.rest, reqs[1..]);
        }
      } else {
        ClosedStaysClosed(reqs[1..]);
      }
    }
  }

  predicate AllData(arrivals: seq<Arrival>) {
    forall i :: 0 <= i < |arrivals| ==> arrivals[i].Data?
  }

  /** The bytes of the pieces up to the n-th, one behind the other. */
  ghost function BytesOf(arrivals: seq<Arrival>, n: nat): seq<char>
    requires n <= |arrivals| && AllData(arrivals[..n])
  {
    if n == 0 then []
    else
      assert arrivals[..n - 1] == arrivals[..n][..n - 1] && arrivals[n - 1] == arrivals[..n][n - 1];
      BytesOf(arrivals, n - 1) + arrivals[n - 1].bytes
  }

  /** What can be learned of a connection: the bytes in front of the first failed read, and the error that
      is not in errno then; or all bytes, and EIO when the peer has closed it. */
  lemma {:induction false} IncomingIs(arrivals: seq<Arrival>, n: nat)
    requires n <= |arrivals| && AllData(arrivals[..n])
    ensures n == |arrivals| ==> Incoming(arrivals) == Source(BytesOf(arrivals, n), EIO)
    ensures n < |arrivals| && arrivals[n].Failed? ==> Incoming(arrivals) == Source(BytesOf(arrivals, n), EOTHER(1))
  {
    var front, back := arrivals[..n], arrivals[n..];
    assert arrivals == front + back;
    DataFirst(front, back);
    FrontBytes(arrivals, n);
    assert Incoming(front).text + [] == Incoming(front).text;
  }

  lemma {:induction false} FrontBytes(arrivals: seq<Arrival>, n: nat)
    requires n <= |arrivals| && AllData(arrivals[..n])
    ensures Incoming(arrivals[..n]).text == BytesOf(arrivals, n)
  {
    if n > 0 {
      var front, last := arrivals[..n - 1], [arrivals[n - 1]];
      assert arrivals[..n] == front + last;
      assert front == arrivals[..n][..n - 1] && last[0] == arrivals[..n][n - 1];
      DataFirst(front, last);
      FrontBytes(arrivals, n - 1);
      assert last[1..] == [] && last[0].bytes + [] == last[0].bytes;
      assert Incoming(last).text == last[0].bytes;
    }
  }

  /** Bytes before anything else that arrives. */
  lemma {:induction false} DataFirst(before: seq<Arrival>, more: seq<Arrival>)
    requires AllData(before)
    ensures Incoming(before + more) == Source(Incoming(before).text + Incoming(more).text, Incoming(more).ending)
    decreases |before|
  {
    if before == [] {
      assert before + more == more;
    } else {
      assert (before + more)[1..] == before[1..] + more;
      DataFirst(before[1..], more);
      assert before[0].bytes + (Incoming(before[1..]).text + Incoming(more).text) == Incoming(before).text + Incoming(more).text;
    }
  }

  /** An error of read, EAGAIN like any other, that comes behind some bytes. A conversation goes on as
      if it were not there exactly when those bytes answer every call, or when it would break by another
      error at the same call anyway. */
  lemma ErrorUnseen(before: seq<Arrival>, errno: nat, after: seq<Arrival>, reqs: seq<Request>)
    requires AllData(before) && forall q :: q in reqs ==> Proper(q)
    ensures var cut, whole := Some(Incoming(before + [Failed(errno)] + after)), Some(Incoming(before + after));
            Replies(cut, reqs) == Replies(whole, reqs) <==>
              || Left(Some(Incoming(before)), reqs).Some?
              || (whole.value.ending == READ_FAILED && Answered(cut, reqs) == Answered(whole, reqs))
  {
    assert before + [Failed(errno)] + after == before + ([Failed(errno)] + after);
    DataFirst(before, [Failed(errno)] + after);
    DataFirst(before, after);
    DataFirst(before, []);
    assert before + [] == before && Incoming(before).text + [] == Incoming(before).text;
    FailureSeen(Incoming(before).text, Incoming(after).text, Incoming(after).ending, reqs);
    SameBytesLeft(Incoming(before).text, READ_FAILED, EIO, reqs);
  }

  /** How a connection ends does not matter while its bytes last. */
  lemma {:induction false} SameBytesLeft(t: seq<char>, e: Errno, e': Errno, reqs: seq<Request>)
    requires forall q :: q in reqs ==> Proper(q)
    ensures Left(Some(Source(t, e)), reqs).Some? <==> Left(Some(Source(t, e')), reqs).Some?
    decreases |reqs|
  {
    if reqs != [] {
      assert reqs[0] in reqs;
      MoreBehind(t, [], e, e', reqs[0]);
      MoreBehind(t, [], e', e, reqs[0]);
      assert t + [] == t;
      if Enough(t, reqs[0]) {
        SameBytesLeft(Answer(Some(Source(t, e)), reqs[0]).rest.value.text, e, e', reqs[1..]);
      } else {
        ClosedStaysClosed(reqs[1..]);
      }
    }
  }
}
