/** The buffers: convert_path and the framing part of do_command
    (src/filesystems/shfs/shfs.c lines 54-119), and the character loops of the remote side. */
module Quoting {
  import opened Common
  import opened CText
  import opened QuotingSpec

  const SHFS_PATH_MAX := 512
  const SOCKBUF_SIZE := 5120
  const ENAMETOOLONG := 36

  /** The first loop of convert_path: the length of the copy and the quotes in it. */
  method CountQuotes(dst: array<char>, src: string) returns (r: nat, q: nat)
    requires NulFree(src) && |src| < dst.Length && dst[..|src|] == src && dst[|src|] == '\0'
    ensures r == |src| && q == Quotes(src, |src|)
  {
    r, q := 0, 0;
    while dst[r] != '\0'
      invariant r <= |src| && q == Quotes(src, r)
      decreases |src| - r
    {
      assert dst[r] == dst[..|src|][r] == src[r];
      if dst[r] == '\'' {
        q := q + 1;
      }
      r := r + 1;
    }
    assert forall k :: 0 <= k < |src| ==> dst[k] == dst[..|src|][k] && src[k] in src;
  }

  /** The piece for byte r stands where the quotes before it push it. */
  ghost predicate PieceAt(src: string, goal: string, r: nat)
    requires r < |src|
  {
    var at, piece := r + 3 * Quotes(src, r), Piece(src[r]);
    at + |piece| <= |goal| && forall k :: at <= k < at + |piece| ==> goal[k] == piece[k - at]
  }

  /** Every byte's piece in its place: another way to say that goal is Quote(src). */
  ghost predicate Spelled(src: string, goal: string) {
    |goal| == |src| + 3 * Quotes(src, |src|) && forall r :: 0 <= r < |src| ==> PieceAt(src, goal, r)
  }

  lemma QuoteSpelled(src: string)
    ensures Spelled(src, Quote(src))
  {
    QuoteLength(src);
    forall r | 0 <= r < |src| ensures PieceAt(src, Quote(src), r) {
      InTheMiddle(src, src[..r], src[r + 1..], r);
    }
  }

  lemma InTheMiddle(src: string, front: string, back: string, r: nat)
    requires r < |src| && front == src[..r] && back == src[r + 1..]
    ensures PieceAt(src, Quote(src), r)
  {
    assert src == front + [src[r]] + back;
    QuoteAround(src, front, src[r], back);
    QuotePrefix(src, r);
    PieceIn(src, Quote(src), Quote(front), Quote(back), r);
  }

  lemma PieceIn(src: string, goal: string, front: string, back: string, r: nat)
    requires r < |src| && |front| == r + 3 * Quotes(src, r) && goal == front + Piece(src[r]) + back
    ensures PieceAt(src, goal, r)
  {
  }

  lemma {:induction false} NoneBefore(src: string, r: nat, k: nat)
    requires k <= r <= |src| && Quotes(src, r) == 0
    ensures Quotes(src, k) == 0
  {
    if k < r {
      NoneBefore(src, r - 1, k);
    }
  }

  /** d' is d with the piece for byte r ending in front of s. */
  ghost predicate Written(d: seq<char>, d': seq<char>, r: nat, s: nat)
    requires r < |d| && |Piece(d[r])| <= s <= |d|
  {
    var piece := Piece(d[r]);
    && |d'| == |d|
    && (forall k :: s - |piece| <= k < s ==> d'[k] == piece[k - (s - |piece|)])
    && (forall k :: 0 <= k < s - |piece| || s <= k < |d| ==> d'[k] == d[k])
  }

  /** r bytes are still to be read, with q quotes among them; behind r + 3q all is in place. */
  ghost predicate Halfway(src: string, goal: string, d: seq<char>, r: nat, q: nat) {
    && r <= |src| && q == Quotes(src, r)
    && r + 3 * q <= |goal| < |d| && d[|goal|] == '\0'
    && (forall k :: 0 <= k < r ==> d[k] == src[k])
    && (forall k :: r + 3 * q <= k < |goal| ==> d[k] == goal[k])
  }

  lemma OneLess(src: string, goal: string, d: seq<char>, r: nat, q: nat)
    requires q > 0 && Halfway(src, goal, d, r, q)
    ensures r > 0 && d[r - 1] == src[r - 1] && r - 1 + |Piece(d[r - 1])| <= r + 3 * q
  {
  }

  lemma OnePiece(src: string, goal: string, d: seq<char>, d': seq<char>, r: nat, q: nat)
    requires q > 0 && r > 0 && Halfway(src, goal, d, r, q) && Spelled(src, goal)
    requires |Piece(d[r - 1])| <= r + 3 * q && Written(d, d', r - 1, r + 3 * q)
    ensures Halfway(src, goal, d', r - 1, if d[r - 1] == '\'' then q - 1 else q)
  {
    assert PieceAt(src, goal, r - 1);
  }

  lemma NothingMoved(src: string, goal: string, d: seq<char>)
    requires |goal| == |src| + 3 * Quotes(src, |src|) < |d| && d[..|src|] == src && d[|goal|] == '\0'
    ensures Halfway(src, goal, d, |src|, Quotes(src, |src|))
  {
    assert forall k :: 0 <= k < |src| ==> d[k] == d[..|src|][k];
  }

  lemma AllPieces(src: string, goal: string, d: seq<char>, r: nat)
    requires Halfway(src, goal, d, r, 0) && Spelled(src, goal)
    ensures d[..|goal|] == goal
  {
    forall k | 0 <= k < r ensures goal[k] == src[k] {
      NoneBefore(src, r, k);
      NoneBefore(src, r, k + 1);
      assert PieceAt(src, goal, k);
    }
  }

  /** The body of the second loop. r and s count the bytes up to and including the ones that
      the pointers of the source name. */
  method PutPiece(dst: array<char>, r: nat, s: nat) returns (s': nat, quote: bool)
    requires 0 < r <= dst.Length && r - 1 + |Piece(dst[r - 1])| <= s <= dst.Length
    modifies dst
    ensures Written(old(dst[..]), dst[..], r - 1, s)
    ensures quote == (old(dst[r - 1]) == '\'') && s' == s - |Piece(old(dst[r - 1]))|
  {
    quote := dst[r - 1] == '\'';
    if quote {
      s' := s - 4;
      dst[s'] := '\'';
      dst[s' + 1] := '\\';
      dst[s' + 2] := '\'';
      dst[s' + 3] := '\'';
    } else {
      s' := s - 1;
      dst[s'] := dst[r - 1];
    }
  }

  /** The second loop: backwards over the copy, never ahead of the bytes still to be read. */
  method Spread(dst: array<char>, src: string, ghost goal: string, q0: nat)
    requires q0 == Quotes(src, |src|) && |goal| < dst.Length && Spelled(src, goal)
    requires dst[..|src|] == src && dst[|goal|] == '\0'
    modifies dst
    ensures dst[|goal|] == '\0' && dst[..|goal|] == goal
  {
    var q, r: nat := q0, |src|;
    var s := r + 3 * q;
    assert dst[..][..|src|] == dst[..|src|];
    NothingMoved(src, goal, dst[..]);
    while q > 0
      invariant s == r + 3 * q && Halfway(src, goal, dst[..], r, q)
      decreases r
    {
      ghost var d := dst[..];
      OneLess(src, goal, d, r, q);
      var quote;
      s, quote := PutPiece(dst, r, s);
      OnePiece(src, goal, d, dst[..], r, q);
      q, r := if quote then q - 1 else q, r - 1;
    }
    AllPieces(src, goal, dst[..], r);
    assert dst[..][..|goal|] == dst[..|goal|];
  }

  /** convert_path. A path of 512 bytes or more is answered by a negative number and leaves dst
      alone; a caller that only tests for zero takes that answer for success. */
  method ConvertPath(src: string, dst: array<char>) returns (r: int)
    requires NulFree(src) && dst.Length == SHFS_PATH_MAX
    modifies dst
    ensures r == 1 <==> |Quote(src)| < SHFS_PATH_MAX
    ensures r == 1 ==> dst[|Quote(src)|] == '\0' && dst[..|Quote(src)|] == Quote(src)
    ensures r == 0 <==> |src| < SHFS_PATH_MAX <= |Quote(src)|
    ensures r < 0 <==> SHFS_PATH_MAX <= |src|
    ensures r < 0 ==> r == -ENAMETOOLONG && dst[..] == old(dst[..])
  {
    QuoteLength(src);
    if |src| > SHFS_PATH_MAX - 1 {
      return -ENAMETOOLONG;
    }
    Store(dst, 0, src + ['\0']);
    assert dst[..|src|] == src && dst[|src|] == '\0';
    var n, q := CountQuotes(dst, src);
    var s := n + 3 * q;
    if s + 1 > SHFS_PATH_MAX {
      return 0;
    }
    dst[s] := '\0';
    assert dst[..|src|] == src;
    QuoteSpelled(src);
    Spread(dst, src, Quote(src), q);
    return 1;
  }

  /** do_command up to the write: the command line in sockbuf, or an error when it does not fit.
      `args` is the text that vsnprintf expands to. */
  method FrameCommand(sockbuf: array<char>, cmd: string, args: string) returns (r: Result<nat>)
    requires sockbuf.Length == SOCKBUF_SIZE && |cmd| < SOCKBUF_SIZE && NulFree(cmd) && NulFree(args)
    modifies sockbuf
    ensures r.Ok? <==> |cmd| + |args| + 3 <= SOCKBUF_SIZE
    ensures r.Err? ==> r.error == Errno.ENAMETOOLONG
    ensures r.Ok? ==> r.value == |cmd| + |args| + 2 && sockbuf[..r.value] == cmd + " " + args + "\n" && sockbuf[r.value] == '\0'
  {
    Store(sockbuf, 0, cmd + ['\0']);
    var s := |cmd|;
    if SOCKBUF_SIZE - s < 2 {
      return Err(Errno.ENAMETOOLONG);
    }
    Store(sockbuf, s, " " + ['\0']);
    s := s + 1;
    assert sockbuf[..s] == cmd + " ";
    // vsnprintf keeps the last byte for the NUL and returns the untruncated length.
    var room := SOCKBUF_SIZE - s;
    var kept := if |args| < room then args else args[..room - 1];
    Store(sockbuf, s, kept + ['\0']);
    if s + |kept| + 2 > SOCKBUF_SIZE {
      return Err(Errno.ENAMETOOLONG);
    }
    assert sockbuf[..s + |kept|] == cmd + " " + args;
    s := s + |args|;
    Store(sockbuf, s, "\n" + ['\0']);
    assert sockbuf[..s + 1] == cmd + " " + args + "\n";
    return Ok(s + 1);
  }

  /** What vsnprintf finds in a buffer that convert_path has answered with r: the C string in it, or,
      where the buffer was never written, any bytes up to some NUL in it or behind it. */
  method Converted(dst: array<char>, p: string, r: int, stale: string) returns (q: string)
    requires NulFree(p) && NulFree(stale) && dst.Length == SHFS_PATH_MAX
    requires r == 1 ==> |Quote(p)| < SHFS_PATH_MAX && dst[|Quote(p)|] == '\0' && dst[..|Quote(p)|] == Quote(p)
    ensures NulFree(q) && (if r == 1 then q == Quote(p) else q == stale)
  {
    if r == 1 {
      q := CStr(dst[..]);
      QuoteNulFree(p);
      assert dst[..][..|Quote(p)|] == Quote(p);
      CStrAt(dst[..], |Quote(p)|);
    } else {
      q := stale;
    }
  }

  lemma TwoPaths(cmd: string, p1: string, p2: string)
    requires IsPlain(cmd)
    ensures Command(cmd, [Quoted(p1), Quoted(p2)]).Line() == cmd + " " + ("'" + Quote(p1) + "' '" + Quote(p2) + "'") + "\n"
    ensures forall rest :: Tokens(START, Command(cmd, [Quoted(p1), Quoted(p2)]).Line() + rest) == Got(Some([cmd, p1, p2]), rest)
  {
    var ws := [Quoted(p1), Quoted(p2)];
    assert ws[1..] == [Quoted(p2)];
    assert Sent(ws) == "'" + Quote(p1) + "' '" + Quote(p2) + "'";
    assert Texts(ws[1..][1..]) == [];
    assert Texts(ws[1..]) == [p2] && Texts(ws) == [p1, p2];
    assert Command(cmd, ws).Args() == [cmd, p1, p2];
    forall rest ensures Tokens(START, Command(cmd, ws).Line() + rest) == Got(Some([cmd, p1, p2]), rest) {
      CommandRoundTrip(Command(cmd, ws), rest);
    }
  }

  /** What goes out in the place of a path: its quoted form, or, for a path of 512 bytes or more, what
      the buffer that was never written held. */
  function GoesOut(p: string, stale: string): string {
    if |p| < SHFS_PATH_MAX then Quote(p) else stale
  }

  /** A two-path caller (shfs_rename, lines 171-182): both paths are converted and one line is framed.
      It goes out exactly when the quoted form of every path below 512 bytes fits its buffer and the
      line fits; a longer path is not refused, since only a zero counts as a failure, and whatever its
      buffer held (`stale1`, `stale2`) goes out in its place. When both paths are below 512 bytes a line
      that goes out is read as exactly the command and the two paths. */
  method FrameTwoPaths(sockbuf: array<char>, cmd: string, p1: string, p2: string, stale1: string, stale2: string) returns (r: Result<nat>)
    requires sockbuf.Length == SOCKBUF_SIZE && NulFree(cmd) && IsPlain(cmd) && |cmd| < SHFS_PATH_MAX
    requires NulFree(p1) && NulFree(p2) && NulFree(stale1) && NulFree(stale2)
    modifies sockbuf
    ensures var g1, g2 := GoesOut(p1, stale1), GoesOut(p2, stale2);
            && (r.Ok? <==>
                  && (|p1| < SHFS_PATH_MAX ==> |Quote(p1)| < SHFS_PATH_MAX)
                  && (|p2| < SHFS_PATH_MAX ==> |Quote(p2)| < SHFS_PATH_MAX)
                  && |cmd| + |g1| + |g2| + 8 <= SOCKBUF_SIZE)
            && (r.Ok? ==> r.value < SOCKBUF_SIZE && sockbuf[..r.value] == cmd + " " + ("'" + g1 + "' '" + g2 + "'") + "\n")
    ensures r.Err? ==> r.error == Errno.ENAMETOOLONG
    ensures |p1| < SHFS_PATH_MAX && |p2| < SHFS_PATH_MAX ==>
              (r.Ok? <==> |Quote(p1)| < SHFS_PATH_MAX && |Quote(p2)| < SHFS_PATH_MAX)
    ensures r.Ok? && |p1| < SHFS_PATH_MAX && |p2| < SHFS_PATH_MAX ==>
              && sockbuf[..r.value] == Command(cmd, [Quoted(p1), Quoted(p2)]).Line()
              && forall rest :: Tokens(START, sockbuf[..r.value] + rest) == Got(Some([cmd, p1, p2]), rest)
  {
    var new1, new2 := new char[SHFS_PATH_MAX], new char[SHFS_PATH_MAX];
    var ok1 := ConvertPath(p1, new1);
    if ok1 == 0 {
      return Err(Errno.ENAMETOOLONG);
    }
    var ok2 := ConvertPath(p2, new2);
    if ok2 == 0 {
      return Err(Errno.ENAMETOOLONG);
    }
    var q1 := Converted(new1, p1, ok1, stale1);
    var q2 := Converted(new2, p2, ok2, stale2);
    TwoPaths(cmd, p1, p2);
    r := FrameCommand(sockbuf, cmd, "'" + q1 + "' '" + q2 + "'");
  }

  /** getline: one character at a time; `used` is how far STDIN has been read. */
  method GetLine(input: string) returns (args: Option<seq<string>>, used: nat)
    ensures used <= |input| && Got(args, input[used..]) == Tokens(START, input)
  {
    var state, i, str := 0, 0, "";
    var list: seq<string> := [];
    used := 0;
    while used < |input|
      invariant used <= |input| && i == |list| && state <= 4
      invariant Tokens(Scan(state, str, list), input[used..]) == Tokens(START, input)
    {
      var c := input[used];
      ghost var s, rest := Scan(state, str, list), input[used + 1..];
      assert input[used..] == [c] + rest;
      Feed(s, c, input[used..], rest);
      assert Step(s, c).More? ==> Tokens(Step(s, c).scan, rest) == Tokens(START, input);
      used := used + 1;
      if c == '\n' && state != 2 {
        if state != 0 {
          list := list + [str];
        }
        return Some(list), used;
      }
      if state == 0 {
        if c == '\'' {
          state := 2;
        } else if c != ' ' {
          str, state := [c], 1;
        }
      } else if state == 2 {
        if c == '\'' {
          state := 3;
        } else {
          str := str + [c];
        }
      } else if c == ' ' {
        list, i, str, state := list + [str], i + 1, "", 0;
      } else if state == 1 {
        str := str + [c];
      } else if state == 3 {
        state := if c == '\'' then 2 else if c == '\\' then 4 else 3;
      } else if c == '\'' {
        str, state := str + [c], 0;
      }
    }
    return if list == [] then None else Some(list), used;
  }
}
