/** How shfs writes a command line and how the remote side reads it back, on values:
    the quoting of src/filesystems/shfs/shfs.c lines 54-119 and the five-state tokenizer of
    src/filesystems/shfs/perl-code.in lines 428-470. */
module QuotingSpec {
  import opened Common

  /** Every quote is closed, escaped and opened again: aaa'aaa becomes aaa'\''aaa. */
  function Quote(s: string): string {
    if s == [] then [] else Piece(s[0]) + Quote(s[1..])
  }

  function Piece(c: char): string {
    if c == '\'' then "'\\''" else [c]
  }

  /** The quotes among the first n bytes. */
  function Quotes(s: string, n: nat): nat
    requires n <= |s|
  {
    if n == 0 then 0 else Quotes(s, n - 1) + if s[n - 1] == '\'' then 1 else 0
  }

  lemma {:induction false} QuoteJoin(a: string, b: string)
    ensures Quote(a + b) == Quote(a) + Quote(b)
  {
    if a == [] {
      assert a + b == b;
    } else {
      QuoteJoin(a[1..], b);
      assert (a + b)[1..] == a[1..] + b && (a + b)[0] == a[0];
      assert Piece(a[0]) + (Quote(a[1..]) + Quote(b)) == (Piece(a[0]) + Quote(a[1..])) + Quote(b);
    }
  }

  lemma QuoteAround(s: string, a: string, c: char, b: string)
    requires s == a + [c] + b
    ensures Quote(s) == Quote(a) + Piece(c) + Quote(b)
  {
    QuoteJoin(a + [c], b);
    QuoteMore(a, c);
  }

  lemma QuoteMore(a: string, c: char)
    ensures Quote(a + [c]) == Quote(a) + Piece(c)
  {
    QuoteJoin(a, [c]);
    assert Quote([c][1..]) == [];
    assert Quote([c]) == Piece(c);
  }

  lemma {:induction false} QuotePrefix(s: string, n: nat)
    requires n <= |s|
    ensures |Quote(s[..n])| == n + 3 * Quotes(s, n)
  {
    if n > 0 {
      QuotePrefix(s, n - 1);
      PrefixLast(s, n);
      QuoteMore(s[..n - 1], s[n - 1]);
    }
  }

  lemma PrefixLast(s: string, n: nat)
    requires 0 < n <= |s|
    ensures s[..n] == s[..n - 1] + [s[n - 1]]
  {
  }

  lemma QuoteLength(s: string)
    ensures |Quote(s)| == |s| + 3 * Quotes(s, |s|)
  {
    QuotePrefix(s, |s|);
    assert s[..|s|] == s;
  }

  lemma {:induction false} QuoteNulFree(s: string)
    requires '\0' !in s
    ensures '\0' !in Quote(s)
  {
    if s != [] {
      QuoteNulFree(s[1..]);
    }
  }

  /** One argument of a command: a quoted path, or a number or a flag sent as it is. */
  datatype Word = Quoted(text: string) | Plain(text: string) {
    predicate Ok() {
      Quoted? || IsPlain(text)
    }

    function Sent(): string {
      if Quoted? then "'" + Quote(text) + "'" else text
    }
  }

  predicate IsPlain(s: string) {
    s != [] && s[0] != '\'' && ' ' !in s && '\n' !in s
  }

  function Sent(ws: seq<Word>): string {
    if ws == [] then "" else if |ws| == 1 then ws[0].Sent() else ws[0].Sent() + " " + Sent(ws[1..])
  }

  function Texts(ws: seq<Word>): seq<string> {
    if ws == [] then [] else [ws[0].text] + Texts(ws[1..])
  }

  datatype Command = Command(name: string, words: seq<Word>) {
    predicate Ok() {
      IsPlain(name) && forall w :: w in words ==> w.Ok()
    }

    /** The bytes do_command sends. */
    function Line(): string {
      name + " " + Sent(words) + "\n"
    }

    /** What the remote side is meant to receive. */
    function Args(): seq<string> {
      [name] + Texts(words)
    }
  }

  /** The variables of getline: $state, $str and @args. */
  datatype Scan = Scan(state: nat, str: string, args: seq<string>)

  datatype Turn = More(scan: Scan) | Done(args: seq<string>)

  const START := Scan(0, "", [])

  function Flush(s: Scan): Scan {
    Scan(0, "", s.args + [s.str])
  }

  /** One character. */
  function Step(s: Scan, c: char): Turn {
    if s.state == 0 then
      if c == '\n' then Done(s.args)
      else if c == '\'' then More(s.(state := 2))
      else if c != ' ' then More(Scan(1, [c], s.args))
      else More(s)
    else if s.state == 1 then
      if c == '\n' then Done(s.args + [s.str])
      else if c == ' ' then More(Flush(s))
      else More(s.(str := s.str + [c]))
    else if s.state == 2 then
      if c == '\'' then More(s.(state := 3)) else More(s.(str := s.str + [c]))
    else if s.state == 3 then
      if c == '\n' then Done(s.args + [s.str])
      else if c == ' ' then More(Flush(s))
      else if c == '\'' then More(s.(state := 2))
      else if c == '\\' then More(s.(state := 4))
      else More(s)
    else if s.state == 4 then
      if c == '\n' then Done(s.args + [s.str])
      else if c == ' ' then More(Flush(s))
      else if c == '\'' then More(Scan(0, s.str + [c], s.args))
      else More(s)
    else More(s)
  }

  /** What getline returns and the input it leaves; None is exit(0) at the end of the input. */
  datatype Got = Got(args: Option<seq<string>>, rest: string)

  function Tokens(s: Scan, input: string): (r: Got)
    ensures r.rest != [] ==> |r.rest| < |input|
    decreases input, 0
  {
    if input == [] then Got(if s.args == [] then None else Some(s.args), [])
    else After(Step(s, input[0]), input[1..])
  }

  function After(t: Turn, rest: string): (r: Got)
    ensures |r.rest| <= |rest|
    decreases rest, 1
  {
    if t.Done? then Got(Some(t.args), rest) else Tokens(t.scan, rest)
  }

  /** The command loop of perl-code.in lines 478-481: every non-empty line is one command. */
  function Session(input: string): seq<seq<string>>
    decreases |input|, 0
  {
    var g := Tokens(START, input);
    if g.rest != [] then Commands(g.args) + Later(g.args, g.rest) else Commands(g.args)
  }

  function Later(args: Option<seq<string>>, rest: string): seq<seq<string>>
    decreases |rest|, 1
  {
    if args.None? || rest == [] then [] else Session(rest)
  }

  function Commands(args: Option<seq<string>>): seq<seq<string>> {
    if args.None? || args.value == [] then [] else [args.value]
  }

  lemma Feed(s: Scan, c: char, input: string, rest: string)
    requires input == [c] + rest
    ensures Tokens(s, input) == After(Step(s, c), rest)
  {
    assert input[1..] == rest;
  }

  /** In state 1 everything up to a blank or a line end is taken as it is. */
  lemma {:induction false} FeedPlain(str: string, args: seq<string>, s: string, input: string, rest: string)
    requires ' ' !in s && '\n' !in s && input == s + rest
    ensures Tokens(Scan(1, str, args), input) == Tokens(Scan(1, str + s, args), rest)
    decreases |s|
  {
    if s == [] {
      assert input == rest && str + s == str;
    } else {
      var more := s[1..] + rest;
      assert input == [s[0]] + more;
      assert s[0] in s && str + [s[0]] + s[1..] == str + s;
      Feed(Scan(1, str, args), s[0], input, more);
      FeedPlain(str + [s[0]], args, s[1..], more, rest);
    }
  }

  /** The four bytes of an escaped quote, or the one byte of any other character. */
  lemma FeedPiece(str: string, args: seq<string>, c: char, input: string, rest: string)
    requires input == Piece(c) + rest
    ensures Tokens(Scan(2, str, args), input) == Tokens(Scan(2, str + [c], args), rest)
  {
    if c == '\'' {
      var r1 := ['\''] + rest;
      var r2 := ['\''] + r1;
      var r3 := ['\\'] + r2;
      assert input == ['\''] + r3;
      Feed(Scan(2, str, args), '\'', input, r3);
      Feed(Scan(3, str, args), '\\', r3, r2);
      Feed(Scan(4, str, args), '\'', r2, r1);
      Feed(Scan(0, str + [c], args), '\'', r1, rest);
    } else {
      Feed(Scan(2, str, args), c, input, rest);
    }
  }

  lemma QuoteFront(p: string, rest: string)
    requires p != ""
    ensures Quote(p) + rest == Piece(p[0]) + (Quote(p[1..]) + rest)
  {
    assert Piece(p[0]) + Quote(p[1..]) + rest == Piece(p[0]) + (Quote(p[1..]) + rest);
  }

  lemma OneMore(str: string, p: string)
    requires p != ""
    ensures str + [p[0]] + p[1..] == str + p
  {
  }

  /** Inside quotes, the quoted form of any text adds exactly that text. */
  lemma {:induction false} FeedQuoted(str: string, args: seq<string>, p: string, input: string, rest: string)
    requires input == Quote(p) + rest
    ensures Tokens(Scan(2, str, args), input) == Tokens(Scan(2, str + p, args), rest)
    decreases |p|
  {
    if p == [] {
      assert input == rest && str + p == str;
    } else {
      var more := Quote(p[1..]) + rest;
      QuoteFront(p, rest);
      OneMore(str, p);
      FeedPiece(str, args, p[0], input, more);
      FeedQuoted(str + [p[0]], args, p[1..], more, rest);
    }
  }

  /** A word ends in state 1 or 3 with its text in $str. */
  lemma FeedWord(args: seq<string>, w: Word, input: string, rest: string)
    requires w.Ok() && input == w.Sent() + rest
    ensures Tokens(Scan(0, "", args), input) == Tokens(Scan(if w.Quoted? then 3 else 1, w.text, args), rest)
  {
    if w.Quoted? {
      FeedQuotedWord(args, w.text, input, rest);
    } else {
      FeedPlainWord(args, w.text, input, rest);
    }
  }

  lemma FeedQuotedWord(args: seq<string>, t: string, input: string, rest: string)
    requires input == "'" + Quote(t) + "'" + rest
    ensures Tokens(Scan(0, "", args), input) == Tokens(Scan(3, t, args), rest)
  {
    var more := ['\''] + rest;
    var inner := Quote(t) + more;
    assert input == ['\''] + inner;
    assert "" + t == t;
    Feed(Scan(0, "", args), '\'', input, inner);
    FeedQuoted("", args, t, inner, more);
    Feed(Scan(2, t, args), '\'', more, rest);
  }

  lemma FeedPlainWord(args: seq<string>, t: string, input: string, rest: string)
    requires IsPlain(t) && input == t + rest
    ensures Tokens(Scan(0, "", args), input) == Tokens(Scan(1, t, args), rest)
  {
    var more := t[1..] + rest;
    assert input == [t[0]] + more;
    assert t[0] in t && [t[0]] + t[1..] == t;
    Feed(Scan(0, "", args), t[0], input, more);
    FeedPlain([t[0]], args, t[1..], more, rest);
  }

  lemma {:induction false} FeedWords(args: seq<string>, ws: seq<Word>, input: string, rest: string)
    requires (forall w :: w in ws ==> w.Ok()) && input == Sent(ws) + "\n" + rest
    ensures Tokens(Scan(0, "", args), input) == Got(Some(args + Texts(ws)), rest)
    decreases |ws|
  {
    if ws == [] {
      assert input == ['\n'] + rest && args + Texts(ws) == args;
      Feed(Scan(0, "", args), '\n', input, rest);
    } else if |ws| == 1 {
      assert Texts(ws[1..]) == [] && Texts(ws) == [ws[0].text];
      LastWord(args, ws[0], input, rest);
    } else {
      var w, more := ws[0], Sent(ws[1..]) + "\n" + rest;
      SentMore(ws, rest);
      TextsMore(args, ws);
      NextWord(args, w, input, more);
      FeedWords(args + [w.text], ws[1..], more, rest);
    }
  }

  lemma SentMore(ws: seq<Word>, rest: string)
    requires |ws| > 1
    ensures Sent(ws) + "\n" + rest == ws[0].Sent() + ([' '] + (Sent(ws[1..]) + "\n" + rest))
  {
    Regroup(ws[0].Sent(), Sent(ws[1..]), rest);
  }

  lemma Regroup(a: string, b: string, rest: string)
    ensures a + " " + b + "\n" + rest == a + ([' '] + (b + "\n" + rest))
  {
  }

  lemma TextsMore(args: seq<string>, ws: seq<Word>)
    requires ws != []
    ensures args + [ws[0].text] + Texts(ws[1..]) == args + Texts(ws)
  {
  }

  lemma LastWord(args: seq<string>, w: Word, input: string, rest: string)
    requires w.Ok() && input == w.Sent() + "\n" + rest
    ensures Tokens(Scan(0, "", args), input) == Got(Some(args + [w.text]), rest)
  {
    var nl := ['\n'] + rest;
    assert input == w.Sent() + nl;
    FeedWord(args, w, input, nl);
    Feed(Scan(if w.Quoted? then 3 else 1, w.text, args), '\n', nl, rest);
  }

  lemma NextWord(args: seq<string>, w: Word, input: string, more: string)
    requires w.Ok() && input == w.Sent() + ([' '] + more)
    ensures Tokens(Scan(0, "", args), input) == Tokens(Scan(0, "", args + [w.text]), more)
  {
    FeedWord(args, w, input, [' '] + more);
    Feed(Scan(if w.Quoted? then 3 else 1, w.text, args), ' ', [' '] + more, more);
  }

  /** getline inverts do_command: it returns exactly the command and its arguments, whatever
      quotes, blanks and line ends the paths hold, and stops right after the final line end. */
  lemma CommandRoundTrip(c: Command, rest: string)
    requires c.Ok()
    ensures Tokens(START, c.Line() + rest) == Got(Some(c.Args()), rest)
  {
    var more := Sent(c.words) + "\n" + rest;
    var input := c.Line() + rest;
    assert input == Plain(c.name).Sent() + ([' '] + more);
    NextWord([], Plain(c.name), input, more);
    assert [] + [c.name] == [c.name];
    FeedWords([c.name], c.words, more, rest);
  }

  // ----- what the tokenizer does with input that shfs does not send -----

  /** Blanks in front of a word do not count. */
  lemma {:induction false} BlanksSkipped(args: seq<string>, n: nat, rest: string)
    ensures Tokens(Scan(0, "", args), seq(n, _ => ' ') + rest) == Tokens(Scan(0, "", args), rest)
  {
    var blanks := seq(n, _ => ' ');
    if n == 0 {
      assert blanks + rest == rest;
    } else {
      var more := seq(n - 1, _ => ' ') + rest;
      assert blanks + rest == [' '] + more;
      Feed(Scan(0, "", args), ' ', blanks + rest, more);
      BlanksSkipped(args, n - 1, rest);
    }
  }

  /** Two quoted texts without a blank between them are one word. */
  lemma QuotedTextsJoin(args: seq<string>, t: string, u: string, rest: string)
    ensures Tokens(Scan(0, "", args), "'" + Quote(t) + "'" + ("'" + Quote(u) + "'" + rest)) == Tokens(Scan(3, t + u, args), rest)
  {
    var back := "'" + Quote(u) + "'" + rest;
    FeedQuotedWord(args, t, "'" + Quote(t) + "'" + back, back);
    var more := ['\''] + rest;
    var inner := Quote(u) + more;
    assert back == ['\''] + inner;
    Feed(Scan(3, t, args), '\'', back, inner);
    FeedQuoted(t, args, u, inner, more);
    Feed(Scan(2, t + u, args), '\'', more, rest);
  }

  /** What stands behind a closing quote is lost up to the next quote, backslash, blank or line end, and
      what stands behind a backslash there up to the next quote, blank or line end. */
  lemma {:induction false} BehindQuote(state: nat, str: string, args: seq<string>, junk: string, rest: string)
    requires state == 3 || state == 4
    requires '\'' !in junk && ' ' !in junk && '\n' !in junk && (state == 3 ==> '\\' !in junk)
    ensures Tokens(Scan(state, str, args), junk + rest) == Tokens(Scan(state, str, args), rest)
    decreases |junk|
  {
    if junk == [] {
      assert junk + rest == rest;
    } else {
      var more := junk[1..] + rest;
      assert junk + rest == [junk[0]] + more && junk[0] in junk;
      Feed(Scan(state, str, args), junk[0], junk + rest, more);
      BehindQuote(state, str, args, junk[1..], rest);
    }
  }

  /** A quote behind a backslash there is added to the word, and a blank or a line end ends the word. */
  lemma BehindBackslash(str: string, args: seq<string>, rest: string)
    ensures Tokens(Scan(3, str, args), "\\'" + rest) == Tokens(Scan(0, str + "'", args), rest)
    ensures Tokens(Scan(3, str, args), "\\ " + rest) == Tokens(Scan(0, "", args + [str]), rest)
    ensures Tokens(Scan(3, str, args), "\\\n" + rest) == Got(Some(args + [str]), rest)
  {
    forall c | c in "' \n" ensures Tokens(Scan(3, str, args), "\\" + ([c] + rest)) == After(Step(Scan(4, str, args), c), rest) {
      Feed(Scan(3, str, args), '\\', "\\" + ([c] + rest), [c] + rest);
      Feed(Scan(4, str, args), c, [c] + rest, rest);
    }
    assert "' \n"[0] == '\'' && "' \n"[1] == ' ' && "' \n"[2] == '\n';
    assert "\\'" + rest == "\\" + (['\''] + rest) && "\\ " + rest == "\\" + ([' '] + rest) && "\\\n" + rest == "\\" + (['\n'] + rest);
  }

  /** When the input ends inside a line, the word it ends in is lost: the words in front of it are
      returned, and the program ends when there is none. */
  lemma UnfinishedLine(args: seq<string>, w: Word)
    requires w.Ok()
    ensures Tokens(Scan(0, "", args), w.Sent()) == Got(if args == [] then None else Some(args), "")
  {
    assert w.Sent() + "" == w.Sent();
    FeedWord(args, w, w.Sent(), "");
  }

  /** An empty line is no command. */
  lemma EmptyLineIgnored(rest: string)
    requires rest != ""
    ensures Session("\n" + rest) == Session(rest)
  {
    assert "\n" + rest == ['\n'] + rest;
    Feed(START, '\n', "\n" + rest, rest);
  }

  function Lines(cs: seq<Command>): string {
    if cs == [] then [] else cs[0].Line() + Lines(cs[1..])
  }

  function AllArgs(cs: seq<Command>): seq<seq<string>> {
    if cs == [] then [] else [cs[0].Args()] + AllArgs(cs[1..])
  }

  /** A whole session: no command runs into the next one. */
  lemma {:induction false} SessionRoundTrip(cs: seq<Command>)
    requires forall c :: c in cs ==> c.Ok()
    ensures Session(Lines(cs)) == AllArgs(cs)
  {
    if cs != [] {
      CommandRoundTrip(cs[0], Lines(cs[1..]));
      SessionRoundTrip(cs[1..]);
      assert cs[1..] != [] ==> Lines(cs[1..]) != [];
    }
  }
}
