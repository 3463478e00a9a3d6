// The tokenizer and the printer of IRC messages (util.c, common.c), as values.
module Tokenizer {
  import opened CStrings
  import opened Message

  function DropLeading(s: string, c: char): (r: string)
    ensures r == [] || r[0] != c
    ensures |r| <= |s| && r == s[|s| - |r|..]
    ensures forall j | 0 <= j < |s| - |r| :: s[j] == c
  {
    if s != [] && s[0] == c then DropLeading(s[1..], c) else s
  }

  /** lsi_com_next_tok: the text from the next token on, or None where it returns NULL.  The
      token in front of it is then CutAt(s, delim). */
  function After(s: string, delim: char): (r: Option<string>)
    ensures r.Some? ==> r.value != [] && r.value[0] != delim && |r.value| < |s|
  {
    var t := DropLeading(s[IndexOf(s, delim)..], delim);
    if t == [] then None else Some(t)
  }

  /** The arguments behind the token `s` starts with, if there is room for `n` more.  The last
      one there is room for takes the rest of the line. */
  function Args(s: string, n: nat): (r: seq<string>)
    decreases |s|
  {
    if n == 0 then []
    else
      match After(s, ' ')
      case None => []
      case Some(t) =>
        if t[0] == ':' then [t[1..]]
        else [if n == 1 then t else CutAt(t, ' ')] + Args(t, n - 1)
  }

  /** lsi_ut_tokenize */
  function Tokenize(s: string): Option<Msg> {
    if s == [] || s[0] == ' ' then None
    else if s[0] == ':' then
      match After(s, ' ')
      case None => None
      case Some(t) => Some(Msg(Some(CutAt(s[1..], ' ')), CutAt(t, ' '), Args(t, MAX_ARGS)))
    else Some(Msg(None, CutAt(s, ' '), Args(s, MAX_ARGS)))
  }

  /** The pieces a list falls into, called up one by one with lsi_com_next_tok. */
  function Pieces(s: string, delim: char): (r: seq<string>)
    decreases |s|
  {
    [CutAt(s, delim)] + match After(s, delim) case None => [] case Some(t) => Pieces(t, delim)
  }

  /** The tags of a message. */
  function Tags(s: string): seq<string> {
    Pieces(s, ';')
  }

  function Take<T>(s: seq<T>, n: nat): seq<T> {
    if |s| <= n then s else s[..n]
  }

  function WithTags(m: Option<Msg>, tags: seq<string>): Option<(seq<string>, Msg)> {
    match m
    case None => None
    case Some(msg) => Some((tags, msg))
  }

  /** The tags of a line that had a '@', and what follows the space behind them. */
  function TagSplit(t: string): Option<(string, string)> {
    var sp := IndexOf(t, ' ');
    if sp == |t| then None else Some((t[..sp], t[sp + 1..]))
  }

  /** What lsi_io_read makes of the text of one line: at most `max` tags, and the message. */
  function ParseText(s: string, max: nat): Option<(seq<string>, Msg)> {
    if s != [] && s[0] == '@' then
      match TagSplit(s[1..])
      case None => None
      case Some((tags, rest)) => if rest == "" then None else WithTags(Tokenize(rest), Take(Tags(tags), max))
    else WithTags(Tokenize(s), [])
  }

  /** A line is read as a C string. */
  function Parse(line: string, max: nat): Option<(seq<string>, Msg)> {
    ParseText(CStr(line), max)
  }

  // ---------- the printer ----------

  /** Whether the last argument is printed with a colon. */
  predicate Colon(a: string, coltr: bool) {
    coltr || ' ' in a
  }

  function PrintArgs(args: seq<string>, coltr: bool): string {
    if args == [] then ""
    else " " + (if |args| == 1 && Colon(args[0], coltr) then ":" else "") + args[0] + PrintArgs(args[1..], coltr)
  }

  function PrintHead(m: Msg): string {
    match m.prefix
    case Some(p) => ":" + p + " " + m.cmd
    case None => m.cmd
  }

  /** The line lsi_ut_snrcmsg prints, without its line end. */
  function Body(m: Msg, coltr: bool): string {
    PrintHead(m) + PrintArgs(m.args, coltr)
  }

  // ---------- which messages are lines ----------

  predicate Middle(a: string) {
    a != [] && a[0] != ':' && ' ' !in a
  }

  /** What a message must be for a line to stand for it. */
  predicate WellFormed(m: Msg) {
    && |m.args| <= MAX_ARGS
    && m.cmd != [] && ' ' !in m.cmd
    && (m.prefix.Some? ==> ' ' !in m.prefix.value)
    && (m.prefix.None? ==> m.cmd[0] != ':')
    && forall i | 0 <= i < |m.args| - 1 :: Middle(m.args[i])
  }

  /** Whether the last argument needs no colon, or is given one for its spaces. */
  predicate LastPlain(args: seq<string>) {
    args == [] || Middle(args[|args| - 1]) || ' ' in args[|args| - 1]
  }

  lemma {:induction false} CutFront(a: string, b: string, c: char)
    requires c !in a && (b == [] || b[0] == c)
    ensures CutAt(a + b, c) == a && IndexOf(a + b, c) == |a|
  {
    IndexOfIs(a + b, c, |a|);
  }

  lemma {:induction false} AfterEnd(a: string, c: char)
    requires c !in a
    ensures After(a, c) == None
  {
  }

  lemma {:induction false} AfterSpace(a: string, c: char)
    requires c !in a
    ensures After(a + [c], c) == None
  {
    CutFront(a, [c], c);
    assert (a + [c])[|a|..] == [c];
  }

  lemma {:induction false} DropLeadingIs(s: string, c: char)
    requires s != [] && s[0] != c
    ensures DropLeading([c] + s, c) == s
  {
    assert ([c] + s)[1..] == s;
  }

  lemma {:induction false} AfterGap(a: string, u: string, c: char)
    requires c !in a && u != [] && u[0] != c
    ensures After(a + [c] + u, c) == Some(u)
  {
    assert a + [c] + u == a + ([c] + u);
    CutFront(a, [c] + u, c);
    assert (a + ([c] + u))[|a|..] == [c] + u;
    DropLeadingIs(u, c);
  }

  lemma {:induction false} CutKeepsFirst(t: string, c: char)
    requires t != [] && t[0] != c
    ensures CutAt(t, c) != [] && CutAt(t, c)[0] == t[0]
  {
  }

  lemma {:induction false} ArgsMiddle(s: string, n: nat)
    ensures |Args(s, n)| <= n
    ensures forall i | 0 <= i < |Args(s, n)| - 1 :: Middle(Args(s, n)[i])
    decreases |s|
  {
    hide After, CutAt, IndexOf, DropLeading;
    if n > 0 && After(s, ' ').Some? {
      var t := After(s, ' ').value;
      if t[0] != ':' {
        ArgsMiddle(t, n - 1);
        CutKeepsFirst(t, ' ');
        if n == 1 {
          assert Args(s, n) == [t];
        } else {
          assert Middle(CutAt(t, ' '));
        }
      }
    }
  }

  /** Whatever the tokenizer accepts, it splits into a well-formed message. */
  lemma {:induction false} AcceptedIsWellFormed(s: string)
    requires Tokenize(s).Some?
    ensures WellFormed(Tokenize(s).value)
  {
    if s[0] == ':' {
      ArgsMiddle(After(s, ' ').value, MAX_ARGS);
    } else {
      ArgsMiddle(s, MAX_ARGS);
    }
  }

  lemma {:induction false} ArgsStep(s: string, n: nat)
    ensures After(s, ' ').None? ==> Args(s, n) == []
    ensures var t := After(s, ' ');
            n > 1 && t.Some? && t.value[0] != ':' ==> Args(s, n) == [CutAt(t.value, ' ')] + Args(t.value, n - 1)
  {
    hide After, CutAt, IndexOf, DropLeading;
  }

  /** The printed arguments are read back, behind a token `a`, exactly where the last one is not
      mistaken. */
  lemma {:induction false} ArgsReadBack(a: string, args: seq<string>, coltr: bool, n: nat)
    requires ' ' !in a && |args| <= n
    requires forall i | 0 <= i < |args| - 1 :: Middle(args[i])
    ensures Args(a + PrintArgs(args, coltr), n) == args <==> coltr || LastPlain(args)
    decreases |args|
  {
    hide After, CutAt, IndexOf, DropLeading, Args;
    if args == [] {
      assert a + PrintArgs(args, coltr) == a;
      AfterEnd(a, ' ');
      ArgsStep(a, n);
    } else if |args| == 1 {
      LastReadBack(a, args[0], coltr, n);
      assert args == [args[0]];
    } else {
      var u := args[0] + PrintArgs(args[1..], coltr);
      assert a + PrintArgs(args, coltr) == a + [' '] + u;
      AfterGap(a, u, ' ');
      CutFront(args[0], PrintArgs(args[1..], coltr), ' ');
      ArgsStep(a + [' '] + u, n);
      ArgsReadBack(args[0], args[1..], coltr, n - 1);
      assert args == [args[0]] + args[1..];
      assert Args(a + [' '] + u, n) == [args[0]] + Args(u, n - 1);
      assert LastPlain(args) == LastPlain(args[1..]);
      if Args(a + [' '] + u, n) == args {
        assert Args(u, n - 1) == args[1..];
      }
    }
  }

  lemma {:induction false} LastReadBack(a: string, x: string, coltr: bool, n: nat)
    requires ' ' !in a && 1 <= n
    ensures Args(a + PrintArgs([x], coltr), n) == [x] <==> coltr || LastPlain([x])
  {
    hide After, CutAt, IndexOf, DropLeading;
    if Colon(x, coltr) {
      assert a + PrintArgs([x], coltr) == a + [' '] + (":" + x);
      AfterGap(a, ":" + x, ' ');
    } else if x == [] {
      assert a + PrintArgs([x], coltr) == a + [' '];
      AfterSpace(a, ' ');
    } else {
      assert a + PrintArgs([x], coltr) == a + [' '] + x;
      AfterGap(a, x, ' ');
      AfterEnd(x, ' ');
      CutFront(x, [], ' ');
      assert x + [] == x;
    }
  }

  lemma {:induction false} PrefixReadBack(p: string, b: string)
    requires ' ' !in p && b != [] && b[0] != ' '
    ensures Tokenize(":" + p + " " + b) == Some(Msg(Some(p), CutAt(b, ' '), Args(b, MAX_ARGS)))
  {
    hide After, CutAt, IndexOf, DropLeading, Args;
    var s := ":" + p + " " + b;
    assert s == (":" + p) + [' '] + b;
    AfterGap(":" + p, b, ' ');
    assert s[1..] == p + ([' '] + b);
    CutFront(p, [' '] + b, ' ');
  }

  lemma {:induction false} HeadReadBack(m: Msg, coltr: bool)
    requires WellFormed(m)
    ensures Tokenize(Body(m, coltr)) ==
            Some(m.(args := Args(m.cmd + PrintArgs(m.args, coltr), MAX_ARGS)))
  {
    var t := PrintArgs(m.args, coltr);
    var b := m.cmd + t;
    assert b != [] && b[0] == m.cmd[0];
    CutFront(m.cmd, t, ' ');
    hide After, CutAt, IndexOf, DropLeading, Args, PrintArgs;
    if m.prefix.Some? {
      PrefixReadBack(m.prefix.value, b);
      hide Tokenize, WellFormed;
      Regroup(":" + m.prefix.value + " ", m.cmd, t);
    }
  }

  lemma Regroup(a: string, b: string, c: string)
    ensures a + b + c == a + (b + c)
  {
  }

  /** Printed with a colon, a message is read back exactly if it is well-formed; printed without,
      exactly if its last argument is also neither empty nor mistaken for one with a colon. */
  lemma {:induction false} ReadBackIff(m: Msg, coltr: bool)
    ensures Tokenize(Body(m, coltr)) == Some(m) <==> WellFormed(m) && (coltr || LastPlain(m.args))
  {
    if WellFormed(m) {
      HeadReadBack(m, coltr);
      ArgsReadBack(m.cmd, m.args, coltr, MAX_ARGS);
    } else if Tokenize(Body(m, coltr)) == Some(m) {
      AcceptedIsWellFormed(Body(m, coltr));
    }
  }

  /** Every accepted line is printed as a line that stands for the same message. */
  lemma {:induction false} AcceptedReadBack(s: string)
    requires Tokenize(s).Some?
    ensures Tokenize(Body(Tokenize(s).value, true)) == Tokenize(s)
  {
    AcceptedIsWellFormed(s);
    ReadBackIff(Tokenize(s).value, true);
  }

  // ---------- lines as they are written ----------

  /** Arguments, each behind a blank. */
  function Spaced(args: seq<string>): string {
    if args == [] then "" else " " + args[0] + Spaced(args[1..])
  }

  predicate Words(args: seq<string>) {
    forall i | 0 <= i < |args| :: args[i] != "" && args[i][0] != ':' && ' ' !in args[i]
  }

  lemma {:induction false} SpacedWith(args: seq<string>, last: string, coltr: bool)
    ensures var mark := if coltr || ' ' in last then " :" else " ";
            PrintArgs(args + [last], coltr) == Spaced(args) + mark + last
    decreases |args|
  {
    if args == [] {
      PrintedLast(last, coltr);
      assert args + [last] == [last];
    } else {
      var rest := args[1..] + [last];
      var mark := if coltr || ' ' in last then " :" else " ";
      assert (args + [last])[1..] == rest;
      PrintedNext(args[0], rest, args + [last], coltr);
      SpacedWith(args[1..], last, coltr);
      Regroup(" " + args[0], Spaced(args[1..]), mark);
      Regroup(" " + args[0], Spaced(args[1..]) + mark, last);
    }
  }

  lemma PrintedLast(last: string, coltr: bool)
    ensures PrintArgs([last], coltr) == "" + (if coltr || ' ' in last then " :" else " ") + last
  {
    var colon := if coltr || ' ' in last then ":" else "";
    assert PrintArgs([last], coltr) == " " + colon + last + "";
    assert " " + colon + last + "" == "" + (" " + colon) + last;
    assert " " + "" == " " && " " + ":" == " :";
  }

  lemma PrintedNext(a: string, rest: seq<string>, all: seq<string>, coltr: bool)
    requires all != [] && all[0] == a && all[1..] == rest && rest != []
    ensures PrintArgs(all, coltr) == " " + a + PrintArgs(rest, coltr)
  {
    assert " " + "" + a == " " + a;
  }

  /** What is printed: the last argument has a colon where it is asked for or holds a blank. */
  lemma {:induction false} PrintedLine(p: string, cmd: string, args: seq<string>, last: string, coltr: bool)
    ensures Body(Msg(Some(p), cmd, args + [last]), coltr) ==
            ":" + p + " " + cmd + Spaced(args) + (if coltr || ' ' in last then " :" else " ") + last
  {
    hide PrintArgs, Spaced;
    var head, mark := ":" + p + " " + cmd, if coltr || ' ' in last then " :" else " ";
    SpacedWith(args, last, coltr);
    Regroup(head, Spaced(args), mark);
    Regroup(head, Spaced(args) + mark, last);
  }

  /** A line as servers write it: prefix, command, up to 15 words, and a last argument behind a colon,
      which may hold anything. */
  lemma {:induction false} ServerLine(p: string, cmd: string, args: seq<string>, last: string)
    requires ' ' !in p && cmd != "" && ' ' !in cmd && |args| <= 15 && Words(args)
    ensures Tokenize(":" + p + " " + cmd + Spaced(args) + " :" + last) == Some(Msg(Some(p), cmd, args + [last]))
  {
    hide After, CutAt, IndexOf, DropLeading, Args, Tokenize, PrintArgs, Spaced;
    var m := Msg(Some(p), cmd, args + [last]);
    ReadBackIff(m, true);
    PrintedLine(p, cmd, args, last, true);
  }

  lemma {:induction false} ArgsTakeRest(a: string, args: seq<string>, rest: string, n: nat)
    requires ' ' !in a && Words(args) && n == |args| + 1 && rest != "" && rest[0] != ' ' && rest[0] != ':'
    ensures Args(a + Spaced(args) + " " + rest, n) == args + [rest]
    decreases |args|
  {
    hide After, CutAt, IndexOf, DropLeading, Args, Spaced;
    if args == [] {
      SpacedIs(args);
      assert a + "" + " " + rest == a + [' '] + rest;
      AfterGap(a, rest, ' ');
      LastTakesAll(a + [' '] + rest, rest);
      assert args + [rest] == [rest];
    } else {
      var u := args[0] + Spaced(args[1..]) + " " + rest;
      SpacedIs(args);
      FrontOfSpaced(a, args[0], Spaced(args[1..]), rest);
      AfterGap(a, u, ' ');
      Regroup(args[0], Spaced(args[1..]), " ");
      Regroup(args[0], Spaced(args[1..]) + " ", rest);
      BlankInFront(args[1..], rest);
      CutFront(args[0], Spaced(args[1..]) + " " + rest, ' ');
      ArgsStep(a + [' '] + u, n);
      ArgsTakeRest(args[0], args[1..], rest, n - 1);
      assert args + [rest] == [args[0]] + (args[1..] + [rest]);
    }
  }

  lemma SpacedIs(args: seq<string>)
    ensures Spaced(args) == if args == [] then "" else " " + args[0] + Spaced(args[1..])
  {
  }

  lemma FrontOfSpaced(a: string, x: string, t: string, rest: string)
    ensures a + (" " + x + t) + " " + rest == a + [' '] + (x + t + " " + rest)
  {
  }

  lemma BlankInFront(args: seq<string>, rest: string)
    ensures var s := Spaced(args) + " " + rest; s != "" && s[0] == ' '
  {
  }

  lemma {:induction false} LastTakesAll(s: string, t: string)
    requires After(s, ' ') == Some(t) && t != "" && t[0] != ':'
    ensures Args(s, 1) == [t]
  {
    hide After, CutAt, IndexOf, DropLeading;
    assert Args(t, 0) == [];
  }

  /** The 16th argument takes the rest of the line, blanks and all. */
  lemma {:induction false} SixteenthTakesRest(p: string, cmd: string, args: seq<string>, rest: string)
    requires ' ' !in p && cmd != "" && ' ' !in cmd && |args| == 15 && Words(args)
    requires rest != "" && rest[0] != ' ' && rest[0] != ':'
    ensures Tokenize(":" + p + " " + cmd + Spaced(args) + " " + rest) == Some(Msg(Some(p), cmd, args + [rest]))
  {
    hide After, CutAt, IndexOf, DropLeading, Args, Tokenize;
    var b := cmd + Spaced(args) + " " + rest;
    assert ":" + p + " " + cmd + Spaced(args) + " " + rest == ":" + p + " " + b;
    PrefixReadBack(p, b);
    ArgsTakeRest(cmd, args, rest, 16);
    assert b == cmd + (Spaced(args) + " " + rest);
    CutFront(cmd, Spaced(args) + " " + rest, ' ');
  }
}
