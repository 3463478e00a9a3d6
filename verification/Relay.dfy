// A whole conversation in place: messages printed into a buffer and put on the
// wire, and a connection read message by message until it ends.
module Relay {
  import opened CStrings
  import opened Message
  import opened Framing
  import opened Tokenizer
  import opened InPlace
  import opened Printer
  import opened Io
  import opened EndToEnd

  // ---------- sending ----------

  lemma {:induction false} ArgsAreNulFree(args: seq<string>, coltr: bool)
    requires NUL !in PrintArgs(args, coltr)
    ensures forall i | 0 <= i < |args| :: NUL !in args[i]
  {
    if args != [] {
      var t := PrintArgs(args, coltr);
      var n := |t| - |PrintArgs(args[1..], coltr)| - |args[0]|;
      assert forall j | 0 <= j < |args[0]| :: args[0][j] == t[n + j];
      assert forall j | 0 <= j < |PrintArgs(args[1..], coltr)| ::
          PrintArgs(args[1..], coltr)[j] == t[n + |args[0]| + j];
      ArgsAreNulFree(args[1..], coltr);
    }
  }

  lemma {:induction false} SendableIsPrintable(m: Msg)
    requires Sendable(m)
    ensures Printable(m)
  {
    hide PrintArgs, WellFormed;
    var b, t := Body(m, true), PrintArgs(m.args, true);
    AtMostSixteen(m);
    assert forall j | 0 <= j < |t| :: t[j] == b[|PrintHead(m)| + j];
    ArgsAreNulFree(m.args, true);
    assert forall j | 0 <= j < |m.cmd| :: m.cmd[j] == b[|PrintHead(m)| - |m.cmd| + j];
    if m.prefix.Some? {
      PrefixIsSent(m);
    }
  }

  lemma AtMostSixteen(m: Msg)
    requires WellFormed(m)
    ensures |m.args| <= MAX_ARGS
  {
  }

  lemma {:induction false} WireSnoc(ms: seq<Msg>, m: Msg)
    ensures Wire(ms + [m]) == Wire(ms) + (Body(m, true) + "\r\n")
  {
    hide Body;
    if ms == [] {
      assert ms + [m] == [m] && Wire([m]) == Body(m, true) + "\r\n" + Wire([]);
    } else {
      WireSnoc(ms[1..], m);
      assert (ms + [m])[1..] == ms[1..] + [m];
      Regroup(Body(ms[0], true) + "\r\n", Wire(ms[1..]), Body(m, true) + "\r\n");
    }
  }

  /** Messages printed one after the other into a buffer of 4097 bytes, and what they put on the wire. */
  method SendAll(ms: seq<Msg>) returns (wire: string)
    requires AllSendable(ms)
    ensures wire == Wire(ms)
  {
    hide Holds, Wire, Sendable, Body;
    var buf := new char[WORKBUF_SZ + 2];
    wire := "";
    NothingSent(ms);
    for i := 0 to |ms|
      invariant wire == Wire(ms[..i])
    {
      LineFits(ms[i]);
      SnrcMsg(buf, WORKBUF_SZ + 2, ms[i], true);
      var line := ReadStr(buf, 0, Body(ms[i], true) + "\r\n");
      WireSnoc(ms[..i], ms[i]);
      assert ms[..i + 1] == ms[..i] + [ms[i]];
      wire := wire + line;
    }
    assert ms[..|ms|] == ms;
  }

  lemma NothingSent(ms: seq<Msg>)
    ensures Wire(ms[..0]) == ""
  {
  }

  lemma {:induction false} LineFits(m: Msg)
    requires Sendable(m)
    ensures Printable(m)
    ensures Trunc(Body(m, true) + "\r\n", WORKBUF_SZ + 2) == Body(m, true) + "\r\n"
  {
    SendableIsPrintable(m);
  }

  // ---------- receiving ----------

  lemma {:induction false} MessagesBehind(done: seq<string>, rest: seq<string>)
    requires |Messages(done)| == |done|
    ensures Messages(done + rest) == Messages(done) + Messages(rest)
  {
    hide Parse;
    if done == [] {
      assert done + rest == rest;
    } else {
      MessagesBehind(done[1..], rest);
      assert (done + rest)[1..] == done[1..] + rest;
    }
  }

  lemma {:induction false} OneMore(done: seq<string>, line: string, rest: seq<string>)
    requires |Messages(done)| == |done|
    ensures Messages(done + ([line] + rest)) == Messages(done + [line] + rest)
    ensures var p := Parse(line, 0);
            Messages(done + [line]) == Messages(done) + if p.None? then [] else [p.value.1]
    ensures Parse(line, 0).None? ==> Messages(done + ([line] + rest)) == Messages(done)
  {
    hide Parse;
    assert done + ([line] + rest) == done + [line] + rest;
    MessagesBehind(done, [line]);
    MessagesBehind(done, [line] + rest);
    assert [line][1..] == [];
  }

  lemma {:induction false} RunOnce(v: Reader)
    requires v.Valid()
    ensures var (x, t) := Framing.ReadLine(v);
            && t.Valid() && (x.Line? || x.Idle? ==> Less(t, v))
            && Run(v) == match x
                         case Idle => Run(t)
                         case Line(l) => ([l] + Run(t).0, Run(t).1)
                         case _ => ([], x)
  {
    hide Framing.ReadLine, Reads;
    ReadLineReads(v);
  }

  /** How reading stands: `done` are the lines read so far, `v` is the buffer with the events to come. */
  ghost predicate Standing(goal: (seq<string>, Result), v: Reader, done: seq<string>, msgs: seq<Msg>) {
    && v.Valid() && goal == (done + Run(v).0, Run(v).1)
    && msgs == Messages(done) && |msgs| == |done|
  }

  /** What the reading ended in: the messages, and the code of how it ended, or -1 at a refused line. */
  ghost predicate Ended(goal: (seq<string>, Result), msgs: seq<Msg>, r: int) {
    msgs == Messages(goal.0) && r == if |msgs| < |goal.0| then -1 else Code(goal.1)
  }

  lemma {:induction false} ReadOne(goal: (seq<string>, Result), v: Reader, done: seq<string>, msgs: seq<Msg>)
    requires Standing(goal, v, done, msgs)
    ensures var (x, t) := Framing.ReadLine(v);
            && t.Valid() && (x.Line? || x.Idle? ==> Less(t, v))
            && (x.Idle? ==> Standing(goal, t, done, msgs))
            && (!x.Idle? && !x.Line? ==> Ended(goal, msgs, Code(x)))
            && (x.Line? ==> var p := Parse(x.text, 0);
                            if p.None? then Ended(goal, msgs, -1)
                            else Standing(goal, t, done + [x.text], msgs + [p.value.1]))
  {
    hide Framing.ReadLine, Parse, Run, Messages;
    RunOnce(v);
    var (x, t) := Framing.ReadLine(v);
    if x.Line? {
      OneMore(done, x.text, Run(t).0);
      assert done + ([x.text] + Run(t).0) == done + [x.text] + Run(t).0;
    } else if !x.Idle? {
      assert done + [] == done;
    }
  }

  /** Reading a connection until it ends or a line is refused. */
  method ReceiveAll(ctx: ReadCtx, sock: Socket) returns (msgs: seq<Msg>, r: int)
    requires ctx.Valid()
    modifies ctx`wptr, ctx`eptr, ctx.workbuf, sock`script
    ensures ctx.Valid() && Ended(Run(old(ctx.View(sock.script))), msgs, r)
  {
    hide Standing, Ended, Run, Shows, Parse, Weight, Framing.ReadLine;
    ghost var goal := Run(ctx.View(sock.script));
    ghost var done: seq<string> := [];
    var tok := new Option<nat>[MAX_ARGS + 2];
    var tags := new Option<nat>[0];
    msgs := [];
    StandingStart(ctx.View(sock.script));
    while true
      invariant ctx.Valid() && Standing(goal, ctx.View(sock.script), done, msgs)
      invariant fresh(tok) && fresh(tags)
      decreases Weight(sock.script), ctx.eptr - ctx.wptr
    {
      ghost var v := ctx.View(sock.script);
      ReadOne(goal, v, done, msgs);
      ghost var x := Framing.ReadLine(v).0;
      var n;
      r, n := ctx.Read(sock, tok, tags);
      if r > 0 {
        ghost var m := Parse(x.text, 0).value.1;
        var msg := ReadMsg(ctx.workbuf, tok, m, ctx.wptr);
        done, msgs := done + [x.text], msgs + [msg];
      } else if r < 0 {
        return;
      }
    }
  }

  lemma {:induction false} StandingStart(v: Reader)
    requires v.Valid()
    ensures Standing(Run(v), v, [], [])
  {
    hide Run;
    assert [] + Run(v).0 == Run(v).0;
  }

  /** Messages sent are the messages received, through the buffers of both sides, whatever chunks and
      timeouts the wire makes of them. */
  method Converse(ms: seq<Msg>, events: seq<Event>) returns (got: seq<Msg>, r: int)
    requires AllSendable(ms) && Bytes(events) == Wire(ms)
    ensures got == ms && r == Code(EndOf(events))
  {
    hide Run, Ended, Wire, Bodies, Messages;
    var ctx := new ReadCtx();
    var sock := new Socket(events);
    got, r := ReceiveAll(ctx, sock);
    Conversed(ms, Reader(0, "", events), got, r);
  }

  lemma {:induction false} Conversed(ms: seq<Msg>, v: Reader, got: seq<Msg>, r: int)
    requires AllSendable(ms) && v == Reader(0, "", v.script) && Bytes(v.script) == Wire(ms) && Ended(Run(v), got, r)
    ensures got == ms && r == Code(EndOf(v.script))
  {
    hide Run, Messages, Wire;
    assert Stream(v) == Bytes(v.script);
    RunIsLines(v);
    WireLines(ms, EndOf(v.script));
    SentIsRead(ms, v);
    BodiesCount(ms);
  }

  lemma {:induction false} BodiesCount(ms: seq<Msg>)
    ensures |Bodies(ms)| == |ms|
  {
    if ms != [] {
      BodiesCount(ms[1..]);
    }
  }
}
