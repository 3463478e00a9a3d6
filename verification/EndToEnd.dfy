// From the messages one side prints to the rooms the other side tracks.
module EndToEnd {
  import opened CStrings
  import opened Message
  import opened Framing
  import opened Tokenizer
  import opened CaseMap
  import opened Tracking
  import opened HandlerLemmas
  import opened Roster
  import Handlers

  /** The messages of a list of lines, up to the first one that is refused: the read that meets it
      fails and the connection is given up. */
  function Messages(lines: seq<string>): seq<Msg> {
    if lines == [] then []
    else
      match Parse(lines[0], 0)
      case None => []
      case Some((_, m)) => [m] + Messages(lines[1..])
  }

  /** What a peer puts on the wire. */
  function Wire(ms: seq<Msg>): string {
    if ms == [] then "" else Body(ms[0], true) + "\r\n" + Wire(ms[1..])
  }

  /** A message that can be sent: it is well-formed and prints as one line of at most 4094 bytes
      that does not look like one with tags. */
  predicate Sendable(m: Msg) {
    var b := Body(m, true);
    && WellFormed(m)
    && |b| < WORKBUF_SZ && b[0] != '@'
    && '\r' !in b && '\n' !in b && NUL !in b
  }

  predicate AllSendable(ms: seq<Msg>) {
    forall i | 0 <= i < |ms| :: Sendable(ms[i])
  }

  function Bodies(ms: seq<Msg>): seq<string> {
    if ms == [] then [] else [Body(ms[0], true)] + Bodies(ms[1..])
  }

  lemma {:induction false} LineThenRest(b: string, t: string, end: Result)
    requires b != [] && |b| < WORKBUF_SZ && '\r' !in b && '\n' !in b
    ensures var (ls, e) := Lines(t, end); Lines(b + "\r\n" + t, end) == ([b] + ls, e)
  {
    var s := b + "\r\n" + t;
    assert !IsDelim(s[0]);
    FirstDelimIs(s, |b|);
    assert DropDelims(s) == s;
    assert s[..|b|] == b;
    assert s[|b| + 1..] == "\n" + t;
    LinesDrop("\n" + t, end);
    LinesDrop(t, end);
    assert ("\n" + t)[1..] == t;
  }

  /** A line of up to 4094 bytes is a line; one of 4095 is too long, whatever follows. */
  lemma {:induction false} LineLimit(b: string, t: string, end: Result)
    requires b != [] && '\r' !in b && '\n' !in b
    ensures |b| <= 4094 ==> var (ls, e) := Lines(t, end); Lines(b + "\r\n" + t, end) == ([b] + ls, e)
    ensures |b| >= 4095 ==> Lines(b + "\r\n" + t, end) == ([], TooLong)
  {
    if |b| <= 4094 {
      LineThenRest(b, t, end);
    } else {
      var s := b + "\r\n" + t;
      assert s[|b|] == '\r';
      assert !IsDelim(s[0]);
      FirstDelimIs(s, |b|);
    }
  }

  lemma {:induction false} WireLines(ms: seq<Msg>, end: Result)
    requires AllSendable(ms)
    ensures Lines(Wire(ms), end) == (Bodies(ms), end)
  {
    if ms != [] {
      WireLines(ms[1..], end);
      LineThenRest(Body(ms[0], true), Wire(ms[1..]), end);
    }
  }

  lemma {:induction false} PlainParses(b: string, max: nat)
    requires b != [] && NUL !in b && b[0] != '@'
    ensures Parse(b, max) == WithTags(Tokenize(b), [])
  {
    hide Tokenize;
    IndexOfIs(b, NUL, |b|);
    assert b[..|b|] == b;
  }

  lemma {:induction false} BodyParses(m: Msg, max: nat)
    requires Sendable(m)
    ensures Parse(Body(m, true), max) == Some(([], m))
  {
    ReadBackIff(m, true);
    PlainParses(Body(m, true), max);
  }

  lemma {:induction false} BodiesParse(ms: seq<Msg>)
    requires AllSendable(ms)
    ensures Messages(Bodies(ms)) == ms
  {
    if ms != [] {
      BodyParses(ms[0], 0);
      BodiesParse(ms[1..]);
      assert Bodies(ms)[1..] == Bodies(ms[1..]);
      assert ms == [ms[0]] + ms[1..];
    }
  }

  /** End to end: what is printed, put on the wire and delivered in any chunks with any timeouts
      is read as the same messages, in the same order. */
  lemma {:induction false} SentIsRead(ms: seq<Msg>, r: Reader)
    requires AllSendable(ms) && r.Valid() && Stream(r) == Wire(ms)
    ensures Messages(Run(r).0) == ms && Run(r).1 == EndOf(r.script)
  {
    RunIsLines(r);
    WireLines(ms, EndOf(r.script));
    BodiesParse(ms);
  }

  lemma {:induction false} SendableIsNulFree(ms: seq<Msg>)
    requires AllSendable(ms)
    ensures NulFree(ms)
  {
    forall i | 0 <= i < |ms| ensures ms[i].prefix.Some? ==> NUL !in ms[i].prefix.value {
      assert Sendable(ms[i]);
      if ms[i].prefix.Some? {
        PrefixIsSent(ms[i]);
      }
    }
  }

  lemma {:induction false} PrefixIsSent(m: Msg)
    requires m.prefix.Some? && NUL !in Body(m, true)
    ensures NUL !in m.prefix.value
  {
    var p, b := m.prefix.value, Body(m, true);
    assert forall j | 0 <= j < |p| :: p[j] == b[1 + j] && b[1 + j] in b;
  }

  /** ... and what is tracked from it is what the simple reading of the sent messages says,
      however the bytes came in. */
  lemma {:induction false} SentIsTracked(cfg: Config, s: State, ms: seq<Msg>, r: Reader)
    requires AllSendable(ms) && r.Valid() && Stream(r) == Wire(ms)
    requires Inv(cfg, s) && Handlers.RunOk(cfg, s, ms) && RunFits(cfg, s, ms)
    ensures var t := Handlers.Run(cfg, s, Messages(Run(r).0));
            Inv(cfg, t) && ViewOf(t) == ViewRun(cfg, ViewOf(s), ms)
  {
    hide Inv, ViewOf, ViewRun, AllSendable, Wire, Messages, Handlers.Run, Handlers.RunOk;
    SentIsRead(ms, r);
    SendableIsNulFree(ms);
    RunKeeps(cfg, s, ms);
    RunView(cfg, s, ms);
  }
}
