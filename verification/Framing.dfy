// Turning the byte stream of a connection into lines (io.c), as values: what
// the reader does for one script of socket events, and what a stream of bytes
// says independently of how it arrives.
module Framing {
  import opened CStrings

  const WORKBUF_SZ := 4095

  /** One return of read(): some bytes, or one of the codes 0, -2 and -1. */
  datatype Event = Data(bytes: string) | Timeout | Eof | Failed

  datatype Result = Line(text: string) | Idle | Closed | Broken | TooLong

  /** wptr as an offset, the bytes between wptr and eptr, and the events to come. */
  datatype Reader = Reader(base: nat, pending: string, script: seq<Event>) {
    ghost predicate Valid() {
      base + |pending| <= WORKBUF_SZ
    }
  }

  predicate IsDelim(c: char) {
    c == '\n' || c == '\r'
  }

  /** find_delim: the first delimiter, or the length. */
  function FirstDelim(s: string): (i: nat)
    ensures i <= |s| && (i < |s| ==> IsDelim(s[i]))
    ensures forall j | 0 <= j < i :: !IsDelim(s[j])
  {
    if s == [] || IsDelim(s[0]) then 0 else 1 + FirstDelim(s[1..])
  }

  lemma {:induction false} FirstDelimIs(s: string, i: nat)
    requires i <= |s| && (i < |s| ==> IsDelim(s[i])) && forall j | 0 <= j < i :: !IsDelim(s[j])
    ensures FirstDelim(s) == i
  {
  }

  /** One receive of at most `sz` bytes: the bytes, the code where there are none, the events left. */
  function Receive(script: seq<Event>, sz: nat): (string, Result, seq<Event>)
    requires sz > 0
  {
    if script == [] then ("", Closed, [])
    else match script[0]
      case Data(b) =>
        if b == [] then ("", Idle, script[1..])
        else if |b| <= sz then (b, Idle, script[1..])
        else (b[..sz], Idle, [Data(b[sz..])] + script[1..])
      case Timeout => ("", Idle, script[1..])
      case Eof => ("", Closed, script[1..])
      case Failed => ("", Broken, script[1..])
  }

  /** A bound on how long the events can go on. */
  function Weight(script: seq<Event>): nat {
    if script == [] then 0
    else 1 + (if script[0].Data? then |script[0].bytes| else 0) + Weight(script[1..])
  }

  lemma {:induction false} ReceiveShrinks(script: seq<Event>, sz: nat)
    requires sz > 0
    ensures var (b, r, rest) := Receive(script, sz);
            && |b| <= sz && (b != [] ==> Weight(rest) < Weight(script))
            && (script != [] ==> Weight(rest) < Weight(script))
  {
    if script != [] && script[0].Data? && |script[0].bytes| > sz {
      assert ([Data(script[0].bytes[sz..])] + script[1..])[1..] == script[1..];
    }
  }

  predicate Full(r: Reader) {
    r.base == 0 && |r.pending| == WORKBUF_SZ
  }

  /** The move to the front, made only where the buffer is used up to its end. */
  function Shift(r: Reader): (t: Reader)
    requires r.Valid() && !Full(r)
    ensures t.base + |t.pending| < WORKBUF_SZ && t.pending == r.pending && t.script == r.script
  {
    if r.base + |r.pending| == WORKBUF_SZ then r.(base := 0) else r
  }

  function Room(r: Reader): nat
    requires r.Valid()
  {
    WORKBUF_SZ - (r.base + |r.pending|)
  }

  /** read_more: None where something was read. */
  function ReadMore(r: Reader): (Option<Result>, Reader)
    requires r.Valid()
  {
    if Full(r) then (Some(TooLong), r)
    else
      var t := Shift(r);
      var (b, code, rest) := Receive(t.script, Room(t));
      (if b == [] then Some(code) else None, Reader(t.base, t.pending + b, rest))
  }

  lemma {:induction false} ReadMoreKeeps(r: Reader)
    requires r.Valid()
    ensures var (code, t) := ReadMore(r);
            && t.Valid() && (code.None? ==> Weight(t.script) < Weight(r.script))
            && Weight(t.script) <= Weight(r.script)
            && (code == Some(Idle) ==> Weight(t.script) < Weight(r.script))
            && (code.Some? ==> t.pending == r.pending && !code.value.Line?)
  {
    if !Full(r) {
      ReceiveShrinks(r.script, Room(Shift(r)));
    }
  }

  /** The delimiters in front of the next line are dropped, and an empty buffer is rewound. */
  function Skip(r: Reader): (t: Reader)
    requires r.Valid()
    ensures t.Valid() && t.script == r.script && |t.pending| <= |r.pending|
    decreases |r.pending|
  {
    if r.pending == [] then r.(base := 0)
    else if IsDelim(r.pending[0]) then Skip(r.(base := r.base + 1, pending := r.pending[1..]))
    else r
  }

  /** The loops of lsi_io_read behind that. */
  function Scan(r: Reader): (Result, Reader)
    requires r.Valid()
    decreases Weight(r.script), |r.pending|
  {
    var d := FirstDelim(r.pending);
    if d == |r.pending| then
      ReadMoreKeeps(r);
      var (code, t) := ReadMore(r);
      if code.Some? then (code.value, t) else Scan(t)
    else if d == 0 then Scan(r.(base := r.base + 1, pending := r.pending[1..]))
    else (Line(r.pending[..d]), r.(base := r.base + d + 1, pending := r.pending[d + 1..]))
  }

  function ReadLine(r: Reader): (Result, Reader)
    requires r.Valid()
  {
    Scan(Skip(r))
  }

  // ---------- the stream, however it arrives ----------

  /** The bytes that arrive before the connection ends. */
  function Bytes(script: seq<Event>): string {
    if script == [] then []
    else match script[0]
      case Data(b) => b + Bytes(script[1..])
      case Timeout => Bytes(script[1..])
      case _ => []
  }

  /** How the connection ends. */
  function EndOf(script: seq<Event>): Result {
    if script == [] then Closed
    else match script[0]
      case Data(_) => EndOf(script[1..])
      case Timeout => EndOf(script[1..])
      case Eof => Closed
      case Failed => Broken
  }

  function Stream(r: Reader): string {
    r.pending + Bytes(r.script)
  }

  function DropDelims(s: string): string {
    if s != [] && IsDelim(s[0]) then DropDelims(s[1..]) else s
  }

  /** The lines of a stream that ends in `end`, and how reading it ends: the non-empty runs
      between delimiters, up to a run of 4095 bytes, which is too long. */
  function Lines(s: string, end: Result): (seq<string>, Result)
    decreases |s|
  {
    DropDelimsShorter(s);
    var t := DropDelims(s);
    var n := FirstDelim(t);
    if n >= WORKBUF_SZ then ([], TooLong)
    else if n == |t| then ([], end)
    else
      var (rest, e) := Lines(t[n + 1..], end);
      ([t[..n]] + rest, e)
  }

  lemma DropDelimsShorter(s: string)
    ensures |DropDelims(s)| <= |s|
    ensures DropDelims(s) != [] ==> !IsDelim(DropDelims(s)[0])
    ensures DropDelims(DropDelims(s)) == DropDelims(s)
  {
  }

  /** What one read returns, said about the stream alone. */
  ghost predicate Reads(before: string, end: Result, x: Result, after: string, end': Result) {
    var t := DropDelims(before);
    var n := FirstDelim(t);
    match x
    case Line(l) => n < WORKBUF_SZ && n < |t| && l == t[..n] && after == t[n + 1..] && end' == end
    case Idle => DropDelims(after) == t && end' == end
    case TooLong => n >= WORKBUF_SZ
    case _ => n == |t| < WORKBUF_SZ && x == end
  }

  lemma {:induction false} ReceiveStream(script: seq<Event>, sz: nat)
    requires sz > 0
    ensures var (b, code, rest) := Receive(script, sz);
            && (b != [] || code.Idle? ==> Bytes(script) == b + Bytes(rest) && EndOf(script) == EndOf(rest))
            && (b == [] ==> code.Idle? || code.Closed? || code.Broken?)
            && (b == [] && !code.Idle? ==> Bytes(script) == [] && EndOf(script) == code)
  {
    if script != [] && script[0].Data? && |script[0].bytes| > sz {
      var d := script[0].bytes;
      var rest := [Data(d[sz..])] + script[1..];
      assert rest[1..] == script[1..];
      assert Bytes(script) == d[..sz] + (d[sz..] + Bytes(script[1..]));
    }
  }

  lemma {:induction false} FirstDelimIn(s: string, t: string)
    ensures FirstDelim(s) < |s| ==> FirstDelim(s + t) == FirstDelim(s)
    ensures FirstDelim(s) == |s| ==> FirstDelim(s + t) == |s| + FirstDelim(t)
  {
    if s == [] {
      assert s + t == t;
    } else if !IsDelim(s[0]) {
      FirstDelimIn(s[1..], t);
      assert (s + t)[1..] == s[1..] + t;
    }
  }

  lemma {:induction false} SkipStream(r: Reader)
    requires r.Valid()
    ensures DropDelims(Stream(Skip(r))) == DropDelims(Stream(r))
    decreases |r.pending|
  {
    if r.pending != [] && IsDelim(r.pending[0]) {
      assert Stream(r)[1..] == r.pending[1..] + Bytes(r.script);
      SkipStream(r.(base := r.base + 1, pending := r.pending[1..]));
    }
  }

  /** How much can still happen. */
  ghost predicate Less(t: Reader, r: Reader) {
    Weight(t.script) < Weight(r.script) || (t.script == r.script && |t.pending| < |r.pending|)
  }

  lemma {:induction false} DropNothing(s: string)
    requires s == [] || !IsDelim(s[0])
    ensures DropDelims(s) == s
  {
  }

  /** A code is about the stream; where something was read, the stream is as before. */
  lemma {:induction false} ReadMoreReads(r: Reader)
    requires r.Valid() && FirstDelim(r.pending) == |r.pending| && !Full(r)
    ensures var (code, t) := ReadMore(r);
            && (code.None? || code == Some(Idle) ==> Stream(t) == Stream(r) && EndOf(t.script) == EndOf(r.script))
            && (code.Some? && code != Some(Idle) ==>
                  Stream(r) == r.pending && |r.pending| < WORKBUF_SZ && code.value == EndOf(r.script)
                  && (code.value.Closed? || code.value.Broken?))
  {
    var t := Shift(r);
    ReceiveStream(t.script, Room(t));
    hide Bytes, EndOf, Receive, FirstDelim;
    var (b, code, rest) := Receive(t.script, Room(t));
    assert r.pending + b + Bytes(rest) == r.pending + (b + Bytes(rest));
  }

  lemma {:induction false} StuckReads(r: Reader)
    requires r.Valid() && FirstDelim(r.pending) == |r.pending|
    ensures var (code, t) := ReadMore(r);
            code.Some? ==> Reads(Stream(r), EndOf(r.script), code.value, Stream(t), EndOf(t.script))
  {
    FirstDelimIn(r.pending, Bytes(r.script));
    assert r.pending == [] || !IsDelim(r.pending[0]);
    if Full(r) {
      DropNothing(Stream(r));
    } else {
      ReadMoreReads(r);
      DropNothing(r.pending);
    }
  }

  lemma {:induction false} GotMore(r: Reader)
    requires r.Valid() && FirstDelim(r.pending) == |r.pending| && ReadMore(r).0.None?
    ensures Stream(ReadMore(r).1) == Stream(r) && EndOf(ReadMore(r).1.script) == EndOf(r.script)
  {
    ReadMoreReads(r);
  }

  /** A delimiter at the front does not matter. */
  lemma {:induction false} SkipOne(r: Reader, end: Result, x: Result, after: string, end': Result)
    requires r.Valid() && r.pending != [] && IsDelim(r.pending[0])
    ensures var u := r.(base := r.base + 1, pending := r.pending[1..]);
            u.Valid() && (Reads(Stream(u), end, x, after, end') ==> Reads(Stream(r), end, x, after, end'))
  {
    assert Stream(r)[1..] == r.pending[1..] + Bytes(r.script);
  }

  lemma {:induction false} LineReads(r: Reader)
    requires r.Valid() && 0 < FirstDelim(r.pending) < |r.pending|
    ensures var d := FirstDelim(r.pending);
            var t := r.(base := r.base + d + 1, pending := r.pending[d + 1..]);
            t.Valid() && Reads(Stream(r), EndOf(r.script), Line(r.pending[..d]), Stream(t), EndOf(r.script))
  {
    var d := FirstDelim(r.pending);
    FirstDelimIn(r.pending, Bytes(r.script));
    DropNothing(Stream(r));
    assert Stream(r)[d + 1..] == r.pending[d + 1..] + Bytes(r.script);
    assert Stream(r)[..d] == r.pending[..d];
  }

  lemma {:induction false} ScanReads(r: Reader)
    requires r.Valid()
    ensures var (x, t) := Scan(r);
            && t.Valid() && Reads(Stream(r), EndOf(r.script), x, Stream(t), EndOf(t.script))
            && (x.Line? || x.Idle? ==> Less(t, r))
    decreases Weight(r.script), |r.pending|
  {
    hide ReadMore, Bytes, EndOf, Weight, FirstDelim, DropDelims, Reads, Stream;
    var d := FirstDelim(r.pending);
    if d == |r.pending| {
      ReadMoreKeeps(r);
      StuckReads(r);
      if ReadMore(r).0.None? {
        GotMore(r);
        ScanReads(ReadMore(r).1);
      }
    } else if d == 0 {
      var u := r.(base := r.base + 1, pending := r.pending[1..]);
      var (x, t) := Scan(u);
      SkipOne(r, EndOf(r.script), x, Stream(t), EndOf(t.script));
      ScanReads(u);
    } else {
      LineReads(r);
    }
  }

  /** One read, from any reader, returns the next line of the stream, or says that there is none
      yet, none any more, or one of 4095 bytes or more; and what is left to be read is what
      follows that line. */
  lemma {:induction false} ReadLineReads(r: Reader)
    requires r.Valid()
    ensures var (x, t) := ReadLine(r);
            && t.Valid() && Reads(Stream(r), EndOf(r.script), x, Stream(t), EndOf(t.script))
            && (x.Line? || x.Idle? ==> Less(t, r))
  {
    SkipStream(r);
    ScanReads(Skip(r));
  }

  /** Reading until the connection is done; timeouts are simply tried again. */
  function Run(r: Reader): (seq<string>, Result)
    requires r.Valid()
    decreases Weight(r.script), |r.pending|
  {
    ReadLineReads(r);
    match ReadLine(r)
    case (Idle, t) => Run(t)
    case (Line(l), t) =>
      var (rest, e) := Run(t);
      ([l] + rest, e)
    case (x, _) => ([], x)
  }

  lemma {:induction false} LinesDrop(s: string, end: Result)
    ensures Lines(s, end) == Lines(DropDelims(s), end)
  {
    DropDelimsShorter(s);
  }

  /** Framing: however a stream is cut into chunks and whatever timeouts fall in between, reading
      it gives exactly its lines, in order, and the way it ends. */
  lemma {:induction false} RunIsLines(r: Reader)
    requires r.Valid()
    ensures Run(r) == Lines(Stream(r), EndOf(r.script))
    decreases Weight(r.script), |r.pending|
  {
    ReadLineReads(r);
    var (x, t) := ReadLine(r);
    DropDelimsShorter(Stream(r));
    if x.Line? {
      RunIsLines(t);
    } else if x.Idle? {
      RunIsLines(t);
      LinesDrop(Stream(r), EndOf(r.script));
      LinesDrop(Stream(t), EndOf(r.script));
    }
  }

  /** Two readers of the same bytes see the same lines, whatever the chunks. */
  lemma {:induction false} ChunksDoNotMatter(r: Reader, t: Reader)
    requires r.Valid() && t.Valid()
    requires Stream(r) == Stream(t) && EndOf(r.script) == EndOf(t.script)
    ensures Run(r) == Run(t)
  {
    RunIsLines(r);
    RunIsLines(t);
  }

  // ---------- nothing is lost ----------

  /** A stream without its delimiters. */
  function Strip(s: string): string {
    if s == [] then []
    else (if IsDelim(s[0]) then [] else [s[0]]) + Strip(s[1..])
  }

  function Concat(lines: seq<string>): string {
    if lines == [] then [] else lines[0] + Concat(lines[1..])
  }

  /** What follows the last delimiter. */
  function Unfinished(s: string): string
    decreases |s|
  {
    var n := FirstDelim(s);
    if n == |s| then s else Unfinished(s[n + 1..])
  }

  lemma {:induction false} StripStep(s: string)
    ensures s == [] ==> Strip(s) == [] && FirstDelim(s) == 0
    ensures s != [] && IsDelim(s[0]) ==> Strip(s) == Strip(s[1..]) && FirstDelim(s) == 0
    ensures s != [] && !IsDelim(s[0]) ==> Strip(s) == [s[0]] + Strip(s[1..]) && FirstDelim(s) == 1 + FirstDelim(s[1..])
  {
  }

  lemma {:induction false} StripRun(s: string)
    ensures var n := FirstDelim(s);
            Strip(s) == s[..n] + if n == |s| then "" else Strip(s[n + 1..])
  {
    hide FirstDelim, Strip;
    StripStep(s);
    if s != [] && !IsDelim(s[0]) {
      StripRun(s[1..]);
      var n := FirstDelim(s);
      assert s[..n] == [s[0]] + s[1..][..n - 1];
      assert n < |s| ==> s[1..][n..] == s[n + 1..];
    }
  }

  lemma {:induction false} DropStrips(s: string)
    ensures Strip(DropDelims(s)) == Strip(s) && Unfinished(DropDelims(s)) == Unfinished(s)
  {
    if s != [] && IsDelim(s[0]) {
      DropStrips(s[1..]);
      assert FirstDelim(s) == 0;
    }
  }

  /** The lines are non-empty, without delimiters and shorter than the buffer; put together they are
      the stream without its delimiters, up to a line too long or what is unfinished at the end. */
  lemma {:induction false} LinesLoseNothing(s: string, end: Result)
    requires end != TooLong
    ensures var (lines, e) := Lines(s, end);
            && (forall i | 0 <= i < |lines| :: WholeLine(lines[i]))
            && (if e == TooLong then Concat(lines) <= Strip(s)
                else e == end && Strip(s) == Concat(lines) + Unfinished(s))
    decreases |s|
  {
    hide Strip, Unfinished, FirstDelim, DropDelims;
    DropDelimsShorter(s);
    DropStrips(s);
    var t := DropDelims(s);
    var n := FirstDelim(t);
    StripRun(t);
    UnfinishedStep(t);
    if n < WORKBUF_SZ {
      if n == |t| {
        assert t[..n] == t;
      } else {
        LinesLoseNothing(t[n + 1..], end);
        RunHasNone(t);
        var (rest, e) := Lines(t[n + 1..], end);
        assert ([t[..n]] + rest)[1..] == rest;
        assert n > 0;
      }
    }
  }

  predicate WholeLine(l: string) {
    l != [] && |l| < WORKBUF_SZ && FirstDelim(l) == |l|
  }

  lemma {:induction false} UnfinishedStep(t: string)
    ensures var n := FirstDelim(t); Unfinished(t) == if n == |t| then t else Unfinished(t[n + 1..])
  {
    hide FirstDelim;
  }

  lemma {:induction false} RunHasNone(t: string)
    ensures var n := FirstDelim(t); FirstDelim(t[..n]) == n
  {
    if t != [] && !IsDelim(t[0]) {
      RunHasNone(t[1..]);
      assert t[..FirstDelim(t)][1..] == t[1..][..FirstDelim(t) - 1];
    }
  }
}
