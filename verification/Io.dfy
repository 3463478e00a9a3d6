// The receive buffer of a connection and reading one message from it (io.c).
module Io {
  import opened CStrings
  import opened Message
  import opened Framing
  import opened Tokenizer
  import opened InPlace

  /** What read_wrap and lsi_io_read return for what happened. */
  function Code(x: Result): int {
    match x
    case Line(_) => 1
    case Idle => 0
    case Closed => -2
    case Broken => -1
    case TooLong => -1
  }

  /** What one read of an empty buffer comes to where the peer sends nothing. */
  lemma {:induction false} CodesAre(base: nat, rest: seq<Event>)
    requires base <= 4095
    ensures ReadLine(Reader(base, "", [Timeout] + rest)).0 == Idle && Code(Idle) == 0
    ensures ReadLine(Reader(base, "", [Eof] + rest)).0 == Closed && Code(Closed) == -2
    ensures ReadLine(Reader(base, "", [Failed] + rest)).0 == Broken && Code(Broken) == -1
  {
    assert FirstDelim("") == 0;
  }

  /** What it comes to where the peer sends a line. */
  lemma {:induction false} LineIsRead(base: nat, line: string, rest: seq<Event>)
    requires base <= 4095 && line != "" && |line| < 4095 && '\r' !in line && '\n' !in line
    ensures ReadLine(Reader(base, "", [Data(line + "\n")] + rest)).0 == Line(line) && Code(Line(line)) == 1
  {
    var b := line + "\n";
    assert b[..|line|] == line;
    FirstDelimIs(b, |line|);
    assert FirstDelim("") == 0;
    assert Skip(Reader(base, "", [Data(b)] + rest)) == Reader(0, "", [Data(b)] + rest);
    assert "" + b == b;
    assert Scan(Reader(0, b, rest)).0 == Line(line);
    assert ReadMore(Reader(0, "", [Data(b)] + rest)) == (None, Reader(0, b, rest));
  }

  /** A buffer of 4095 bytes without a delimiter cannot be read any more. */
  lemma {:induction false} FullBufferFails(pending: string, rest: seq<Event>)
    requires |pending| == 4095 && '\r' !in pending && '\n' !in pending
    ensures ReadLine(Reader(0, pending, rest)).0 == TooLong && Code(TooLong) == -1
  {
    hide Receive, Weight;
    FirstDelimIs(pending, 4095);
  }

  /** The peer: each receive takes the next event of a script nobody knows in advance. */
  class Socket {
    var script: seq<Event>

    constructor (script: seq<Event>)
      ensures this.script == script
    {
      this.script := script;
    }

    /** read_wrap: at most `sz` bytes into buf[at..], or a code. */
    method Read(buf: array<char>, at: nat, sz: nat) returns (n: int)
      requires sz > 0 && at + sz <= buf.Length
      modifies this`script, buf
      ensures var (b, code, rest) := Receive(old(script), sz);
              && script == rest && |b| <= sz
              && n == (if b == [] then Code(code) else |b|)
              && buf[..] == old(buf[..at]) + b + old(buf[at + |b|..])
    {
      hide Receive;
      ReceiveShrinks(script, sz);
      var (b, code, rest) := Receive(script, sz);
      script := rest;
      ghost var was := buf[..];
      var k := 0;
      while k < |b|
        invariant 0 <= k <= |b|
        invariant forall j | 0 <= j < buf.Length :: buf[j] == if at <= j < at + k then b[j - at] else was[j]
        modifies buf
      {
        buf[at + k] := b[k];
        k := k + 1;
      }
      Spliced(was, buf[..], at, b);
      n := if b == [] then Code(code) else |b|;
    }
  }

  lemma {:induction false} Spliced(was: string, buf: string, at: nat, b: string)
    requires at + |b| <= |was| == |buf|
    requires forall j | 0 <= j < |buf| :: buf[j] == if at <= j < at + |b| then b[j - at] else was[j]
    ensures buf == was[..at] + b + was[at + |b|..]
  {
  }

  /** struct readctx: pointers are offsets into workbuf, whose last byte never holds data. */
  class ReadCtx {
    const workbuf: array<char>
    var wptr: nat
    var eptr: nat

    ghost predicate Valid()
      reads this
    {
      workbuf.Length == WORKBUF_SZ + 1 && wptr <= eptr <= WORKBUF_SZ
    }

    /** The buffer with the events still to come. */
    ghost function View(script: seq<Event>): Reader
      reads this, workbuf
      requires Valid()
    {
      Reader(wptr, workbuf[wptr..eptr], script)
    }

    constructor ()
      ensures Valid() && fresh(workbuf) && View([]) == Reader(0, "", [])
    {
      workbuf := new char[WORKBUF_SZ + 1];
      wptr, eptr := 0, 0;
    }

    method FindDelim() returns (d: Option<nat>)
      requires Valid()
      modifies workbuf
      ensures workbuf[..eptr] == old(workbuf[..eptr])
      ensures var i := FirstDelim(workbuf[wptr..eptr]); d == if i == eptr - wptr then None else Some(wptr + i)
    {
      ghost var was := workbuf[..eptr];
      workbuf[eptr] := NUL;
      assert workbuf[..eptr] == was;
      var p := wptr;
      while p < eptr
        invariant wptr <= p <= eptr
        invariant forall j | wptr <= j < p :: !IsDelim(workbuf[j])
      {
        if IsDelim(workbuf[p]) {
          FirstDelimIs(workbuf[wptr..eptr], p - wptr);
          return Some(p);
        }
        p := p + 1;
      }
      FirstDelimIs(workbuf[wptr..eptr], eptr - wptr);
      return None;
    }

    /** memmove to the front of the buffer. */
    method MoveToFront()
      requires Valid()
      modifies this`wptr, this`eptr, workbuf
      ensures Valid() && wptr == 0 && workbuf[..eptr] == old(workbuf[wptr..eptr])
    {
      var n := eptr - wptr;
      ghost var was := workbuf[..];
      var k := 0;
      while k < n
        invariant 0 <= k <= n
        invariant forall j | 0 <= j < k :: workbuf[j] == was[wptr + j]
        invariant forall j | k <= j < workbuf.Length :: workbuf[j] == was[j]
        modifies workbuf
      {
        workbuf[k] := workbuf[wptr + k];
        k := k + 1;
      }
      assert workbuf[..n] == was[wptr..eptr];
      wptr, eptr := 0, n;
    }

    /** The receive at the end of read_more. */
    method Fill(sock: Socket) returns (r: int)
      requires Valid() && eptr < WORKBUF_SZ
      modifies this`eptr, workbuf, sock`script
      ensures Valid()
      ensures var t := old(View(sock.script));
              var (b, code, rest) := Receive(t.script, Room(t));
              && View(sock.script) == Reader(t.base, t.pending + b, rest)
              && if b == [] then r == Code(code) && r <= 0 else r > 0
    {
      ghost var t, was, e := View(sock.script), workbuf[..], eptr;
      ReceiveShrinks(t.script, Room(t));
      ReceiveStream(t.script, Room(t));
      hide Receive;
      ghost var b := Receive(t.script, Room(t)).0;
      r := sock.Read(workbuf, eptr, WORKBUF_SZ - eptr);
      if r > 0 {
        eptr := eptr + r;
      }
      Behind(was, workbuf[..], wptr, e, b);
      assert workbuf[wptr..eptr] == t.pending + b;
    }

    /** read_more */
    method ReadMore(sock: Socket) returns (r: int)
      requires Valid()
      modifies this`wptr, this`eptr, workbuf, sock`script
      ensures Valid()
      ensures var (code, t) := Framing.ReadMore(old(View(sock.script)));
              View(sock.script) == t && if code.None? then r > 0 else r == Code(code.value) && r <= 0
    {
      hide Receive;
      ghost var r0 := View(sock.script);
      if WORKBUF_SZ - eptr == 0 {
        if wptr == 0 {
          return -1;
        }
        MoveToFront();
      }
      assert View(sock.script) == Shift(r0);
      r := Fill(sock);
    }

    /** The delimiters in front of the next line. */
    method SkipDelims(ghost script: seq<Event>)
      requires Valid()
      modifies this`wptr, this`eptr
      ensures Valid() && View(script) == Skip(old(View(script)))
    {
      ghost var goal := Skip(View(script));
      while wptr < eptr && IsDelim(workbuf[wptr])
        invariant Valid() && eptr == old(eptr) && Skip(View(script)) == goal
      {
        assert workbuf[wptr..eptr][1..] == workbuf[wptr + 1..eptr];
        wptr := wptr + 1;
      }
      if wptr == eptr {
        wptr, eptr := 0, 0;
      }
    }

    /** find_delim, with read_more until there is one. */
    method AwaitDelim(sock: Socket) returns (r: int, d: Option<nat>)
      requires Valid()
      modifies this`wptr, this`eptr, workbuf, sock`script
      ensures Valid()
      ensures d.None? ==> AtEnd(Scan(old(View(sock.script))), r, View(sock.script))
      ensures d.Some? ==> Scan(View(sock.script)) == Scan(old(View(sock.script))) && Found(View(sock.script), d)
      ensures d.Some? ==> View(sock.script) == old(View(sock.script)) || Weight(sock.script) < Weight(old(sock.script))
    {
      hide Scan, FirstDelim, Framing.ReadMore, Weight;
      ghost var v0 := View(sock.script);
      r := 1;
      d := FindDelim();
      assert View(sock.script) == v0;
      while d.None?
        invariant Valid() && Scan(View(sock.script)) == Scan(v0)
        invariant Found(View(sock.script), d)
        invariant View(sock.script) == v0 || Weight(sock.script) < Weight(v0.script)
        decreases Weight(sock.script)
      {
        ghost var u := View(sock.script);
        ScanMore(u);
        r := ReadMore(sock);
        if r <= 0 {
          assert Framing.ReadMore(u).0.Some? && Framing.ReadMore(u).1 == View(sock.script);
          assert Scan(u) == (Framing.ReadMore(u).0.value, View(sock.script));
          return;
        }
        ghost var v := View(sock.script);
        d := FindDelim();
        assert View(sock.script) == v;
      }
    }

    /** The buffer moves on behind the delimiter at `d`; a line in front of it is cut off in place. */
    method Consume(d: nat, ghost script: seq<Event>) returns (start: nat, len: nat)
      requires Valid() && Found(View(script), Some(d))
      modifies this`wptr, workbuf
      ensures Valid() && start == old(wptr) && wptr == start + len + 1
      ensures len == 0 ==> Scan(old(View(script))) == Scan(View(script))
      ensures len > 0 ==> && Scan(old(View(script))) == (Line(workbuf[start..start + len]), View(script))
                          && workbuf[start + len] == NUL
    {
      hide Scan;
      ghost var v := View(script);
      ScanFound(v);
      start := wptr;
      len := d - start;
      wptr := wptr + 1;
      if len == 0 {
        assert v.pending[1..] == workbuf[wptr..eptr];
        return;
      }
      wptr := wptr + len;
      workbuf[d] := NUL;
      assert v.pending[..len] == workbuf[start..start + len];
      assert v.pending[len + 1..] == workbuf[wptr..eptr];
    }

    /** The loops of lsi_io_read: the next line. */
    method ReadLine(sock: Socket) returns (r: int, start: nat, len: nat)
      requires Valid()
      modifies this`wptr, this`eptr, workbuf, sock`script
      ensures Valid()
      ensures var (x, t) := Framing.ReadLine(old(View(sock.script)));
              && View(sock.script) == t && r == Code(x)
              && (x.Line? ==> start + len < wptr && x == Line(workbuf[start..start + len])
                              && workbuf[start + len] == NUL)
    {
      hide Scan, Framing.ReadLine, Skip, Weight, Found;
      ReadLineIs(View(sock.script));
      SkipDelims(sock.script);
      ghost var v0 := View(sock.script);
      start, len := 0, 0;
      while true
        invariant Valid() && Scan(View(sock.script)) == Scan(v0)
        decreases Weight(sock.script), eptr - wptr
      {
        ghost var u, w, n := View(sock.script), Weight(sock.script), eptr - wptr;
        var d;
        r, d := AwaitDelim(sock);
        if d.None? {
          return;
        }
        assert Weight(sock.script) < w || (Weight(sock.script) == w && eptr - wptr == n) by {
          assert |View(sock.script).pending| == eptr - wptr && |u.pending| == n;
        }
        start, len := Consume(d.value, sock.script);
        if len != 0 {
          return 1, start, len;
        }
      }
    }

    /** lsi_io_read: one message, as pointers into the buffer in front of the bytes still pending. */
    method Read(sock: Socket, tok: array<Option<nat>>, tags: array<Option<nat>>) returns (r: int, ntags: nat)
      requires Valid() && tok.Length == MAX_ARGS + 2 && tok != tags
      modifies this`wptr, this`eptr, workbuf, sock`script, tok, tags
      ensures Valid()
      ensures var (x, t) := Framing.ReadLine(old(View(sock.script)));
              && View(sock.script) == t
              && (if x.Line? then Delivered(workbuf[..], tok[..], tags[..], Parse(x.text, tags.Length), r, ntags, wptr)
                  else r == Code(x))
    {
      hide Text, IndexOf, Kept, ParseText, Placed, Shows, Framing.ReadLine;
      var start, len;
      r, start, len := ReadLine(sock);
      ntags := 0;
      if r <= 0 {
        return;
      }
      ghost var was, line, v := workbuf[..], workbuf[start..start + len], View(sock.script);
      ghost var end := start + IndexOf(line, NUL);
      EndsAt(was, start, line);
      var ok;
      ok, ntags := ParseLine(workbuf, start, tok, tags, end);
      r := if ok then 1 else -1;
      PendingStays(was, workbuf[..], start, end, wptr, eptr);
      assert was[wptr..eptr] == v.pending;
      DeliveredWider(workbuf[..], tok[..], tags[..], Parse(line, tags.Length), r, ntags, end + 1, wptr);
    }
  }

  lemma ReadLineIs(v: Reader)
    requires v.Valid()
    ensures Framing.ReadLine(v) == Scan(Skip(v))
  {
  }

  /** What find_delim says of the buffer. */
  ghost predicate Found(v: Reader, d: Option<nat>) {
    var i := FirstDelim(v.pending);
    d == if i == |v.pending| then None else Some(v.base + i)
  }

  lemma {:induction false} ScanFound(v: Reader)
    requires v.Valid() && FirstDelim(v.pending) < |v.pending|
    ensures var d := FirstDelim(v.pending);
            && v.(base := v.base + 1, pending := v.pending[1..]).Valid()
            && Scan(v) == if d == 0 then Scan(v.(base := v.base + 1, pending := v.pending[1..]))
                          else (Line(v.pending[..d]), v.(base := v.base + d + 1, pending := v.pending[d + 1..]))
  {
  }

  lemma {:induction false} ScanMore(v: Reader)
    requires v.Valid() && FirstDelim(v.pending) == |v.pending|
    ensures var (code, t) := Framing.ReadMore(v);
            && t.Valid()
            && (code.None? ==> Scan(v) == Scan(t) && Weight(t.script) < Weight(v.script))
            && (code.Some? ==> Scan(v) == (code.value, t) && !code.value.Line?)
  {
    ReadMoreKeeps(v);
  }

  /** The read ends here, with the code of what happened. */
  ghost predicate AtEnd(scan: (Result, Reader), r: int, v: Reader) {
    scan.1 == v && !scan.0.Line? && r == Code(scan.0)
  }

  lemma {:induction false} Behind(was: string, buf: string, w: nat, e: nat, b: string)
    requires w <= e && e + |b| <= |was| && buf == was[..e] + b + was[e + |b|..]
    ensures buf[w..e + |b|] == was[w..e] + b
  {
  }

  /** The outcome `p` of parsing a line, as lsi_io_read hands it out. */
  ghost predicate Delivered(buf: string, tok: seq<Option<nat>>, tags: seq<Option<nat>>,
                            p: Option<(seq<string>, Msg)>, r: int, ntags: nat, limit: nat) {
    match p
    case None => r == -1
    case Some((names, m)) =>
      r == 1 && ntags == |names| && Placed(buf, tags, 0, names, limit) && Shows(buf, tok, m, limit)
  }

  lemma {:induction false} PlacedWider(buf: string, tok: seq<Option<nat>>, from: nat, names: seq<string>,
                                       low: nat, limit: nat)
    requires Placed(buf, tok, from, names, low) && low <= limit
    ensures Placed(buf, tok, from, names, limit)
  {
    hide Holds;
    forall i | 0 <= i < |names| ensures PlacedAt(buf, tok[from + i], names[i], limit) {
      assert PlacedAt(buf, tok[from + i], names[i], low);
    }
  }

  lemma {:induction false} DeliveredWider(buf: string, tok: seq<Option<nat>>, tags: seq<Option<nat>>,
                                          p: Option<(seq<string>, Msg)>, r: int, ntags: nat, low: nat, limit: nat)
    requires Delivered(buf, tok, tags, p, r, ntags, low) && low <= limit
    ensures Delivered(buf, tok, tags, p, r, ntags, limit)
  {
    if p.Some? {
      PlacedWider(buf, tags, 0, p.value.0, low, limit);
      PlacedWider(buf, tok, 1, [p.value.1.cmd] + p.value.1.args, low, limit);
    }
  }

  lemma {:induction false} PendingStays(was: string, buf: string, lo: nat, hi: nat, w: nat, e: nat)
    requires Kept(was, buf, lo, hi) && hi <= w <= e <= |was|
    ensures buf[w..e] == was[w..e]
  {
  }

  /** The C string of a line that was cut off at `start`. */
  lemma {:induction false} EndsAt(buf: string, start: nat, line: string)
    requires start + |line| < |buf| && buf[start..start + |line|] == line && buf[start + |line|] == NUL
    ensures var end := start + IndexOf(line, NUL);
            Text(buf, start, end) && buf[start..end] == CStr(line) && end <= start + |line|
  {
    var end := start + IndexOf(line, NUL);
    assert buf[start..end] == line[..IndexOf(line, NUL)];
    assert end < start + |line| ==> buf[end] == line[end - start];
  }

  lemma {:induction false} Deliver(buf: string, tok: seq<Option<nat>>, tags: seq<Option<nat>>, m: Option<Msg>,
                                   names: seq<string>, limit: nat)
    requires Placed(buf, tags, 0, names, limit) && (m.Some? ==> Shows(buf, tok, m.value, limit))
    ensures Delivered(buf, tok, tags, WithTags(m, names), if m.Some? then 1 else -1, |names|, limit)
  {
  }

  /** The tags stay where they are while the rest of the line is tokenized. */
  lemma {:induction false} TagsStay(was: string, buf: string, tags: seq<Option<nat>>, t0: string, at: nat, end: nat)
    requires Tagged(was, tags, t0, at) && Kept(was, buf, at, end)
    ensures Placed(buf, tags, 0, Take(Tags(t0), |tags|), end + 1)
  {
    hide Tags;
    PlacedStill(was, buf, tags, 0, Take(Tags(t0), |tags|), at);
    PlacedWider(buf, tags, 0, Take(Tags(t0), |tags|), at, end + 1);
  }

  lemma {:induction false} AtSign(buf: string, start: nat, end: nat)
    requires Text(buf, start, end) && buf[start] == '@'
    ensures start < end < |buf| && buf[start..end][0] == '@'
    ensures Text(buf, start + 1, end) && buf[start + 1..end] == buf[start..end][1..]
    ensures Kept(buf, buf, start, end)
  {
    TextTail(buf, start, 1, end);
  }

  lemma {:induction false} ParseSplit(s: string, max: nat)
    requires s != [] && s[0] == '@'
    ensures ParseText(s, max) ==
            match TagSplit(s[1..])
            case None => None
            case Some((tags, rest)) =>
              if rest == "" then None else WithTags(Tokenizer.Tokenize(rest), Take(Tags(tags), max))
  {
    hide TagSplit, Tokenizer.Tokenize, Tags, Take, WithTags;
  }

  /** The end of lsi_io_read: the tags, and the message behind them. */
  method ParseLine(buf: array<char>, start: nat, tok: array<Option<nat>>, tags: array<Option<nat>>, ghost end: nat)
      returns (ok: bool, ntags: nat)
    requires Text(buf[..], start, end) && tok.Length == MAX_ARGS + 2 && tok != tags
    modifies buf, tok, tags
    ensures Delivered(buf[..], tok[..], tags[..], ParseText(old(buf[start..end]), tags.Length), if ok then 1 else -1,
                      ntags, end + 1)
    ensures Kept(old(buf[..]), buf[..], start, end)
  {
    if buf[start] != '@' {
      ok := ParsePlain(buf, start, tok, tags, end);
      return ok, 0;
    }
    ok, ntags := ParseTagged(buf, start, tok, tags, end);
  }

  method ParsePlain(buf: array<char>, start: nat, tok: array<Option<nat>>, tags: array<Option<nat>>, ghost end: nat)
      returns (ok: bool)
    requires Text(buf[..], start, end) && buf[start] != '@' && tok.Length == MAX_ARGS + 2 && tok != tags
    modifies buf, tok
    ensures Delivered(buf[..], tok[..], tags[..], ParseText(old(buf[start..end]), tags.Length), if ok then 1 else -1,
                      0, end + 1)
    ensures Kept(old(buf[..]), buf[..], start, end)
  {
    ghost var s := buf[start..end];
    assert s != [] ==> s[0] != '@';
    hide Tokenizer.Tokenize, Holds, Kept, Shows, Tags, IndexOf;
    ok := InPlace.Tokenize(buf, start, tok, end);
    Deliver(buf[..], tok[..], tags[..], Tokenizer.Tokenize(s), [], end + 1);
  }

  method ParseRest(buf: array<char>, at: nat, tok: array<Option<nat>>, tags: array<Option<nat>>, ghost t0: string,
                   ghost end: nat) returns (ok: bool)
    requires Text(buf[..], at, end) && Tagged(buf[..], tags[..], t0, at)
    requires tok.Length == MAX_ARGS + 2 && tok != tags
    modifies buf, tok
    ensures var names := Take(Tags(t0), tags.Length);
            Delivered(buf[..], tok[..], tags[..], WithTags(Tokenizer.Tokenize(old(buf[at..end])), names),
                      if ok then 1 else -1, |names|, end + 1)
    ensures Kept(old(buf[..]), buf[..], at, end)
  {
    hide Tokenizer.Tokenize, Holds, Kept, Shows, Tags, Tagged, Placed, Take, Delivered, WithTags;
    ghost var was, t := buf[..], buf[at..end];
    ok := InPlace.Tokenize(buf, at, tok, end);
    TagsStay(was, buf[..], tags[..], t0, at, end);
    Deliver(buf[..], tok[..], tags[..], Tokenizer.Tokenize(t), Take(Tags(t0), tags.Length), end + 1);
  }

  method ParseTagged(buf: array<char>, start: nat, tok: array<Option<nat>>, tags: array<Option<nat>>, ghost end: nat)
      returns (ok: bool, ntags: nat)
    requires Text(buf[..], start, end) && buf[start] == '@' && tok.Length == MAX_ARGS + 2 && tok != tags
    modifies buf, tok, tags
    ensures Delivered(buf[..], tok[..], tags[..], ParseText(old(buf[start..end]), tags.Length), if ok then 1 else -1,
                      ntags, end + 1)
    ensures Kept(old(buf[..]), buf[..], start, end)
  {
    hide ParseText, TagSplit, Tokenizer.Tokenize, Text, Holds, Kept, Shows, Tags, Tagged, Placed, Take, WithTags;
    ghost var buf0 := buf[..];
    TextBounds(buf0, start, end);
    assert buf0[start] == '@';
    AtSign(buf0, start, end);
    ghost var s := buf[start..end];
    ParseSplit(s, tags.Length);
    var rest;
    rest, ntags := ExtractTags(buf, start + 1, tags, end);
    if rest.None? {
      return false, ntags;
    }
    ghost var was := buf[..];
    ghost var t0 := TagSplit(s[1..]).value.0;
    KeptOn(buf0, buf0, was, start, start + 1, rest.value, end);
    TextTail(was, rest.value, 0, end);
    if buf[rest.value] == NUL {
      return false, ntags;
    }
    ok := ParseRest(buf, rest.value, tok, tags, t0, end);
    KeptOn(buf0, was, buf[..], start, rest.value, end, end);
  }
}
