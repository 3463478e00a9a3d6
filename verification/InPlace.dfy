// The tokenizer and the printer as they work on character buffers (util.c, common.c,
// base_string.c).  A pointer into a buffer is its offset, NULL is None.
module InPlace {
  import opened CStrings
  import opened Message
  import opened Tokenizer

  /** The C string at offset `at` is `s`. */
  ghost predicate Holds(buf: seq<char>, at: nat, s: string) {
    && at + |s| < |buf| && NUL !in s
    && buf[at..at + |s|] == s && buf[at + |s|] == NUL
  }

  lemma {:induction false} HoldsIsCStr(buf: seq<char>, at: nat, s: string)
    requires Holds(buf, at, s)
    ensures CStr(buf[at..]) == s
  {
    forall j | 0 <= j < |s| ensures buf[at..][j] == s[j] && s[j] != NUL {
      assert buf[at..at + |s|][j] == s[j];
    }
    CStrIs(buf[at..], s);
  }

  /** Only the characters from `lo` to `hi` may differ. */
  ghost predicate Kept(was: seq<char>, buf: seq<char>, lo: nat, hi: nat) {
    && |buf| == |was| && lo <= hi <= |buf|
    && forall j | 0 <= j < |buf| && !(lo <= j < hi) :: buf[j] == was[j]
  }

  lemma {:induction false} KeptOn(a: seq<char>, b: seq<char>, c: seq<char>, lo: nat, cur: nat, next: nat, hi: nat)
    requires Kept(a, b, lo, hi) && Kept(b, c, cur, next) && lo <= cur && next <= hi
    ensures Kept(a, c, lo, hi)
  {
  }

  lemma {:induction false} HoldsStill(was: seq<char>, buf: seq<char>, at: nat, s: string)
    requires Holds(was, at, s) && |buf| == |was|
    requires forall j | at <= j <= at + |s| :: buf[j] == was[j]
    ensures Holds(buf, at, s)
  {
    assert buf[at..at + |s|] == was[at..at + |s|];
  }

  lemma {:induction false} DropLeadingRun(s: string, c: char, k: nat)
    requires k <= |s| && (forall j | 0 <= j < k :: s[j] == c) && (k < |s| ==> s[k] != c)
    ensures DropLeading(s, c) == s[k..]
    decreases k
  {
    if k > 0 {
      DropLeadingRun(s[1..], c, k - 1);
      assert s[1..][k - 1..] == s[k..];
    }
  }

  lemma {:induction false} AfterRun(s: string, delim: char, i: nat, k: nat)
    requires i <= k <= |s| && (forall j | 0 <= j < i :: s[j] != delim)
    requires (forall j | i <= j < k :: s[j] == delim) && (k < |s| ==> s[k] != delim)
    requires i == k ==> i == |s|
    ensures CutAt(s, delim) == s[..i]
    ensures After(s, delim) == if k == |s| then None else Some(s[k..])
  {
    hide IndexOf, DropLeading;
    IndexOfIs(s, delim, i);
    RunBehind(s, delim, i, k);
  }

  lemma {:induction false} RunBehind(s: string, c: char, i: nat, k: nat)
    requires i <= k <= |s| && (forall j | i <= j < k :: s[j] == c) && (k < |s| ==> s[k] != c)
    ensures DropLeading(s[i..], c) == s[k..]
  {
    hide DropLeading;
    var t := s[i..];
    assert forall j | 0 <= j < |t| :: t[j] == s[i + j];
    DropLeadingRun(t, c, k - i);
    assert t[k - i..] == s[k..];
  }

  /** The text from `cur` to the NUL at `end`. */
  ghost predicate Text(buf: seq<char>, cur: nat, end: nat) {
    cur <= end < |buf| && buf[end] == NUL && NUL !in buf[cur..end]
  }

  lemma HoldsText(buf: string, s: string)
    requires Holds(buf, 0, s)
    ensures Text(buf, 0, |s|) && buf[0..|s|] == s && |s| < |buf|
    ensures forall j | 0 <= j < |s| :: buf[j] == s[j] && buf[j] != NUL
    ensures buf[|s|] == NUL
  {
    assert forall j | 0 <= j < |s| :: buf[0..|s|][j] == s[j] && s[j] in s;
  }

  /** What lsi_com_next_tok leaves: the token ends where the delimiter was, and the next one, if
      any, starts at `next`. */
  ghost predicate NextIs(was: seq<char>, buf: seq<char>, at: nat, delim: char, end: nat, next: Option<nat>)
  {
    && Text(was, at, end)
    && var t := was[at..end];
    && Holds(buf, at, CutAt(t, delim))
    && (if next.None? then Kept(was, buf, at, end) && After(t, delim) == None
        else Kept(was, buf, at, next.value) && at + |CutAt(t, delim)| < next.value < end
             && Text(buf, next.value, end) && After(t, delim) == Some(buf[next.value..end]))
  }

  /** lsi_com_next_tok on the C string that ends at `end`. */
  method NextTok(buf: array<char>, at: nat, delim: char, ghost end: nat) returns (next: Option<nat>)
    requires Text(buf[..], at, end) && delim != NUL
    modifies buf
    ensures NextIs(old(buf[..]), buf[..], at, delim, end, next)
    ensures next.Some? ==> at < next.value < end
  {
    hide After, CutAt, IndexOf, DropLeading;
    ghost var was := buf[..];
    ghost var s := was[at..end];
    assert forall j | 0 <= j < |s| :: s[j] == was[at + j] && s[j] in s;
    var p := at;
    while buf[p] != NUL && buf[p] != delim
      invariant at <= p <= end
      invariant forall j | at <= j < p :: was[j] != delim
      decreases end - p
    {
      assert s[p - at] == buf[p];
      p := p + 1;
    }
    ghost var mid := p;
    while buf[p] == delim
      invariant mid <= p <= end
      invariant forall j | 0 <= j < buf.Length :: buf[j] == if mid <= j < p then NUL else was[j]
      invariant forall j | mid <= j < p :: was[j] == delim
      decreases end - p
    {
      buf[p] := NUL;
      p := p + 1;
    }
    next := if buf[p] == NUL then None else Some(p);
    Split(was, buf[..], at, mid, p, end, delim);
  }

  /** The three parts of the text: the token, the delimiters behind it, what follows. */
  lemma {:induction false} Split(was: seq<char>, buf: seq<char>, at: nat, mid: nat, p: nat, end: nat, delim: char)
    requires at <= mid <= p <= end < |was| == |buf| && was[end] == NUL && NUL !in was[at..end] && delim != NUL
    requires forall j | at <= j < mid :: was[j] != delim
    requires forall j | mid <= j < p :: was[j] == delim
    requires forall j | 0 <= j < |buf| :: buf[j] == if mid <= j < p then NUL else was[j]
    requires was[p] != delim && (mid == p ==> was[p] == NUL)
    ensures was[p] == NUL <==> p == end
    ensures var s := was[at..end];
            && |CutAt(s, delim)| == mid - at && Holds(buf, at, CutAt(s, delim))
            && After(s, delim) == if p == end then None else Some(buf[p..end])
  {
    hide After, CutAt, IndexOf, DropLeading;
    var s := was[at..end];
    SliceChars(was, at, end);
    assert p < end ==> was[p] == s[p - at];
    AfterRun(s, delim, mid - at, p - at);
    SubSlice(was, buf, at, end, at, mid);
    SubSlice(was, buf, at, end, p, end);
    NoNulIn(s, mid - at);
    assert s[p - at..end - at] == s[p - at..];
  }

  lemma NoNulIn(s: string, k: nat)
    requires NUL !in s && k <= |s|
    ensures NUL !in s[..k]
  {
  }

  lemma SliceChars(s: string, at: nat, end: nat)
    requires at <= end <= |s|
    ensures forall j | 0 <= j < end - at :: s[at..end][j] == s[at + j] && s[at..end][j] in s[at..end]
  {
  }

  /** A slice of a slice, where both buffers agree. */
  lemma SubSlice(was: string, buf: string, lo: nat, hi: nat, i: nat, j: nat)
    requires lo <= i <= j <= hi <= |was| == |buf| && forall k | i <= k < j :: buf[k] == was[k]
    ensures buf[i..j] == was[lo..hi][i - lo..j - lo] == was[i..j]
  {
    var a, b := was[lo..hi][i - lo..j - lo], was[i..j];
    forall k | 0 <= k < j - i ensures a[k] == b[k] == buf[i..j][k] {
      assert was[lo..hi][i - lo + k] == was[lo + (i - lo + k)];
    }
  }

  /** Pointer `p` leads to the C string `name`, which ends in front of `limit`. */
  ghost predicate PlacedAt(buf: seq<char>, p: Option<nat>, name: string, limit: nat) {
    p.Some? && Holds(buf, p.value, name) && p.value + |name| < limit
  }

  /** Pointers `from`, `from` + 1, ... lead to the C strings `names`. */
  ghost predicate Placed(buf: seq<char>, tok: seq<Option<nat>>, from: nat, names: seq<string>, limit: nat) {
    && from + |names| <= |tok|
    && forall i | 0 <= i < |names| :: PlacedAt(buf, tok[from + i], names[i], limit)
  }

  lemma {:induction false} PlacedStill(was: seq<char>, buf: seq<char>, tok: seq<Option<nat>>, from: nat,
                                       names: seq<string>, limit: nat)
    requires Placed(was, tok, from, names, limit) && |buf| == |was|
    requires forall j | 0 <= j < limit && j < |buf| :: buf[j] == was[j]
    ensures Placed(buf, tok, from, names, limit)
  {
    forall i | 0 <= i < |names| ensures PlacedAt(buf, tok[from + i], names[i], limit) {
      assert PlacedAt(was, tok[from + i], names[i], limit);
      HoldsStill(was, buf, tok[from + i].value, names[i]);
    }
  }

  lemma {:induction false} PlaceOne(buf: seq<char>, was: seq<Option<nat>>, tok: seq<Option<nat>>, from: nat,
                                    names: seq<string>, low: nat, limit: nat, at: nat, name: string)
    requires Placed(buf, was, from, names, low) && low <= limit
    requires |tok| == |was| && forall i | from <= i < from + |names| :: tok[i] == was[i]
    requires from + |names| < |tok| && tok[from + |names|] == Some(at)
    requires Holds(buf, at, name) && at + |name| < limit
    ensures Placed(buf, tok, from, names + [name], limit)
  {
    hide Holds;
    var all := names + [name];
    forall i | 0 <= i < |all| ensures PlacedAt(buf, tok[from + i], all[i], limit) {
      if i < |names| {
        assert PlacedAt(buf, was[from + i], names[i], low);
      }
    }
  }

  lemma {:induction false} PlaceLast(buf: seq<char>, was: seq<Option<nat>>, tok: seq<Option<nat>>,
                                     names: seq<string>, low: nat, at: nat, end: nat)
    requires Placed(buf, was, 1, names, low) && low <= end + 1
    requires |tok| == |was| && forall i | 1 <= i < 1 + |names| :: tok[i] == was[i]
    requires 1 + |names| < |tok| && tok[1 + |names|] == Some(at)
    requires at <= end < |buf| && buf[end] == NUL && NUL !in buf[at..end]
    ensures Placed(buf, tok, 1, names + [buf[at..end]], end + 1)
  {
    PlaceOne(buf, was, tok, 1, names, low, end + 1, at, buf[at..end]);
  }

  /** The token `t` starts with and what follows it, up to `n` more. */
  function Tokens(t: string, n: nat): seq<string> {
    [if n == 0 then t else CutAt(t, ' ')] + Args(t, n)
  }

  lemma {:induction false} TokensStep(t: string, n: nat)
    ensures n == 0 ==> Tokens(t, n) == [t]
    ensures n > 0 && After(t, ' ').None? ==> Tokens(t, n) == [CutAt(t, ' ')]
    ensures var u := After(t, ' ');
            n > 0 && u.Some? ==> Tokens(t, n) == [CutAt(t, ' ')] +
                                        (if u.value[0] == ':' then [u.value[1..]] else Tokens(u.value, n - 1))
  {
    hide After, CutAt;
  }

  ghost predicate NoneFrom(tok: seq<Option<nat>>, n: nat) {
    forall i | n <= i < |tok| :: tok[i] == None
  }

  /** Where the pointers are when `done` are placed and the token at `cur` is the next one. */
  ghost predicate Walking(buf: seq<char>, tok: seq<Option<nat>>, t0: string, done: seq<string>, cur: nat, end: nat) {
    && Text(buf, cur, end)
    && |tok| == MAX_ARGS + 2 && |done| <= MAX_ARGS
    && Placed(buf, tok, 1, done, cur) && tok[1 + |done|] == Some(cur) && NoneFrom(tok, 2 + |done|)
    && Tokens(t0, MAX_ARGS) == done + Tokens(buf[cur..end], MAX_ARGS - |done|)
  }

  ghost predicate Walked(buf: seq<char>, tok: seq<Option<nat>>, t0: string, end: nat) {
    var names := Tokens(t0, MAX_ARGS);
    && 1 + |names| <= |tok| && Placed(buf, tok, 1, names, end + 1) && NoneFrom(tok, 1 + |names|)
  }

  lemma {:induction false} WalkStart(buf: seq<char>, tok: seq<Option<nat>>, at: nat, end: nat)
    requires Text(buf, at, end)
    requires |tok| == MAX_ARGS + 2 && tok[1] == Some(at) && NoneFrom(tok, 2)
    ensures Walking(buf, tok, buf[at..end], [], at, end)
  {
    hide Tokens, NoneFrom;
  }

  lemma {:induction false} WalkFull(buf: seq<char>, tok: seq<Option<nat>>, t0: string, done: seq<string>,
                                    cur: nat, end: nat)
    requires Walking(buf, tok, t0, done, cur, end) && |done| == MAX_ARGS
    ensures Walked(buf, tok, t0, end)
  {
    hide Tokens;
    TokensStep(buf[cur..end], 0);
    PlaceLast(buf, tok, tok, done, cur, cur, end);
  }

  /** One call of lsi_com_next_tok on the way, with nothing behind the token. */
  lemma {:induction false} WalkOut(was: seq<char>, buf: seq<char>, tok: seq<Option<nat>>, t0: string,
                                   done: seq<string>, cur: nat, end: nat)
    requires Walking(was, tok, t0, done, cur, end) && |done| < MAX_ARGS
    requires NextIs(was, buf, cur, ' ', end, None)
    ensures Walked(buf, tok, t0, end)
  {
    hide Tokens, After, CutAt, Holds;
    TokensStep(was[cur..end], MAX_ARGS - |done|);
    PlacedStill(was, buf, tok, 1, done, cur);
    CutShorter(was[cur..end], ' ');
    PlaceOne(buf, tok, tok, 1, done, cur, end + 1, cur, CutAt(was[cur..end], ' '));
  }

  lemma CutShorter(s: string, c: char)
    ensures |CutAt(s, c)| <= |s|
  {
  }

  /** ... with a next token at `next`, which is the last one if it starts with a colon. */
  lemma {:induction false} WalkOn(was: seq<char>, buf: seq<char>, ptrs: seq<Option<nat>>, tok: seq<Option<nat>>,
                                  t0: string, done: seq<string>, cur: nat, next: nat, end: nat,
                                  trailing: bool, p: nat)
    requires Walking(was, ptrs, t0, done, cur, end) && |done| < MAX_ARGS
    requires NextIs(was, buf, cur, ' ', end, Some(next))
    requires trailing == (buf[next] == ':') && p == if trailing then next + 1 else next
    requires tok == ptrs[2 + |done| := Some(p)]
    ensures if trailing then Walked(buf, tok, t0, end)
            else Walking(buf, tok, t0, done + [CutAt(was[cur..end], ' ')], next, end)
  {
    hide Tokens, After, CutAt, Holds;
    var name := CutAt(was[cur..end], ' ');
    TokensStep(was[cur..end], MAX_ARGS - |done|);
    PlacedStill(was, buf, ptrs, 1, done, cur);
    PlaceOne(buf, ptrs, tok, 1, done, cur, next, cur, name);
    if trailing {
      assert buf[next..end][1..] == buf[next + 1..end];
      PlaceLast(buf, tok, tok, done + [name], next, next + 1, end);
      assert Tokens(t0, MAX_ARGS) == done + [name] + [buf[next + 1..end]];
    } else {
      assert Tokens(t0, MAX_ARGS) == done + [name] + Tokens(buf[next..end], MAX_ARGS - |done| - 1);
    }
  }

  lemma {:induction false} KeptNext(a: seq<char>, was: seq<char>, buf: seq<char>, lo: nat, at: nat, delim: char,
                                    next: Option<nat>, end: nat)
    requires Kept(a, was, lo, end) && lo <= at && Text(was, at, end) && NextIs(was, buf, at, delim, end, next)
    ensures Kept(a, buf, lo, end)
    ensures next.Some? ==> Text(buf, next.value, end)
  {
    KeptOn(a, was, buf, lo, at, if next.Some? then next.value else end, end);
  }

  /** The loop of lsi_ut_tokenize, from the command on. */
  method TokenizeFrom(buf: array<char>, at: nat, tok: array<Option<nat>>, ghost end: nat)
    requires at < end && Text(buf[..], at, end)
    requires tok.Length == MAX_ARGS + 2 && NoneFrom(tok[..], 1)
    modifies buf, tok
    ensures Walked(buf[..], tok[..], old(buf[at..end]), end)
    ensures tok[0] == old(tok[0])
    ensures Kept(old(buf[..]), buf[..], at, end)
  {
    ghost var buf0, t0 := buf[..], buf[at..end];
    ghost var done: seq<string> := [];
    tok[1] := Some(at);
    var argc, cur := 2, at;
    WalkStart(buf[..], tok[..], at, end);
    assert end < buf.Length && Kept(buf0, buf[..], at, end) && t0 == buf[..][at..end];
    hide CutAt, Walked, Walking, NextIs, Kept, Text, NoneFrom;
    while argc < tok.Length
      invariant argc == |done| + 2 <= tok.Length && at <= cur < end
      invariant Text(buf[..], cur, end) && Walking(buf[..], tok[..], t0, done, cur, end)
      invariant tok[0] == old(tok[0])
      invariant Kept(buf0, buf[..], at, end)
    {
      ghost var was, toks := buf[..], tok[..];
      var next := NextTok(buf, cur, ' ', end);
      KeptNext(buf0, was, buf[..], at, cur, ' ', next, end);
      if next.None? {
        WalkOut(was, buf[..], toks, t0, done, cur, end);
        return;
      }
      var trailing := buf[next.value] == ':';
      var p := if trailing then next.value + 1 else next.value;
      ghost var now, toks' := buf[..], toks[argc := Some(p)];
      assert trailing == (now[next.value] == ':');
      WalkOn(was, now, toks, toks', t0, done, cur, next.value, end, trailing, p);
      tok[argc] := Some(p);
      assert buf[..] == now && tok[..] == toks';
      if trailing {
        return;
      }
      done := done + [CutAt(was[cur..end], ' ')];
      argc := argc + 1;
      cur := next.value;
    }
    WalkFull(buf[..], tok[..], t0, done, cur, end);
  }

  /** The 18 pointers show the message `m`, in strings that end in front of `limit`. */
  ghost predicate Shows(buf: seq<char>, tok: seq<Option<nat>>, m: Msg, limit: nat) {
    && |tok| == MAX_ARGS + 2 && 2 + |m.args| <= |tok|
    && (if m.prefix.Some? then PlacedAt(buf, tok[0], m.prefix.value, limit) else tok[0] == None)
    && Placed(buf, tok, 1, [m.cmd] + m.args, limit) && NoneFrom(tok, 2 + |m.args|)
  }

  lemma {:induction false} HoldsTail(buf: seq<char>, at: nat, s: string)
    requires Holds(buf, at, s) && s != []
    ensures Holds(buf, at + 1, s[1..])
  {
    assert buf[at + 1..at + |s|] == buf[at..at + |s|][1..];
  }

  lemma {:induction false} CutTail(s: string, c: char)
    requires s != [] && s[0] != c
    ensures CutAt(s, c) != [] && CutAt(s, c)[1..] == CutAt(s[1..], c)
  {
    IndexOfIs(s[1..], c, IndexOf(s, c) - 1);
  }

  lemma AllNone(tok: seq<Option<nat>>)
    requires forall j | 1 <= j < |tok| :: tok[j] == None
    ensures NoneFrom(tok, 1)
  {
  }

  /** lsi_ut_tokenize: the line is cut in place, and the pointers show what it says. */
  method Tokenize(buf: array<char>, at: nat, tok: array<Option<nat>>, ghost end: nat) returns (ok: bool)
    requires Text(buf[..], at, end) && tok.Length == MAX_ARGS + 2
    modifies buf, tok
    ensures var m := Tokenizer.Tokenize(old(buf[at..end]));
            ok == m.Some? && (ok ==> Shows(buf[..], tok[..], m.value, end + 1))
    ensures Kept(old(buf[..]), buf[..], at, end)
  {
    hide After, IndexOf, Holds, Args, NoneFrom, Placed, CutAt;
    ghost var s := buf[at..end];
    assert at < end ==> s[0] == buf[at] && buf[at] in s;
    for i := 0 to tok.Length
      invariant forall j | 0 <= j < i :: tok[j] == None
      invariant buf[..] == old(buf[..])
    {
      tok[i] := None;
    }
    var cur := at;
    AllNone(tok[..]);
    if buf[at] == ':' {
      tok[0] := Some(at + 1);
      AllNone(tok[..]);
      var next := NextTok(buf, at, ' ', end);
      if next.None? {
        return false;
      }
      cur := next.value;
      CutTail(s, ' ');
      HoldsTail(buf[..], at, CutAt(s, ' '));
    } else if buf[at] == ' ' || buf[at] == NUL {
      return false;
    }
    ghost var was, t := buf[..], buf[cur..end];
    TokenizeFrom(buf, cur, tok, end);
    KeptOn(old(buf[..]), was, buf[..], at, cur, end, end);
    if s[0] == ':' {
      HoldsStill(was, buf[..], at + 1, CutAt(s[1..], ' '));
    }
    assert Tokens(t, MAX_ARGS) == [CutAt(t, ' ')] + Args(t, MAX_ARGS);
    return true;
  }

  /** The C string at `at`, character by character. */
  method ReadStr(buf: array<char>, at: nat, ghost s: string) returns (r: string)
    requires Holds(buf[..], at, s)
    ensures r == s == CStr(buf[at..])
  {
    HoldsIsCStr(buf[..], at, s);
    assert buf[..][at..] == buf[at..];
    assert forall j | 0 <= j < |s| :: s[j] == buf[..][at..at + |s|][j] && s[j] in s;
    r := "";
    var i := at;
    while buf[i] != NUL
      invariant at <= i <= at + |s| && r == s[..i - at]
      decreases at + |s| - i
    {
      r := r + [buf[i]];
      i := i + 1;
    }
  }

  lemma PlacedHolds(buf: seq<char>, tok: seq<Option<nat>>, from: nat, names: seq<string>, limit: nat, i: nat)
    requires Placed(buf, tok, from, names, limit) && i < |names|
    ensures from + i < |tok| && tok[from + i].Some? && Holds(buf, tok[from + i].value, names[i])
  {
    assert PlacedAt(buf, tok[from + i], names[i], limit);
  }

  lemma {:induction false} ShownHeads(buf: seq<char>, tok: seq<Option<nat>>, m: Msg, limit: nat)
    requires Shows(buf, tok, m, limit)
    ensures |tok| == MAX_ARGS + 2 && 2 + |m.args| <= |tok|
    ensures tok[0].Some? <==> m.prefix.Some?
    ensures m.prefix.Some? ==> Holds(buf, tok[0].value, m.prefix.value)
    ensures tok[1].Some? && Holds(buf, tok[1].value, m.cmd)
    ensures forall i | 2 <= i < |tok| :: tok[i].Some? <==> i < 2 + |m.args|
  {
    hide Holds, Placed, NoneFrom;
    PlacedHolds(buf, tok, 1, [m.cmd] + m.args, limit, 0);
    PlacedOrNone(buf, tok, [m.cmd] + m.args, limit);
  }

  lemma {:induction false} ShownArg(buf: seq<char>, tok: seq<Option<nat>>, m: Msg, limit: nat, i: nat)
    requires Shows(buf, tok, m, limit) && i < |m.args|
    ensures 2 + i < |tok| && tok[2 + i].Some? && Holds(buf, tok[2 + i].value, m.args[i])
  {
    hide Holds, Placed, NoneFrom;
    PlacedHolds(buf, tok, 1, [m.cmd] + m.args, limit, 1 + i);
  }

  /** The message the 18 pointers show, string by string. */
  method ReadMsg(buf: array<char>, tok: array<Option<nat>>, ghost m: Msg, ghost limit: nat) returns (msg: Msg)
    requires Shows(buf[..], tok[..], m, limit)
    ensures msg == m
  {
    hide Holds, Shows;
    ShownHeads(buf[..], tok[..], m, limit);
    var prefix := None;
    if tok[0].Some? {
      var p := ReadStr(buf, tok[0].value, m.prefix.value);
      prefix := Some(p);
    }
    var cmd := ReadStr(buf, tok[1].value, m.cmd);
    var args: seq<string> := [];
    var i := 2;
    while i < tok.Length && tok[i].Some?
      invariant 2 <= i <= 2 + |m.args| && args == m.args[..i - 2]
    {
      ShownArg(buf[..], tok[..], m, limit, i - 2);
      var a := ReadStr(buf, tok[i].value, m.args[i - 2]);
      args := args + [a];
      i := i + 1;
    }
    return Msg(prefix, cmd, args);
  }

  lemma PlacedOrNone(buf: seq<char>, tok: seq<Option<nat>>, names: seq<string>, limit: nat)
    requires Placed(buf, tok, 1, names, limit) && NoneFrom(tok, 1 + |names|)
    ensures 1 + |names| <= |tok| && forall i | 1 <= i < |tok| :: tok[i].Some? <==> i < 1 + |names|
  {
    forall i | 1 <= i < 1 + |names| ensures tok[i].Some? {
      PlacedHolds(buf, tok, 1, names, limit, i - 1);
    }
  }

  // ---------- tags ----------

  lemma {:induction false} TagsStep(t: string)
    ensures Tags(t) == [CutAt(t, ';')] + match After(t, ';') case None => [] case Some(u) => Tags(u)
  {
  }

  /** The first `max` of `done` are placed, and the next tag is the one at `cur`. */
  ghost predicate Tagging(buf: seq<char>, dest: seq<Option<nat>>, t0: string, done: seq<string>, cur: nat, end: nat) {
    && Text(buf, cur, end)
    && Placed(buf, dest, 0, Take(done, |dest|), cur)
    && Tags(t0) == done + Tags(buf[cur..end])
  }

  ghost predicate Tagged(buf: seq<char>, dest: seq<Option<nat>>, t0: string, limit: nat) {
    Placed(buf, dest, 0, Take(Tags(t0), |dest|), limit)
  }

  lemma {:induction false} PlaceTag(buf: seq<char>, was: seq<Option<nat>>, dest: seq<Option<nat>>, done: seq<string>,
                                    low: nat, limit: nat, at: nat, name: string)
    requires Placed(buf, was, 0, Take(done, |was|), low) && low <= limit
    requires dest == if |done| < |was| then was[|done| := Some(at)] else was
    requires Holds(buf, at, name) && at + |name| < limit
    ensures Placed(buf, dest, 0, Take(done + [name], |dest|), limit)
  {
    hide Holds;
    if |done| < |was| {
      PlaceOne(buf, was, dest, 0, done, low, limit, at, name);
    } else {
      assert Take(done + [name], |was|) == Take(done, |was|);
      forall i | 0 <= i < |Take(done, |was|)| ensures PlacedAt(buf, dest[i], Take(done, |was|)[i], limit) {
        assert PlacedAt(buf, was[0 + i], Take(done, |was|)[i], low);
      }
    }
  }

  lemma {:induction false} TagOn(was: seq<char>, buf: seq<char>, ptrs: seq<Option<nat>>, dest: seq<Option<nat>>,
                                 t0: string, done: seq<string>, cur: nat, next: Option<nat>, end: nat)
    requires Tagging(was, ptrs, t0, done, cur, end) && NextIs(was, buf, cur, ';', end, next)
    requires dest == if |done| < |ptrs| then ptrs[|done| := Some(cur)] else ptrs
    ensures match next
            case None => Tagged(buf, dest, t0, end + 1) && Tags(t0) == done + [CutAt(was[cur..end], ';')]
            case Some(p) => Tagging(buf, dest, t0, done + [CutAt(was[cur..end], ';')], p, end)
  {
    hide After, CutAt, Holds, Tags;
    var t := was[cur..end];
    TagsStep(t);
    CutShorter(t, ';');
    PlacedStill(was, buf, ptrs, 0, Take(done, |ptrs|), cur);
    PlaceTag(buf, ptrs, dest, done, cur, if next.None? then end + 1 else next.value, cur, CutAt(t, ';'));
    if next.None? {
      assert Tags(t0) == done + [CutAt(t, ';')];
    } else {
      assert Tags(t0) == done + [CutAt(t, ';')] + Tags(buf[next.value..end]);
    }
  }

  lemma {:induction false} TagStart(buf: seq<char>, dest: seq<Option<nat>>, line: nat, end: nat)
    requires Text(buf, line, end)
    ensures line <= end < |buf| && Tagging(buf, dest, buf[line..end], [], line, end)
    ensures Kept(buf, buf, line, end) && |Take<string>([], |dest|)| == 0
  {
    hide Tags;
  }

  /** The loop of lsi_ut_extract_tags. */
  method CollectTags(buf: array<char>, line: nat, dest: array<Option<nat>>, ghost end: nat) returns (ntags: nat)
    requires Text(buf[..], line, end)
    modifies buf, dest
    ensures Tagged(buf[..], dest[..], old(buf[line..end]), end + 1)
    ensures ntags == |Take(Tags(old(buf[line..end])), dest.Length)|
    ensures Kept(old(buf[..]), buf[..], line, end)
  {
    hide CutAt, Tagging, Tagged, NextIs, Kept, Text, Tags, Take;
    ghost var buf0 := buf[..];
    TagStart(buf0, dest[..], line, end);
    ghost var t0 := buf0[line..end];
    ghost var done: seq<string> := [];
    var cur := line;
    ntags := 0;
    while true
      invariant line <= cur <= end && Text(buf[..], cur, end)
      invariant ntags == |Take(done, dest.Length)| && Kept(buf0, buf[..], line, end)
      invariant Tagging(buf[..], dest[..], t0, done, cur, end)
      decreases end - cur
    {
      ghost var was, ptrs := buf[..], dest[..];
      TakeOneMore(done, CutAt(was[cur..end], ';'), dest.Length);
      if ntags < dest.Length {
        dest[ntags] := Some(cur);
        ntags := ntags + 1;
      }
      ghost var dest' := if |done| < |ptrs| then ptrs[|done| := Some(cur)] else ptrs;
      assert buf[..] == was && dest[..] == dest';
      var next := NextTok(buf, cur, ';', end);
      assert dest[..] == dest';
      KeptNext(buf0, was, buf[..], line, cur, ';', next, end);
      TagOn(was, buf[..], ptrs, dest', t0, done, cur, next, end);
      done := done + [CutAt(was[cur..end], ';')];
      if next.None? {
        return;
      }
      cur := next.value;
    }
  }

  lemma {:induction false} TakeOneMore(done: seq<string>, name: string, n: nat)
    ensures |Take(done, n)| == if |done| < n then |done| else n
    ensures |Take(done + [name], n)| == if |done| < n then |done| + 1 else n
  {
  }

  /** strchr */
  method Strchr(buf: array<char>, at: nat, c: char, ghost end: nat) returns (p: Option<nat>)
    requires Text(buf[..], at, end) && c != NUL
    ensures var s := buf[at..end]; p == if c in s then Some(at + IndexOf(s, c)) else None
  {
    ghost var s := buf[at..end];
    var i := at;
    while buf[i] != c && buf[i] != NUL
      invariant at <= i <= end
      invariant forall j | at <= j < i :: buf[j] != c
      decreases end - i
    {
      i := i + 1;
    }
    assert i < end ==> s[i - at] == buf[i] && s[i - at] in s;
    IndexOfIs(s, c, i - at);
    return if buf[i] == c then Some(i) else None;
  }

  lemma {:induction false} TextTail(buf: string, at: nat, k: nat, end: nat)
    requires Text(buf, at, end) && at + k <= end
    ensures Text(buf, at + k, end) && buf[at + k..end] == buf[at..end][k..]
    ensures buf[at + k] == NUL <==> at + k == end
  {
    assert at + k < end ==> buf[at + k] == buf[at..end][k] && buf[at..end][k] in buf[at..end];
  }

  /** A NUL at `stop` ends one text, and what is behind it goes on. */
  lemma {:induction false} SplitAt(was: string, buf: string, line: nat, stop: nat, end: nat)
    requires Text(was, line, end) && line <= stop < end && buf == was[stop := NUL]
    ensures var k := stop - line;
            && Text(buf, line, stop) && buf[line..stop] == was[line..end][..k]
            && Text(buf, stop + 1, end) && buf[stop + 1..end] == was[line..end][k + 1..]
            && Kept(was, buf, line, stop + 1)
  {
    TextTail(was, line, stop + 1 - line, end);
    assert buf[line..stop] == was[line..end][..stop - line];
    assert buf[stop + 1..end] == was[stop + 1..end];
  }

  /** Where the tags stop, and what is left of the buffer when a NUL is put there. */
  lemma {:induction false} TagStop(was: string, buf: string, line: nat, p: Option<nat>, end: nat)
    requires Text(was, line, end)
    requires var s := was[line..end]; p == if ' ' in s then Some(line + IndexOf(s, ' ')) else None
    requires p.Some? ==> p.value < |was| && buf == was[p.value := NUL]
    ensures match TagSplit(was[line..end])
            case None => p.None?
            case Some((tags, text)) =>
              && p.Some? && line <= p.value < end
              && Text(buf, line, p.value) && buf[line..p.value] == tags
              && Text(buf, p.value + 1, end) && buf[p.value + 1..end] == text
              && Kept(was, buf, line, p.value + 1)
  {
    if p.Some? {
      SplitAt(was, buf, line, p.value, end);
    }
  }

  lemma {:induction false} TextStays(was: string, buf: string, lo: nat, hi: nat, at: nat, end: nat)
    requires Text(was, at, end) && Kept(was, buf, lo, hi) && hi <= at
    ensures Text(buf, at, end) && buf[at..end] == was[at..end]
  {
    assert buf[at..end] == was[at..end];
  }

  lemma TextBounds(buf: string, at: nat, end: nat)
    requires Text(buf, at, end)
    ensures at <= end < |buf| && buf[end] == NUL
  {
  }

  /** lsi_ut_extract_tags: the tags are the pieces in front of the first space, and the line goes on
      behind that space. */
  method ExtractTags(buf: array<char>, line: nat, dest: array<Option<nat>>, ghost end: nat)
      returns (rest: Option<nat>, ntags: nat)
    requires Text(buf[..], line, end)
    modifies buf, dest
    ensures match TagSplit(old(buf[line..end]))
            case None => rest.None? && buf[..] == old(buf[..])
            case Some((tags, text)) =>
              && rest.Some? && line < rest.value <= end
              && Text(buf[..], rest.value, end) && buf[rest.value..end] == text
              && Tagged(buf[..], dest[..], tags, rest.value) && ntags == |Take(Tags(tags), dest.Length)|
              && Kept(old(buf[..]), buf[..], line, rest.value)
  {
    hide Text, Kept, Tagged, Tags, Take, TagSplit, IndexOf;
    ghost var buf0 := buf[..];
    TextBounds(buf0, line, end);
    var stop := Strchr(buf, line, ' ', end);
    TagStop(buf0, if stop.Some? && stop.value < |buf0| then buf0[stop.value := NUL] else buf0, line, stop, end);
    if stop.None? {
      return None, 0;
    }
    buf[stop.value] := NUL;
    ghost var was := buf[..];
    assert was == buf0[stop.value := NUL];
    ntags := CollectTags(buf, line, dest, stop.value);
    KeptOn(buf0, was, buf[..], line, line, stop.value, stop.value + 1);
    TextStays(was, buf[..], line, stop.value, stop.value + 1, end);
    return Some(stop.value + 1), ntags;
  }
}
