// Channel modes: dissecting MODE and 324 (util.c), the ordered mode prefix of
// a member and the channel-mode array (ucbase.c), and the PREFIX lists of 005
// (irc_msghnd.c).
module Modes {
  import opened CStrings
  import opened Slots
  import opened CaseMap
  import opened Message

  // ---------- classes ----------

  datatype Class = A | B | C | D | NoClass

  /** lsi_ut_classify_chanmode: the first of the four lists that holds the letter. */
  function Classify(cfg: Config, c: char): Class {
    if c in cfg.classA then A else if c in cfg.classB then B
    else if c in cfg.classC then C else if c in cfg.classD then D else NoClass
  }

  predicate Known(cfg: Config, c: char) {
    Classify(cfg, c) != NoClass || c in cfg.letters
  }

  /** Whether a known mode letter consumes an argument. */
  predicate TakesArg(cfg: Config, c: char, enab: bool) {
    match Classify(cfg, c)
    case A => true
    case B => true
    case C => enab
    case D => false
    case NoClass => true
  }

  // ---------- dissecting a mode string ----------

  /** One entry of the array lsi_ut_parse_MODE returns: sign, letter and, if any, " argument". */
  datatype Change = Change(enab: bool, letter: char, arg: Option<string>) {
    /** The entry without its sign, as it is stored in a channel-mode array. */
    function ModeStr(): (s: string)
      ensures |s| >= 1 && s[0] == letter
    {
      [letter] + if arg.Some? then " " + arg.value else ""
    }
  }

  /** The sign in force behind a mode string that was entered with sign `enab`. */
  function SignAfter(modes: string, enab: bool): bool {
    if modes == [] then enab
    else SignAfter(modes[1..], Sign(modes[0], enab))
  }

  function Sign(c: char, enab: bool): bool {
    if c == '+' then true else if c == '-' then false else enab
  }

  /** The letter at a position counts as a mode. */
  predicate IsMode(cfg: Config, c: char) {
    c != '+' && c != '-' && Known(cfg, c)
  }

  /** How many arguments a mode string consumes (whether or not so many are there). */
  function ArgsUsed(cfg: Config, modes: string, enab: bool): nat {
    if modes == [] then 0
    else
      (if IsMode(cfg, modes[0]) && TakesArg(cfg, modes[0], enab) then 1 else 0)
      + ArgsUsed(cfg, modes[1..], Sign(modes[0], enab))
  }

  function ArgAt(args: seq<string>, i: nat): string {
    if i < |args| then args[i] else "*"
  }

  /** The changes a mode string describes: read left to right, one per known letter. */
  function Changes(cfg: Config, modes: string, enab: bool, args: seq<string>): seq<Change> {
    if modes == [] then []
    else
      var c := modes[0];
      if c == '+' then Changes(cfg, modes[1..], true, args)
      else if c == '-' then Changes(cfg, modes[1..], false, args)
      else if !Known(cfg, c) then Changes(cfg, modes[1..], enab, args)
      else if TakesArg(cfg, c, enab) then
        [Change(enab, c, Some(ArgAt(args, 0)))]
        + Changes(cfg, modes[1..], enab, if args == [] then [] else args[1..])
      else [Change(enab, c, None)] + Changes(cfg, modes[1..], enab, args)
  }

  function CountModes(cfg: Config, modes: string): nat {
    if modes == [] then 0
    else (if IsMode(cfg, modes[0]) then 1 else 0) + CountModes(cfg, modes[1..])
  }

  /** What lsi_ut_parse_MODE promises, position by position: the known letter at position p
      is one entry, numbered by the known letters in front of it, with the latest sign in
      front of it and the argument left over by the letters in front of it. */
  lemma {:induction false} ChangesByPosition(cfg: Config, modes: string, enab: bool, args: seq<string>, p: nat)
    requires p < |modes| && IsMode(cfg, modes[p])
    ensures |Changes(cfg, modes, enab, args)| == CountModes(cfg, modes)
    ensures CountModes(cfg, modes[..p]) < CountModes(cfg, modes)
    ensures var sign := SignAfter(modes[..p], enab);
            Changes(cfg, modes, enab, args)[CountModes(cfg, modes[..p])] ==
            Change(sign, modes[p],
                   if TakesArg(cfg, modes[p], sign)
                   then Some(ArgAt(args, ArgsUsed(cfg, modes[..p], enab))) else None)
  {
    ChangesCount(cfg, modes, enab, args);
    if p > 0 {
      var c := modes[0];
      var enab' := Sign(c, enab);
      var args' := if IsMode(cfg, c) && TakesArg(cfg, c, enab) && args != [] then args[1..] else args;
      ChangesByPosition(cfg, modes[1..], enab', args', p - 1);
      assert modes[..p][1..] == modes[1..][..p - 1];
      var n := ArgsUsed(cfg, modes[1..][..p - 1], enab');
      var m := CountModes(cfg, modes[1..][..p - 1]);
      if IsMode(cfg, c) {
        assert Changes(cfg, modes, enab, args)[1..] == Changes(cfg, modes[1..], enab', args');
        assert Changes(cfg, modes, enab, args)[m + 1] == Changes(cfg, modes[1..], enab', args')[m];
        if TakesArg(cfg, c, enab) {
          assert ArgAt(args, n + 1) == ArgAt(args', n);
        }
      }
    }
  }

  lemma ChangesCount(cfg: Config, modes: string, enab: bool, args: seq<string>)
    ensures |Changes(cfg, modes, enab, args)| == CountModes(cfg, modes)
  {
  }

  /** Whether a letter of the PREFIX list ever comes without an argument depends on the
      classes alone: it must be in no list whose modes can go without one. */
  lemma {:induction false} PrefixArgsIff(cfg: Config)
    ensures PrefixesTakeArgs(cfg) <==>
            forall modes, args :: AllPrefixArgs(cfg, Changes(cfg, modes, true, args))
  {
    if PrefixesTakeArgs(cfg) {
      forall modes, args ensures AllPrefixArgs(cfg, Changes(cfg, modes, true, args)) {
        PrefixArgsThere(cfg, modes, true, args);
      }
    } else {
      var c :| c in cfg.letters && c != '+' && c != '-' && Classify(cfg, c) in {C, D};
      var none: seq<string> := [];
      assert [c][1..] == [] && ['-', c][1..] == [c];
      assert Changes(cfg, [c], false, none) == [Change(false, c, None)];
      assert Changes(cfg, ['-', c], true, none) == [Change(false, c, None)];
      assert Changes(cfg, ['-', c], true, none)[0] == Change(false, c, None);
      assert !AllPrefixArgs(cfg, Changes(cfg, ['-', c], true, none));
    }
  }

  predicate PrefixesTakeArgs(cfg: Config) {
    forall c | c in cfg.letters && c != '+' && c != '-' :: Classify(cfg, c) !in {C, D}
  }

  predicate AllPrefixArgs(cfg: Config, changes: seq<Change>) {
    forall i | 0 <= i < |changes| :: changes[i].letter in cfg.letters ==> changes[i].arg.Some?
  }

  lemma PrefixArgsThere(cfg: Config, modes: string, enab: bool, args: seq<string>)
    requires PrefixesTakeArgs(cfg)
    ensures AllPrefixArgs(cfg, Changes(cfg, modes, enab, args))
  {
  }

  function CountChar(s: string, c: char): nat {
    if s == [] then 0 else (if s[0] == c then 1 else 0) + CountChar(s[1..], c)
  }

  method StrCchr(s: string, c: char) returns (r: nat)
    ensures r == CountChar(s, c)
  {
    r := 0;
    var i := 0;
    while i < |s|
      invariant i <= |s| && r + CountChar(s[i..], c) == CountChar(s, c)
    {
      if s[i] == c { r := r + 1; }
      i := i + 1;
    }
  }

  lemma SignsAre(s: string)
    ensures Signs(s) == CountChar(s, '-') + CountChar(s, '+') <= |s|
  {
    SignsBound(s);
  }

  lemma SignsBound(s: string)
    ensures CountChar(s, '+') + CountChar(s, '-') <= |s|
  {
  }

  lemma {:induction false} ParseStep(cfg: Config, s: string, enab: bool, args: seq<string>)
    requires s != []
    ensures var (c, t) := (s[0], s[1..]);
            Changes(cfg, s, enab, args) ==
            if c == '+' || c == '-' then Changes(cfg, t, c == '+', args)
            else if !Known(cfg, c) then Changes(cfg, t, enab, args)
            else if TakesArg(cfg, c, enab) then
              [Change(enab, c, Some(ArgAt(args, 0)))] + Changes(cfg, t, enab, if args == [] then [] else args[1..])
            else [Change(enab, c, None)] + Changes(cfg, t, enab, args)
    ensures Signs(s) == Signs(s[1..]) + (if s[0] == '+' || s[0] == '-' then 1 else 0)
    ensures Signs(s) <= |s| && Signs(s[1..]) < |s|
  {
    SignsBound(s);
    SignsBound(s[1..]);
  }

  function Signs(s: string): nat {
    CountChar(s, '-') + CountChar(s, '+')
  }

  lemma ParseEnd(cfg: Config, enab: bool, args: seq<string>)
    ensures Changes(cfg, [], enab, args) == [] && Signs([]) == 0
  {
  }

  lemma Behind<T>(s: seq<T>, i: nat)
    requires i <= |s|
    ensures i < |s| ==> s[i..] != [] && s[i..][0] == s[i] && s[i..][1..] == s[i + 1..]
    ensures i == |s| <==> s[i..] == []
  {
  }

  /** Where the parser stands: at character `ptr`, argument `i` and entry `j`, with `num` entries to
      come out in the end. */
  ghost predicate Parsing(cfg: Config, modes: string, args: seq<string>, want: seq<Change>,
                          ptr: nat, i: nat, j: nat, enab: bool, num: int) {
    && ptr <= |modes| && i <= |args| && j <= |want|
    && want[j..] == Changes(cfg, modes[ptr..], enab, args[i..])
    && num == j + |modes| - ptr - Signs(modes[ptr..])
  }

  lemma {:induction false} ParsingStep(cfg: Config, modes: string, args: seq<string>, want: seq<Change>,
                                       ptr: nat, i: nat, j: nat, enab: bool, num: int)
    requires Parsing(cfg, modes, args, want, ptr, i, j, enab, num) && ptr < |modes|
    ensures var c := modes[ptr];
            if c == '+' || c == '-' then Parsing(cfg, modes, args, want, ptr + 1, i, j, c == '+', num)
            else if !Known(cfg, c) then Parsing(cfg, modes, args, want, ptr + 1, i, j, enab, num - 1)
            else
              var takes := TakesArg(cfg, c, enab);
              && j < |want| && j < num
              && want[j] == Change(enab, c, if takes then Some(ArgAt(args, i)) else None)
              && Parsing(cfg, modes, args, want, ptr + 1, if takes && i < |args| then i + 1 else i, j + 1, enab, num)
  {
    hide Changes, CountChar, Known, TakesArg;
    ParseStep(cfg, modes[ptr..], enab, args[i..]);
    Behind(modes, ptr);
    Behind(args, i);
    Behind(want, j);
  }

  lemma {:induction false} ParsingEnds(cfg: Config, modes: string, args: seq<string>, want: seq<Change>,
                                       i: nat, j: nat, enab: bool, num: int)
    requires i <= |args|
    ensures want == Changes(cfg, modes, enab, args[i..]) ==>
              Parsing(cfg, modes, args, want, 0, i, 0, enab, |modes| - Signs(modes))
    ensures Parsing(cfg, modes, args, want, |modes|, i, j, enab, num) ==> num == j == |want|
  {
    assert modes[0..] == modes && want[0..] == want && modes[|modes|..] == [];
    ParseEnd(cfg, enab, []);
    if j <= |want| {
      Behind(want, j);
    }
  }

  /** lsi_ut_parse_MODE.  The array is allocated for every character that is no sign and
      `nummodes` is lowered at each unknown letter; every write stays inside the array and
      the entries written are exactly the first `num`. */
  method ParseMode(cfg: Config, msg: Msg, is324: bool) returns (modearr: array<Option<Change>>, num: nat)
    requires |msg.args| >= if is324 then 3 else 2
    ensures fresh(modearr) && num <= modearr.Length
    ensures var off := if is324 then 2 else 1;
            var want := Changes(cfg, msg.args[off], true, msg.args[off + 1..]);
            num == |want| && forall i | 0 <= i < modearr.Length ::
              modearr[i] == if i < num then Some(want[i]) else None
  {
    hide Changes, CountChar, Known, TakesArg, Signs, Parsing;
    var off := if is324 then 2 else 1;
    var modes := msg.args[off];
    var minus := StrCchr(modes, '-');
    var plus := StrCchr(modes, '+');
    SignsAre(modes);
    var nummodes := |modes| - (minus + plus);
    modearr := new Option<Change>[nummodes](_ => None);

    ghost var want := Changes(cfg, modes, true, msg.args[off + 1..]);
    var ac := |msg.args|;
    var i, j, ptr, enable := off + 1, 0, 0, true;
    ParsingEnds(cfg, modes, msg.args, want, i, j, enable, nummodes);
    while ptr < |modes|
      invariant ptr <= |modes| && i <= ac && j <= |want| && nummodes <= modearr.Length
      invariant Parsing(cfg, modes, msg.args, want, ptr, i, j, enable, nummodes)
      invariant forall m | 0 <= m < modearr.Length :: modearr[m] == if m < j then Some(want[m]) else None
    {
      ParsingStep(cfg, modes, msg.args, want, ptr, i, j, enable, nummodes);
      var c := modes[ptr];
      if c == '+' || c == '-' {
        enable := c == '+';
        ptr := ptr + 1;
        continue;
      }
      var arg := None;
      if TakesArg(cfg, c, enable) && Known(cfg, c) {
        arg := Some(if i >= ac then "*" else msg.args[i]);
        i := if i >= ac then i else i + 1;
      } else if !Known(cfg, c) {
        nummodes := nummodes - 1;
        ptr := ptr + 1;
        continue;
      }
      modearr[j] := Some(Change(enable, c, arg));
      j := j + 1;
      ptr := ptr + 1;
    }
    ParsingEnds(cfg, modes, msg.args, want, i, j, enable, nummodes);
    num := nummodes;
  }

  // ---------- the mode prefix of a member ----------

  /** Position in the symbol list; smaller is stronger (compare_modepfx). */
  function Rank(syms: string, c: char): nat {
    IndexOf(syms, c)
  }

  function Ranks(syms: string, pfx: string): seq<nat> {
    seq(|pfx|, i requires 0 <= i < |pfx| => Rank(syms, pfx[i]))
  }

  ghost predicate Increasing(r: seq<nat>) {
    forall i, j | 0 <= i < j < |r| :: r[i] < r[j]
  }

  /** Strongest first, without repetition, symbols of the list only. */
  ghost predicate Ordered(syms: string, pfx: string) {
    Chars(pfx) <= Chars(syms) && Increasing(Ranks(syms, pfx))
  }

  ghost function Chars(s: string): set<char> {
    set c | c in s
  }

  /** How many leading symbols are stronger than `sym`. */
  function InsertPos(syms: string, pfx: string, sym: char): (p: nat)
    ensures p <= |pfx|
    ensures forall i | 0 <= i < p :: Rank(syms, pfx[i]) < Rank(syms, sym)
    ensures p < |pfx| ==> Rank(syms, pfx[p]) >= Rank(syms, sym)
  {
    if pfx == [] || Rank(syms, pfx[0]) >= Rank(syms, sym) then 0
    else 1 + InsertPos(syms, pfx[1..], sym)
  }

  /** The prefix lsi_ucb_update_modepfx leaves, and whether it accepted the change. */
  function UpdatePfx(syms: string, pfx: string, sym: char, enab: bool): (string, bool) {
    if enab == (sym in pfx) then (pfx, false)
    else if !enab then
      var i := IndexOf(pfx, sym);
      (pfx[..i] + pfx[i + 1..], true)
    else if |pfx| + 1 >= MAX_MODEPFX then (pfx, false)
    else
      var p := InsertPos(syms, pfx, sym);
      (pfx[..p] + [sym] + pfx[p..], true)
  }

  lemma {:induction false} ConcatChars(a: string, b: string)
    ensures Chars(a + b) == Chars(a) + Chars(b)
  {
    assert forall c :: c in a + b <==> c in a || c in b;
  }

  lemma {:induction false} IncreasingRemove(r: seq<nat>, i: nat)
    requires Increasing(r) && i < |r|
    ensures Increasing(r[..i] + r[i + 1..]) && r[i] !in r[..i] && r[i] !in r[i + 1..]
  {
  }

  lemma {:induction false} IncreasingInsert(r: seq<nat>, p: nat, v: nat)
    requires p <= |r| && Increasing(r)
    requires (forall i | 0 <= i < p :: r[i] < v) && (forall i | p <= i < |r| :: v < r[i])
    ensures Increasing(r[..p] + [v] + r[p..])
  {
  }

  lemma {:induction false} RemovingIsSetRemove(syms: string, pfx: string, i: nat)
    requires Ordered(syms, pfx) && i < |pfx|
    ensures Ordered(syms, pfx[..i] + pfx[i + 1..])
    ensures Chars(pfx[..i] + pfx[i + 1..]) == Chars(pfx) - {pfx[i]}
  {
    hide IndexOf, Increasing, Chars;
    var l, r, ranks := pfx[..i], pfx[i + 1..], Ranks(syms, pfx);
    IncreasingRemove(ranks, i);
    assert Ranks(syms, l + r) == ranks[..i] + ranks[i + 1..];
    assert pfx == l + ([pfx[i]] + r);
    ConcatChars(l, [pfx[i]] + r);
    ConcatChars([pfx[i]], r);
    ConcatChars(l, r);
    OnlyThere(syms, pfx, i);
    OneChar(pfx[i]);
  }

  lemma OneChar(c: char)
    ensures Chars([c]) == {c}
  {
    assert c in [c];
  }

  /** No symbol of an ordered prefix occurs twice. */
  lemma {:induction false} OnlyThere(syms: string, pfx: string, i: nat)
    requires Ordered(syms, pfx) && i < |pfx|
    ensures pfx[i] !in Chars(pfx[..i]) && pfx[i] !in Chars(pfx[i + 1..])
  {
    hide IndexOf;
    var ranks := Ranks(syms, pfx);
    assert forall j | 0 <= j < |pfx| && j != i :: ranks[j] != ranks[i] && ranks[j] == Rank(syms, pfx[j]);
  }

  lemma {:induction false} InsertingKeepsOrder(syms: string, pfx: string, sym: char)
    requires Ordered(syms, pfx) && sym !in pfx && sym in syms
    ensures var p := InsertPos(syms, pfx, sym);
            Ordered(syms, pfx[..p] + [sym] + pfx[p..])
  {
    hide IndexOf, InsertPos, Increasing, Chars;
    var p, ranks := InsertPos(syms, pfx, sym), Ranks(syms, pfx);
    InsertPosSplits(syms, pfx, sym);
    IncreasingInsert(ranks, p, Rank(syms, sym));
    assert Ranks(syms, pfx[..p] + [sym] + pfx[p..]) == ranks[..p] + [Rank(syms, sym)] + ranks[p..];
    InsertingIsSetInsert(pfx, p, sym);
    InSet(syms, sym);
  }

  lemma InSet(syms: string, sym: char)
    requires sym in syms
    ensures sym in Chars(syms)
  {
  }

  /** The symbols in front of the insertion point are stronger, those behind it weaker. */
  lemma {:induction false} InsertPosSplits(syms: string, pfx: string, sym: char)
    requires Ordered(syms, pfx) && sym !in pfx && sym in syms
    ensures var (p, ranks) := (InsertPos(syms, pfx, sym), Ranks(syms, pfx));
            && |ranks| == |pfx|
            && (forall i | 0 <= i < p :: ranks[i] < Rank(syms, sym))
            && (forall i | p <= i < |ranks| :: Rank(syms, sym) < ranks[i])
  {
    var p, ranks := InsertPos(syms, pfx, sym), Ranks(syms, pfx);
    if p < |pfx| {
      assert pfx[p] in Chars(syms) && pfx[p] != sym;
      assert ranks[p] != Rank(syms, sym);
    }
  }

  lemma {:induction false} InsertingIsSetInsert(pfx: string, p: nat, sym: char)
    requires p <= |pfx|
    ensures Chars(pfx[..p] + [sym] + pfx[p..]) == Chars(pfx) + {sym}
  {
    assert pfx == pfx[..p] + pfx[p..];
    ConcatChars(pfx[..p] + [sym], pfx[p..]);
    ConcatChars(pfx[..p], [sym]);
    ConcatChars(pfx[..p], pfx[p..]);
  }

  /** An accepted change inserts into or removes from the set of symbols, a refused one changes
      nothing, and the prefix stays ordered and within its eight bytes. */
  lemma {:induction false} UpdatePfxIsSetUpdate(syms: string, pfx: string, sym: char, enab: bool)
    requires Ordered(syms, pfx) && |pfx| < MAX_MODEPFX && sym in syms
    ensures var (r, ok) := UpdatePfx(syms, pfx, sym, enab);
            && Ordered(syms, r) && |r| < MAX_MODEPFX
            && (ok <==> enab != (sym in pfx) && (enab ==> |pfx| < MAX_MODEPFX - 1))
            && (!ok ==> r == pfx)
            && (ok ==> Chars(r) == if enab then Chars(pfx) + {sym} else Chars(pfx) - {sym})
  {
    if sym in pfx {
      RemovingIsSetRemove(syms, pfx, IndexOf(pfx, sym));
    } else {
      InsertingKeepsOrder(syms, pfx, sym);
      InsertingIsSetInsert(pfx, InsertPos(syms, pfx, sym), sym);
    }
  }

  /** So the stored prefix is determined by the set of symbols the member holds. */
  lemma {:induction false} OrderedIsCanonical(syms: string, a: string, b: string)
    requires Ordered(syms, a) && Ordered(syms, b) && Chars(a) == Chars(b)
    ensures a == b
  {
    hide IndexOf;
    if a == [] || b == [] {
      assert forall x: string | x != [] :: x[0] in Chars(x);
    } else {
      HeadIsStrongest(syms, a, b);
      HeadIsStrongest(syms, b, a);
      RankInjective(syms, a[0], b[0]);
      RemovingIsSetRemove(syms, a, 0);
      RemovingIsSetRemove(syms, b, 0);
      assert a[..0] + a[1..] == a[1..] && b[..0] + b[1..] == b[1..];
      OrderedIsCanonical(syms, a[1..], b[1..]);
    }
  }

  lemma {:induction false} RankInjective(syms: string, a: char, b: char)
    requires a in syms && b in syms
    ensures Rank(syms, a) == Rank(syms, b) ==> a == b
  {
  }

  lemma {:induction false} HeadIsStrongest(syms: string, a: string, b: string)
    requires Ordered(syms, a) && a != [] && b != [] && Chars(a) == Chars(b)
    ensures Rank(syms, a[0]) <= Rank(syms, b[0]) && a[0] in syms
  {
    hide IndexOf;
    assert b[0] in Chars(b) && a[0] in Chars(a);
    var i :| 0 <= i < |a| && a[i] == b[0];
    assert i > 0 ==> Ranks(syms, a)[0] < Ranks(syms, a)[i];
  }

  /** The removing half of lsi_ucb_update_modepfx: everything behind the symbol moves down. */
  method RemoveSymbol(modepfx: array<char>, i: nat, ghost n: nat)
    requires i < n == IndexOf(modepfx[..], NUL) < modepfx.Length
    modifies modepfx
    ensures CStr(modepfx[..]) == old(modepfx[..i] + modepfx[i + 1..n])
  {
    hide IndexOf, CStr;
    ghost var was := modepfx[..];
    var p := i;
    modepfx[p] := NUL;
    p := p + 1;
    while modepfx[p] != NUL
      invariant i < p <= n
      invariant forall k | 0 <= k < i :: modepfx[k] == was[k]
      invariant forall k | i <= k < p - 1 :: modepfx[k] == was[k + 1]
      invariant modepfx[p - 1] == NUL
      invariant forall k | p <= k < modepfx.Length :: modepfx[k] == was[k]
      decreases n - p
    {
      modepfx[p - 1] := modepfx[p];
      modepfx[p] := NUL;
      p := p + 1;
    }
    assert p == n;
    CStrIs(modepfx[..], was[..i] + was[i + 1..n]);
  }

  /** The inserting half: the symbols from `p` on and the terminator move up, from the end. */
  method InsertSymbol(modepfx: array<char>, p: nat, n: nat, sym: char)
    requires p <= n == IndexOf(modepfx[..], NUL) < modepfx.Length - 1 && sym != NUL
    modifies modepfx
    ensures CStr(modepfx[..]) == old(modepfx[..p] + [sym] + modepfx[p..n])
  {
    ghost var was := modepfx[..];
    var o: int := n;
    while o >= p
      invariant p - 1 <= o <= n
      invariant forall k | 0 <= k <= o :: modepfx[k] == was[k]
      invariant forall k | o + 1 < k <= n + 1 :: modepfx[k] == was[k - 1]
    {
      modepfx[o + 1] := modepfx[o];
      o := o - 1;
    }
    modepfx[p] := sym;
    ghost var want := was[..p] + [sym] + was[p..n];
    forall j | 0 <= j < |want| ensures modepfx[j] == want[j] != NUL {
      assert j > p ==> want[j] == was[j - 1];
    }
    CStrIs(modepfx[..], want);
  }

  /** lsi_ucb_update_modepfx on the eight bytes of a member, shifting in place. */
  method UpdateModepfx(modepfx: array<char>, syms: string, sym: char, enab: bool) returns (ok: bool)
    requires modepfx.Length == MAX_MODEPFX && NUL in modepfx[..] && sym != NUL
    modifies modepfx
    ensures (CStr(modepfx[..]), ok) == UpdatePfx(syms, old(CStr(modepfx[..])), sym, enab)
  {
    var n := IndexOf(modepfx[..], NUL);
    ghost var s := CStr(modepfx[..]);
    var i := IndexOf(modepfx[..n], sym);
    assert modepfx[..n] == s;
    if enab == (i < n) {
      return false;
    }
    if !enab {
      assert modepfx[..i] == s[..i] && modepfx[i + 1..n] == s[i + 1..];
      RemoveSymbol(modepfx, i, n);
      return true;
    }
    if n + 1 >= MAX_MODEPFX {
      return false;
    }
    var p := 0;
    while modepfx[p] != NUL && Rank(syms, modepfx[p]) < Rank(syms, sym)
      invariant p <= n && p + InsertPos(syms, s[p..], sym) == InsertPos(syms, s, sym)
      decreases n - p
    {
      assert s[p..][1..] == s[p + 1..];
      p := p + 1;
    }
    assert modepfx[..p] == s[..p] && modepfx[p..n] == s[p..];
    InsertSymbol(modepfx, p, n, sym);
    return true;
  }

  // ---------- the channel-mode array ----------

  /** The `modes` array of a channel: allocated slots, each NULL or a mode string. */
  type ModeArray = seq<Option<string>>

  const INITIAL_MODES := 16

  function EmptyModes(sz: nat): ModeArray {
    seq(sz, _ => None)
  }

  /** lsi_ucb_add_chanmode */
  function AddMode(arr: ModeArray, str: string): ModeArray {
    var n := |Contents(arr)|;
    if n < |arr| then arr[n := Some(str)]
    else arr + [Some(str)] + (if |arr| > 0 then EmptyModes(|arr| - 1) else [])
  }

  /** Which entries `str` may take away: class A by the whole string, the others by their letter. */
  predicate Matches(cfg: Config, str: string, entry: Option<string>)
    requires str != []
  {
    entry.Some? && if Classify(cfg, str[0]) == A then entry.value == str
                   else entry.value != [] && entry.value[0] == str[0]
  }

  function FirstMatch(cfg: Config, arr: ModeArray, str: string): (i: nat)
    requires str != []
    ensures i <= |arr| && forall j | 0 <= j < i :: !Matches(cfg, str, arr[j])
    ensures i < |arr| ==> Matches(cfg, str, arr[i])
  {
    if arr == [] || Matches(cfg, str, arr[0]) then 0 else 1 + FirstMatch(cfg, arr[1..], str)
  }

  /** The highest slot in use, or 0. */
  function LastSlot(arr: ModeArray): (i: nat)
    ensures arr != [] ==> i < |arr| && (i > 0 ==> arr[i].Some?)
    ensures forall j | i < j < |arr| :: arr[j].None?
  {
    if |arr| <= 1 then 0
    else if arr[|arr| - 1].Some? then |arr| - 1
    else LastSlot(arr[..|arr| - 1])
  }

  /** lsi_ucb_drop_chanmode: the first match is overwritten by the last slot in use. */
  function DropMode(cfg: Config, arr: ModeArray, str: string): (ModeArray, bool)
    requires str != []
  {
    var i := FirstMatch(cfg, arr, str);
    if Classify(cfg, str[0]) == NoClass || i == |arr| then (arr, false)
    else
      var last := LastSlot(arr);
      (if last == i then arr[i := None] else arr[i := arr[last]][last := None], true)
  }

  /** Adding appends one string, doubling the array exactly when it was full. */
  lemma {:induction false} AddModeAppends(arr: ModeArray, str: string)
    requires Compact(arr)
    ensures Compact(AddMode(arr, str))
    ensures Contents(AddMode(arr, str)) == Contents(arr) + [str]
    ensures |AddMode(arr, str)| == if |Contents(arr)| == |arr| then 2 * |arr| else |arr|
  {
    ContentsIs(AddMode(arr, str), Contents(arr) + [str]);
  }

  lemma {:induction false} DropModeContents(cfg: Config, arr: ModeArray, str: string)
    requires Compact(arr) && str != [] && DropMode(cfg, arr, str).1
    ensures var (c, i, r) := (Contents(arr), FirstMatch(cfg, arr, str), DropMode(cfg, arr, str).0);
            i < |c| && Contents(r) == SwapOut(c, i) && Compact(r) && |r| == |arr|
  {
    hide Contents, LastSlot, FirstMatch, SwapOut, Classify;
    var c, i := Contents(arr), FirstMatch(cfg, arr, str);
    assert arr[i].Some?;
    assert i < |c|;
    assert arr[|c| - 1] == Some(c[|c| - 1]);
    assert LastSlot(arr) == |c| - 1;
    SwapOutSlots(arr, i);
    assert i == |c| - 1 ==> arr[i := arr[i]][i := None] == arr[i := None];
  }

  /** Dropping takes exactly one matching string out of the array, and nothing where none matches. */
  lemma {:induction false} DropModeRemovesOne(cfg: Config, arr: ModeArray, str: string)
    requires Compact(arr) && str != []
    ensures var (r, ok) := DropMode(cfg, arr, str);
            && Compact(r) && |r| == |arr|
            && (ok <==> Classify(cfg, str[0]) != NoClass
                        && exists e | e in Contents(arr) :: Matches(cfg, str, Some(e)))
            && (!ok ==> r == arr)
            && (ok ==> exists e | e in Contents(arr) && Matches(cfg, str, Some(e)) ::
                  multiset(Contents(arr)) == multiset(Contents(r)) + multiset{e})
  {
    var c, i := Contents(arr), FirstMatch(cfg, arr, str);
    if DropMode(cfg, arr, str).1 {
      DropModeContents(cfg, arr, str);
      SwapOutRemovesOne(c, i);
      assert c[i] in c && Matches(cfg, str, Some(c[i]));
    } else {
      forall e | e in c && Matches(cfg, str, Some(e)) ensures Classify(cfg, str[0]) == NoClass {
        var j :| 0 <= j < |c| && c[j] == e;
        assert Matches(cfg, str, arr[j]);
      }
    }
  }

  method ClearChanmodes(modes: ModeArray) returns (r: ModeArray)
    ensures r == EmptyModes(|modes|)
  {
    r := modes;
    for i := 0 to |modes|
      invariant |r| == |modes| && forall j | 0 <= j < i :: r[j].None?
    {
      r := r[i := None];
    }
  }

  method AddChanmode(modes: ModeArray, modestr: string) returns (r: ModeArray)
    requires |modes| > 0
    ensures r == AddMode(modes, modestr)
  {
    var ind := 0;
    hide Contents;
    while ind < |modes| && modes[ind].Some?
      invariant ind <= |Contents(modes)|
    {
      ind := ind + 1;
    }
    r := modes;
    if ind == |modes| {
      var nsz := |modes| * 2;
      var nmodes := EmptyModes(nsz);
      for i := 0 to |modes|
        invariant |nmodes| == nsz && nmodes[..i] == modes[..i]
        invariant forall j | i <= j < nsz :: nmodes[j].None?
      {
        nmodes := nmodes[i := modes[i]];
      }
      r := nmodes;
    }
    r := r[ind := Some(modestr)];
  }

  method DropChanmode(cfg: Config, modes: ModeArray, modestr: string) returns (r: ModeArray, ok: bool)
    requires |modes| > 0 && modestr != []
    ensures (r, ok) == DropMode(cfg, modes, modestr)
  {
    var i := 0;
    match Classify(cfg, modestr[0]) {
    case A =>
      while i < |modes| && modes[i] != Some(modestr)
        invariant i <= FirstMatch(cfg, modes, modestr)
      {
        i := i + 1;
      }
    case B | C | D =>
      while i < |modes| && !(modes[i].Some? && modes[i].value != [] && modes[i].value[0] == modestr[0])
        invariant i <= FirstMatch(cfg, modes, modestr)
      {
        i := i + 1;
      }
    case NoClass =>
      return modes, false;
    }
    if i == |modes| {
      return modes, false;
    }
    var last := |modes| - 1;
    while last > 0 && modes[last].None?
      invariant 0 <= last < |modes| && LastSlot(modes) <= last
      invariant forall j | last < j < |modes| :: modes[j].None?
    {
      last := last - 1;
    }
    if last == i {
      r := modes[i := None];
    } else {
      r := modes[i := modes[last]][last := None];
    }
    ok := true;
  }

  // ---------- the PREFIX lists of 005 ----------

  const MAX_005_MDPFX := 32

  /** handle_005_PREFIX: the new letter and symbol lists, or None where the message is refused. */
  function ParsePrefix(val: string): (r: Option<(string, string)>)
  {
    if val == [] then None
    else
      var str := Trunc(val[1..], MAX_005_MDPFX);
      var p := IndexOf(str, ')');
      if p == |str| then None
      else if p == 0 || p != |str| - (p + 1) then None
      else Some((Trunc(str[..p], MAX_005_MDPFX), Trunc(str[p + 1..], MAX_005_MDPFX)))
  }

  /** Accepted lists have equal, positive length, so the index of a letter is an index of a
      symbol; and exactly the texts "?letters)symbols" of two equally long lists that fit
      the 31 characters are taken over whole. */
  lemma {:induction false} ParsePrefixPairs(val: string, letters: string, syms: string)
    requires ')' !in letters
    ensures ParsePrefix(val).Some? ==>
              var (l, s) := ParsePrefix(val).value; |l| == |s| > 0 && ')' !in l
    ensures val != [] && val[1..] == letters + ")" + syms && |val| <= MAX_005_MDPFX ==>
              (ParsePrefix(val) == Some((letters, syms)) <==> |letters| == |syms| > 0)
  {
    if val != [] && val[1..] == letters + ")" + syms && |val| <= MAX_005_MDPFX {
      var str := val[1..];
      assert str[|letters|] == ')';
      var p := IndexOf(str, ')');
      IndexOfIs(str, ')', |letters|);
      assert str[..p] == letters && str[p + 1..] == syms;
    }
  }
}
