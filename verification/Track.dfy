// The tracking handlers of irc_track.c, driving the base in place.
module Track {
  import opened CStrings
  import opened CaseMap
  import opened Message
  import opened Modes
  import opened Tracking
  import opened TrackingLemmas
  import opened Handlers
  import opened HandlerLemmas
  import opened UcBase
  import Grades

  /** What every handler finds: a consistent base with ordered prefixes and NUL-free symbols. */
  ghost predicate Ready(cfg: Config, s: State) {
    Inv(cfg, s) && Grades.Graded(cfg, s) && NUL !in cfg.syms
  }

  /** A handler did what the transition function says, wherever that is defined. */
  ghost predicate Did(before: (State, Outcome), t: State, r: Outcome) {
    r == before.1 && (r != Undefined ==> t == before.0)
  }

  method HandleJoin(ctx: Base, msg: Msg) returns (r: Outcome)
    requires Ready(ctx.cfg, ctx.View()) && CommandOf(msg.cmd) == JOIN
    modifies ctx
    ensures Did(Step(ctx.cfg, old(ctx.View()), msg), ctx.View(), r)
  {
    LiveOf(ctx.cfg, ctx.View());
    hide Canon, Ident2Nick, Trunc, IEq, CommandOf, Ready, Live;
    if msg.prefix.None? || |msg.args| < 1 {
      return ProtoErr;
    }
    var nick := Ident2Nick(msg.prefix.value, MAX_NICK_LEN);
    var cmp := IStrCmp(ctx.cfg.cm, nick, ctx.mynick);
    var ck := ctx.cfg.Key(msg.args[0]);
    if cmp == 0 {
      if ck !in ctx.chans {
        ctx.AddChan(msg.args[0]);
      }
    } else {
      if ck !in ctx.chans {
        return Done;
      }
      GetAndEnroll(ctx, ck, msg.prefix.value, "");
    }
    return Done;
  }

  /** Look the user up, adding it where it is unknown, and add it to the channel. */
  method GetAndEnroll(ctx: Base, ck: Key, ident: string, mpfx: string)
    requires Live(ctx.View()) && ck in ctx.chans
    modifies ctx
    ensures ctx.View() == Enroll(ctx.cfg, old(ctx.View()), ck, ident, mpfx)
  {
    hide Canon, Ident2Nick, Trunc;
    var k := ctx.cfg.Key(ident);
    var u;
    if k in ctx.users {
      u := ctx.users[k];
    } else {
      u := ctx.AddUser(ident);
    }
    ctx.AddMemb(ck, u, mpfx);
  }

  /** The common end of h_PART and h_KICK. */
  method LeaveChan(ctx: Base, me: bool, ident: string, name: string)
    requires Inv(ctx.cfg, ctx.View())
    modifies ctx
    ensures ctx.View() == Leave(ctx.cfg, old(ctx.View()), me, ident, name)
  {
    hide Canon;
    var ck, k := ctx.cfg.Key(name), ctx.cfg.Key(ident);
    if ck !in ctx.chans {
      return;
    }
    if me {
      var _ := ctx.DropChan(ck);
    } else if k in ctx.users {
      var u := ctx.users[k];
      MemberIsLive(ctx.cfg, ctx.View(), ck, k);
      var _ := ctx.DropMemb(ck, u, true);
    }
  }

  lemma {:induction false} MemberIsLive(cfg: Config, s: State, ck: Key, k: Key)
    requires Inv(cfg, s) && ck in s.chans
    ensures k in s.chans[ck].memb ==> var p := s.chans[ck].memb[k].u; p in s.mem && s.mem[p].nchans >= 1
  {
    hide Canon, Excess;
    if k in s.chans[ck].memb {
      assert s.chans[ck].memb[k].u == s.users[k];
    }
  }

  method HandlePart(ctx: Base, msg: Msg) returns (r: Outcome)
    requires Ready(ctx.cfg, ctx.View()) && CommandOf(msg.cmd) == PART
    modifies ctx
    ensures Did(Step(ctx.cfg, old(ctx.View()), msg), ctx.View(), r)
  {
    LiveOf(ctx.cfg, ctx.View());
    hide Canon, Ident2Nick, IEq, CommandOf, Inv, Live, Leave;
    if msg.prefix.None? || |msg.args| < 1 {
      return ProtoErr;
    }
    var nick := Ident2Nick(msg.prefix.value, MAX_NICK_LEN);
    var cmp := IStrCmp(ctx.cfg.cm, nick, ctx.mynick);
    LeaveChan(ctx, cmp == 0, msg.prefix.value, msg.args[0]);
    return Done;
  }

  method HandleKick(ctx: Base, msg: Msg) returns (r: Outcome)
    requires Ready(ctx.cfg, ctx.View()) && CommandOf(msg.cmd) == KICK
    modifies ctx
    ensures Did(Step(ctx.cfg, old(ctx.View()), msg), ctx.View(), r)
  {
    LiveOf(ctx.cfg, ctx.View());
    hide Canon, IEq, CommandOf, Inv, Live, Leave;
    if msg.prefix.None? || |msg.args| < 2 {
      return ProtoErr;
    }
    var cmp := IStrCmp(ctx.cfg.cm, msg.args[1], ctx.mynick);
    LeaveChan(ctx, cmp == 0, msg.args[1], msg.args[0]);
    return Done;
  }

  method HandleQuit(ctx: Base, msg: Msg) returns (r: Outcome)
    requires Ready(ctx.cfg, ctx.View()) && CommandOf(msg.cmd) == QUIT
    modifies ctx
    ensures Did(Step(ctx.cfg, old(ctx.View()), msg), ctx.View(), r)
  {
    LiveOf(ctx.cfg, ctx.View());
    hide Canon, CommandOf, NoLeak, ChansFiled, Linked, Covered;
    if msg.prefix.None? {
      return ProtoErr;
    }
    var k := ctx.cfg.Key(msg.prefix.value);
    if k in ctx.users {
      var _ := ctx.DropUser(ctx.users[k]);
    }
    return Done;
  }

  /** handle_NICK for our own nick, then h_NICK for the base. */
  method HandleNick(ctx: Base, msg: Msg) returns (r: Outcome)
    requires Ready(ctx.cfg, ctx.View()) && CommandOf(msg.cmd) == NICK
    modifies ctx
    ensures Did(Step(ctx.cfg, old(ctx.View()), msg), ctx.View(), r)
  {
    hide Canon, Ident2Nick, Trunc, IEq, CommandOf, Inv, Rename;
    LiveOf(ctx.cfg, ctx.View());
    if msg.prefix.None? || |msg.args| < 1 {
      return ProtoErr;
    }
    var nick := Ident2Nick(msg.prefix.value, 2 * MAX_NICK_LEN);
    var cmp := IStrCmp(ctx.cfg.cm, nick, ctx.mynick);
    if cmp == 0 {
      ctx.mynick := Trunc(msg.args[0], MAX_NICK_LEN);
    }
    RenameFlag(ctx.cfg, old(ctx.View()), msg.prefix.value, msg.args[0], ctx.mynick);
    var _ := ctx.RenameUser(msg.prefix.value, msg.args[0]);
    return Done;
  }

  lemma RenameFlag(cfg: Config, s: State, ident: string, newnick: string, mynick: string)
    requires Live(s)
    ensures Rename(cfg, s.(mynick := mynick), ident, newnick) == Rename(cfg, s, ident, newnick).(mynick := mynick)
  {
    hide Canon, Ident2Nick, Trunc, IEq;
  }

  lemma {:induction false} EnrollAllSnoc(cfg: Config, s: State, ck: Key, names: seq<NameEntry>, e: NameEntry)
    requires Live(s) && ck in s.chans
    ensures EnrollAll(cfg, s, ck, names + [e]) == Enroll(cfg, EnrollAll(cfg, s, ck, names), ck, e.nick, e.pfx)
    decreases |names|
  {
    hide Canon, Enroll;
    if names == [] {
      assert (names + [e])[1..] == [];
    } else {
      EnrollAllSnoc(cfg, Enroll(cfg, s, ck, names[0].nick, names[0].pfx), ck, names[1..], e);
      assert (names + [e])[1..] == names[1..] + [e];
    }
  }

  /** The entries found so far and those still ahead of the cursor. */
  ghost predicate Ahead(syms: string, list: string, p: nat, done: seq<NameEntry>)
    requires p <= |list|
  {
    NameEntries(syms, list) == Prefixed(done, NameEntries(syms, list[p..]))
  }

  method HandleNames(ctx: Base, msg: Msg) returns (r: Outcome)
    requires Ready(ctx.cfg, ctx.View()) && CommandOf(msg.cmd) == N353
    modifies ctx
    ensures Did(Step(ctx.cfg, old(ctx.View()), msg), ctx.View(), r)
  {
    LiveOf(ctx.cfg, ctx.View());
    hide Canon, CommandOf, Inv, Live, Names;
    if msg.prefix.None? || |msg.args| < 4 {
      return ProtoErr;
    }
    r := AddNames(ctx, msg.args[2], msg.args[3]);
  }

  method AddNames(ctx: Base, name: string, list: string) returns (r: Outcome)
    requires Inv(ctx.cfg, ctx.View()) && Live(ctx.View())
    modifies ctx
    ensures Did(Names(ctx.cfg, old(ctx.View()), name, list), ctx.View(), r)
  {
    hide Canon, Ident2Nick, Inv, Live, Enroll, EnrollAll, NameEntries;
    var ck := ctx.cfg.Key(name);
    if ck !in ctx.chans {
      return Done;
    }
    ghost var s := ctx.View();
    StartNamesKeeps(ctx.cfg, s, ck);
    LiveOf(ctx.cfg, StartNames(s, ck));
    if ctx.endofnames {
      ctx.ClearMemb(ck);
      ctx.endofnames := false;
    }
    ghost var t := ctx.View();
    assert t == StartNames(s, ck);
    r := EnrollNames(ctx, ck, list);
  }

  /** One entry: the optional symbol under the cursor, then the nick up to a space or the end. */
  method ScanName(syms: string, list: string, from: nat) returns (p: nat, end: nat, e: NameEntry)
    requires from < |list|
    ensures EntryAt(syms, list, from, p, end, e)
  {
    p := from;
    var mpfx := "";
    if list[p] in syms {
      mpfx := [list[p]];
      p := p + 1;
    }
    end := p + IndexOf(list[p..], ' ');
    e := NameEntry(Trunc(list[p..end], MAX_NICK_LEN), mpfx);
  }

  /** The cursor loop of h_353. */
  method EnrollNames(ctx: Base, ck: Key, list: string) returns (r: Outcome)
    requires Live(ctx.View()) && ck in ctx.chans
    modifies ctx
    ensures r == if NameEntries(ctx.cfg.syms, list).Some? then Done else Undefined
    ensures r == Done ==>
      ctx.View() == EnrollAll(ctx.cfg, old(ctx.View()), ck, NameEntries(ctx.cfg.syms, list).value)
  {
    ghost var s := ctx.View();
    ghost var done: seq<NameEntry> := [];
    var p := 0;
    hide Canon, Ident2Nick, Enroll, Live, NameEntries;
    assert list[0..] == list;
    PrefixedNone(NameEntries(ctx.cfg.syms, list));
    hide Ahead, EntryAt, IndexOf, Trunc, Prefixed;
    while true
      invariant p <= |list| && Ahead(ctx.cfg.syms, list, p, done)
      invariant Live(ctx.View()) && ck in ctx.chans && ctx.View() == EnrollAll(ctx.cfg, s, ck, done)
      decreases |list| - p
    {
      if p == |list| {
        NamesOver(ctx.cfg.syms, list, done);
        return Undefined;
      }
      var q, end, e := ScanName(ctx.cfg.syms, list, p);
      NamesAhead(ctx.cfg.syms, list, p, q, end, e, done);
      EnrollAllSnoc(ctx.cfg, s, ck, done, e);
      GetAndEnroll(ctx, ck, e.nick, e.pfx);
      done := done + [e];
      EntryFits(ctx.cfg.syms, list, p, q, end, e);
      if end == |list| {
        return Done;
      }
      p := end + 1;
    }
  }

  lemma {:induction false} NamesOver(syms: string, list: string, done: seq<NameEntry>)
    requires Ahead(syms, list, |list|, done)
    ensures NameEntries(syms, list).None?
  {
  }

  /** The cursor's reading of the entry at `from`. */
  ghost predicate EntryAt(syms: string, list: string, from: nat, p: nat, end: nat, e: NameEntry) {
    && from < |list| && p == (if list[from] in syms then from + 1 else from) && p <= end <= |list|
    && end == p + IndexOf(list[p..], ' ')
    && e == NameEntry(Trunc(list[p..end], MAX_NICK_LEN), list[from..p])
  }

  lemma {:induction false} EntryFits(syms: string, list: string, from: nat, p: nat, end: nat, e: NameEntry)
    requires EntryAt(syms, list, from, p, end, e)
    ensures from <= end <= |list|
  {
  }

  lemma {:induction false} EntryIsFirst(syms: string, list: string, from: nat, p: nat, end: nat, e: NameEntry)
    requires EntryAt(syms, list, from, p, end, e)
    ensures FirstName(syms, list[from..]) == (e, end - from)
  {
    hide IndexOf, Trunc, FirstName;
    DropTwice(list, from, p);
    SliceTwice(list, from, p, end);
    SliceTwice(list, from, from, p);
    FirstNameIs(syms, list[from..], p - from, list[p..]);
  }

  lemma FirstNameIs(syms: string, l: string, k: nat, rest: string)
    requires l != [] && k == (if l[0] in syms then 1 else 0) && rest == l[k..]
    ensures var end := k + IndexOf(rest, ' ');
            end <= |l| && FirstName(syms, l) == (NameEntry(Trunc(l[k..end], MAX_NICK_LEN), l[..k]), end)
  {
    hide IndexOf, Trunc;
  }

  lemma DropTwice(s: string, a: nat, b: nat)
    requires a <= b <= |s|
    ensures s[a..][b - a..] == s[b..]
  {
  }

  lemma SliceTwice(s: string, a: nat, b: nat, c: nat)
    requires a <= b <= c <= |s|
    ensures s[a..][b - a..c - a] == s[b..c]
  {
  }

  /** One turn of that loop, on the list. */
  lemma {:induction false} NamesAhead(syms: string, list: string, from: nat, p: nat, end: nat, e: NameEntry,
                                      done: seq<NameEntry>)
    requires EntryAt(syms, list, from, p, end, e) && Ahead(syms, list, from, done)
    ensures if end == |list| then NameEntries(syms, list) == Some(done + [e])
            else Ahead(syms, list, end + 1, done + [e])
  {
    EntryIsFirst(syms, list, from, p, end, e);
    NameEntriesUnroll(syms, list[from..]);
    hide FirstName, IndexOf, Trunc, NameEntries;
    if end < |list| {
      assert list[from..][end - from + 1..] == list[end + 1..];
      PrefixedTwice(done, [e], NameEntries(syms, list[end + 1..]));
    }
  }

  lemma {:induction false} NameEntriesUnroll(syms: string, p: string)
    requires p != []
    ensures var (e, end) := FirstName(syms, p);
            NameEntries(syms, p) ==
            if end == |p| then Some([e]) else Prefixed([e], NameEntries(syms, p[end + 1..]))
  {
    hide FirstName;
  }

  lemma {:induction false} PrefixedNone(r: Option<seq<NameEntry>>)
    ensures Prefixed([], r) == r
  {
    if r.Some? {
      assert [] + r.value == r.value;
    }
  }

  lemma {:induction false} PrefixedTwice(a: seq<NameEntry>, b: seq<NameEntry>, c: Option<seq<NameEntry>>)
    ensures Prefixed(a, Prefixed(b, c)) == Prefixed(a + b, c)
  {
    if c.Some? {
      assert a + (b + c.value) == a + b + c.value;
    }
  }

  // ---------- modes ----------

  lemma {:induction false} PrefixBytes(cfg: Config, c: Chan)
    requires Grades.ChanGraded(cfg, c) && NUL !in cfg.syms
    ensures forall k | k in c.memb :: |c.memb[k].modepfx| < MAX_MODEPFX && NUL !in c.memb[k].modepfx
    ensures |c.modes| > 0
  {
    forall k | k in c.memb ensures NUL !in c.memb[k].modepfx {
      assert Grades.PfxOk(cfg, c.memb[k].modepfx);
      assert NUL !in Chars(cfg.syms);
    }
  }

  lemma {:induction false} ApplyChangesSnoc(cfg: Config, c: Chan, chs: seq<Change>, i: nat)
    requires i < |chs| && forall j | 0 <= j <= i :: Applies(cfg, chs[j])
    ensures ApplyChanges(cfg, c, chs[..i + 1]) == ApplyChange(cfg, ApplyChanges(cfg, c, chs[..i]), chs[i])
  {
    hide Applies, ApplyChange;
    assert chs[..i + 1][..i] == chs[..i];
  }

  /** One entry of the dissected mode string. */
  method ApplyOne(ctx: Base, ck: Key, ch: Change)
    requires ck in ctx.chans && Applies(ctx.cfg, ch)
    requires Grades.ChanGraded(ctx.cfg, ctx.chans[ck]) && NUL !in ctx.cfg.syms
    modifies ctx`chans
    ensures ctx.chans == old(ctx.chans)[ck := ApplyChange(ctx.cfg, old(ctx.chans[ck]), ch)]
  {
    PrefixBytes(ctx.cfg, ctx.chans[ck]);
    hide Canon, IndexOf, AddMode, DropMode, UpdatePfx;
    var cfg := ctx.cfg;
    var i := IndexOf(cfg.letters, ch.letter);
    if ch.letter in cfg.letters {
      var sym := cfg.syms[i];
      var _ := ctx.UpdateModepfx(ck, ch.arg.value, sym, ch.enab);
    } else {
      var c := ctx.chans[ck];
      var modes := ChangeModeArray(cfg, c.modes, ch);
      ctx.chans := ctx.chans[ck := c.(modes := modes)];
    }
  }

  method ChangeModeArray(cfg: Config, modes: ModeArray, ch: Change) returns (r: ModeArray)
    requires |modes| > 0
    ensures r == ChangeModes(cfg, modes, ch)
  {
    if ch.enab {
      r := AddChanmode(modes, ch.ModeStr());
    } else {
      var ok;
      r, ok := DropChanmode(cfg, modes, ch.ModeStr());
    }
  }

  /** The loop of h_MODE_chanmode over the dissected modes. */
  method ApplyModes(ctx: Base, ck: Key, p: array<Option<Change>>, num: nat, ghost chs: seq<Change>) returns (r: Outcome)
    requires num == |chs| <= p.Length && forall i | 0 <= i < num :: p[i] == Some(chs[i])
    requires ck in ctx.chans && Grades.ChanGraded(ctx.cfg, ctx.chans[ck]) && NUL !in ctx.cfg.syms
    modifies ctx`chans
    ensures r == if forall i | 0 <= i < num :: Applies(ctx.cfg, chs[i]) then Done else Undefined
    ensures r == Done ==> ctx.chans == old(ctx.chans)[ck := ApplyChanges(ctx.cfg, old(ctx.chans[ck]), chs)]
  {
    hide Applies, Grades.ChanGraded, ApplyChange;
    ghost var c := ctx.chans[ck];
    var i := 0;
    while i < num
      invariant i <= num && forall j | 0 <= j < i :: Applies(ctx.cfg, chs[j])
      invariant ctx.chans == old(ctx.chans)[ck := ApplyChanges(ctx.cfg, c, chs[..i])]
    {
      var ch := p[i].value;
      if !Applies(ctx.cfg, ch) {
        return Undefined;
      }
      Grades.ApplyChangesGraded(ctx.cfg, c, chs[..i]);
      ApplyChangesSnoc(ctx.cfg, c, chs, i);
      ApplyOne(ctx, ck, ch);
      i := i + 1;
    }
    assert chs[..num] == chs;
    return Done;
  }

  method HandleMode(ctx: Base, msg: Msg) returns (r: Outcome)
    requires Ready(ctx.cfg, ctx.View()) && CommandOf(msg.cmd) == MODE
    modifies ctx
    ensures Did(Step(ctx.cfg, old(ctx.View()), msg), ctx.View(), r)
  {
    LiveOf(ctx.cfg, ctx.View());
    hide Canon, CommandOf, Inv, Live, Changes, Applies, ApplyChanges, Grades.ChanGraded;
    if msg.prefix.None? || |msg.args| < 2 {
      return ProtoErr;
    }
    if !IsChannel(ctx.cfg, msg.args[0]) {
      return Done;
    }
    var ck := ctx.cfg.Key(msg.args[0]);
    if ck !in ctx.chans {
      return Done;
    }
    var p, num := ParseMode(ctx.cfg, msg, false);
    ghost var chs := Changes(ctx.cfg, msg.args[1], true, msg.args[2..]);
    r := ApplyModes(ctx, ck, p, num, chs);
  }

  lemma {:induction false} FoldModesSnoc(cfg: Config, modes: ModeArray, chs: seq<Change>, i: nat)
    requires i < |chs|
    ensures FoldModes(cfg, modes, chs[..i + 1]) == ChangeModes(cfg, FoldModes(cfg, modes, chs[..i]), chs[i])
  {
    hide ChangeModes;
    assert chs[..i + 1][..i] == chs[..i];
  }

  method Handle324(ctx: Base, msg: Msg) returns (r: Outcome)
    requires Ready(ctx.cfg, ctx.View()) && CommandOf(msg.cmd) == N324
    modifies ctx
    ensures Did(Step(ctx.cfg, old(ctx.View()), msg), ctx.View(), r)
  {
    LiveOf(ctx.cfg, ctx.View());
    if msg.prefix.None? || |msg.args| < 3 {
      return ProtoErr;
    }
    var ck := ctx.cfg.Key(msg.args[1]);
    if ck !in ctx.chans {
      return Done;
    }
    var p, num := ParseMode(ctx.cfg, msg, true);
    ghost var chs := Changes(ctx.cfg, msg.args[2], true, msg.args[3..]);
    var c := ctx.chans[ck];
    var modes := ClearChanmodes(c.modes);
    modes := AddAll(ctx.cfg, modes, p, num, chs);
    hide Canon, CommandOf, Inv, Changes, FoldModes, ChangeModes;
    ctx.chans := ctx.chans[ck := c.(modes := modes)];
    return Done;
  }

  /** The loop of h_324 over the dissected modes. */
  method AddAll(cfg: Config, start: ModeArray, p: array<Option<Change>>, num: nat, ghost chs: seq<Change>)
    returns (modes: ModeArray)
    requires num == |chs| <= p.Length && forall i | 0 <= i < num :: p[i] == Some(chs[i])
    requires |start| > 0 && start == EmptyModes(|start|)
    ensures modes == FoldModes(cfg, start, chs)
  {
    hide ChangeModes, FoldModes;
    modes := start;
    var i := 0;
    FoldModesNone(cfg, start);
    while i < num
      invariant i <= num && modes == FoldModes(cfg, start, chs[..i])
    {
      Grades.EmptyIsCompact(|start|);
      Grades.FoldModesCompact(cfg, start, chs[..i]);
      FoldModesSnoc(cfg, start, chs, i);
      modes := ChangeModeArray(cfg, modes, p[i].value);
      i := i + 1;
    }
    assert chs[..num] == chs;
  }

  lemma {:induction false} FoldModesNone(cfg: Config, modes: ModeArray)
    ensures FoldModes(cfg, modes, []) == modes
  {
  }

  method Handle366(ctx: Base, msg: Msg) returns (r: Outcome)
    requires Ready(ctx.cfg, ctx.View()) && CommandOf(msg.cmd) == N366
    modifies ctx
    ensures Did(Step(ctx.cfg, old(ctx.View()), msg), ctx.View(), r)
  {
    LiveOf(ctx.cfg, ctx.View());
    hide CommandOf, Inv, Live;
    if msg.prefix.None? || |msg.args| < 2 {
      return ProtoErr;
    }
    ctx.endofnames := true;
    return Done;
  }

  /** lsi_msg_handle, as far as the tracking handlers go: an admissible message leaves the base
      ready for the next one and in the state of the transition function. */
  method Handle(ctx: Base, msg: Msg) returns (r: Outcome)
    requires Ready(ctx.cfg, ctx.View()) && (msg.prefix.Some? ==> NUL !in msg.prefix.value)
    modifies ctx
    ensures Did(Step(ctx.cfg, old(ctx.View()), msg), ctx.View(), r)
    ensures MsgOk(ctx.cfg, old(ctx.View()), msg) <==> r != Undefined && Inv(ctx.cfg, ctx.View())
    ensures MsgOk(ctx.cfg, old(ctx.View()), msg) ==> Ready(ctx.cfg, ctx.View())
  {
    StepKeepsIff(ctx.cfg, ctx.View(), msg);
    Grades.StepGraded(ctx.cfg, ctx.View(), msg);
    hide Inv, Exact, MsgOk, NoReadd, Grades.Graded;
    match CommandOf(msg.cmd) {
      case JOIN => r := HandleJoin(ctx, msg);
      case PART => r := HandlePart(ctx, msg);
      case QUIT => r := HandleQuit(ctx, msg);
      case KICK => r := HandleKick(ctx, msg);
      case NICK => r := HandleNick(ctx, msg);
      case N353 => r := HandleNames(ctx, msg);
      case N366 => r := Handle366(ctx, msg);
      case MODE => r := HandleMode(ctx, msg);
      case N324 => r := Handle324(ctx, msg);
      case Other => r := Done;
    }
    hide Step;
  }
}
