// In every reachable state each member's mode prefix is ordered and each
// channel's mode array compact; and what a rename moves.
module Grades {
  import opened CStrings
  import opened Slots
  import opened CaseMap
  import opened Message
  import opened Modes
  import opened Tracking
  import opened Handlers

  ghost predicate PfxOk(cfg: Config, pfx: string) {
    Ordered(cfg.syms, pfx) && |pfx| < MAX_MODEPFX
  }

  ghost predicate ChanGraded(cfg: Config, c: Chan) {
    Compact(c.modes) && forall k | k in c.memb :: PfxOk(cfg, c.memb[k].modepfx)
  }

  /** Every member's prefix is strongest first, duplicate-free and at most seven symbols of the
      PREFIX list, and every mode array is compact. */
  ghost predicate Graded(cfg: Config, s: State) {
    forall ck | ck in s.chans :: ChanGraded(cfg, s.chans[ck])
  }

  lemma {:induction false} ShortPfxOk(cfg: Config, pfx: string)
    requires pfx == [] || (|pfx| == 1 && pfx[0] in cfg.syms)
    ensures PfxOk(cfg, pfx)
  {
  }

  lemma {:induction false} EmptyIsCompact(sz: nat)
    requires sz > 0
    ensures Compact(EmptyModes(sz)) && Contents(EmptyModes(sz)) == []
  {
  }

  lemma {:induction false} EnrollGraded(cfg: Config, s: State, ck: Key, ident: string, pfx: string)
    requires Graded(cfg, s) && Live(s) && ck in s.chans
    requires pfx == [] || (|pfx| == 1 && pfx[0] in cfg.syms)
    ensures Graded(cfg, Enroll(cfg, s, ck, ident, pfx))
  {
    hide Canon, Ident2Nick, Trunc, PfxOk, Compact;
    ShortPfxOk(cfg, pfx);
    assert Trunc(pfx, MAX_MODEPFX) == pfx;
    var t := Enroll(cfg, s, ck, ident, pfx);
    assert forall dk | dk in t.chans && dk != ck :: t.chans[dk] == s.chans[dk];
  }

  lemma NameEntriesMarked(syms: string, list: string)
    ensures var names := NameEntries(syms, list);
            names.Some? ==> forall e | e in names.value :: e.pfx == [] || (|e.pfx| == 1 && e.pfx[0] in syms)
    decreases |list|
  {
  }

  lemma {:induction false} EnrollAllGraded(cfg: Config, s: State, ck: Key, names: seq<NameEntry>)
    requires Graded(cfg, s) && Live(s) && ck in s.chans
    requires forall e | e in names :: e.pfx == [] || (|e.pfx| == 1 && e.pfx[0] in cfg.syms)
    ensures Graded(cfg, EnrollAll(cfg, s, ck, names))
    decreases |names|
  {
    hide Canon, Ident2Nick, Trunc, Graded, Enroll;
    if names != [] {
      assert names[0] in names;
      EnrollGraded(cfg, s, ck, names[0].nick, names[0].pfx);
      EnrollAllGraded(cfg, Enroll(cfg, s, ck, names[0].nick, names[0].pfx), ck, names[1..]);
    }
  }

  lemma {:induction false} ChangeModesCompact(cfg: Config, modes: ModeArray, ch: Change)
    requires Compact(modes)
    ensures Compact(ChangeModes(cfg, modes, ch))
  {
    AddModeAppends(modes, ch.ModeStr());
    DropModeRemovesOne(cfg, modes, ch.ModeStr());
  }

  lemma {:induction false} FoldModesCompact(cfg: Config, modes: ModeArray, chs: seq<Change>)
    requires Compact(modes)
    ensures Compact(FoldModes(cfg, modes, chs))
    decreases |chs|
  {
    if chs != [] {
      FoldModesCompact(cfg, modes, chs[..|chs| - 1]);
      ChangeModesCompact(cfg, FoldModes(cfg, modes, chs[..|chs| - 1]), chs[|chs| - 1]);
    }
  }

  lemma {:induction false} ApplyChangesGraded(cfg: Config, c: Chan, chs: seq<Change>)
    requires ChanGraded(cfg, c) && forall i | 0 <= i < |chs| :: Applies(cfg, chs[i])
    ensures ChanGraded(cfg, ApplyChanges(cfg, c, chs))
    decreases |chs|
  {
    if chs != [] {
      var d, ch := ApplyChanges(cfg, c, chs[..|chs| - 1]), chs[|chs| - 1];
      ApplyChangesGraded(cfg, c, chs[..|chs| - 1]);
      assert Applies(cfg, ch);
      ApplyChangeGraded(cfg, d, ch);
    }
  }

  lemma {:induction false} ApplyChangeGraded(cfg: Config, c: Chan, ch: Change)
    requires ChanGraded(cfg, c) && Applies(cfg, ch)
    ensures ChanGraded(cfg, ApplyChange(cfg, c, ch))
  {
    ChangeModesCompact(cfg, c.modes, ch);
    var i := IndexOf(cfg.letters, ch.letter);
    if i < |cfg.letters| && cfg.Key(ch.arg.value) in c.memb {
      UpdatePfxIsSetUpdate(cfg.syms, c.memb[cfg.Key(ch.arg.value)].modepfx, cfg.syms[i], ch.enab);
    }
    hide Canon, Compact, UpdatePfx, Ordered, ChangeModes, IndexOf;
  }

  lemma {:induction false} ChansGraded(cfg: Config, s: State, ck: Key, c: Chan)
    requires Graded(cfg, s) && ChanGraded(cfg, c)
    ensures Graded(cfg, s.(chans := s.chans[ck := c]))
  {
  }

  lemma {:induction false} DropGraded(cfg: Config, s: State, ck: Key, k: Key)
    requires Graded(cfg, s) && ck in s.chans
    ensures Graded(cfg, DropChan(s, ck)) && Graded(cfg, ClearMemb(s, ck)) && Graded(cfg, DropMemb(s, ck, k))
  {
    hide PfxOk, Compact, Released, ReleasedKeys;
  }

  lemma {:induction false} NickGraded(cfg: Config, s: State, from: string, newnick: string)
    requires Graded(cfg, s) && Live(s)
    ensures Graded(cfg, Nick(cfg, s, from, newnick))
  {
    hide Canon, Ident2Nick, IEq, Trunc, PfxOk, Compact;
  }

  /** No message disturbs the order of a prefix or the compactness of a mode array. */
  lemma {:induction false} StepGraded(cfg: Config, s: State, msg: Msg)
    requires Graded(cfg, s)
    ensures Graded(cfg, Step(cfg, s, msg).0)
  {
    hide Canon, CommandOf, IEq, Ident2Nick, ChanGraded, Trunc, Enroll, EnrollAll, DropChan, ClearMemb, DropMemb,
         NameEntries, Changes, Applies, ApplyChanges, FoldModes, Nick;
    if msg.prefix.Some? && |msg.args| >= MinArgs(CommandOf(msg.cmd)) && Live(s) {
      match CommandOf(msg.cmd) {
        case JOIN => JoinGraded(cfg, s, msg.prefix.value, msg.args[0]);
        case PART =>
          var from := msg.prefix.value;
          LeaveGraded(cfg, s, Me(cfg, s, Ident2Nick(from, MAX_NICK_LEN)), from, msg.args[0]);
        case KICK => LeaveGraded(cfg, s, Me(cfg, s, msg.args[1]), msg.args[1], msg.args[0]);
        case QUIT => QuitGraded(cfg, s, msg.prefix.value);
        case NICK => NickGraded(cfg, s, msg.prefix.value, msg.args[0]);
        case N353 => NamesGraded(cfg, s, msg.args[2], msg.args[3]);
        case MODE => ModeGraded(cfg, s, msg.args);
        case N324 => ModeIsGraded(cfg, s, msg.args);
        case _ =>
      }
    }
  }

  lemma {:induction false} JoinGraded(cfg: Config, s: State, from: string, name: string)
    requires Graded(cfg, s) && Live(s)
    ensures Graded(cfg, Join(cfg, s, from, name))
  {
    hide Canon, Ident2Nick, IEq, Trunc, Compact, PfxOk, Enroll;
    EmptyIsCompact(INITIAL_MODES);
    if cfg.Key(name) in s.chans {
      EnrollGraded(cfg, s, cfg.Key(name), from, "");
    }
  }

  lemma {:induction false} LeaveGraded(cfg: Config, s: State, me: bool, ident: string, name: string)
    requires Graded(cfg, s)
    ensures Graded(cfg, Leave(cfg, s, me, ident, name))
  {
    hide Canon, DropChan, DropMemb, ChanGraded;
    if cfg.Key(name) in s.chans {
      DropGraded(cfg, s, cfg.Key(name), cfg.Key(ident));
    }
  }

  lemma {:induction false} QuitGraded(cfg: Config, s: State, from: string)
    requires Graded(cfg, s)
    ensures Graded(cfg, Quit(cfg, s, from))
  {
    hide Canon, PfxOk, Compact;
  }

  lemma {:induction false} NamesGraded(cfg: Config, s: State, name: string, list: string)
    requires Graded(cfg, s) && Live(s)
    ensures Graded(cfg, Names(cfg, s, name, list).0)
  {
    hide Canon, ChanGraded, NameEntries, EnrollAll, ReleaseMembers;
    var ck := cfg.Key(name);
    if ck in s.chans {
      DropGraded(cfg, s, ck, []);
      NameEntriesMarked(cfg.syms, list);
      if NameEntries(cfg.syms, list).Some? && Live(StartNames(s, ck)) {
        EnrollAllGraded(cfg, StartNames(s, ck), ck, NameEntries(cfg.syms, list).value);
      }
    }
  }

  lemma {:induction false} ModeGraded(cfg: Config, s: State, args: seq<string>)
    requires Graded(cfg, s) && |args| >= 2
    ensures Graded(cfg, ChanMode(cfg, s, args).0)
  {
    hide Canon, ChanGraded, Changes, Applies, ApplyChanges;
    var ck, chs := cfg.Key(args[0]), Changes(cfg, args[1], true, args[2..]);
    if ck in s.chans && forall i | 0 <= i < |chs| :: Applies(cfg, chs[i]) {
      ApplyChangesGraded(cfg, s.chans[ck], chs);
      ChansGraded(cfg, s, ck, ApplyChanges(cfg, s.chans[ck], chs));
    }
  }

  lemma {:induction false} ModeIsGraded(cfg: Config, s: State, args: seq<string>)
    requires Graded(cfg, s) && |args| >= 3
    ensures Graded(cfg, ModeIs(cfg, s, args))
  {
    hide Canon, Changes, FoldModes, PfxOk;
    var ck := cfg.Key(args[1]);
    if ck in s.chans {
      var c := s.chans[ck];
      EmptyIsCompact(|c.modes|);
      FoldModesCompact(cfg, EmptyModes(|c.modes|), Changes(cfg, args[2], true, args[3..]));
      ChansGraded(cfg, s, ck, ModeIs(cfg, s, args).chans[ck]);
    }
  }

  lemma {:induction false} RunGraded(cfg: Config, s: State, msgs: seq<Msg>)
    requires Graded(cfg, s)
    ensures Graded(cfg, Run(cfg, s, msgs))
    decreases |msgs|
  {
    hide Graded, Step;
    if msgs != [] {
      StepGraded(cfg, s, msgs[0]);
      RunGraded(cfg, Step(cfg, s, msgs[0]).0, msgs[1..]);
    }
  }

  // ---------- renaming ----------

  /** A proper rename moves one record from the old key to the new one, in the user map and in
      exactly the channels that held it; everything else, every prefix, every count of
      channels and every number of members stays.  One of case only changes no map. */
  lemma {:induction false} RenameMoves(cfg: Config, s: State, ident: string, newnick: string)
    requires Inv(cfg, s) && Live(s) && RenameOk(cfg, s, ident, newnick) && cfg.Key(ident) in s.users
    ensures var t, k, nk := Rename(cfg, s, ident, newnick), cfg.Key(ident), cfg.Key(newnick);
            var p := s.users[k];
            && t.mem == s.mem[p := s.mem[p].(nick := t.mem[p].nick)] && cfg.Key(t.mem[p].nick) == nk
            && if nk == k then t.users == s.users && t.chans == s.chans
               else t.users == (s.users - {k})[nk := p] && t.chans.Keys == s.chans.Keys
                    && forall ck | ck in s.chans :: MembMoved(s.chans[ck], t.chans[ck], k, nk)
  {
    hide Canon, Ident2Nick, IEq, Trunc, Inv, Rename, RenameOk, MembMoved;
    if cfg.Key(newnick) == cfg.Key(ident) {
      RenameCaseOnlyKey(cfg, s, ident, newnick);
    } else {
      RenameMovesUser(cfg, s, ident, newnick);
      RenameMovesMembers(cfg, s, ident, newnick);
    }
  }

  lemma {:induction false} RenameMovesUser(cfg: Config, s: State, ident: string, newnick: string)
    requires Inv(cfg, s) && Live(s) && RenameOk(cfg, s, ident, newnick) && cfg.Key(ident) in s.users
    requires cfg.Key(newnick) != cfg.Key(ident)
    ensures var t, k, nk := Rename(cfg, s, ident, newnick), cfg.Key(ident), cfg.Key(newnick);
            && t.mem == s.mem[s.users[k] := s.mem[s.users[k]].(nick := newnick)]
            && t.users == (s.users - {k})[nk := s.users[k]]
  {
    hide Canon, Ident2Nick, IEq, Trunc, Inv;
  }

  lemma {:induction false} RenameMovesMembers(cfg: Config, s: State, ident: string, newnick: string)
    requires Inv(cfg, s) && Live(s) && RenameOk(cfg, s, ident, newnick) && cfg.Key(ident) in s.users
    requires cfg.Key(newnick) != cfg.Key(ident)
    ensures var t, k, nk := Rename(cfg, s, ident, newnick), cfg.Key(ident), cfg.Key(newnick);
            && t.chans.Keys == s.chans.Keys
            && forall ck | ck in s.chans :: MembMoved(s.chans[ck], t.chans[ck], k, nk)
  {
    hide Canon, Ident2Nick, IEq, Trunc, UsersFiled, NoLeak, ChansFiled, Covered;
    var t, k, nk := Rename(cfg, s, ident, newnick), cfg.Key(ident), cfg.Key(newnick);
    forall ck | ck in s.chans ensures MembMoved(s.chans[ck], t.chans[ck], k, nk) {
      MovedCounts(s.chans[ck].memb, k, nk);
    }
  }

  ghost predicate MembMoved(c: Chan, d: Chan, k: Key, nk: Key) {
    && d == c.(memb := d.memb) && |d.memb| == |c.memb|
    && d.memb == if k in c.memb then (c.memb - {k})[nk := c.memb[k]] else c.memb
  }

  lemma {:induction false} MovedCounts(m: map<Key, Memb>, k: Key, nk: Key)
    requires nk !in m && nk != k
    ensures Moved(m, k, nk) == if k in m then (m - {k})[nk := m[k]] else m
    ensures |Moved(m, k, nk)| == |m|
  {
    if k in m {
      assert Moved(m, k, nk) == (m - {k})[nk := m[k]];
      assert (m - {k}).Keys == m.Keys - {k};
      assert |(m - {k}).Keys| == |m.Keys| - 1;
      assert (m - {k})[nk := m[k]].Keys == (m - {k}).Keys + {nk};
      assert |(m - {k})[nk := m[k]].Keys| == |m.Keys|;
    }
  }

  lemma {:induction false} RenameCaseOnlyKey(cfg: Config, s: State, ident: string, newnick: string)
    requires Inv(cfg, s) && Live(s) && RenameOk(cfg, s, ident, newnick)
    requires cfg.Key(ident) in s.users && cfg.Key(newnick) == cfg.Key(ident)
    ensures var t := Rename(cfg, s, ident, newnick); var p := s.users[cfg.Key(ident)];
            && t == s.(mem := s.mem[p := s.mem[p].(nick := t.mem[p].nick)])
            && cfg.Key(t.mem[p].nick) == cfg.Key(ident)
  {
    var p := s.users[cfg.Key(ident)];
    var nick := s.mem[p].nick;
    CanonShape(cfg.cm, nick);
    if |newnick| > |nick| {
      CanonOfPrefix(cfg.cm, newnick, |nick|);
    }
    hide Canon, Ident2Nick, IEq;
  }
}
