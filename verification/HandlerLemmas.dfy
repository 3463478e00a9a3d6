// Over every run of messages the base stays consistent; exactly the messages
// that re-add a member make the counts overshoot.
module HandlerLemmas {
  import opened CStrings
  import opened CaseMap
  import opened Message
  import opened Modes
  import opened Tracking
  import opened TrackingLemmas
  import opened Handlers
  import opened Guards

  lemma {:induction false} AddChanKeepsIff(cfg: Config, s: State, name: string)
    requires Inv(cfg, s) && cfg.Key(name) !in s.chans
    ensures Inv(cfg, AddChan(cfg, s, name)) <==> cfg.Key(Trunc(name, MAX_CHAN_LEN)) == cfg.Key(name)
    ensures Inv(cfg, AddChan(cfg, s, name)) ==> (Exact(cfg, AddChan(cfg, s, name)) <==> Exact(cfg, s))
  {
    hide Canon, Trunc, Homes;
    var t, ck := AddChan(cfg, s, name), cfg.Key(name);
    assert cfg.Key(t.chans[ck].name) == cfg.Key(Trunc(name, MAX_CHAN_LEN));
    assert Linked(t);
    forall p | p in s.mem ensures Excess(cfg, t, p) == Excess(cfg, s, p) {
      HomesUpdate(s.chans, ck, t.chans[ck], cfg.Key(s.mem[p].nick));
      HomesHas(s.chans, ck, cfg.Key(s.mem[p].nick));
    }
  }

  /** A nick that fits its buffer is looked up and filed under one key. */
  lemma {:induction false} ShortNickFits(cfg: Config, nick: string)
    requires |nick| < MAX_NICK_LEN
    ensures cfg.Key(Ident2Nick(nick, MAX_NICK_LEN)) == cfg.Key(nick)
  {
    NickKeepsKey(cfg.cm, nick, MAX_NICK_LEN);
    CanonShape(cfg.cm, nick);
  }

  lemma {:induction false} EnrollMembers(cfg: Config, s: State, ck: Key, ident: string, pfx: string)
    requires Inv(cfg, s) && ck in s.chans
    ensures var t, k := Enroll(cfg, s, ck, ident, pfx), EnrollKey(cfg, s, ident);
            && t.chans[ck].memb.Keys == s.chans[ck].memb.Keys + {k}
            && k in t.users
            && t.chans[ck].memb == s.chans[ck].memb[k := Memb(t.users[k], Trunc(pfx, MAX_MODEPFX))]
            && t.chans == s.chans[ck := s.chans[ck].(memb := t.chans[ck].memb)]
            && t.users.Keys == s.users.Keys + {k}
            && t.endofnames == s.endofnames && t.mynick == s.mynick
  {
    hide Canon, Ident2Nick, Trunc, Homes, Excess, Linked, NoLeak;
  }

  /** Enrolling a list of names keeps the invariant, and keeps the counts exact if and only if
      the names are distinct and new to the channel. */
  lemma {:induction false} EnrollAllKeeps(cfg: Config, s: State, ck: Key, names: seq<NameEntry>)
    requires Inv(cfg, s) && ck in s.chans && forall e | e in names :: |e.nick| < MAX_NICK_LEN
    ensures var t := EnrollAll(cfg, s, ck, names);
            && Inv(cfg, t)
            && (Exact(cfg, t) <==> Exact(cfg, s) && NewNames(cfg, s.chans[ck].memb.Keys, names))
    decreases |names|
  {
    if names != [] {
      var e := names[0];
      assert e in names;
      ShortNickFits(cfg, e.nick);
      EnrollKeeps(cfg, s, ck, e.nick, e.pfx);
      EnrollMembers(cfg, s, ck, e.nick, e.pfx);
      hide Canon, Ident2Nick, Trunc, Inv, Exact, Enroll;
      EnrollAllKeeps(cfg, Enroll(cfg, s, ck, e.nick, e.pfx), ck, names[1..]);
    }
  }

  lemma NameEntriesShort(syms: string, list: string)
    ensures var names := NameEntries(syms, list);
            names.Some? ==> forall e | e in names.value :: |e.nick| < MAX_NICK_LEN && |e.pfx| <= 1
    decreases |list|
  {
  }

  // ---------- mode changes leave the relation alone ----------

  ghost predicate SameMembers(c: Chan, d: Chan) {
    && c.name == d.name && c.memb.Keys == d.memb.Keys
    && forall k | k in c.memb :: c.memb[k].u == d.memb[k].u
  }

  lemma {:induction false} ApplyChangesSameMembers(cfg: Config, c: Chan, chs: seq<Change>)
    requires forall i | 0 <= i < |chs| :: Applies(cfg, chs[i])
    ensures SameMembers(c, ApplyChanges(cfg, c, chs))
    decreases |chs|
  {
    hide Canon, UpdatePfx, ChangeModes, IndexOf;
    if chs != [] {
      ApplyChangesSameMembers(cfg, c, chs[..|chs| - 1]);
    }
  }

  lemma {:induction false} ReplacedChanKeeps(cfg: Config, s: State, ck: Key, d: Chan)
    requires Inv(cfg, s) && ck in s.chans && SameMembers(s.chans[ck], d)
    ensures var t := s.(chans := s.chans[ck := d]);
            Inv(cfg, t) && (Exact(cfg, t) <==> Exact(cfg, s))
  {
    hide Canon, Homes;
    var t := s.(chans := s.chans[ck := d]);
    assert Linked(t);
    forall p | p in s.mem ensures Excess(cfg, t, p) == Excess(cfg, s, p) {
      HomesUpdate(s.chans, ck, d, cfg.Key(s.mem[p].nick));
      HomesHas(s.chans, ck, cfg.Key(s.mem[p].nick));
    }
  }

  // ---------- one message ----------

  lemma {:induction false} JoinKeeps(cfg: Config, s: State, from: string, name: string)
    requires Inv(cfg, s)
    ensures var t := Join(cfg, s, from, name);
            && (Inv(cfg, t) <==> JoinOk(cfg, s, from, name))
            && (Inv(cfg, t) ==> (Exact(cfg, t) <==> Exact(cfg, s) && JoinIsNew(cfg, s, from, name)))
  {
    hide Canon, Ident2Nick, Trunc, Inv, Exact, Enroll, AddChan, IEq;
    var ck := cfg.Key(name);
    if Me(cfg, s, Ident2Nick(from, MAX_NICK_LEN)) {
      if ck !in s.chans {
        AddChanKeepsIff(cfg, s, name);
      }
    } else if ck in s.chans {
      if EnrollOk(cfg, s, from) {
        EnrollKeeps(cfg, s, ck, from, "");
      } else {
        EnrollLeaks(cfg, s, ck, from, "");
      }
    }
  }

  lemma {:induction false} LeaveKeeps(cfg: Config, s: State, me: bool, ident: string, name: string)
    requires Inv(cfg, s)
    ensures var t := Leave(cfg, s, me, ident, name);
            Inv(cfg, t) && (Exact(cfg, t) <==> Exact(cfg, s))
  {
    hide Canon, Inv, Exact, DropChan, DropMemb;
    var ck := cfg.Key(name);
    if ck in s.chans {
      DropChanKeeps(cfg, s, ck);
      DropMembKeeps(cfg, s, ck, cfg.Key(ident));
    }
  }

  lemma {:induction false} StartNamesKeeps(cfg: Config, s: State, ck: Key)
    requires Inv(cfg, s) && ck in s.chans
    ensures var t := StartNames(s, ck);
            && Inv(cfg, t) && (Exact(cfg, t) <==> Exact(cfg, s))
            && ck in t.chans && t.chans[ck].memb.Keys == if s.endofnames then {} else s.chans[ck].memb.Keys
  {
    hide Canon, Inv, Exact, ReleaseMembers;
    ClearMembKeeps(cfg, s, ck);
    FlagsAreFree(cfg, ClearMemb(s, ck), false, ClearMemb(s, ck).mynick);
    assert ClearMemb(s, ck).chans[ck].memb.Keys == {};
  }

  lemma {:induction false} NamesKeep(cfg: Config, s: State, name: string, list: string)
    requires Inv(cfg, s)
    ensures var (t, r) := Names(cfg, s, name, list);
            var ck, names := cfg.Key(name), NameEntries(cfg.syms, list);
            && Inv(cfg, t)
            && (r == Done <==> (ck in s.chans ==> ListOk(cfg.syms, list)))
            && r != ProtoErr && (ListOk(cfg.syms, list) ==> names.Some?)
            && (r == Done ==> (Exact(cfg, t) <==> Exact(cfg, s) && (ck in s.chans ==>
                  NewNames(cfg, if s.endofnames then {} else s.chans[ck].memb.Keys, names.value))))
  {
    hide Canon, Inv, Exact, EnrollAll, StartNames, NameEntries, NewNames, ListOk;
    var ck := cfg.Key(name);
    ListOkIff(cfg.syms, list);
    if ck in s.chans {
      StartNamesKeeps(cfg, s, ck);
      LiveOf(cfg, StartNames(s, ck));
      NameEntriesShort(cfg.syms, list);
      if NameEntries(cfg.syms, list).Some? {
        EnrollAllKeeps(cfg, StartNames(s, ck), ck, NameEntries(cfg.syms, list).value);
      }
    }
  }

  lemma {:induction false} LiveOf(cfg: Config, s: State)
    requires Inv(cfg, s)
    ensures Live(s)
  {
  }

  /** The invariants do not look at the names flag and our own nick. */
  lemma {:induction false} FlagsAreFree(cfg: Config, s: State, endofnames: bool, mynick: string)
    ensures var t := s.(endofnames := endofnames, mynick := mynick);
            (Inv(cfg, t) <==> Inv(cfg, s)) && (Exact(cfg, t) <==> Exact(cfg, s))
  {
    hide Canon, Homes;
    var t := s.(endofnames := endofnames, mynick := mynick);
    assert forall p | p in s.mem :: Excess(cfg, t, p) == Excess(cfg, s, p);
    assert UsersFiled(cfg, t) <==> UsersFiled(cfg, s);
    assert NoLeak(cfg, t) <==> NoLeak(cfg, s);
    assert Linked(t) <==> Linked(s);
  }

  lemma {:induction false} ChanModeKeeps(cfg: Config, s: State, args: seq<string>)
    requires Inv(cfg, s) && |args| >= 2
    ensures var (t, r) := ChanMode(cfg, s, args);
            && Inv(cfg, t) && (Exact(cfg, t) <==> Exact(cfg, s)) && r != ProtoErr
            && (r == Done <==> (IsChannel(cfg, args[0]) && cfg.Key(args[0]) in s.chans ==> ModesOk(cfg, args[1])))
  {
    hide Canon, Inv, Exact, Changes, ApplyChanges, SameMembers, Applies, ModesOk;
    var ck := cfg.Key(args[0]);
    ChanModeDefinedIff(cfg, s, args);
    if IsChannel(cfg, args[0]) && ck in s.chans {
      var chs := Changes(cfg, args[1], true, args[2..]);
      if forall i | 0 <= i < |chs| :: Applies(cfg, chs[i]) {
        ApplyChangesSameMembers(cfg, s.chans[ck], chs);
        ReplacedChanKeeps(cfg, s, ck, ApplyChanges(cfg, s.chans[ck], chs));
      }
    }
  }

  lemma {:induction false} NickKeeps(cfg: Config, s: State, from: string, newnick: string)
    requires Inv(cfg, s) && Live(s) && NUL !in from
    ensures var t := Nick(cfg, s, from, newnick);
            && (Inv(cfg, t) <==> RenameOk(cfg, s, from, newnick))
            && (Exact(cfg, s) && RenameOk(cfg, s, from, newnick) ==> Exact(cfg, t))
  {
    RenameKeepsIff(cfg, s, from, newnick);
    hide Canon, Rename, RenameOk, Inv, Exact;
    var t := Nick(cfg, s, from, newnick);
    FlagsAreFree(cfg, Rename(cfg, s, from, newnick), t.endofnames, t.mynick);
  }

  /** One message keeps the invariant and stays inside its strings if and only if it passes
      the guard; and the counts stay exact if and only if it re-adds no member. */
  lemma {:induction false} StepKeepsIff(cfg: Config, s: State, msg: Msg)
    requires Inv(cfg, s) && (msg.prefix.Some? ==> NUL !in msg.prefix.value)
    ensures var (t, r) := Step(cfg, s, msg);
            && (Inv(cfg, t) && r != Undefined <==> MsgOk(cfg, s, msg))
            && (Exact(cfg, s) && MsgOk(cfg, s, msg) ==> (Exact(cfg, t) <==> NoReadd(cfg, s, msg)))
  {
    var c := CommandOf(msg.cmd);
    hide Canon, CommandOf, Inv, Exact, Join, JoinOk, JoinIsNew, Leave, Quit, Names, Nick, RenameOk,
         NameEntries, NewNames, ChanMode, ModeIs, IEq, Ident2Nick, ListOk, ModesOk, IsChannel;
    if c != Other && msg.prefix.Some? && |msg.args| >= MinArgs(c) {
      LiveOf(cfg, s);
      var from := msg.prefix.value;
      match c {
        case JOIN => JoinKeeps(cfg, s, from, msg.args[0]);
        case PART => LeaveKeeps(cfg, s, Me(cfg, s, Ident2Nick(from, MAX_NICK_LEN)), from, msg.args[0]);
        case QUIT => QuitKeeps(cfg, s, from);
        case KICK => LeaveKeeps(cfg, s, Me(cfg, s, msg.args[1]), msg.args[1], msg.args[0]);
        case NICK => NickKeeps(cfg, s, from, msg.args[0]);
        case N353 => NamesKeep(cfg, s, msg.args[2], msg.args[3]);
        case N366 => FlagsAreFree(cfg, s, true, s.mynick);
        case MODE => ChanModeKeeps(cfg, s, msg.args);
        case N324 => ModeIsKeeps(cfg, s, msg.args);
      }
    }
  }

  lemma {:induction false} QuitKeeps(cfg: Config, s: State, from: string)
    requires Inv(cfg, s)
    ensures Inv(cfg, Quit(cfg, s, from)) && (Exact(cfg, s) ==> Exact(cfg, Quit(cfg, s, from)))
  {
    hide Canon, Inv, Exact, DropUser;
    if cfg.Key(from) in s.users {
      DropUserKeeps(cfg, s, cfg.Key(from));
    }
  }

  lemma {:induction false} ModeIsKeeps(cfg: Config, s: State, args: seq<string>)
    requires Inv(cfg, s) && |args| >= 3
    ensures var t := ModeIs(cfg, s, args);
            Inv(cfg, t) && (Exact(cfg, t) <==> Exact(cfg, s))
  {
    hide Canon, Inv, Exact, Changes, FoldModes;
    var ck := cfg.Key(args[1]);
    if ck in s.chans {
      ReplacedChanKeeps(cfg, s, ck, ModeIs(cfg, s, args).chans[ck]);
    }
  }

  // ---------- every run ----------

  predicate NulFree(msgs: seq<Msg>) {
    forall i | 0 <= i < |msgs| :: msgs[i].prefix.Some? ==> NUL !in msgs[i].prefix.value
  }

  /** Over every run of admissible messages each member entry points at the record filed under
      its key, no record leaks, and no count is below the number of channels; where in addition
      no member is re-added, the counts are exact and every user is in some channel. */
  lemma {:induction false} RunKeeps(cfg: Config, s: State, msgs: seq<Msg>)
    requires Inv(cfg, s) && NulFree(msgs) && RunOk(cfg, s, msgs)
    ensures Inv(cfg, Run(cfg, s, msgs))
    ensures Exact(cfg, s) && RunNoReadd(cfg, s, msgs) ==> Exact(cfg, Run(cfg, s, msgs))
    decreases |msgs|
  {
    hide Canon, Inv, Exact, Step, MsgOk, NoReadd;
    if msgs != [] {
      StepKeepsIff(cfg, s, msgs[0]);
      RunKeeps(cfg, Step(cfg, s, msgs[0]).0, msgs[1..]);
    }
  }

  /** With exact counts the user map is determined by the channels: its users are the
      members, each counted once per channel. */
  lemma {:induction false} ExactUsers(cfg: Config, s: State, k: Key)
    requires Exact(cfg, s)
    ensures k in s.users <==> exists ck | ck in s.chans :: k in s.chans[ck].memb
    ensures k in s.users ==> s.users[k] in s.mem && s.mem[s.users[k]].nchans == |Homes(s.chans, k)|
  {
    hide Canon;
    if k in s.users {
      assert Excess(cfg, s, s.users[k]) == 0;
      var ck :| ck in Homes(s.chans, k);
      assert k in s.chans[ck].memb;
    }
  }

  // ---------- clearing ----------

  predicate Emptied(s: State) {
    s.users == map[] && s.mem == map[] && s.chans == map[]
  }

  /** lsi_ucb_clear empties both maps, freeing every record, unless it stops at an empty
      channel map beside a non-empty user map; with exact counts that cannot be. */
  lemma {:induction false} ClearEmptiesIff(cfg: Config, s: State)
    requires Inv(cfg, s)
    ensures Emptied(Clear(s)) <==> s.chans != map[] || s.users == map[]
    ensures Exact(cfg, s) ==> Emptied(Clear(s))
  {
    hide Canon;
    forall p | p in s.mem ensures p in s.users.Values {
      assert s.users[cfg.Key(s.mem[p].nick)] == p;
    }
    if Exact(cfg, s) && s.chans == map[] && s.users != map[] {
      var k :| k in s.users;
      ExactUsers(cfg, s, k);
    }
  }

  /** A member made a member again outlives its last channel. */
  lemma {:induction false} ReaddedUserOutlives(cfg: Config, s: State, ck: Key, ident: string)
    requires Exact(cfg, s) && s.chans.Keys == {ck}
    requires cfg.Key(Ident2Nick(ident, MAX_NICK_LEN)) == cfg.Key(ident)
    ensures var u := Enroll(cfg, s, ck, ident, "");
            var t := DropChan(Enroll(cfg, u, ck, ident, ""), ck);
            Inv(cfg, t) && !Emptied(Clear(t))
  {
    hide Canon, Ident2Nick, Enroll, DropChan, Inv, Exact, Live, Clear, Emptied;
    LiveAndInv(cfg, s);
    var u := Enroll(cfg, s, ck, ident, "");
    EnrollKeeps(cfg, s, ck, ident, "");
    EnrollMembers(cfg, s, ck, ident, "");
    var v := Enroll(cfg, u, ck, ident, "");
    EnrollKeeps(cfg, u, ck, ident, "");
    DropChanKeeps(cfg, v, ck);
    var t := DropChan(v, ck);
    NoChansLeft(v, ck);
    ClearEmptiesIff(cfg, t);
    if Emptied(Clear(t)) {
      NobodyIsExact(cfg, t);
    }
  }

  lemma LiveAndInv(cfg: Config, s: State)
    requires Exact(cfg, s)
    ensures Inv(cfg, s) && Live(s)
  {
  }

  lemma NoChansLeft(s: State, ck: Key)
    requires s.chans.Keys == {ck}
    ensures DropChan(s, ck).chans == map[]
  {
  }

  /** A consistent base without users is exact. */
  lemma {:induction false} NobodyIsExact(cfg: Config, s: State)
    requires Inv(cfg, s) && s.users == map[]
    ensures Exact(cfg, s)
  {
    hide Canon, Homes;
    assert forall p | p in s.mem :: cfg.Key(s.mem[p].nick) in s.users;
  }

  lemma {:induction false} InitialExact(cfg: Config, mynick: string)
    ensures Exact(cfg, Initial(mynick))
    ensures var s := Initial(mynick); s.chans == map[] && s.endofnames && s.mynick == mynick
  {
  }
}
