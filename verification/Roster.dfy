// The simple reading of the tracked messages: who is in which channel, with
// which mode prefix.  No user map, no records, no counts.
module Roster {
  import opened CStrings
  import opened CaseMap
  import opened Message
  import opened Modes
  import opened Tracking
  import opened TrackingLemmas
  import opened Handlers
  import opened HandlerLemmas
  import opened Guards

  type Members = map<Key, string>

  datatype View = View(rooms: map<Key, Members>, endofnames: bool, mynick: string)

  function MembersOf(c: Chan): Members {
    map k | k in c.memb :: c.memb[k].modepfx
  }

  function RoomsOf(chans: map<Key, Chan>): map<Key, Members> {
    map ck | ck in chans :: MembersOf(chans[ck])
  }

  function ViewOf(s: State): View {
    View(RoomsOf(s.chans), s.endofnames, s.mynick)
  }

  /** The rooms with k gone from all of them. */
  function Without(rooms: map<Key, Members>, k: Key): map<Key, Members> {
    map ck | ck in rooms :: rooms[ck] - {k}
  }

  /** The rooms with k called nk. */
  function Renamed(rooms: map<Key, Members>, k: Key, nk: Key): map<Key, Members> {
    map ck | ck in rooms :: if k in rooms[ck] then (rooms[ck] - {k})[nk := rooms[ck][k]] else rooms[ck]
  }

  function Listed(cfg: Config, m: Members, names: seq<NameEntry>): Members {
    if names == [] then m
    else Listed(cfg, m, names[..|names| - 1])[cfg.Key(names[|names| - 1].nick) := names[|names| - 1].pfx]
  }

  /** The prefix changes among `chs`, applied to the members they name. */
  function Regraded(cfg: Config, m: Members, chs: seq<Change>): Members
    requires forall i | 0 <= i < |chs| :: Applies(cfg, chs[i])
  {
    if chs == [] then m
    else
      var n, ch := Regraded(cfg, m, chs[..|chs| - 1]), chs[|chs| - 1];
      var i := IndexOf(cfg.letters, ch.letter);
      assert Applies(cfg, chs[|chs| - 1]);
      if i < |cfg.letters| && cfg.Key(ch.arg.value) in n then
        var k := cfg.Key(ch.arg.value);
        n[k := UpdatePfx(cfg.syms, n[k], cfg.syms[i], ch.enab).0]
      else n
  }

  /** What the simple reading makes of the rooms at a JOIN. */
  function Joined(cfg: Config, v: View, me: bool, from: string, name: string): View {
    var ck, rooms := cfg.Key(name), v.rooms;
    if me then (if ck in rooms then v else v.(rooms := rooms[ck := map[]]))
    else if ck in rooms then v.(rooms := rooms[ck := rooms[ck][cfg.Key(from) := ""]])
    else v
  }

  function ViewStep(cfg: Config, v: View, msg: Msg): View {
    var c := CommandOf(msg.cmd);
    if c == Other || msg.prefix.None? || |msg.args| < MinArgs(c) then v
    else
      var from, rooms := msg.prefix.value, v.rooms;
      var me := IEq(cfg.cm, Ident2Nick(from, MAX_NICK_LEN), v.mynick);
      match c
      case JOIN => Joined(cfg, v, me, from, msg.args[0])
      case PART =>
        var ck := cfg.Key(msg.args[0]);
        if ck !in rooms then v
        else if me then v.(rooms := rooms - {ck})
        else v.(rooms := rooms[ck := rooms[ck] - {cfg.Key(from)}])
      case KICK =>
        var ck := cfg.Key(msg.args[0]);
        if ck !in rooms then v
        else if IEq(cfg.cm, msg.args[1], v.mynick) then v.(rooms := rooms - {ck})
        else v.(rooms := rooms[ck := rooms[ck] - {cfg.Key(msg.args[1])}])
      case QUIT => v.(rooms := Without(rooms, cfg.Key(from)))
      case NICK =>
        v.(rooms := Renamed(rooms, cfg.Key(from), cfg.Key(msg.args[0])),
           mynick := if IEq(cfg.cm, Ident2Nick(from, 2 * MAX_NICK_LEN), v.mynick)
                     then Trunc(msg.args[0], MAX_NICK_LEN) else v.mynick)
      case N353 =>
        var ck, names := cfg.Key(msg.args[2]), NameEntries(cfg.syms, msg.args[3]);
        if ck !in rooms || names.None? then v
        else v.(rooms := rooms[ck := Listed(cfg, if v.endofnames then map[] else rooms[ck], names.value)],
                endofnames := false)
      case N366 => v.(endofnames := true)
      case MODE =>
        var ck := cfg.Key(msg.args[0]);
        var chs := Changes(cfg, msg.args[1], true, msg.args[2..]);
        if !IsChannel(cfg, msg.args[0]) || ck !in rooms
           || exists i | 0 <= i < |chs| :: !Applies(cfg, chs[i]) then v
        else v.(rooms := rooms[ck := Regraded(cfg, rooms[ck], chs)])
      case _ => v
  }

  function ViewRun(cfg: Config, v: View, msgs: seq<Msg>): View {
    if msgs == [] then v else ViewStep(cfg, ViewRun(cfg, v, msgs[..|msgs| - 1]), msgs[|msgs| - 1])
  }

  /** Where the message makes somebody a member, that user is filed under the key of the identity:
      known under it already, or short enough for the 64-byte buffer. */
  predicate NickFits(cfg: Config, s: State, msg: Msg) {
    CommandOf(msg.cmd) == JOIN && msg.prefix.Some? && |msg.args| >= 1 ==>
      JoinFits(cfg, s, msg.prefix.value, msg.args[0])
  }

  predicate JoinFits(cfg: Config, s: State, from: string, name: string) {
    !Me(cfg, s, Ident2Nick(from, MAX_NICK_LEN)) && cfg.Key(name) in s.chans ==>
      EnrollKey(cfg, s, from) == cfg.Key(from)
  }

  // ---------- the base follows the simple reading ----------

  lemma {:induction false} RoomsUpdate(chans: map<Key, Chan>, ck: Key, c: Chan)
    ensures RoomsOf(chans[ck := c]) == RoomsOf(chans)[ck := MembersOf(c)]
  {
  }

  lemma {:induction false} EnrollView(cfg: Config, s: State, ck: Key, ident: string, pfx: string)
    requires Inv(cfg, s) && ck in s.chans && |pfx| < MAX_MODEPFX
    ensures var t := Enroll(cfg, s, ck, ident, pfx);
            && RoomsOf(t.chans) == RoomsOf(s.chans)[ck := MembersOf(t.chans[ck])]
            && MembersOf(t.chans[ck]) == MembersOf(s.chans[ck])[EnrollKey(cfg, s, ident) := pfx]
            && t.endofnames == s.endofnames && t.mynick == s.mynick
  {
    EnrollMembers(cfg, s, ck, ident, pfx);
    assert Trunc(pfx, MAX_MODEPFX) == pfx;
    LiveOf(cfg, s);
    hide Canon, Ident2Nick, Trunc, Inv, Enroll, EnrollKey, RoomsOf, MembersOf, Live;
    var t := Enroll(cfg, s, ck, ident, pfx);
    RoomsUpdate(s.chans, ck, t.chans[ck]);
    MembersUpdate(s.chans[ck], EnrollKey(cfg, s, ident), t.chans[ck].memb[EnrollKey(cfg, s, ident)]);
  }

  lemma {:induction false} MembersUpdate(c: Chan, k: Key, m: Memb)
    ensures MembersOf(c.(memb := c.memb[k := m])) == MembersOf(c)[k := m.modepfx]
  {
  }

  lemma {:induction false} EnrollAllView(cfg: Config, s: State, ck: Key, names: seq<NameEntry>)
    requires Inv(cfg, s) && Live(s) && ck in s.chans
    requires forall e | e in names :: |e.nick| < MAX_NICK_LEN && |e.pfx| <= 1
    ensures var t := EnrollAll(cfg, s, ck, names);
            && RoomsOf(t.chans) == RoomsOf(s.chans)[ck := Listed(cfg, MembersOf(s.chans[ck]), names)]
            && t.endofnames == s.endofnames && t.mynick == s.mynick
    decreases |names|
  {
    hide Canon, Ident2Nick, Inv, Enroll, MembersOf, RoomsOf, Listed, Live;
    if names == [] {
      ListedNone(cfg, MembersOf(s.chans[ck]));
      RoomsUpdate(s.chans, ck, s.chans[ck]);
      assert s.chans[ck := s.chans[ck]] == s.chans;
    } else {
      var e := names[0];
      assert e in names;
      ShortNickFits(cfg, e.nick);
      EnrollKeeps(cfg, s, ck, e.nick, e.pfx);
      EnrollView(cfg, s, ck, e.nick, e.pfx);
      EnrollAllView(cfg, Enroll(cfg, s, ck, e.nick, e.pfx), ck, names[1..]);
      ListedCons(cfg, MembersOf(s.chans[ck]), names);
    }
  }

  lemma {:induction false} ListedNone(cfg: Config, m: Members)
    ensures Listed(cfg, m, []) == m
  {
  }

  lemma {:induction false} ListedCons(cfg: Config, m: Members, names: seq<NameEntry>)
    requires names != []
    ensures Listed(cfg, m, names) == Listed(cfg, m[cfg.Key(names[0].nick) := names[0].pfx], names[1..])
    decreases |names|
  {
    hide Canon;
    if |names| > 1 {
      ListedCons(cfg, m, names[..|names| - 1]);
      assert names[1..][..|names| - 2] == names[..|names| - 1][1..];
    }
  }

  lemma {:induction false} DropView(cfg: Config, s: State, ck: Key, k: Key)
    requires ck in s.chans
    ensures ViewOf(DropChan(s, ck)) == ViewOf(s).(rooms := RoomsOf(s.chans) - {ck})
    ensures ViewOf(ClearMemb(s, ck)) == ViewOf(s).(rooms := RoomsOf(s.chans)[ck := map[]])
    ensures ViewOf(DropMemb(s, ck, k)) ==
            ViewOf(s).(rooms := RoomsOf(s.chans)[ck := MembersOf(s.chans[ck]) - {k}])
  {
    hide Released, ReleasedKeys, MembersOf, RoomsOf;
    var c, rooms := s.chans[ck], RoomsOf(s.chans);
    RoomsAre(s.chans);
    RoomsUpdate(s.chans, ck, c.(memb := c.memb - {k}));
    NewRoom(s.chans, ck, c.(memb := map[]));
    MembersLess(c, k);
    RoomGone(s.chans, ck);
    assert rooms[ck := rooms[ck]] == rooms;
  }

  lemma RoomGone(chans: map<Key, Chan>, ck: Key)
    ensures RoomsOf(chans - {ck}) == RoomsOf(chans) - {ck}
  {
  }

  lemma {:induction false} QuitView(cfg: Config, s: State, from: string)
    requires Inv(cfg, s)
    ensures ViewOf(Quit(cfg, s, from)) == ViewOf(s).(rooms := Without(RoomsOf(s.chans), cfg.Key(from)))
  {
    hide Canon, UsersFiled, NoLeak, Covered, ChansFiled, MembersOf;
    var k := cfg.Key(from);
    forall ck | ck in s.chans
      ensures MembersOf(s.chans[ck].(memb := s.chans[ck].memb - {k})) == MembersOf(s.chans[ck]) - {k}
      ensures k !in s.users ==> MembersOf(s.chans[ck]) - {k} == MembersOf(s.chans[ck])
    {
      MembersLess(s.chans[ck], k);
    }
  }

  lemma {:induction false} MembersLess(c: Chan, k: Key)
    ensures MembersOf(c.(memb := c.memb - {k})) == MembersOf(c) - {k}
    ensures k !in c.memb ==> MembersOf(c) - {k} == MembersOf(c)
  {
  }

  lemma {:induction false} MovedView(c: Chan, k: Key, nk: Key)
    ensures var m := MembersOf(c);
            MembersOf(c.(memb := Moved(c.memb, k, nk))) ==
            if k in m then m[nk := m[k]] - {k} else m
  {
  }

  lemma {:induction false} NickView(cfg: Config, s: State, from: string, newnick: string)
    requires Inv(cfg, s) && Live(s) && RenameOk(cfg, s, from, newnick)
    ensures var t := Nick(cfg, s, from, newnick);
            && ViewOf(t).rooms == Renamed(RoomsOf(s.chans), cfg.Key(from), cfg.Key(newnick))
            && t.endofnames == s.endofnames
  {
    hide Canon, Ident2Nick, IEq, Trunc, Inv, RoomsOf, Renamed, WithMoved;
    var k, nk := cfg.Key(from), cfg.Key(newnick);
    if k !in s.users {
      NowhereRenamed(cfg, s, k, nk);
    } else if nk == k {
      SameRenamed(RoomsOf(s.chans), k);
    } else {
      RoomsRenamed(s.chans, k, nk);
    }
  }

  lemma {:induction false} NowhereRenamed(cfg: Config, s: State, k: Key, nk: Key)
    requires Inv(cfg, s) && k !in s.users
    ensures Renamed(RoomsOf(s.chans), k, nk) == RoomsOf(s.chans)
  {
    hide Canon, MembersOf, UsersFiled, NoLeak, Covered, ChansFiled;
    forall ck | ck in s.chans ensures k !in RoomsOf(s.chans)[ck] {
      MembersKeys(s.chans[ck]);
    }
  }

  lemma {:induction false} SameRenamed(rooms: map<Key, Members>, k: Key)
    ensures Renamed(rooms, k, k) == rooms
  {
    assert forall ck | ck in rooms && k in rooms[ck] :: (rooms[ck] - {k})[k := rooms[ck][k]] == rooms[ck];
  }

  lemma {:induction false} RoomsRenamed(chans: map<Key, Chan>, k: Key, nk: Key)
    requires nk != k
    ensures RoomsOf(WithMoved(chans, k, nk)) == Renamed(RoomsOf(chans), k, nk)
  {
    hide MembersOf, Moved;
    var rooms := RoomsOf(chans);
    forall ck | ck in chans
      ensures MembersOf(WithMoved(chans, k, nk)[ck]) ==
              if k in rooms[ck] then (rooms[ck] - {k})[nk := rooms[ck][k]] else rooms[ck]
    {
      var m := MembersOf(chans[ck]);
      MovedView(chans[ck], k, nk);
      assert k in m ==> m[nk := m[k]] - {k} == (m - {k})[nk := m[k]];
    }
  }

  lemma {:induction false} MembersKeys(c: Chan)
    ensures MembersOf(c).Keys == c.memb.Keys
  {
  }

  lemma {:induction false} ApplyChangesView(cfg: Config, c: Chan, chs: seq<Change>)
    requires forall i | 0 <= i < |chs| :: Applies(cfg, chs[i])
    ensures MembersOf(ApplyChanges(cfg, c, chs)) == Regraded(cfg, MembersOf(c), chs)
    decreases |chs|
  {
    hide Canon, UpdatePfx, ChangeModes, IndexOf;
    if chs != [] {
      ApplyChangesView(cfg, c, chs[..|chs| - 1]);
      assert Applies(cfg, chs[|chs| - 1]);
    }
  }

  lemma {:induction false} ChanModeView(cfg: Config, s: State, args: seq<string>)
    requires |args| >= 2 && ChanMode(cfg, s, args).1 == Done
    ensures var ck, chs := cfg.Key(args[0]), Changes(cfg, args[1], true, args[2..]);
            && (IsChannel(cfg, args[0]) && ck in s.chans ==> forall i | 0 <= i < |chs| :: Applies(cfg, chs[i]))
            && ViewOf(ChanMode(cfg, s, args).0) ==
               if !IsChannel(cfg, args[0]) || ck !in s.chans then ViewOf(s)
               else ViewOf(s).(rooms := RoomsOf(s.chans)[ck := Regraded(cfg, MembersOf(s.chans[ck]), chs)])
  {
    hide Canon, Changes, Applies, ApplyChanges, Regraded;
    var ck, chs := cfg.Key(args[0]), Changes(cfg, args[1], true, args[2..]);
    if IsChannel(cfg, args[0]) && ck in s.chans {
      ApplyChangesView(cfg, s.chans[ck], chs);
      RoomsUpdate(s.chans, ck, ApplyChanges(cfg, s.chans[ck], chs));
    }
  }

  lemma {:induction false} NamesView(cfg: Config, s: State, name: string, list: string)
    requires Inv(cfg, s) && Names(cfg, s, name, list).1 == Done
    ensures var ck, names := cfg.Key(name), NameEntries(cfg.syms, list);
            && (ck in s.chans ==> names.Some?)
            && ViewOf(Names(cfg, s, name, list).0) ==
               if ck !in s.chans then ViewOf(s)
               else ViewOf(s).(rooms := RoomsOf(s.chans)[ck :=
                      Listed(cfg, if s.endofnames then map[] else MembersOf(s.chans[ck]), names.value)],
                               endofnames := false)
  {
    hide Canon, NameEntries, Inv, EnrollAll, ClearMemb, Listed, RoomsOf, MembersOf;
    var ck := cfg.Key(name);
    if ck in s.chans {
      RoomsAre(s.chans);
      RoomsAre(StartNames(s, ck).chans);
      NameEntriesShort(cfg.syms, list);
      StartNamesKeeps(cfg, s, ck);
      LiveOf(cfg, StartNames(s, ck));
      DropView(cfg, s, ck, []);
      var t := StartNames(s, ck);
      EnrollAllView(cfg, t, ck, NameEntries(cfg.syms, list).value);
      assert MembersOf(t.chans[ck]) == RoomsOf(t.chans)[ck];
    }
  }

  lemma {:induction false} JoinView(cfg: Config, s: State, from: string, name: string)
    requires Inv(cfg, s) && Live(s)
    ensures var me := Me(cfg, s, Ident2Nick(from, MAX_NICK_LEN));
            ViewOf(Join(cfg, s, from, name)) == Joined(cfg, ViewOf(s), me, from, name) <==> JoinFits(cfg, s, from, name)
  {
    hide Canon, Ident2Nick, Inv, Enroll, EnrollKey, Trunc, IEq, RoomsOf, MembersOf;
    var ck := cfg.Key(name);
    NewRoom(s.chans, ck, Chan(Trunc(name, MAX_CHAN_LEN), map[], EmptyModes(INITIAL_MODES)));
    if !Me(cfg, s, Ident2Nick(from, MAX_NICK_LEN)) && ck in s.chans {
      EnrollView(cfg, s, ck, from, "");
      RoomsAre(s.chans);
      RoomsAre(Enroll(cfg, s, ck, from, "").chans);
      var k, m, t := EnrollKey(cfg, s, from), MembersOf(s.chans[ck]), Enroll(cfg, s, ck, from, "");
      if k != cfg.Key(from) {
        UnknownIsNowhere(cfg, s, ck, from);
        assert cfg.Key(from) !in m[k := ""] && cfg.Key(from) in m[cfg.Key(from) := ""];
        assert RoomsOf(t.chans)[ck] == m[k := ""];
      }
    }
  }

  lemma {:induction false} NewRoom(chans: map<Key, Chan>, ck: Key, c: Chan)
    requires c.memb == map[]
    ensures RoomsOf(chans[ck := c]) == RoomsOf(chans)[ck := map[]] && RoomsOf(chans).Keys == chans.Keys
  {
    RoomsUpdate(chans, ck, c);
    assert MembersOf(c) == map[];
  }

  lemma RoomsAre(chans: map<Key, Chan>)
    ensures RoomsOf(chans).Keys == chans.Keys
    ensures forall ck | ck in chans :: RoomsOf(chans)[ck] == MembersOf(chans[ck])
  {
    hide MembersOf;
  }

  /** Only an identity nobody is filed under is filed under another key. */
  lemma {:induction false} UnknownIsNowhere(cfg: Config, s: State, ck: Key, from: string)
    requires Inv(cfg, s) && ck in s.chans && EnrollKey(cfg, s, from) != cfg.Key(from)
    ensures cfg.Key(from) !in MembersOf(s.chans[ck])
  {
    hide Canon, Ident2Nick;
  }

  lemma {:induction false} LeaveView(cfg: Config, s: State, me: bool, ident: string, name: string)
    requires Inv(cfg, s)
    ensures var ck, rooms := cfg.Key(name), RoomsOf(s.chans);
            ViewOf(Leave(cfg, s, me, ident, name)) ==
            if ck !in rooms then ViewOf(s)
            else if me then ViewOf(s).(rooms := rooms - {ck})
            else ViewOf(s).(rooms := rooms[ck := rooms[ck] - {cfg.Key(ident)}])
  {
    hide Canon, DropChan, DropMemb, MembersOf, UsersFiled, NoLeak, Covered, ChansFiled;
    var ck, k, rooms := cfg.Key(name), cfg.Key(ident), RoomsOf(s.chans);
    if ck in s.chans {
      DropView(cfg, s, ck, k);
      MembersKeys(s.chans[ck]);
      if k !in s.users {
        assert rooms[ck] - {k} == rooms[ck];
        assert rooms[ck := rooms[ck]] == rooms;
      }
    }
  }

  lemma {:induction false} ModeIsView(cfg: Config, s: State, args: seq<string>)
    requires |args| >= 3
    ensures ViewOf(ModeIs(cfg, s, args)) == ViewOf(s)
  {
    hide Canon, FoldModes, Changes, MembersOf;
    var ck := cfg.Key(args[1]);
    if ck in s.chans {
      var t := ModeIs(cfg, s, args);
      assert MembersOf(t.chans[ck]) == MembersOf(s.chans[ck]) by { MembersOnly(s.chans[ck], t.chans[ck]); }
    }
  }

  lemma {:induction false} MembersOnly(c: Chan, d: Chan)
    requires c.memb == d.memb
    ensures MembersOf(c) == MembersOf(d)
  {
  }

  lemma {:induction false} StepViewPeople(cfg: Config, s: State, msg: Msg)
    requires Inv(cfg, s) && MsgOk(cfg, s, msg) && CommandOf(msg.cmd) in {JOIN, PART, KICK, QUIT, NICK}
    ensures ViewOf(Step(cfg, s, msg).0) == ViewStep(cfg, ViewOf(s), msg) <==> NickFits(cfg, s, msg)
  {
    hide Canon, IEq, Ident2Nick, CommandOf, Inv, Join, JoinOk, Leave, Quit, RenameOk, Rename, Renamed,
         RoomsOf, Without, Trunc, Names, ChanMode, ModeIs, Joined, JoinFits;
    LiveOf(cfg, s);
    if msg.prefix.Some? && |msg.args| >= MinArgs(CommandOf(msg.cmd)) {
      var from := msg.prefix.value;
      match CommandOf(msg.cmd) {
        case JOIN => JoinView(cfg, s, from, msg.args[0]);
        case PART => LeaveView(cfg, s, Me(cfg, s, Ident2Nick(from, MAX_NICK_LEN)), from, msg.args[0]);
        case KICK => LeaveView(cfg, s, Me(cfg, s, msg.args[1]), msg.args[1], msg.args[0]);
        case QUIT => QuitView(cfg, s, from);
        case NICK => NickView(cfg, s, from, msg.args[0]);
        case _ =>
      }
    }
  }

  lemma {:induction false} StepViewModes(cfg: Config, s: State, msg: Msg)
    requires Inv(cfg, s) && MsgOk(cfg, s, msg)
    requires CommandOf(msg.cmd) !in {JOIN, PART, KICK, QUIT, NICK}
    ensures ViewOf(Step(cfg, s, msg).0) == ViewStep(cfg, ViewOf(s), msg)
  {
    hide Canon, CommandOf, Inv, Names, NameEntries, Listed, ChanMode, Changes, Applies, Regraded, ModeIs,
         RoomsOf, MembersOf, Join, Leave, Quit, Nick, Live, ListOk, ModesOk, Joined, Renamed, Without;
    LiveOf(cfg, s);
    RoomsAre(s.chans);
    if msg.prefix.Some? && |msg.args| >= MinArgs(CommandOf(msg.cmd)) {
      match CommandOf(msg.cmd) {
        case N353 => NamesKeep(cfg, s, msg.args[2], msg.args[3]); NamesView(cfg, s, msg.args[2], msg.args[3]);
        case MODE => ChanModeKeeps(cfg, s, msg.args); ChanModeView(cfg, s, msg.args);
        case N324 => ModeIsView(cfg, s, msg.args);
        case _ =>
      }
    }
  }

  /** One message changes who is where as the simple reading says, if and only if a user it makes a
      member is filed under the key of the identity. */
  lemma {:induction false} StepView(cfg: Config, s: State, msg: Msg)
    requires Inv(cfg, s) && MsgOk(cfg, s, msg)
    ensures ViewOf(Step(cfg, s, msg).0) == ViewStep(cfg, ViewOf(s), msg) <==> NickFits(cfg, s, msg)
  {
    hide Step, ViewStep, MsgOk, JoinFits, Inv, ViewOf, CommandOf;
    if CommandOf(msg.cmd) in {JOIN, PART, KICK, QUIT, NICK} {
      StepViewPeople(cfg, s, msg);
    } else {
      StepViewModes(cfg, s, msg);
    }
  }

  predicate RunFits(cfg: Config, s: State, msgs: seq<Msg>)
    decreases |msgs|
  {
    msgs == [] || (NickFits(cfg, s, msgs[0]) && RunFits(cfg, Step(cfg, s, msgs[0]).0, msgs[1..]))
  }

  // ---------- which runs those are, from the messages alone ----------

  /** Nicks and channel names that fit, name lists that end in a name, prefix modes with arguments, and
      changes of case that both foldings take for one. */
  predicate Admissible(cfg: Config, msg: Msg) {
    var c := CommandOf(msg.cmd);
    c != Other && msg.prefix.Some? && |msg.args| >= MinArgs(c) ==>
      var from := msg.prefix.value;
      match c
      case JOIN => cfg.Key(Ident2Nick(from, MAX_NICK_LEN)) == cfg.Key(from)
                   && cfg.Key(Trunc(msg.args[0], MAX_CHAN_LEN)) == cfg.Key(msg.args[0])
      case NICK => IEq(cfg.cm, Ident2Nick(from, MAX_NICK_LEN), msg.args[0]) ==> cfg.Key(msg.args[0]) == cfg.Key(from)
      case N353 => ListOk(cfg.syms, msg.args[3])
      case MODE => ModesOk(cfg, msg.args[1])
      case _ => true
  }

  /** Nobody takes a nick that is in use. */
  predicate NickIsFresh(cfg: Config, s: State, msg: Msg) {
    if CommandOf(msg.cmd) != NICK || msg.prefix.None? || |msg.args| < 1 then true
    else
      var from, newnick := msg.prefix.value, msg.args[0];
      IEq(cfg.cm, Ident2Nick(from, MAX_NICK_LEN), newnick) || cfg.Key(from) !in s.users
      || cfg.Key(newnick) !in s.users
  }

  predicate NicksAreFresh(cfg: Config, s: State, msgs: seq<Msg>)
    decreases |msgs|
  {
    msgs == [] || (NickIsFresh(cfg, s, msgs[0]) && NicksAreFresh(cfg, Step(cfg, s, msgs[0]).0, msgs[1..]))
  }

  lemma {:induction false} AdmissibleIsOk(cfg: Config, s: State, msg: Msg)
    requires Admissible(cfg, msg) && NickIsFresh(cfg, s, msg)
    ensures MsgOk(cfg, s, msg) && NickFits(cfg, s, msg)
  {
    hide Canon, Ident2Nick, IEq, Trunc, CommandOf, ListOk, ModesOk, IsChannel;
  }

  /** What the messages must be for a run to be tracked faithfully; only that no nick is taken over
      depends on the base. */
  lemma {:induction false} AdmissibleRuns(cfg: Config, s: State, msgs: seq<Msg>)
    requires (forall i | 0 <= i < |msgs| :: Admissible(cfg, msgs[i])) && NicksAreFresh(cfg, s, msgs)
    ensures RunOk(cfg, s, msgs) && RunFits(cfg, s, msgs)
    decreases |msgs|
  {
    hide Admissible, NickIsFresh, MsgOk, NickFits, Step;
    if msgs != [] {
      AdmissibleIsOk(cfg, s, msgs[0]);
      AdmissibleRuns(cfg, Step(cfg, s, msgs[0]).0, msgs[1..]);
    }
  }

  lemma {:induction false} ViewRunCons(cfg: Config, v: View, msgs: seq<Msg>)
    requires msgs != []
    ensures ViewRun(cfg, v, msgs) == ViewRun(cfg, ViewStep(cfg, v, msgs[0]), msgs[1..])
    decreases |msgs|
  {
    hide ViewStep;
    if |msgs| > 1 {
      ViewRunCons(cfg, v, msgs[..|msgs| - 1]);
      assert msgs[1..][..|msgs| - 2] == msgs[..|msgs| - 1][1..];
    }
  }

  /** Over every run of admissible messages the redundant base shows exactly the rooms of the
      simple reading; with exact counts its user map is the set of all members and each record
      counts its rooms, so the whole base is determined by the simple reading. */
  lemma {:induction false} RunView(cfg: Config, s: State, msgs: seq<Msg>)
    requires Inv(cfg, s) && NulFree(msgs) && RunOk(cfg, s, msgs) && RunFits(cfg, s, msgs)
    ensures ViewOf(Run(cfg, s, msgs)) == ViewRun(cfg, ViewOf(s), msgs)
    ensures Exact(cfg, s) && RunNoReadd(cfg, s, msgs) ==>
            var t := Run(cfg, s, msgs); Determined(t, ViewOf(t).rooms)
    decreases |msgs|
  {
    hide Canon, Inv, Exact, Step, ViewStep, MsgOk, NoReadd, NickFits, ViewOf;
    if msgs != [] {
      StepKeepsIff(cfg, s, msgs[0]);
      StepView(cfg, s, msgs[0]);
      RunView(cfg, Step(cfg, s, msgs[0]).0, msgs[1..]);
      ViewRunCons(cfg, ViewOf(s), msgs);
    }
    if Exact(cfg, s) && RunNoReadd(cfg, s, msgs) {
      RunKeeps(cfg, s, msgs);
      ExactIsDetermined(cfg, Run(cfg, s, msgs));
    }
  }

  /** The user map holds the people in the rooms, each record counting its rooms. */
  ghost predicate Determined(t: State, rooms: map<Key, Members>) {
    && (forall k :: k in t.users <==> Inside(rooms, k))
    && (forall k | k in t.users ::
          t.users[k] in t.mem && t.mem[t.users[k]].nchans == |RoomsWith(rooms, k)|)
  }

  lemma {:induction false} ExactIsDetermined(cfg: Config, t: State)
    requires Exact(cfg, t)
    ensures Determined(t, ViewOf(t).rooms)
  {
    hide Canon, Exact, ViewOf, Homes;
    forall k
      ensures k in t.users <==> Inside(ViewOf(t).rooms, k)
      ensures k in t.users ==> t.users[k] in t.mem && t.mem[t.users[k]].nchans == |RoomsWith(ViewOf(t).rooms, k)|
    {
      ExactUsers(cfg, t, k);
      ViewHomes(t, k);
    }
  }

  ghost predicate Inside(rooms: map<Key, Members>, k: Key) {
    exists ck | ck in rooms :: k in rooms[ck]
  }

  ghost function RoomsWith(rooms: map<Key, Members>, k: Key): set<Key> {
    set ck | ck in rooms && k in rooms[ck]
  }

  lemma {:induction false} ViewHomes(s: State, k: Key)
    ensures RoomsWith(ViewOf(s).rooms, k) == Homes(s.chans, k)
    ensures Inside(ViewOf(s).rooms, k) <==> exists ck | ck in s.chans :: k in s.chans[ck].memb
  {
    forall ck | ck in s.chans ensures k in ViewOf(s).rooms[ck] <==> k in s.chans[ck].memb {
    }
    if ck :| ck in s.chans && k in s.chans[ck].memb {
      assert ck in ViewOf(s).rooms;
    }
  }

  // ---------- a run of 353 lines ----------

  ghost predicate NamesFor(cfg: Config, ck: Key, msg: Msg) {
    && CommandOf(msg.cmd) == N353 && msg.prefix.Some? && |msg.args| >= 4
    && cfg.Key(msg.args[2]) == ck && NameEntries(cfg.syms, msg.args[3]).Some?
  }

  ghost predicate AllNamesFor(cfg: Config, ck: Key, msgs: seq<Msg>) {
    forall i | 0 <= i < |msgs| :: NamesFor(cfg, ck, msgs[i])
  }

  /** The entries of a 353 line. */
  function EntriesOf(cfg: Config, msg: Msg): seq<NameEntry> {
    if |msg.args| < 4 || NameEntries(cfg.syms, msg.args[3]).None? then []
    else NameEntries(cfg.syms, msg.args[3]).value
  }

  function AllNames(cfg: Config, msgs: seq<Msg>): seq<NameEntry> {
    if msgs == [] then [] else EntriesOf(cfg, msgs[0]) + AllNames(cfg, msgs[1..])
  }

  ghost function KeysOf(cfg: Config, names: seq<NameEntry>): set<Key> {
    set e | e in names :: cfg.Key(e.nick)
  }

  lemma {:induction false} NewNamesConcat(cfg: Config, present: set<Key>, a: seq<NameEntry>, b: seq<NameEntry>)
    ensures NewNames(cfg, present, a + b) <==> NewNames(cfg, present, a) && NewNames(cfg, present + KeysOf(cfg, a), b)
    decreases |a|
  {
    hide Canon;
    if a == [] {
      assert a + b == b && present + KeysOf(cfg, a) == present;
    } else {
      var k := cfg.Key(a[0].nick);
      NewNamesConcat(cfg, present + {k}, a[1..], b);
      assert (a + b)[1..] == a[1..] + b;
      assert KeysOf(cfg, a) == {k} + KeysOf(cfg, a[1..]) by { assert a == [a[0]] + a[1..]; }
      assert present + KeysOf(cfg, a) == present + {k} + KeysOf(cfg, a[1..]);
    }
  }

  lemma {:induction false} ListedConcat(cfg: Config, m: Members, a: seq<NameEntry>, b: seq<NameEntry>)
    ensures Listed(cfg, m, a + b) == Listed(cfg, Listed(cfg, m, a), b)
    decreases |b|
  {
    hide Canon;
    if b == [] {
      assert a + b == a;
    } else {
      ListedConcat(cfg, m, a, b[..|b| - 1]);
      assert (a + b)[..|a + b| - 1] == a + b[..|b| - 1];
    }
  }

  lemma {:induction false} ListedKeys(cfg: Config, m: Members, names: seq<NameEntry>)
    ensures Listed(cfg, m, names).Keys == m.Keys + KeysOf(cfg, names)
    decreases |names|
  {
    hide Canon;
    if names != [] {
      var n := |names| - 1;
      ListedKeys(cfg, m, names[..n]);
      assert KeysOf(cfg, names) == KeysOf(cfg, names[..n]) + {cfg.Key(names[n].nick)} by {
        assert names == names[..n] + [names[n]];
      }
    }
  }

  lemma {:induction false} ListedDistinct(cfg: Config, m: Members, names: seq<NameEntry>, e: NameEntry)
    requires NewNames(cfg, m.Keys, names) && e in names
    ensures var l := Listed(cfg, m, names); cfg.Key(e.nick) in l && l[cfg.Key(e.nick)] == e.pfx
    decreases |names|
  {
    hide Canon;
    var n := |names| - 1;
    assert names == names[..n] + [names[n]];
    NewNamesConcat(cfg, m.Keys, names[..n], [names[n]]);
    ListedKeys(cfg, m, names);
    if e != names[n] {
      ListedDistinct(cfg, m, names[..n], e);
      assert cfg.Key(e.nick) in KeysOf(cfg, names[..n]);
    }
  }

  /** The members a 353 line starts from. */
  function StartOf(v: View, ck: Key): Members
    requires ck in v.rooms
  {
    if v.endofnames then map[] else v.rooms[ck]
  }

  /** The names were added to what the first of their lines started from. */
  ghost predicate NamesAdded(cfg: Config, s: State, t: State, ck: Key, names: seq<NameEntry>) {
    var v := ViewOf(s);
    && Inv(cfg, t) && !t.endofnames && ck in v.rooms
    && (Exact(cfg, s) && NewNames(cfg, StartOf(v, ck).Keys, names) ==> Exact(cfg, t))
    && ViewOf(t).rooms == v.rooms[ck := Listed(cfg, StartOf(v, ck), names)]
  }

  lemma {:induction false} OneNamesLine(cfg: Config, s: State, ck: Key, msg: Msg)
    requires Inv(cfg, s) && ck in s.chans && NamesFor(cfg, ck, msg)
    ensures NamesAdded(cfg, s, Step(cfg, s, msg).0, ck, EntriesOf(cfg, msg))
  {
    hide Canon, Inv, Exact, NameEntries, Listed, NewNames, Names, MembersOf, ListOk;
    LiveOf(cfg, s);
    ListOkIff(cfg.syms, msg.args[3]);
    NamesKeep(cfg, s, msg.args[2], msg.args[3]);
    NamesView(cfg, s, msg.args[2], msg.args[3]);
    MembersKeys(s.chans[ck]);
    assert Step(cfg, s, msg).0 == Names(cfg, s, msg.args[2], msg.args[3]).0;
    assert StartOf(ViewOf(s), ck).Keys == if s.endofnames then {} else s.chans[ck].memb.Keys;
  }

  lemma {:induction false} NamesAddedTwice(cfg: Config, s: State, u: State, t: State, ck: Key,
                                           a: seq<NameEntry>, b: seq<NameEntry>)
    requires NamesAdded(cfg, s, u, ck, a) && NamesAdded(cfg, u, t, ck, b)
    ensures NamesAdded(cfg, s, t, ck, a + b)
  {
    hide Canon, Inv, Exact, Listed, NewNames, KeysOf, RoomsOf;
    var start := StartOf(ViewOf(s), ck);
    ListedConcat(cfg, start, a, b);
    ListedKeys(cfg, start, a);
    NewNamesConcat(cfg, start.Keys, a, b);
    assert StartOf(ViewOf(u), ck) == Listed(cfg, start, a);
  }

  lemma {:induction false} MoreNames(cfg: Config, s: State, ck: Key, msgs: seq<Msg>)
    requires Inv(cfg, s) && ck in s.chans && AllNamesFor(cfg, ck, msgs) && msgs != []
    ensures NamesAdded(cfg, s, Run(cfg, s, msgs), ck, AllNames(cfg, msgs))
    decreases |msgs|
  {
    var t := Step(cfg, s, msgs[0]).0;
    OneNamesLine(cfg, s, ck, msgs[0]);
    assert ck in ViewOf(t).rooms;
    if |msgs| == 1 {
      assert AllNames(cfg, msgs[1..]) == [];
      assert EntriesOf(cfg, msgs[0]) + [] == EntriesOf(cfg, msgs[0]);
    } else {
      hide Canon, Inv, Exact, NamesFor, EntriesOf, Listed, NewNames, Step, KeysOf;
      assert AllNamesFor(cfg, ck, msgs[1..]);
      MoreNames(cfg, t, ck, msgs[1..]);
      hide ViewOf;
      NamesAddedTwice(cfg, s, t, Run(cfg, s, msgs), ck, EntriesOf(cfg, msgs[0]), AllNames(cfg, msgs[1..]));
    }
  }

  /** Channel ck holds exactly the listed nicks, each with its symbol, the other rooms are as
      before, and the user map holds the listed nicks and the members of the other rooms. */
  ghost predicate ReplacedBy(cfg: Config, s: State, t: State, ck: Key, names: seq<NameEntry>) {
    var rooms, rooms' := ViewOf(s).rooms, ViewOf(t).rooms;
    && ck in rooms' && rooms' == rooms[ck := rooms'[ck]]
    && rooms'[ck].Keys == KeysOf(cfg, names)
    && (forall e | e in names :: cfg.Key(e.nick) in rooms'[ck] && rooms'[ck][cfg.Key(e.nick)] == e.pfx)
    && (forall k :: k in t.users <==> k in KeysOf(cfg, names) || Inside(rooms - {ck}, k))
  }

  /** A run of 353 lines for one known channel, begun with the flag set and naming nobody
      twice, replaces the members of that channel by the listed nicks; users whose last
      channel it was and who are not listed again are gone. */
  lemma {:induction false} NamesRunReplaces(cfg: Config, s: State, ck: Key, msgs: seq<Msg>)
    requires Exact(cfg, s) && s.endofnames && ck in s.chans && msgs != []
    requires AllNamesFor(cfg, ck, msgs) && NewNames(cfg, {}, AllNames(cfg, msgs))
    ensures var t := Run(cfg, s, msgs);
            Exact(cfg, t) && !t.endofnames && ReplacedBy(cfg, s, t, ck, AllNames(cfg, msgs))
  {
    MoreNames(cfg, s, ck, msgs);
    var none: Members := map[];
    assert StartOf(ViewOf(s), ck) == none && none.Keys == {};
    hide Canon, Inv, Run, AllNames, NamesFor, NewNames, Listed, ViewOf, ReplacedBy, Exact;
    ListedReplaces(cfg, s, Run(cfg, s, msgs), ck, AllNames(cfg, msgs), none);
  }

  lemma {:induction false} ListedReplaces(cfg: Config, s: State, t: State, ck: Key,
                                          names: seq<NameEntry>, none: Members)
    requires Exact(cfg, t) && NewNames(cfg, none.Keys, names) && none == map[]
    requires ViewOf(t).rooms == ViewOf(s).rooms[ck := Listed(cfg, none, names)]
    ensures ReplacedBy(cfg, s, t, ck, names)
  {
    hide Canon, Exact, NewNames, Listed, KeysOf, ViewOf, Inside, RoomsWith;
    var rooms, m := ViewOf(s).rooms, Listed(cfg, none, names);
    ListedKeys(cfg, none, names);
    forall e | e in names ensures cfg.Key(e.nick) in m && m[cfg.Key(e.nick)] == e.pfx {
      ListedDistinct(cfg, none, names, e);
    }
    UsersAfter(cfg, t, rooms, ck, m);
    assert rooms[ck := m][ck] == m && rooms[ck := m] == rooms[ck := rooms[ck := m][ck]];
  }

  /** Who is tracked once the members of one room are replaced. */
  lemma {:induction false} UsersAfter(cfg: Config, t: State, rooms: map<Key, Members>, ck: Key, m: Members)
    requires Exact(cfg, t) && ViewOf(t).rooms == rooms[ck := m]
    ensures forall k :: k in t.users <==> k in m.Keys || Inside(rooms - {ck}, k)
  {
    hide Canon, Exact, ViewOf, Inside, RoomsWith;
    ExactIsDetermined(cfg, t);
    forall k ensures Inside(rooms[ck := m], k) <==> k in m.Keys || Inside(rooms - {ck}, k) {
      InsideUpdate(rooms, ck, m, k);
    }
  }

  lemma {:induction false} InsideUpdate(rooms: map<Key, Members>, ck: Key, m: Members, k: Key)
    ensures Inside(rooms[ck := m], k) <==> k in m || Inside(rooms - {ck}, k)
  {
    assert k in m ==> k in rooms[ck := m][ck];
    if Inside(rooms - {ck}, k) {
      var dk :| dk in rooms - {ck} && k in (rooms - {ck})[dk];
      assert k in rooms[ck := m][dk];
    }
    if Inside(rooms[ck := m], k) {
      var dk :| dk in rooms[ck := m] && k in rooms[ck := m][dk];
      assert dk != ck ==> dk in rooms - {ck} && k in (rooms - {ck})[dk];
    }
  }
}
