// What each tracked message does to the rooms, command by command, said about the
// members of the channels themselves.
module Effects {
  import opened CStrings
  import opened CaseMap
  import opened Message
  import opened Modes
  import opened Tracking
  import opened TrackingLemmas
  import opened Handlers
  import opened HandlerLemmas
  import Slots

  /** Nothing but members, users and records differs. */
  ghost predicate SameElse(s: State, t: State) {
    t.chans.Keys == s.chans.Keys && t.endofnames == s.endofnames && t.mynick == s.mynick
  }

  /** `k` has left the rooms `cks`; in all other respects every room is as it was. */
  ghost predicate HasLeft(s: State, t: State, cks: set<Key>, k: Key) {
    && SameElse(s, t)
    && forall ck | ck in s.chans ::
         t.chans[ck] == if ck in cks then s.chans[ck].(memb := s.chans[ck].memb - {k}) else s.chans[ck]
  }

  // ---------- which handler a command names ----------

  lemma CommandsAre()
    ensures CommandOf("JOIN") == JOIN && CommandOf("PART") == PART && CommandOf("QUIT") == QUIT
    ensures CommandOf("KICK") == KICK && CommandOf("NICK") == NICK
  {
  }

  lemma RepliesAre()
    ensures CommandOf("353") == N353 && CommandOf("366") == N366 && CommandOf("324") == N324
    ensures CommandOf("MODE") == MODE
  {
  }

  lemma {:induction false} DispatchPeople(cfg: Config, s: State, from: string, args: seq<string>)
    requires Live(s)
    ensures |args| >= 1 ==> Step(cfg, s, Msg(Some(from), "JOIN", args)) == (Join(cfg, s, from, args[0]), Done)
    ensures |args| >= 1 ==>
              Step(cfg, s, Msg(Some(from), "PART", args)) ==
              (Leave(cfg, s, Me(cfg, s, Ident2Nick(from, MAX_NICK_LEN)), from, args[0]), Done)
    ensures Step(cfg, s, Msg(Some(from), "QUIT", args)) == (Quit(cfg, s, from), Done)
    ensures |args| >= 2 ==>
              Step(cfg, s, Msg(Some(from), "KICK", args)) ==
              (Leave(cfg, s, Me(cfg, s, args[1]), args[1], args[0]), Done)
    ensures |args| >= 1 ==> Step(cfg, s, Msg(Some(from), "NICK", args)) == (Nick(cfg, s, from, args[0]), Done)
  {
    hide CommandOf, Canon, IEq, Ident2Nick, Live, Join, Leave, Quit, Nick;
    CommandsAre();
  }

  lemma {:induction false} DispatchReplies(cfg: Config, s: State, from: string, args: seq<string>)
    requires Live(s)
    ensures |args| >= 4 ==> Step(cfg, s, Msg(Some(from), "353", args)) == Handlers.Names(cfg, s, args[2], args[3])
    ensures |args| >= 2 ==> Step(cfg, s, Msg(Some(from), "366", args)) == (s.(endofnames := true), Done)
    ensures |args| >= 2 ==> Step(cfg, s, Msg(Some(from), "MODE", args)) == ChanMode(cfg, s, args)
    ensures |args| >= 3 ==> Step(cfg, s, Msg(Some(from), "324", args)) == (ModeIs(cfg, s, args), Done)
  {
    hide CommandOf, Canon, Live, Handlers.Names, ChanMode, ModeIs;
    RepliesAre();
  }

  // ---------- identities ----------

  predicate NoEnds(nick: string) {
    forall c | c in nick :: c != '!' && c != '@' && c != '\0'
  }

  /** What may follow the nick in an identity. */
  predicate IsTail(tail: string) {
    tail == "" || tail[0] == '!' || tail[0] == '@'
  }

  lemma {:induction false} CutIs(s: string, c: char, n: nat)
    requires n <= |s| && c !in s[..n] && (n < |s| ==> s[n] == c)
    ensures CutAt(s, c) == s[..n]
  {
    assert forall j | 0 <= j < n :: s[j] == s[..n][j];
    IndexOfIs(s, c, n);
  }

  lemma {:induction false} IndexIsLater(s: string, c: char, n: nat)
    requires n <= |s| && forall j | 0 <= j < n :: s[j] != c
    ensures n <= IndexOf(s, c) && (n < |s| && s[n] != c ==> n < IndexOf(s, c))
  {
  }

  lemma {:induction false} CutLater(s: string, c: char, n: nat)
    requires n <= |s| && c !in s[..n]
    ensures n <= |CutAt(s, c)| && CutAt(s, c)[..n] == s[..n]
    ensures n < |s| && s[n] != c ==> n < |CutAt(s, c)| && CutAt(s, c)[n] == s[n]
  {
    assert forall j | 0 <= j < n :: s[..n][j] != c && s[j] == s[..n][j];
    IndexIsLater(s, c, n);
  }

  /** The nick and the key of an identity whose nick fits the buffer. */
  lemma {:induction false} NickOf(cm: CaseMapping, nick: string, tail: string, sz: nat)
    requires NoEnds(nick) && IsTail(tail) && |nick| < sz
    ensures Ident2Nick(nick + tail, sz) == nick && Canon(cm, nick + tail) == Canon(cm, nick)
  {
    hide Fold, Canon, IndexOf, CutAt;
    var ident, n := nick + tail, |nick|;
    var t := Trunc(ident, sz);
    assert t[..n] == nick && ident[..n] == nick;
    if n < |t| && t[n] == '@' {
      CutIs(t, '@', n);
      assert nick[..n] == nick;
      CutIs(nick, '!', n);
    } else {
      CutLater(t, '@', n);
      var u := CutAt(t, '@');
      CutIs(u, '!', n);
    }
    KeyOfFront(cm, nick, tail);
  }

  lemma {:induction false} KeyOfFront(cm: CaseMapping, nick: string, tail: string)
    requires IsTail(tail)
    ensures Canon(cm, nick + tail) == Canon(cm, nick)
  {
    if nick == [] {
      assert nick + tail == tail;
    } else {
      assert (nick + tail)[1..] == nick[1..] + tail;
      KeyOfFront(cm, nick[1..], tail);
    }
  }

  // ---------- leaving ----------

  lemma {:induction false} LeaveTakesOut(cfg: Config, s: State, ident: string, name: string)
    requires Inv(cfg, s)
    ensures HasLeft(s, Leave(cfg, s, false, ident, name), {cfg.Key(name)}, cfg.Key(ident))
  {
    hide Canon, UsersFiled, NoLeak, Covered, ChansFiled, Released, ReleasedKeys;
    var ck, k := cfg.Key(name), cfg.Key(ident);
    if ck in s.chans && k !in s.chans[ck].memb {
      assert s.chans[ck].memb - {k} == s.chans[ck].memb;
    }
  }

  /** KICK of somebody else takes that member out of that room, and nobody out of any other. */
  lemma {:induction false} KickTakesOut(cfg: Config, s: State, from: string, name: string, who: string,
                                        more: seq<string>)
    requires Inv(cfg, s) && !IEq(cfg.cm, who, s.mynick)
    ensures var (t, r) := Step(cfg, s, Msg(Some(from), "KICK", [name, who] + more));
            r == Done && HasLeft(s, t, {cfg.Key(name)}, cfg.Key(who))
  {
    hide Canon, IEq, Inv, Leave, HasLeft, Live, Step;
    LiveOf(cfg, s);
    DispatchPeople(cfg, s, from, [name, who] + more);
    LeaveTakesOut(cfg, s, who, name);
  }

  /** KICK of us removes that room and no other. */
  lemma {:induction false} KickOfUs(cfg: Config, s: State, from: string, name: string, who: string, more: seq<string>)
    requires Inv(cfg, s) && IEq(cfg.cm, who, s.mynick)
    ensures var (t, r) := Step(cfg, s, Msg(Some(from), "KICK", [name, who] + more));
            && r == Done && t.chans == s.chans - {cfg.Key(name)}
            && t.endofnames == s.endofnames && t.mynick == s.mynick
  {
    hide Canon, IEq, Inv, Live, Released, ReleasedKeys, Step;
    LiveOf(cfg, s);
    DispatchPeople(cfg, s, from, [name, who] + more);
  }

  /** PART of somebody else takes the sender out of that room, PART of us removes it. */
  lemma {:induction false} PartTakesOut(cfg: Config, s: State, from: string, name: string, more: seq<string>)
    requires Inv(cfg, s)
    ensures var (t, r) := Step(cfg, s, Msg(Some(from), "PART", [name] + more));
            && r == Done
            && if IEq(cfg.cm, Ident2Nick(from, 64), s.mynick)
               then t.chans == s.chans - {cfg.Key(name)} && t.endofnames == s.endofnames && t.mynick == s.mynick
               else HasLeft(s, t, {cfg.Key(name)}, cfg.Key(from))
  {
    hide Canon, IEq, Inv, Ident2Nick, HasLeft, Live, Released, ReleasedKeys, Step;
    LiveOf(cfg, s);
    DispatchPeople(cfg, s, from, [name] + more);
    LeaveTakesOut(cfg, s, from, name);
  }

  /** QUIT takes the sender out of every room. */
  lemma {:induction false} QuitTakesOut(cfg: Config, s: State, from: string, args: seq<string>)
    requires Inv(cfg, s)
    ensures var (t, r) := Step(cfg, s, Msg(Some(from), "QUIT", args));
            && r == Done && HasLeft(s, t, s.chans.Keys, cfg.Key(from))
            && t.users == s.users - {cfg.Key(from)}
  {
    hide Canon, UsersFiled, NoLeak, Covered, ChansFiled, Step;
    LiveOf(cfg, s);
    DispatchPeople(cfg, s, from, args);
    var k := cfg.Key(from);
    forall ck | ck in s.chans && k !in s.users ensures s.chans[ck].memb - {k} == s.chans[ck].memb {
    }
    assert k !in s.users ==> s.users - {k} == s.users;
  }

  // ---------- joining ----------

  /** JOIN of somebody else: a member of that room with no prefix, under the nick as it was spelled
      if it is a new one; nothing else changes, and nothing at all where we are not in the room. */
  lemma {:induction false} JoinEnters(cfg: Config, s: State, nick: string, tail: string, name: string,
                                      more: seq<string>)
    requires Inv(cfg, s) && NoEnds(nick) && IsTail(tail) && |nick| < 64 && !IEq(cfg.cm, nick, s.mynick)
    ensures var (t, r) := Step(cfg, s, Msg(Some(nick + tail), "JOIN", [name] + more));
            var ck, k := cfg.Key(name), cfg.Key(nick);
            && r == Done
            && if ck !in s.chans then t == s
               else
                 && k in t.users && SameElse(s, t)
                 && t.chans == s.chans[ck := s.chans[ck].(memb := s.chans[ck].memb[k := Memb(t.users[k], "")])]
                 && t.users == s.users[k := t.users[k]] && (k in s.users ==> t.users[k] == s.users[k])
                 && t.mem == s.mem[t.users[k] :=
                      if k in s.users then s.mem[s.users[k]].(nchans := s.mem[s.users[k]].nchans + 1)
                      else User(nick, 1)]
  {
    hide Canon, IEq, Ident2Nick, NoEnds, IsTail, NoLeak, Covered, ChansFiled, Linked, Step;
    LiveOf(cfg, s);
    DispatchPeople(cfg, s, nick + tail, [name] + more);
    NickOf(cfg.cm, nick, tail, 64);
  }

  /** JOIN of ours: an empty room without modes, unless we are in it already. */
  lemma {:induction false} WeEnter(cfg: Config, s: State, nick: string, tail: string, name: string, more: seq<string>)
    requires Inv(cfg, s) && NoEnds(nick) && IsTail(tail) && |nick| < 64 && IEq(cfg.cm, nick, s.mynick)
    ensures var (t, r) := Step(cfg, s, Msg(Some(nick + tail), "JOIN", [name] + more));
            var ck := cfg.Key(name);
            && r == Done && t == s.(chans := t.chans)
            && if ck in s.chans then t == s
               else
                 && t.chans.Keys == s.chans.Keys + {ck} && (forall dk | dk in s.chans :: t.chans[dk] == s.chans[dk])
                 && t.chans[ck].name == (if |name| < 256 then name else name[..255]) && t.chans[ck].memb == map[]
                 && |t.chans[ck].modes| == 16 && forall i | 0 <= i < 16 :: t.chans[ck].modes[i].None?
  {
    hide Canon, IEq, Ident2Nick, NoEnds, IsTail, Inv, Step;
    LiveOf(cfg, s);
    DispatchPeople(cfg, s, nick + tail, [name] + more);
    NickOf(cfg.cm, nick, tail, 64);
  }

  // ---------- changing the nick ----------

  /** NICK to the same nick in other letters, upper for lower or lower for upper: the user and every
      membership stay, and the record has the new spelling. */
  lemma {:induction false} NickOfOtherCase(cfg: Config, s: State, nick: string, tail: string, newnick: string,
                                           more: seq<string>)
    requires Inv(cfg, s) && NoEnds(nick) && IsTail(tail) && |nick| < 64
    requires |newnick| == |nick| && forall i | 0 <= i < |nick| :: SameButCase(nick[i], newnick[i], 'Z')
    ensures var (t, r) := Step(cfg, s, Msg(Some(nick + tail), "NICK", [newnick] + more));
            && r == Done && SameNick(cfg, s, t, nick, newnick)
  {
    hide IsTail, Inv, IEq, Canon, SameNick;
    forall i | 0 <= i < |newnick| ensures newnick[i] != '!' && newnick[i] != '@' && newnick[i] != '\0' {
      assert nick[i] in nick;
    }
    assert NoEnds(newnick);
    OtherCaseIsEqual(cfg.cm, nick, newnick);
    SameKeyStays(cfg, s, nick, tail, newnick, more);
  }

  /** So does NICK to any other spelling with the same key, for nicks the two case mappings agree on. */
  lemma {:induction false} NickOfSameKey(cfg: Config, s: State, nick: string, tail: string, newnick: string,
                                         more: seq<string>)
    requires Inv(cfg, s) && IsTail(tail) && |nick| < 64 && Plain(cfg.cm, nick) && Plain(cfg.cm, newnick)
    requires cfg.Key(newnick) == cfg.Key(nick)
    ensures var (t, r) := Step(cfg, s, Msg(Some(nick + tail), "NICK", [newnick] + more));
            && r == Done && SameNick(cfg, s, t, nick, newnick)
  {
    hide IsTail, Inv, IEq, Canon, SameNick;
    PlainHasNoEnds(cfg.cm, nick);
    PlainHasNoEnds(cfg.cm, newnick);
    IEqIsKeyEq(cfg.cm, nick, newnick);
    IEqIsKeyEq(cfg.cm, newnick, nick);
    SameKeyStays(cfg, s, nick, tail, newnick, more);
  }

  lemma PlainHasNoEnds(cm: CaseMapping, s: string)
    requires Plain(cm, s)
    ensures NoEnds(s)
  {
  }

  /** Nobody is filed differently; the record of the user, where there is one, is respelled. */
  ghost predicate SameNick(cfg: Config, s: State, t: State, nick: string, newnick: string) {
    var k := cfg.Key(nick);
    && t.users == s.users && t.chans == s.chans && t.endofnames == s.endofnames
    && t.mynick == (if IEq(cfg.cm, nick, s.mynick) then newnick else s.mynick)
    && if k in s.users then
         && s.users[k] in s.mem
         && t.mem == s.mem[s.users[k] := User(newnick, s.mem[s.users[k]].nchans)]
       else t.mem == s.mem
  }

  lemma {:induction false} SameKeyStays(cfg: Config, s: State, nick: string, tail: string, newnick: string,
                                        more: seq<string>)
    requires Inv(cfg, s) && NoEnds(nick) && NoEnds(newnick) && IsTail(tail) && |nick| < 64
    requires IEq(cfg.cm, nick, newnick) && cfg.Key(newnick) == cfg.Key(nick) && |cfg.Key(nick)| == |nick|
    ensures var (t, r) := Step(cfg, s, Msg(Some(nick + tail), "NICK", [newnick] + more));
            && r == Done && SameNick(cfg, s, t, nick, newnick)
  {
    hide Canon, Ident2Nick, NoEnds, IsTail, NoLeak, Covered, ChansFiled, Linked, Step;
    LiveOf(cfg, s);
    DispatchPeople(cfg, s, nick + tail, [newnick] + more);
    NickOf(cfg.cm, nick, tail, 64);
    NickOf(cfg.cm, nick, tail, 128);
    if cfg.Key(nick) in s.users {
      CanonShape(cfg.cm, s.mem[s.users[cfg.Key(nick)]].nick);
    }
  }

  /** NICK to a nick nobody has: the one record moves to the new key, with the new spelling, in the
      user map and in exactly the rooms that had it, each with the prefix it had there. */
  lemma {:induction false} NickMoves(cfg: Config, s: State, nick: string, tail: string, newnick: string,
                                     more: seq<string>)
    requires Inv(cfg, s) && IsTail(tail) && |nick| < 64
    requires Plain(cfg.cm, nick) && Plain(cfg.cm, newnick)
    requires cfg.Key(nick) in s.users && cfg.Key(newnick) !in s.users
    ensures var (t, r) := Step(cfg, s, Msg(Some(nick + tail), "NICK", [newnick] + more));
            var k, nk, p := cfg.Key(nick), cfg.Key(newnick), s.users[cfg.Key(nick)];
            && r == Done && t.endofnames == s.endofnames && t.chans.Keys == s.chans.Keys
            && t.users == (s.users - {k})[nk := p]
            && p in s.mem && t.mem == s.mem[p := User(newnick, s.mem[p].nchans)]
            && forall ck | ck in s.chans ::
                 var m := s.chans[ck].memb;
                 t.chans[ck] == s.chans[ck].(memb := if k in m then (m - {k})[nk := m[k]] else m)
  {
    hide Canon, Ident2Nick, IEq, NoEnds, IsTail, NoLeak, Covered, ChansFiled, Linked, Step;
    LiveOf(cfg, s);
    DispatchPeople(cfg, s, nick + tail, [newnick] + more);
    PlainHasNoEnds(cfg.cm, nick);
    NickOf(cfg.cm, nick, tail, 64);
    NickOf(cfg.cm, nick, tail, 128);
    IEqIsKeyEq(cfg.cm, nick, newnick);
    var k, nk := cfg.Key(nick), cfg.Key(newnick);
    assert k != nk;
    forall ck | ck in s.chans
      ensures var m := s.chans[ck].memb; Moved(m, k, nk) == if k in m then (m - {k})[nk := m[k]] else m
    {
    }
  }

  /** NICK of somebody nobody knows changes nothing but perhaps our own nick. */
  lemma {:induction false} NickOfUnknown(cfg: Config, s: State, nick: string, tail: string, newnick: string,
                                         more: seq<string>)
    requires Inv(cfg, s) && NoEnds(nick) && IsTail(tail) && |nick| < 64 && cfg.Key(nick) !in s.users
    ensures var (t, r) := Step(cfg, s, Msg(Some(nick + tail), "NICK", [newnick] + more));
            && r == Done && t == s.(mynick := t.mynick)
  {
    hide Canon, Ident2Nick, IEq, NoEnds, IsTail, Inv, Step;
    LiveOf(cfg, s);
    DispatchPeople(cfg, s, nick + tail, [newnick] + more);
    NickOf(cfg.cm, nick, tail, 64);
    NickOf(cfg.cm, nick, tail, 128);
  }

  /** Our own nick follows a NICK of ours, for senders of up to 127 characters, and is cut to 63. */
  lemma {:induction false} OurNickFollows(cfg: Config, s: State, nick: string, tail: string, newnick: string,
                                          more: seq<string>)
    requires Inv(cfg, s) && NoEnds(nick) && IsTail(tail) && |nick| < 128
    ensures var (t, r) := Step(cfg, s, Msg(Some(nick + tail), "NICK", [newnick] + more));
            && r == Done && t.endofnames == s.endofnames
            && t.mynick == if !IEq(cfg.cm, nick, s.mynick) then s.mynick
                           else if |newnick| < 64 then newnick else newnick[..63]
  {
    hide Canon, Ident2Nick, IEq, NoEnds, IsTail, Inv, Step, WithMoved, Moved;
    LiveOf(cfg, s);
    DispatchPeople(cfg, s, nick + tail, [newnick] + more);
    NickOf(cfg.cm, nick, tail, 128);
  }

  // ---------- the rest ----------

  /** 366 sets the flag and nothing else. */
  lemma {:induction false} EndOfNamesSetsFlag(cfg: Config, s: State, from: string, x: string, y: string,
                                              more: seq<string>)
    requires Inv(cfg, s)
    ensures Step(cfg, s, Msg(Some(from), "366", [x, y] + more)) == (s.(endofnames := true), Done)
  {
    hide Canon, Inv, Live, Step;
    LiveOf(cfg, s);
    DispatchReplies(cfg, s, from, [x, y] + more);
  }

  /** 324 changes the modes of that one channel and nothing else. */
  lemma {:induction false} ModeReplyIsLocal(cfg: Config, s: State, from: string, x: string, name: string, text: string,
                                            args: seq<string>)
    requires Inv(cfg, s)
    ensures var (t, r) := Step(cfg, s, Msg(Some(from), "324", [x, name, text] + args));
            var ck := cfg.Key(name);
            && r == Done
            && if ck !in s.chans then t == s
               else ck in t.chans && t == s.(chans := s.chans[ck := s.chans[ck].(modes := t.chans[ck].modes)])
  {
    hide Canon, Inv, Live, Changes, FoldModes, Step;
    LiveOf(cfg, s);
    DispatchReplies(cfg, s, from, [x, name, text] + args);
  }

  predicate Tracked(cmd: string) {
    cmd == "JOIN" || cmd == "PART" || cmd == "QUIT" || cmd == "KICK" || cmd == "NICK"
    || cmd == "353" || cmd == "366" || cmd == "MODE" || cmd == "324"
  }

  /** Any other message leaves the base alone. */
  lemma {:induction false} OthersChangeNothing(cfg: Config, s: State, msg: Msg)
    requires !Tracked(msg.cmd)
    ensures Step(cfg, s, msg) == (s, Done)
  {
    hide Canon, Live, Join, Leave, Quit, Nick, ModeIs, IEq, Ident2Nick, Names, ChanMode;
  }

  /** The arguments a tracked command needs, besides a sender. */
  ghost predicate Complete(msg: Msg) {
    && msg.prefix.Some?
    && (msg.cmd == "JOIN" || msg.cmd == "PART" || msg.cmd == "NICK" ==> |msg.args| >= 1)
    && (msg.cmd == "KICK" || msg.cmd == "366" || msg.cmd == "MODE" ==> |msg.args| >= 2)
    && (msg.cmd == "324" ==> |msg.args| >= 3)
    && (msg.cmd == "353" ==> |msg.args| >= 4)
  }

  /** Exactly the incomplete ones among the tracked messages are refused, and leave the base alone. */
  lemma {:induction false} RefusedIff(cfg: Config, s: State, msg: Msg)
    requires Inv(cfg, s) && Tracked(msg.cmd)
    ensures Step(cfg, s, msg).1 == ProtoErr <==> !Complete(msg)
    ensures !Complete(msg) ==> Step(cfg, s, msg).0 == s
  {
    hide Canon, Inv, Live, Join, Leave, Quit, Nick, ModeIs, IEq, Ident2Nick;
    LiveOf(cfg, s);
  }
}
