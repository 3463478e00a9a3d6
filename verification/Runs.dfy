// Runs from the initial state on which the base loses a record, keeps one too
// long, or leaves its strings.
module Runs {
  import opened CStrings
  import opened CaseMap
  import opened Message
  import opened Modes
  import opened Tracking
  import opened TrackingLemmas
  import opened Handlers
  import opened HandlerLemmas
  import opened Guards

  function JoinMsg(who: string, name: string): Msg {
    Msg(Some(who), "JOIN", [name])
  }

  /** A run is its first message and the run of the others. */
  lemma {:induction false} RunCons(cfg: Config, s: State, all: seq<Msg>, ms: seq<Msg>)
    requires all != [] && all[1..] == ms
    ensures Run(cfg, s, all) == Run(cfg, Step(cfg, s, all[0]).0, ms)
    ensures RunOk(cfg, s, all) <==> MsgOk(cfg, s, all[0]) && RunOk(cfg, Step(cfg, s, all[0]).0, ms)
  {
    hide Step, MsgOk;
  }

  /** Our own JOIN from nothing. */
  lemma {:induction false} WeJoin(cfg: Config, me: string, name: string)
    requires IEq(cfg.cm, Ident2Nick(me, MAX_NICK_LEN), me)
    ensures var (s, t, ck) := (Initial(me), AddChan(cfg, Initial(me), name), cfg.Key(name));
            && Step(cfg, s, JoinMsg(me, name)) == (t, Done)
            && t.chans.Keys == {ck} && t.chans[ck].memb == map[] && t.users == map[] && t.mem == map[]
            && t.mynick == me && Live(t)
            && (cfg.Key(Trunc(name, MAX_CHAN_LEN)) == ck ==> Exact(cfg, t) && MsgOk(cfg, s, JoinMsg(me, name)))
  {
    hide Canon, IEq, Ident2Nick, Trunc;
    InitialExact(cfg, me);
    AddChanKeepsIff(cfg, Initial(me), name);
  }

  /** Somebody else's JOIN of a known channel. */
  lemma {:induction false} TheyJoin(cfg: Config, s: State, you: string, name: string)
    requires Live(s) && cfg.Key(name) in s.chans && !IEq(cfg.cm, Ident2Nick(you, MAX_NICK_LEN), s.mynick)
    ensures Step(cfg, s, JoinMsg(you, name)) == (Enroll(cfg, s, cfg.Key(name), you, ""), Done)
    ensures MsgOk(cfg, s, JoinMsg(you, name)) <==> EnrollOk(cfg, s, you)
  {
    hide Canon, IEq, Ident2Nick, Enroll, EnrollOk;
  }

  // ---------- a record kept too long ----------

  /** One repeated JOIN is enough: we join a channel, another user joins it twice, we part;
      every message is admissible, and clearing leaves that user in the map. */
  lemma {:induction false} RepeatedJoinOutlives(cfg: Config, me: string, you: string, name: string)
    requires IEq(cfg.cm, Ident2Nick(me, MAX_NICK_LEN), me) && !IEq(cfg.cm, Ident2Nick(you, MAX_NICK_LEN), me)
    requires cfg.Key(Trunc(name, MAX_CHAN_LEN)) == cfg.Key(name)
    requires cfg.Key(Ident2Nick(you, MAX_NICK_LEN)) == cfg.Key(you)
    ensures var (mine, yours, part) := (JoinMsg(me, name), JoinMsg(you, name), Msg(Some(me), "PART", [name]));
            var run := [mine, yours, yours, part];
            && RunOk(cfg, Initial(me), run)
            && Inv(cfg, Run(cfg, Initial(me), run)) && !Emptied(Clear(Run(cfg, Initial(me), run)))
  {
    hide Canon, IEq, Ident2Nick, Trunc, Enroll, DropChan, Inv, Exact, Clear, Emptied, Step, MsgOk, Run, RunOk, Live,
         EnrollOk, EnrollKey, AddChan;
    var (mine, yours, part) := (JoinMsg(me, name), JoinMsg(you, name), Msg(Some(me), "PART", [name]));
    var s0, ck := Initial(me), cfg.Key(name);
    WeJoin(cfg, me, name);
    var s1 := AddChan(cfg, s0, name);
    ExactIsInv(cfg, s1);
    var s2 := Enroll(cfg, s1, ck, you, "");
    var s3 := Enroll(cfg, s2, ck, you, "");
    ReaddedUserOutlives(cfg, s1, ck, you);
    FitsIsOk(cfg, s1, you);
    TheyJoin(cfg, s1, you, name);
    EnrollKeeps(cfg, s1, ck, you, "");
    EnrollMembers(cfg, s1, ck, you, "");
    FitsIsOk(cfg, s2, you);
    TheyJoin(cfg, s2, you, name);
    EnrollKeeps(cfg, s2, ck, you, "");
    EnrollMembers(cfg, s2, ck, you, "");
    LiveOf(cfg, s3);
    WePart(cfg, s3, me, name);
    RunCons(cfg, s0, [mine, yours, yours, part], [yours, yours, part]);
    RunCons(cfg, s1, [yours, yours, part], [yours, part]);
    RunCons(cfg, s2, [yours, part], [part]);
    RunCons(cfg, s3, [part], []);
    RunNone(cfg, DropChan(s3, ck));
  }

  lemma ExactIsInv(cfg: Config, s: State)
    requires Exact(cfg, s)
    ensures Inv(cfg, s)
  {
  }

  /** A nick whose short form has its key can be enrolled. */
  lemma {:induction false} FitsIsOk(cfg: Config, s: State, ident: string)
    requires cfg.Key(Ident2Nick(ident, MAX_NICK_LEN)) == cfg.Key(ident)
    ensures EnrollOk(cfg, s, ident) && EnrollKey(cfg, s, ident) == cfg.Key(ident)
  {
    hide Canon, Ident2Nick;
  }

  lemma {:induction false} WePart(cfg: Config, s: State, me: string, name: string)
    requires Live(s) && cfg.Key(name) in s.chans && IEq(cfg.cm, Ident2Nick(me, MAX_NICK_LEN), s.mynick)
    ensures Step(cfg, s, Msg(Some(me), "PART", [name])) == (DropChan(s, cfg.Key(name)), Done)
    ensures MsgOk(cfg, s, Msg(Some(me), "PART", [name]))
  {
    hide Canon, IEq, Ident2Nick, DropChan;
  }

  lemma {:induction false} RunNone(cfg: Config, s: State)
    ensures Run(cfg, s, []) == s && RunOk(cfg, s, [])
  {
  }

  // ---------- records lost ----------

  /** A record that neither the user map nor any channel leads to. */
  ghost predicate Lost(s: State, p: Ptr) {
    Unfiled(s, p) && forall ck, k | ck in s.chans && k in s.chans[ck].memb :: s.chans[ck].memb[k].u != p
  }

  /** A nick of 64 characters or more that joins one channel twice: the second record takes the
      place of the first, which nothing leads to any more and clearing does not free. */
  lemma {:induction false} LongNickIsLost(cfg: Config, me: string, you: string, name: string)
    requires IEq(cfg.cm, Ident2Nick(me, MAX_NICK_LEN), me) && !IEq(cfg.cm, Ident2Nick(you, MAX_NICK_LEN), me)
    requires cfg.Key(Trunc(name, MAX_CHAN_LEN)) == cfg.Key(name) && |cfg.Key(you)| >= 64
    ensures var (mine, yours) := (JoinMsg(me, name), JoinMsg(you, name));
            var run := [mine, yours, yours];
            var t := Run(cfg, Initial(me), run);
            !RunOk(cfg, Initial(me), run) && exists p :: Lost(t, p) && p in Clear(t).mem
  {
    hide Canon, IEq, Ident2Nick, Trunc, Enroll, Inv, Exact, Clear, Step, MsgOk, Run, RunOk, Live, EnrollOk, EnrollKey,
         AddChan, Lost;
    var s0, ck := Initial(me), cfg.Key(name);
    WeJoin(cfg, me, name);
    var s1 := AddChan(cfg, s0, name);
    ExactIsInv(cfg, s1);
    LongKey(cfg, s1, you);
    TheyJoin(cfg, s1, you, name);
    EnrollKeeps(cfg, s1, ck, you, "");
    EnrollMembers(cfg, s1, ck, you, "");
    var s2 := Enroll(cfg, s1, ck, you, "");
    var k := EnrollKey(cfg, s1, you);
    LongKey(cfg, s2, you);
    TheyJoin(cfg, s2, you, name);
    EnrollLeaks(cfg, s2, ck, you, "");
    var t := Enroll(cfg, s2, ck, you, "");
    OnlyMemberIsLost(cfg, s2, ck, you);
    var (mine, yours) := (JoinMsg(me, name), JoinMsg(you, name));
    RunCons(cfg, s0, [mine, yours, yours], [yours, yours]);
    RunCons(cfg, s1, [yours, yours], [yours]);
    RunCons(cfg, s2, [yours], []);
    RunNone(cfg, t);
    LostStays(t, s2.users[k]);
  }

  /** Such a nick is filed under a shorter key than it is looked up by. */
  lemma {:induction false} LongKey(cfg: Config, s: State, you: string)
    requires |cfg.Key(you)| >= MAX_NICK_LEN && cfg.Key(you) !in s.users
    ensures var k := cfg.Key(Ident2Nick(you, MAX_NICK_LEN));
            && k != cfg.Key(you) && EnrollKey(cfg, s, you) == k && (EnrollOk(cfg, s, you) <==> k !in s.users)
  {
    NickKeepsKey(cfg.cm, you, MAX_NICK_LEN);
  }

  lemma {:induction false} OnlyMemberIsLost(cfg: Config, s: State, ck: Key, you: string)
    requires Inv(cfg, s) && s.chans.Keys == {ck} && !EnrollOk(cfg, s, you)
    requires s.chans[ck].memb.Keys <= {EnrollKey(cfg, s, you)}
    ensures Live(s) && Lost(Enroll(cfg, s, ck, you, ""), s.users[EnrollKey(cfg, s, you)])
  {
    hide Canon, Ident2Nick, Trunc, Homes, Excess;
    EnrollLeaks(cfg, s, ck, you, "");
  }

  lemma {:induction false} LostStays(t: State, p: Ptr)
    requires Lost(t, p)
    ensures p in Clear(t).mem
  {
  }

  /** Two users in our channel, and one takes the other's nick: the record of the other is lost. */
  lemma {:induction false} TakenNickIsLost(cfg: Config, me: string, a: string, b: string, nick: string, name: string)
    requires IEq(cfg.cm, Ident2Nick(me, MAX_NICK_LEN), me) && cfg.Key(Trunc(name, MAX_CHAN_LEN)) == cfg.Key(name)
    requires forall u | u in [a, b] ::
               !IEq(cfg.cm, Ident2Nick(u, MAX_NICK_LEN), me) && cfg.Key(Ident2Nick(u, MAX_NICK_LEN)) == cfg.Key(u)
    requires cfg.Key(a) != cfg.Key(b) == cfg.Key(nick) && !IEq(cfg.cm, Ident2Nick(a, MAX_NICK_LEN), nick)
    ensures var take := Msg(Some(a), "NICK", [nick]);
            var run := [JoinMsg(me, name), JoinMsg(a, name), JoinMsg(b, name), take];
            var t := Run(cfg, Initial(me), run);
            !RunOk(cfg, Initial(me), run) && exists p :: Lost(t, p) && p in Clear(t).mem
  {
    hide Canon, IEq, Ident2Nick, Trunc, Enroll, Inv, Exact, Clear, Step, MsgOk, Run, RunOk, Live, EnrollOk, EnrollKey,
         AddChan, Lost, Nick, RenameOk;
    assert a in [a, b] && b in [a, b];
    var s0, ck, take := Initial(me), cfg.Key(name), Msg(Some(a), "NICK", [nick]);
    WeJoin(cfg, me, name);
    var s1 := AddChan(cfg, s0, name);
    ExactIsInv(cfg, s1);
    FitsIsOk(cfg, s1, a);
    TheyJoin(cfg, s1, a, name);
    EnrollKeeps(cfg, s1, ck, a, "");
    EnrollMembers(cfg, s1, ck, a, "");
    var s2 := Enroll(cfg, s1, ck, a, "");
    FitsIsOk(cfg, s2, b);
    TheyJoin(cfg, s2, b, name);
    EnrollKeeps(cfg, s2, ck, b, "");
    EnrollMembers(cfg, s2, ck, b, "");
    var s3 := Enroll(cfg, s2, ck, b, "");
    LiveOf(cfg, s3);
    TheyRename(cfg, s3, a, nick);
    var t := Nick(cfg, s3, a, nick);
    TakenIsLost(cfg, s3, ck, a, nick);
    var (mine, ja, jb) := (JoinMsg(me, name), JoinMsg(a, name), JoinMsg(b, name));
    RunCons(cfg, s0, [mine, ja, jb, take], [ja, jb, take]);
    RunCons(cfg, s1, [ja, jb, take], [jb, take]);
    RunCons(cfg, s2, [jb, take], [take]);
    RunCons(cfg, s3, [take], []);
    RunNone(cfg, t);
    LostStays(t, s3.users[cfg.Key(nick)]);
  }

  lemma {:induction false} TheyRename(cfg: Config, s: State, a: string, nick: string)
    requires Live(s)
    ensures var take := Msg(Some(a), "NICK", [nick]);
            Step(cfg, s, take) == (Nick(cfg, s, a, nick), Done) && (MsgOk(cfg, s, take) <==> RenameOk(cfg, s, a, nick))
  {
    hide Canon, IEq, Ident2Nick, Nick, RenameOk;
  }

  lemma {:induction false} TakenIsLost(cfg: Config, s: State, ck: Key, a: string, nick: string)
    requires Inv(cfg, s) && Live(s) && s.chans.Keys == {ck}
    requires s.chans[ck].memb.Keys == {cfg.Key(a), cfg.Key(nick)} && cfg.Key(a) != cfg.Key(nick)
    requires !IEq(cfg.cm, Ident2Nick(a, MAX_NICK_LEN), nick)
    ensures cfg.Key(nick) in s.users && !RenameOk(cfg, s, a, nick)
    ensures Lost(Nick(cfg, s, a, nick), s.users[cfg.Key(nick)])
  {
    hide Canon, IEq, Ident2Nick, Trunc, Homes, Excess;
    assert cfg.Key(a) in s.chans[ck].memb && cfg.Key(nick) in s.chans[ck].memb;
    RenameClobbers(cfg, s, a, nick);
  }

  // ---------- leaving the strings ----------

  /** In a channel we are in, an empty 353 list, and one with a blank at its end, are overrun. */
  lemma {:induction false} NamesOverrun(cfg: Config, me: string, name: string, srv: string, x: string)
    requires IEq(cfg.cm, Ident2Nick(me, MAX_NICK_LEN), me)
    ensures var t := Run(cfg, Initial(me), [JoinMsg(me, name)]);
            && Step(cfg, t, Msg(Some(srv), "353", [me, "=", name, ""])).1 == Undefined
            && (' ' !in cfg.syms ==> Step(cfg, t, Msg(Some(srv), "353", [me, "=", name, x + " "])).1 == Undefined)
  {
    hide Canon, IEq, Ident2Nick, Run, NameEntries, ListOk, AddChan;
    WeJoin(cfg, me, name);
    var t := AddChan(cfg, Initial(me), name);
    RunCons(cfg, Initial(me), [JoinMsg(me, name)], []);
    RunNone(cfg, t);
    EmptyList(cfg.syms);
    ListOkIff(cfg.syms, "");
    if ' ' !in cfg.syms {
      ListOkPlainly(cfg.syms, x + " ");
    }
  }

  /** There too, taking away a prefix mode that is also in class C or D reads behind its entry. */
  lemma {:induction false} ModeOverrun(cfg: Config, me: string, name: string, srv: string, c: char)
    requires IEq(cfg.cm, Ident2Nick(me, MAX_NICK_LEN), me) && IsChannel(cfg, name)
    requires c in cfg.letters && c !in ['+', '-'] && Classify(cfg, c) in {C, D}
    ensures var t := Run(cfg, Initial(me), [JoinMsg(me, name)]);
            Step(cfg, t, Msg(Some(srv), "MODE", [name, ['-', c]])).1 == Undefined
  {
    hide Canon, IEq, Ident2Nick, Run, AddChan, ChanMode, IsChannel;
    WeJoin(cfg, me, name);
    var t := AddChan(cfg, Initial(me), name);
    RunCons(cfg, Initial(me), [JoinMsg(me, name)], []);
    RunNone(cfg, t);
    var modes := ['-', c];
    assert modes[..1] == ['-'] && modes[1] == c && ['-'][1..] == [];
    assert !SignAfter(modes[..1], true);
    ChanModeDefinedIff(cfg, t, [name, modes]);
  }
}
