// What the operations of the user and channel base keep.
module TrackingLemmas {
  import opened CStrings
  import opened CaseMap
  import opened Message
  import opened Modes
  import opened Tracking

  /** Replacing one channel moves that channel alone in or out of the homes of a key. */
  lemma {:induction false} HomesUpdate(chans: map<Key, Chan>, ck: Key, c: Chan, k: Key)
    ensures Homes(chans[ck := c], k) ==
            if k in c.memb then Homes(chans, k) + {ck} else Homes(chans, k) - {ck}
    ensures |Homes(chans[ck := c], k)| ==
            if (k in c.memb) == (ck in Homes(chans, k)) then |Homes(chans, k)|
            else if k in c.memb then |Homes(chans, k)| + 1 else |Homes(chans, k)| - 1
  {
  }

  ghost predicate Filed(cfg: Config, s: State) {
    UsersFiled(cfg, s) && NoLeak(cfg, s) && ChansFiled(cfg, s) && Linked(s)
  }

  lemma {:induction false} AddUserLinks(cfg: Config, s: State, ident: string)
    requires Filed(cfg, s) && cfg.Key(Ident2Nick(ident, MAX_NICK_LEN)) !in s.users
    ensures Filed(cfg, AddUser(cfg, s, ident))
  {
    hide Canon, Ident2Nick;
  }

  lemma {:induction false} AddMembLinks(cfg: Config, s: State, ck: Key, p: Ptr, pfx: string)
    requires Filed(cfg, s) && ck in s.chans && p in s.mem
    ensures Filed(cfg, AddMemb(cfg, s, ck, p, pfx))
  {
    hide Canon, Trunc;
    var t := AddMemb(cfg, s, ck, p, pfx);
    assert UsersFiled(cfg, t);
    assert NoLeak(cfg, t);
    assert Linked(t);
  }

  lemma {:induction false} EnrollLinks(cfg: Config, s: State, ck: Key, ident: string, pfx: string)
    requires Inv(cfg, s) && ck in s.chans && EnrollOk(cfg, s, ident)
    ensures var t := Enroll(cfg, s, ck, ident, pfx);
            Filed(cfg, t)
  {
    hide Canon, Ident2Nick, Trunc, Covered;
    if cfg.Key(ident) in s.users {
      AddMembLinks(cfg, s, ck, s.users[cfg.Key(ident)], pfx);
    } else {
      AddUserLinks(cfg, s, ident);
      AddMembLinks(cfg, AddUser(cfg, s, ident), ck, s.next, pfx);
    }
  }

  lemma {:induction false} NoHomes(s: State, k: Key)
    requires Linked(s) && k !in s.users
    ensures Homes(s.chans, k) == {}
  {
  }

  /** Adding a member changes one record's excess, and only where it was a member already. */
  lemma {:induction false} AddMembCounts(cfg: Config, s: State, ck: Key, p: Ptr, pfx: string, q: Ptr)
    requires Filed(cfg, s) && ck in s.chans && p in s.mem && q in s.mem
    ensures var t := AddMemb(cfg, s, ck, p, pfx);
            Excess(cfg, t, q) == Excess(cfg, s, q)
              + (if q == p && cfg.Key(s.mem[p].nick) in s.chans[ck].memb then 1 else 0)
  {
    hide Canon, Trunc, Homes, UsersFiled, ChansFiled, Linked;
    var t := AddMemb(cfg, s, ck, p, pfx);
    HomesUpdate(s.chans, ck, t.chans[ck], cfg.Key(s.mem[q].nick));
    HomesHas(s.chans, ck, cfg.Key(s.mem[q].nick));
  }

  lemma {:induction false} HomesHas(chans: map<Key, Chan>, ck: Key, k: Key)
    ensures ck in Homes(chans, k) <==> ck in chans && k in chans[ck].memb
  {
  }

  lemma {:induction false} EnrollCounts(cfg: Config, s: State, ck: Key, ident: string, pfx: string, q: Ptr)
    requires Filed(cfg, s) && ck in s.chans && EnrollOk(cfg, s, ident)
    requires q in Enroll(cfg, s, ck, ident, pfx).mem
    ensures var t, k := Enroll(cfg, s, ck, ident, pfx), EnrollKey(cfg, s, ident);
            && (q in s.mem <==> q != s.next || k in s.users)
            && Excess(cfg, t, q) == (if q in s.mem then Excess(cfg, s, q) else 0)
                 + (if k in s.chans[ck].memb && q == t.users[k] then 1 else 0)
  {
    hide Canon, Ident2Nick, Trunc, Homes, Linked;
    var k := EnrollKey(cfg, s, ident);
    if cfg.Key(ident) in s.users {
      AddMembCounts(cfg, s, ck, s.users[k], pfx, q);
    } else {
      AddUserLinks(cfg, s, ident);
      AddMembCounts(cfg, AddUser(cfg, s, ident), ck, s.next, pfx, q);
      NoHomes(s, k);
      HomesHas(s.chans, ck, k);
    }
  }

  /** Making a user a member keeps the invariant, and keeps the counts exact
      if and only if the user was no member yet. */
  lemma {:induction false} EnrollKeeps(cfg: Config, s: State, ck: Key, ident: string, pfx: string)
    requires Inv(cfg, s) && ck in s.chans && EnrollOk(cfg, s, ident)
    ensures var t, k := Enroll(cfg, s, ck, ident, pfx), EnrollKey(cfg, s, ident);
            Inv(cfg, t) && (Exact(cfg, t) <==> Exact(cfg, s) && k !in s.chans[ck].memb)
  {
    hide Canon, Ident2Nick, Trunc, Homes, Linked, NoLeak, ChansFiled, Excess;
    var t, k := Enroll(cfg, s, ck, ident, pfx), EnrollKey(cfg, s, ident);
    EnrollLinks(cfg, s, ck, ident, pfx);
    forall q | q in t.mem
      ensures Excess(cfg, t, q) == (if q in s.mem then Excess(cfg, s, q) else 0)
                                   + (if k in s.chans[ck].memb && q == t.users[k] then 1 else 0)
    {
      EnrollCounts(cfg, s, ck, ident, pfx, q);
    }
    assert forall q | q in s.mem :: q in t.mem;
    assert k in t.users && t.users[k] in t.mem;
  }

  /** A record nobody can look up any more. */
  ghost predicate Unfiled(s: State, p: Ptr) {
    p in s.mem && p !in s.users.Values
  }

  /** Without that guard the new record takes the place of another one, which leaks. */
  lemma {:induction false} EnrollLeaks(cfg: Config, s: State, ck: Key, ident: string, pfx: string)
    requires Inv(cfg, s) && ck in s.chans && !EnrollOk(cfg, s, ident)
    ensures var t := Enroll(cfg, s, ck, ident, pfx);
            !Inv(cfg, t) && Unfiled(t, s.users[EnrollKey(cfg, s, ident)])
  {
    hide Canon, Ident2Nick, Trunc, Homes, Excess;
    var t, v := Enroll(cfg, s, ck, ident, pfx), s.users[EnrollKey(cfg, s, ident)];
    assert v in t.mem && t.mem[v].nick == s.mem[v].nick;
    assert t.users[cfg.Key(t.mem[v].nick)] == s.next;
  }

  // ---------- leaving ----------

  /** chans' is chans without some of its channels or members. */
  ghost predicate Shrunk(chans: map<Key, Chan>, chans': map<Key, Chan>) {
    forall ck | ck in chans' ::
      && ck in chans && chans'[ck].name == chans[ck].name
      && forall k | k in chans'[ck].memb :: k in chans[ck].memb && chans'[ck].memb[k] == chans[ck].memb[k]
  }

  ghost predicate EachLosesOne(cfg: Config, s: State, ps: set<Ptr>, chans': map<Key, Chan>) {
    forall p | p in s.mem ::
      |Homes(s.chans, cfg.Key(s.mem[p].nick))| == |Homes(chans', cfg.Key(s.mem[p].nick))| + (if p in ps then 1 else 0)
  }

  function Evict(s: State, ps: set<Ptr>, chans': map<Key, Chan>): State {
    s.(users := ReleasedKeys(s.users, s.mem, ps), mem := Released(s.mem, ps), chans := chans')
  }

  lemma {:induction false} EvictLinks(cfg: Config, s: State, ps: set<Ptr>, chans': map<Key, Chan>)
    requires Inv(cfg, s) && Shrunk(s.chans, chans') && EachLosesOne(cfg, s, ps, chans')
    ensures Linked(Evict(s, ps, chans'))
  {
    hide Canon, Homes, NoLeak, ChansFiled;
    var t := Evict(s, ps, chans');
    forall ck, k | ck in t.chans && k in t.chans[ck].memb
      ensures k in t.users && t.chans[ck].memb[k].u == t.users[k]
    {
      var p := s.users[k];
      HomesHas(chans', ck, k);
      assert Excess(cfg, s, p) >= 0;
    }
  }

  /** No record is released that a remaining channel refers to, no count drops below zero,
      and the counts stay exact if and only if they were. */
  lemma {:induction false} EvictKeeps(cfg: Config, s: State, ps: set<Ptr>, chans': map<Key, Chan>)
    requires Inv(cfg, s) && Shrunk(s.chans, chans') && EachLosesOne(cfg, s, ps, chans')
    ensures Inv(cfg, Evict(s, ps, chans'))
    ensures Exact(cfg, Evict(s, ps, chans')) <==> Exact(cfg, s)
  {
    hide Canon, Homes, Linked;
    var t := Evict(s, ps, chans');
    EvictLinks(cfg, s, ps, chans');
    assert UsersFiled(cfg, t);
    assert NoLeak(cfg, t);
    assert ChansFiled(cfg, t);
    forall p | p in t.mem ensures t.mem[p].nchans >= 1 && Excess(cfg, t, p) == Excess(cfg, s, p) {
    }
    forall p | p in s.mem && p !in t.mem ensures Excess(cfg, s, p) == 0 {
    }
  }

  lemma {:induction false} HomesRemove(chans: map<Key, Chan>, ck: Key, k: Key)
    ensures Homes(chans - {ck}, k) == Homes(chans, k) - {ck}
    ensures |Homes(chans - {ck}, k)| == if ck in Homes(chans, k) then |Homes(chans, k)| - 1 else |Homes(chans, k)|
  {
  }

  lemma {:induction false} MembPtrsAre(cfg: Config, s: State, ck: Key, p: Ptr)
    requires Filed(cfg, s) && ck in s.chans && p in s.mem
    ensures p in MembPtrs(s.chans[ck]) <==> cfg.Key(s.mem[p].nick) in s.chans[ck].memb
  {
    hide Canon;
    var memb := s.chans[ck].memb;
    if p in MembPtrs(s.chans[ck]) {
      var k :| k in memb && memb[k].u == p;
      assert s.users[k] == p;
    }
    assert cfg.Key(s.mem[p].nick) in memb ==> memb[cfg.Key(s.mem[p].nick)].u == p;
  }

  lemma {:induction false} DropChanKeeps(cfg: Config, s: State, ck: Key)
    requires Inv(cfg, s) && ck in s.chans
    ensures Inv(cfg, DropChan(s, ck)) && (Exact(cfg, DropChan(s, ck)) <==> Exact(cfg, s))
  {
    hide Canon, Homes, Excess;
    var ps := MembPtrs(s.chans[ck]);
    forall p | p in s.mem
      ensures var k := cfg.Key(s.mem[p].nick);
              |Homes(s.chans, k)| == |Homes(s.chans - {ck}, k)| + (if p in ps then 1 else 0)
    {
      HomesRemove(s.chans, ck, cfg.Key(s.mem[p].nick));
      HomesHas(s.chans, ck, cfg.Key(s.mem[p].nick));
      MembPtrsAre(cfg, s, ck, p);
    }
    EvictKeeps(cfg, s, ps, s.chans - {ck});
  }

  lemma {:induction false} ClearMembKeeps(cfg: Config, s: State, ck: Key)
    requires Inv(cfg, s) && ck in s.chans
    ensures Inv(cfg, ClearMemb(s, ck)) && (Exact(cfg, ClearMemb(s, ck)) <==> Exact(cfg, s))
  {
    hide Canon, Homes, Excess;
    var c := s.chans[ck].(memb := map[]);
    var ps := MembPtrs(s.chans[ck]);
    forall p | p in s.mem
      ensures var k := cfg.Key(s.mem[p].nick);
              |Homes(s.chans, k)| == |Homes(s.chans[ck := c], k)| + (if p in ps then 1 else 0)
    {
      HomesUpdate(s.chans, ck, c, cfg.Key(s.mem[p].nick));
      HomesHas(s.chans, ck, cfg.Key(s.mem[p].nick));
      MembPtrsAre(cfg, s, ck, p);
    }
    EvictKeeps(cfg, s, ps, s.chans[ck := c]);
  }

  lemma {:induction false} DropMembKeeps(cfg: Config, s: State, ck: Key, k: Key)
    requires Inv(cfg, s) && ck in s.chans
    ensures Inv(cfg, DropMemb(s, ck, k)) && (Exact(cfg, DropMemb(s, ck, k)) <==> Exact(cfg, s))
  {
    hide Canon, Homes, Excess;
    if k in s.chans[ck].memb {
      var c := s.chans[ck].(memb := s.chans[ck].memb - {k});
      var ps := {s.chans[ck].memb[k].u};
      assert s.chans[ck].memb[k].u == s.users[k];
      forall p | p in s.mem
        ensures var j := cfg.Key(s.mem[p].nick);
                |Homes(s.chans, j)| == |Homes(s.chans[ck := c], j)| + (if p in ps then 1 else 0)
      {
        assert p in ps <==> cfg.Key(s.mem[p].nick) == k;
        HomesUpdate(s.chans, ck, c, cfg.Key(s.mem[p].nick));
        HomesHas(s.chans, ck, cfg.Key(s.mem[p].nick));
      }
      EvictKeeps(cfg, s, ps, s.chans[ck := c]);
    }
  }

  lemma {:induction false} HomesWithout(chans: map<Key, Chan>, k: Key, j: Key)
    ensures Homes(WithoutMember(chans, k), j) == if j == k then {} else Homes(chans, j)
  {
  }

  lemma {:induction false} DropUserKeeps(cfg: Config, s: State, k: Key)
    requires Inv(cfg, s) && k in s.users
    ensures Inv(cfg, DropUser(s, k)) && (Exact(cfg, s) ==> Exact(cfg, DropUser(s, k)))
  {
    hide Canon, Homes;
    var t := DropUser(s, k);
    assert Filed(cfg, t);
    forall p | p in t.mem ensures Excess(cfg, t, p) == Excess(cfg, s, p) {
      HomesWithout(s.chans, k, cfg.Key(s.mem[p].nick));
    }
  }

  // ---------- renaming ----------

  lemma {:induction false} HomesMoved(chans: map<Key, Chan>, k: Key, nk: Key, j: Key)
    requires Homes(chans, nk) == {} && nk != k
    ensures Homes(WithMoved(chans, k, nk), j) ==
            if j == nk then Homes(chans, k) else if j == k then {} else Homes(chans, j)
  {
    forall ck | ck in chans
      ensures j in WithMoved(chans, k, nk)[ck].memb <==>
              if j == nk then k in chans[ck].memb else j != k && j in chans[ck].memb
    {
      assert nk in chans[ck].memb ==> ck in Homes(chans, nk);
    }
  }

  lemma {:induction false} RenameMoveKeeps(cfg: Config, s: State, ident: string, newnick: string)
    requires Inv(cfg, s) && cfg.Key(ident) in s.users && cfg.Key(newnick) !in s.users
    requires !IEq(cfg.cm, Ident2Nick(ident, MAX_NICK_LEN), newnick)
    ensures Inv(cfg, Rename(cfg, s, ident, newnick))
    ensures Exact(cfg, s) ==> Exact(cfg, Rename(cfg, s, ident, newnick))
  {
    hide Canon, Ident2Nick, IEq, Homes;
    var t, k, nk := Rename(cfg, s, ident, newnick), cfg.Key(ident), cfg.Key(newnick);
    assert UsersFiled(cfg, t);
    assert NoLeak(cfg, t);
    assert Linked(t);
    NoHomes(s, nk);
    forall p | p in t.mem
      ensures p in s.mem && t.mem[p].nchans == s.mem[p].nchans && Excess(cfg, t, p) == Excess(cfg, s, p)
    {
      HomesMoved(s.chans, k, nk, cfg.Key(t.mem[p].nick));
    }
    assert Covered(cfg, t);
  }

  lemma {:induction false} NickPartLength(cm: CaseMapping, ident: string, sz: nat)
    requires sz > 0 && NUL !in ident
    ensures |Ident2Nick(ident, sz)| <= |Canon(cm, ident)|
  {
    var nick, t := Ident2Nick(ident, sz), Trunc(ident, sz);
    NickKeepsKey(cm, ident, sz);
    CanonReaches(cm, nick, |nick|);
    assert t == ident[..|t|];
    CanonOfPrefix(cm, ident, |t|);
  }

  /** The bounded copy of a rename of case only fits, so the record keeps its key exactly
      when the new nick has that key. */
  lemma {:induction false} TruncatedKey(cfg: Config, ident: string, newnick: string, nick: string)
    requires NUL !in ident && cfg.Key(nick) == cfg.Key(ident)
    requires IEq(cfg.cm, Ident2Nick(ident, MAX_NICK_LEN), newnick)
    ensures cfg.Key(Trunc(newnick, |nick| + 1)) == cfg.Key(ident) <==> cfg.Key(newnick) == cfg.Key(ident)
  {
    NickPartLength(cfg.cm, ident, MAX_NICK_LEN);
    CanonShape(cfg.cm, nick);
    assert |newnick| <= |nick|;
  }

  lemma {:induction false} RenameCaseOnly(cfg: Config, s: State, ident: string, newnick: string)
    requires Inv(cfg, s) && cfg.Key(ident) in s.users && NUL !in ident
    requires IEq(cfg.cm, Ident2Nick(ident, MAX_NICK_LEN), newnick)
    ensures var t := Rename(cfg, s, ident, newnick);
            && (Inv(cfg, t) <==> cfg.Key(newnick) == cfg.Key(ident))
            && (Exact(cfg, s) && cfg.Key(newnick) == cfg.Key(ident) ==> Exact(cfg, t))
  {
    hide Canon, Ident2Nick, IEq, Homes, Trunc, Inv, Counted;
    OwnKey(cfg, s, cfg.Key(ident));
    var p := s.users[cfg.Key(ident)];
    TruncatedKey(cfg, ident, newnick, s.mem[p].nick);
    Respell(cfg, s, p, Trunc(newnick, |s.mem[p].nick| + 1));
  }

  lemma OwnKey(cfg: Config, s: State, k: Key)
    requires Inv(cfg, s) && k in s.users
    ensures Live(s) && cfg.Key(s.mem[s.users[k]].nick) == k
  {
  }

  /** A new spelling in a record keeps the base consistent exactly if it has the same key. */
  lemma {:induction false} Respell(cfg: Config, s: State, p: Ptr, nick: string)
    requires Inv(cfg, s) && p in s.mem
    ensures var t := s.(mem := s.mem[p := s.mem[p].(nick := nick)]);
            && (Inv(cfg, t) <==> cfg.Key(nick) == cfg.Key(s.mem[p].nick))
            && (Counted(cfg, s) && Inv(cfg, t) ==> Counted(cfg, t))
  {
    hide Canon, Homes, ChansFiled, Linked;
    var t, k := s.(mem := s.mem[p := s.mem[p].(nick := nick)]), cfg.Key(s.mem[p].nick);
    SameChans(cfg, s, t);
    if cfg.Key(nick) == k {
      assert forall q | q in t.mem :: Excess(cfg, t, q) == Excess(cfg, s, q);
    } else {
      assert t.users[k] == p && cfg.Key(t.mem[p].nick) != k;
    }
  }

  lemma SameChans(cfg: Config, s: State, t: State)
    requires s.chans == t.chans && s.users == t.users
    ensures (ChansFiled(cfg, s) <==> ChansFiled(cfg, t)) && (Linked(s) <==> Linked(t))
  {
  }

  /** A rename onto a nick in use takes that user's place in the map, and the record leaks. */
  lemma {:induction false} RenameClobbers(cfg: Config, s: State, ident: string, newnick: string)
    requires Inv(cfg, s) && cfg.Key(ident) in s.users && cfg.Key(newnick) in s.users
    requires !IEq(cfg.cm, Ident2Nick(ident, MAX_NICK_LEN), newnick)
    ensures var t := Rename(cfg, s, ident, newnick);
            !Inv(cfg, t) && Unfiled(t, s.users[cfg.Key(newnick)])
  {
    hide Canon, Ident2Nick, IEq, Homes, Excess, Linked;
    var t, v := Rename(cfg, s, ident, newnick), s.users[cfg.Key(newnick)];
    assert v in t.mem && cfg.Key(t.mem[v].nick) == cfg.Key(newnick);
  }

  /** A rename keeps the invariant if and only if it is one of an unknown user, of case only
      with the key kept, or to a key not in use. */
  lemma {:induction false} RenameKeepsIff(cfg: Config, s: State, ident: string, newnick: string)
    requires Inv(cfg, s) && NUL !in ident
    ensures Inv(cfg, Rename(cfg, s, ident, newnick)) <==> RenameOk(cfg, s, ident, newnick)
    ensures Exact(cfg, s) && RenameOk(cfg, s, ident, newnick) ==> Exact(cfg, Rename(cfg, s, ident, newnick))
  {
    hide Canon, Ident2Nick, IEq, Inv, Exact;
    if cfg.Key(ident) !in s.users {
    } else if IEq(cfg.cm, Ident2Nick(ident, MAX_NICK_LEN), newnick) {
      RenameCaseOnly(cfg, s, ident, newnick);
    } else if cfg.Key(newnick) !in s.users {
      RenameMoveKeeps(cfg, s, ident, newnick);
    } else {
      RenameClobbers(cfg, s, ident, newnick);
    }
  }
}
