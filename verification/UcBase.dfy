// The user and channel base of ucbase.c: the maps and records of the context,
// updated in place.  A pass over a map visits its keys in any order.
module UcBase {
  import opened CStrings
  import opened CaseMap
  import opened Message
  import opened Modes
  import opened Tracking
  import opened TrackingLemmas

  /** Releasing one more record on top of those in `ps`. */
  lemma {:induction false} ReleaseNext(cfg: Config, s: State, ps: set<Ptr>, p: Ptr)
    requires UsersFiled(cfg, s) && NoLeak(cfg, s) && p in s.mem && p !in ps && s.mem[p].nchans >= 1
    ensures var mem, users, k := Released(s.mem, ps), ReleasedKeys(s.users, s.mem, ps), cfg.Key(s.mem[p].nick);
            && p in mem && mem[p] == s.mem[p] && k in users && users[k] == p
            && (s.mem[p].nchans == 1 ==> Released(s.mem, ps + {p}) == mem - {p}
                                         && ReleasedKeys(s.users, s.mem, ps + {p}) == users - {k})
            && (s.mem[p].nchans > 1 ==>
                  Released(s.mem, ps + {p}) == mem[p := mem[p].(nchans := mem[p].nchans - 1)]
                  && ReleasedKeys(s.users, s.mem, ps + {p}) == users)
  {
    hide Canon;
  }

  lemma {:induction false} ReleaseNone(s: State)
    ensures Released(s.mem, {}) == s.mem && ReleasedKeys(s.users, s.mem, {}) == s.users
  {
  }

  function Decremented(mem: map<Ptr, User>, p: Ptr): map<Ptr, User> {
    if p in mem && mem[p].nchans >= 1 then mem[p := mem[p].(nchans := mem[p].nchans - 1)] else mem
  }

  /** A pass over the channels has dealt with all but those in `todo`. */
  ghost function PartlyWithout(chans: map<Key, Chan>, todo: set<Key>, k: Key): map<Key, Chan> {
    map ck | ck in chans :: if ck in todo then chans[ck] else chans[ck].(memb := chans[ck].memb - {k})
  }

  lemma {:induction false} WithoutNext(chans: map<Key, Chan>, todo: set<Key>, ck: Key, k: Key)
    requires ck in todo && ck in chans
    ensures PartlyWithout(chans, todo - {ck}, k) ==
            PartlyWithout(chans, todo, k)[ck := chans[ck].(memb := chans[ck].memb - {k})]
    ensures PartlyWithout(chans, todo, k)[ck] == chans[ck]
    ensures k !in chans[ck].memb ==> PartlyWithout(chans, todo - {ck}, k) == PartlyWithout(chans, todo, k)
    ensures PartlyWithout(chans, todo, k).Keys == chans.Keys
  {
    if k !in chans[ck].memb {
      assert chans[ck].memb - {k} == chans[ck].memb;
    }
  }

  lemma {:induction false} WithoutEnds(chans: map<Key, Chan>, k: Key)
    ensures PartlyWithout(chans, chans.Keys, k) == chans
    ensures PartlyWithout(chans, {}, k) == WithoutMember(chans, k)
  {
  }

  ghost function PartlyMoved(chans: map<Key, Chan>, todo: set<Key>, k: Key, nk: Key): map<Key, Chan> {
    map ck | ck in chans :: if ck in todo then chans[ck] else chans[ck].(memb := Moved(chans[ck].memb, k, nk))
  }

  lemma {:induction false} MovedNext(chans: map<Key, Chan>, todo: set<Key>, ck: Key, k: Key, nk: Key)
    requires ck in todo && ck in chans
    ensures PartlyMoved(chans, todo - {ck}, k, nk) ==
            PartlyMoved(chans, todo, k, nk)[ck := chans[ck].(memb := Moved(chans[ck].memb, k, nk))]
    ensures PartlyMoved(chans, todo, k, nk)[ck] == chans[ck]
    ensures k !in chans[ck].memb ==> PartlyMoved(chans, todo - {ck}, k, nk) == PartlyMoved(chans, todo, k, nk)
    ensures PartlyMoved(chans, todo, k, nk).Keys == chans.Keys
  {
  }

  lemma {:induction false} MovedEnds(chans: map<Key, Chan>, k: Key, nk: Key)
    ensures PartlyMoved(chans, chans.Keys, k, nk) == chans
    ensures PartlyMoved(chans, {}, k, nk) == WithMoved(chans, k, nk)
  {
  }

  /** The channels of a set that have a member under key k. */
  ghost function HomesIn(chans: map<Key, Chan>, cks: set<Key>, k: Key): set<Key> {
    set ck | ck in cks && ck in chans && k in chans[ck].memb
  }

  lemma {:induction false} HomesInAll(chans: map<Key, Chan>, k: Key)
    ensures HomesIn(chans, chans.Keys, k) == Homes(chans, k)
  {
  }

  lemma {:induction false} CoversHomes(cfg: Config, s: State, u: Ptr)
    requires Inv(cfg, s) && u in s.mem
    ensures s.mem[u].nchans >= |HomesIn(s.chans, s.chans.Keys, cfg.Key(s.mem[u].nick))|
  {
    hide Canon, Homes, HomesIn;
    HomesInAll(s.chans, cfg.Key(s.mem[u].nick));
    assert Excess(cfg, s, u) >= 0;
  }

  lemma {:induction false} HomesInLess(chans: map<Key, Chan>, cks: set<Key>, ck: Key, k: Key)
    requires ck in cks && ck in chans
    ensures var n, m := |HomesIn(chans, cks, k)|, |HomesIn(chans, cks - {ck}, k)|;
            m == if k in chans[ck].memb then n - 1 else n
  {
    assert HomesIn(chans, cks - {ck}, k) == HomesIn(chans, cks, k) - {ck};
  }

  lemma {:induction false} LinkedAt(cfg: Config, s: State, ck: Key, k: Key, u: Ptr)
    requires Inv(cfg, s) && ck in s.chans && u in s.mem && cfg.Key(s.mem[u].nick) == k
    ensures k in s.chans[ck].memb ==> s.chans[ck].memb[k].u == u
  {
    hide Canon;
  }

  /** The records of the members that are not to be passed any more. */
  ghost function DonePtrs(memb: map<Key, Memb>, todo: set<Key>): set<Ptr> {
    set k | k in memb && k !in todo :: memb[k].u
  }

  lemma {:induction false} DoneEnds(c: Chan)
    ensures DonePtrs(c.memb, c.memb.Keys) == {} && DonePtrs(c.memb, {}) == MembPtrs(c)
  {
  }

  lemma {:induction false} DoneNext(cfg: Config, s: State, ck: Key, todo: set<Key>, k: Key)
    requires Inv(cfg, s) && ck in s.chans && k in todo && k in s.chans[ck].memb
    ensures var memb := s.chans[ck].memb;
            && memb[k].u !in DonePtrs(memb, todo) && memb[k].u in s.mem && memb[k].u in MembPtrs(s.chans[ck])
            && DonePtrs(memb, todo - {k}) == DonePtrs(memb, todo) + {memb[k].u}
            && UsersFiled(cfg, s) && NoLeak(cfg, s) && s.mem[memb[k].u].nchans >= 1
  {
    hide Canon, Excess;
    var memb := s.chans[ck].memb;
    assert forall j | j in memb :: memb[j].u == s.users[j] && cfg.Key(s.mem[memb[j].u].nick) == j;
  }

  class Base {
    const cfg: Config
    var users: map<Key, Ptr>
    var mem: map<Ptr, User>
    var next: Ptr
    var chans: map<Key, Chan>
    var endofnames: bool
    var mynick: string

    ghost function View(): State
      reads this
    {
      State(users, mem, next, chans, endofnames, mynick)
    }

    constructor (cfg: Config, mynick: string)
      ensures View() == State(map[], map[], 0, map[], true, mynick) && this.cfg == cfg
    {
      this.cfg := cfg;
      this.mynick := mynick;
      users, mem, next, chans, endofnames := map[], map[], 0, map[], true;
    }

    method AddChan(name: string)
      modifies this
      ensures View() == Tracking.AddChan(cfg, old(View()), name)
    {
      var c := Chan(Trunc(name, MAX_CHAN_LEN), map[], EmptyModes(INITIAL_MODES));
      chans := chans[cfg.Key(name) := c];
    }

    method AddUser(ident: string) returns (u: Ptr)
      modifies this
      ensures View() == Tracking.AddUser(cfg, old(View()), ident) && u == old(next)
    {
      var nick := Ident2Nick(ident, MAX_NICK_LEN);
      u := next;
      next := next + 1;
      mem := mem[u := User(nick, 0)];
      users := users[cfg.Key(nick) := u];
    }

    method AddMemb(ck: Key, u: Ptr, mpfxstr: string)
      requires ck in chans && u in mem
      modifies this
      ensures View() == Tracking.AddMemb(cfg, old(View()), ck, u, mpfxstr)
    {
      var m := Memb(u, Trunc(mpfxstr, MAX_MODEPFX));
      var c := chans[ck];
      chans := chans[ck := c.(memb := c.memb[cfg.Key(mem[u].nick) := m])];
      mem := mem[u := mem[u].(nchans := mem[u].nchans + 1)];
    }

    /** The "if (--u->nchans == 0)" block of the dropping operations. */
    method Release(u: Ptr)
      requires u in mem && mem[u].nchans >= 1
      modifies this`users, this`mem
      ensures old(mem[u].nchans) == 1 ==>
                mem == old(mem) - {u} && users == old(users) - {cfg.Key(old(mem[u].nick))}
      ensures old(mem[u].nchans) > 1 ==>
                users == old(users) && mem == old(mem)[u := old(mem[u]).(nchans := old(mem[u].nchans) - 1)]
    {
      mem := mem[u := mem[u].(nchans := mem[u].nchans - 1)];
      if mem[u].nchans == 0 {
        users := users - {cfg.Key(mem[u].nick)};
        mem := mem - {u};
        assert mem == old(mem) - {u};
      }
    }

    /** The pass over the members shared by lsi_ucb_drop_chan and lsi_ucb_clear_memb. */
    method ReleaseAll(memb: map<Key, Memb>, ghost s: State, ghost ck: Key)
      requires Inv(cfg, s) && ck in s.chans && s.chans[ck].memb == memb
      requires users == s.users && mem == s.mem
      modifies this`users, this`mem
      ensures users == ReleasedKeys(s.users, s.mem, MembPtrs(s.chans[ck]))
      ensures mem == Released(s.mem, MembPtrs(s.chans[ck]))
    {
      hide Canon, Excess, DonePtrs, Released, ReleasedKeys, MembPtrs, Inv;
      var todo := memb.Keys;
      ReleaseNone(s);
      DoneEnds(s.chans[ck]);
      while todo != {}
        invariant todo <= memb.Keys
        invariant users == ReleasedKeys(s.users, s.mem, DonePtrs(memb, todo))
        invariant mem == Released(s.mem, DonePtrs(memb, todo))
        decreases |todo|
      {
        var k :| k in todo;
        var m := memb[k];
        DoneNext(cfg, s, ck, todo, k);
        ReleaseNext(cfg, s, DonePtrs(memb, todo), m.u);
        Release(m.u);
        todo := todo - {k};
      }
    }

    method DropChan(ck: Key) returns (ok: bool)
      requires Inv(cfg, View()) && ck in chans
      modifies this
      ensures ok && View() == Tracking.DropChan(old(View()), ck)
    {
      hide Canon, Covered, Linked, UsersFiled, NoLeak;
      var c := chans[ck];
      if cfg.Key(c.name) !in chans {
        return false;
      }
      ghost var s := View();
      chans := chans - {cfg.Key(c.name)};
      ReleaseAll(c.memb, s, ck);
      return true;
    }

    method ClearMemb(ck: Key)
      requires Inv(cfg, View()) && ck in chans
      modifies this`users, this`mem, this`chans
      ensures View() == Tracking.ClearMemb(old(View()), ck)
    {
      hide Canon, Inv;
      ghost var s := View();
      ReleaseAll(chans[ck].memb, s, ck);
      chans := chans[ck := chans[ck].(memb := map[])];
    }

    method DropMemb(ck: Key, u: Ptr, purge: bool) returns (ok: bool)
      requires ck in chans && u in mem
      requires var k := cfg.Key(mem[u].nick);
               k in chans[ck].memb ==> chans[ck].memb[k].u in mem && mem[chans[ck].memb[k].u].nchans >= 1
      modifies this`users, this`mem, this`chans
      ensures var k, c := cfg.Key(old(mem[u].nick)), old(chans[ck]);
              && (ok <==> k in c.memb)
              && (!ok ==> View() == old(View()))
              && (ok ==> chans == old(chans)[ck := c.(memb := c.memb - {k})])
              && (ok && purge && Inv(cfg, old(View())) ==> View() == Tracking.DropMemb(old(View()), ck, k))
              && (ok && !purge ==> users == old(users) && mem == Decremented(old(mem), c.memb[k].u))
    {
      hide Canon, Excess;
      var k := cfg.Key(mem[u].nick);
      ghost var s := View();
      if k !in chans[ck].memb {
        return false;
      }
      var m := chans[ck].memb[k];
      chans := chans[ck := chans[ck].(memb := chans[ck].memb - {k})];
      if purge {
        if Inv(cfg, s) {
          ReleaseNone(s);
          ReleaseNext(cfg, s, {}, m.u);
          assert {} + {m.u} == {m.u};
        }
        Release(m.u);
      } else {
        mem := mem[m.u := mem[m.u].(nchans := mem[m.u].nchans - 1)];
      }
      return true;
    }

    /** The pass of lsi_ucb_drop_user over the channels. */
    method DropFromChans(u: Ptr, ghost s: State)
      requires Inv(cfg, s) && u in s.mem && chans == s.chans && mem == s.mem
      modifies this`users, this`mem, this`chans
      ensures users == old(users) && mem - {u} == s.mem - {u}
      ensures chans == WithoutMember(s.chans, cfg.Key(s.mem[u].nick))
    {
      hide Canon, Inv, Homes, Excess, PartlyWithout, HomesIn, WithoutMember;
      var todo := chans.Keys;
      ghost var k := cfg.Key(s.mem[u].nick);
      CoversHomes(cfg, s, u);
      WithoutEnds(chans, k);
      while todo != {}
        invariant todo <= s.chans.Keys && users == old(users)
        invariant u in mem && mem == s.mem[u := s.mem[u].(nchans := mem[u].nchans)]
        invariant mem[u].nchans >= |HomesIn(s.chans, todo, k)|
        invariant chans == PartlyWithout(s.chans, todo, k)
        decreases |todo|
      {
        var ck :| ck in todo;
        HomesInLess(s.chans, todo, ck, k);
        WithoutNext(s.chans, todo, ck, k);
        LinkedAt(cfg, s, ck, k, u);
        var _ := DropMemb(ck, u, false);
        todo := todo - {ck};
      }
    }

    /** lsi_ucb_drop_user: out of the user map, out of every channel, freed. */
    method DropUser(u: Ptr) returns (ok: bool)
      requires Inv(cfg, View()) && u in mem
      modifies this
      ensures ok && View() == Tracking.DropUser(old(View()), cfg.Key(old(mem[u].nick)))
    {
      hide Canon, Covered, Linked, ChansFiled, WithoutMember;
      var k := cfg.Key(mem[u].nick);
      if k !in users {
        return false;
      }
      ghost var s := View();
      users := users - {k};
      DropFromChans(u, s);
      mem := mem - {u};
      return true;
    }

    /** The pass of lsi_ucb_rename_user over the channels. */
    method MoveInChans(k: Key, nk: Key)
      modifies this`chans
      ensures chans == WithMoved(old(chans), k, nk)
    {
      var todo := chans.Keys;
      ghost var was := chans;
      MovedEnds(chans, k, nk);
      hide PartlyMoved, WithMoved;
      while todo != {}
        invariant todo <= was.Keys && chans == PartlyMoved(was, todo, k, nk)
        decreases |todo|
      {
        var ck :| ck in todo;
        MovedNext(was, todo, ck, k, nk);
        todo := todo - {ck};
        var c := chans[ck];
        if k !in c.memb {
          continue;
        }
        var m := c.memb[k];
        chans := chans[ck := c.(memb := c.memb[nk := m])];
        chans := chans[ck := chans[ck].(memb := chans[ck].memb - {k})];
      }
    }

    /** lsi_ucb_rename_user */
    method RenameUser(ident: string, newnick: string) returns (ok: bool)
      requires Live(View())
      modifies this
      ensures View() == Tracking.Rename(cfg, old(View()), ident, newnick)
      ensures ok <==> cfg.Key(ident) in old(users)
    {
      hide Canon, Ident2Nick, Trunc, IEq, WithMoved;
      var nick := Ident2Nick(ident, MAX_NICK_LEN);
      var cmp := IStrCmp(cfg.cm, nick, newnick);
      var k := cfg.Key(ident);
      if k !in users {
        return false;
      }
      var u := users[k];
      if cmp == 0 {
        mem := mem[u := mem[u].(nick := Trunc(newnick, |mem[u].nick| + 1))];
        return true;
      }
      mem := mem[u := mem[u].(nick := newnick)];
      var nk := cfg.Key(newnick);
      users := users[nk := u];
      users := users - {k};
      MoveInChans(k, nk);
      return true;
    }

    /** The pass of lsi_ucb_clear over the channels. */
    method ClearChans()
      requires Inv(cfg, View())
      modifies this`users, this`mem, this`chans
      ensures Inv(cfg, old(View()).(users := users, mem := mem, chans := chans))
    {
      hide Canon, Inv, Tracking.ClearMemb;
      ghost var s := View();
      var todo := chans.Keys;
      while todo != {}
        invariant Inv(cfg, View()) && todo <= chans.Keys
        invariant View() == s.(users := users, mem := mem, chans := chans)
        decreases |todo|
      {
        var ck :| ck in todo;
        ClearMembKeeps(cfg, View(), ck);
        ClearMembKeys(View(), ck);
        ClearMemb(ck);
        todo := todo - {ck};
      }
    }

    /** lsi_ucb_clear */
    method Clear()
      requires Inv(cfg, View())
      modifies this
      ensures View() == Tracking.Clear(old(View()))
    {
      hide Canon, Inv;
      ghost var s := View();
      if chans == map[] {
        return;
      }
      RecordsAreFiled(cfg, s);
      ClearChans();
      RecordsAreFiled(cfg, View());
      chans := map[];
      if users == map[] {
        assert users.Values == {};
        return;
      }
      FreeUsers();
      users := map[];
    }

    method FreeUsers()
      modifies this`mem
      ensures mem == old(mem) - users.Values
    {
      var rest := users.Keys;
      while rest != {}
        invariant rest <= users.Keys
        invariant mem == old(mem) - set k | k in users && k !in rest :: users[k]
        decreases |rest|
      {
        var k :| k in rest;
        mem := mem - {users[k]};
        rest := rest - {k};
      }
      assert users.Values == set k | k in users && k !in rest :: users[k];
    }

    /** lsi_ucb_update_modepfx: the member's eight bytes are changed in place. */
    method UpdateModepfx(ck: Key, nick: string, mpfxsym: char, enab: bool) returns (ok: bool)
      requires ck in chans && mpfxsym != NUL
      requires forall k | k in chans[ck].memb ::
                 |chans[ck].memb[k].modepfx| < MAX_MODEPFX && NUL !in chans[ck].memb[k].modepfx
      modifies this`chans
      ensures var k, c := cfg.Key(nick), old(chans[ck]);
              && chans == old(chans)[ck := if k !in c.memb then c else c.(memb := c.memb[k :=
                   c.memb[k].(modepfx := UpdatePfx(cfg.syms, c.memb[k].modepfx, mpfxsym, enab).0)])]
              && (ok <==> k in c.memb && UpdatePfx(cfg.syms, c.memb[k].modepfx, mpfxsym, enab).1)
    {
      hide Canon, UpdatePfx;
      var k := cfg.Key(nick);
      if k !in chans[ck].memb {
        assert chans == chans[ck := chans[ck]];
        return false;
      }
      var m := chans[ck].memb[k];
      var buf := new char[MAX_MODEPFX](i requires 0 <= i => if i < |m.modepfx| then m.modepfx[i] else NUL);
      assert buf[|m.modepfx|] == NUL;
      CStrIs(buf[..], m.modepfx);
      ok := Modes.UpdateModepfx(buf, cfg.syms, mpfxsym, enab);
      m := m.(modepfx := CStr(buf[..]));
      chans := chans[ck := chans[ck].(memb := chans[ck].memb[k := m])];
    }
  }

  lemma {:induction false} ClearMembKeys(s: State, ck: Key)
    requires ck in s.chans
    ensures var t := Tracking.ClearMemb(s, ck);
            t == s.(users := t.users, mem := t.mem, chans := t.chans) && t.chans.Keys == s.chans.Keys
  {
  }

  lemma {:induction false} RecordsAreFiled(cfg: Config, s: State)
    requires Inv(cfg, s)
    ensures s.mem.Keys == s.users.Values && s.mem - s.users.Values == map[]
  {
    hide Canon;
    forall p | p in s.mem ensures p in s.users.Values {
      assert s.users[cfg.Key(s.mem[p].nick)] == p;
    }
  }
}
