// The user and channel base of ucbase.c as values: what each operation does to
// the redundant maps, and the invariants they keep.  User records live behind
// pointers in an explicit store, so aliasing, freeing and leaking show.
module Tracking {
  import opened CStrings
  import opened CaseMap
  import opened Message
  import opened Modes

  type Ptr = nat

  datatype User = User(nick: string, nchans: nat)
  datatype Memb = Memb(u: Ptr, modepfx: string)
  datatype Chan = Chan(name: string, memb: map<Key, Memb>, modes: ModeArray)

  /** `mem` holds the allocated user records: malloc adds the fresh pointer `next`, free removes one. */
  datatype State = State(users: map<Key, Ptr>, mem: map<Ptr, User>, next: Ptr,
                         chans: map<Key, Chan>, endofnames: bool, mynick: string)

  // ---------- invariants ----------

  /** The channels that have a member under key k. */
  ghost function Homes(chans: map<Key, Chan>, k: Key): set<Key> {
    set ck | ck in chans && k in chans[ck].memb
  }

  ghost predicate UsersFiled(cfg: Config, s: State) {
    forall k | k in s.users :: s.users[k] in s.mem && cfg.Key(s.mem[s.users[k]].nick) == k
  }

  /** Every allocated record is the one the user map holds under its key. */
  ghost predicate NoLeak(cfg: Config, s: State) {
    forall p | p in s.mem ::
      p < s.next && cfg.Key(s.mem[p].nick) in s.users && s.users[cfg.Key(s.mem[p].nick)] == p
  }

  ghost predicate ChansFiled(cfg: Config, s: State) {
    forall ck | ck in s.chans :: cfg.Key(s.chans[ck].name) == ck
  }

  /** Each member entry under key k points at the record the user map holds under k. */
  ghost predicate Linked(s: State) {
    forall ck, k | ck in s.chans && k in s.chans[ck].memb ::
      k in s.users && s.chans[ck].memb[k].u == s.users[k]
  }

  /** How far a record's count exceeds the number of channels that hold its key. */
  ghost function Excess(cfg: Config, s: State, p: Ptr): int
    requires p in s.mem
  {
    s.mem[p].nchans - |Homes(s.chans, cfg.Key(s.mem[p].nick))|
  }

  /** No record counts fewer channels than hold it, and none counts zero. */
  ghost predicate Covered(cfg: Config, s: State) {
    forall p | p in s.mem ::
      s.mem[p].nchans >= 1 && Excess(cfg, s, p) >= 0
  }

  ghost predicate Inv(cfg: Config, s: State) {
    UsersFiled(cfg, s) && NoLeak(cfg, s) && ChansFiled(cfg, s) && Linked(s) && Covered(cfg, s)
  }

  /** Every record counts exactly the channels that hold it. */
  ghost predicate Counted(cfg: Config, s: State) {
    forall p | p in s.mem :: Excess(cfg, s, p) == 0
  }

  ghost predicate Exact(cfg: Config, s: State) {
    Inv(cfg, s) && Counted(cfg, s)
  }

  /** The pointers in the user map can be followed. */
  predicate Live(s: State) {
    forall k | k in s.users :: s.users[k] in s.mem
  }

  // ---------- the operations of ucbase.c ----------

  function AddUser(cfg: Config, s: State, ident: string): State {
    var nick := Ident2Nick(ident, MAX_NICK_LEN);
    s.(users := s.users[cfg.Key(nick) := s.next],
       mem := s.mem[s.next := User(nick, 0)],
       next := s.next + 1)
  }

  function AddMemb(cfg: Config, s: State, ck: Key, p: Ptr, pfx: string): State
    requires ck in s.chans && p in s.mem
  {
    var c := s.chans[ck];
    var u := s.mem[p];
    var m := Memb(p, Trunc(pfx, MAX_MODEPFX));
    s.(chans := s.chans[ck := c.(memb := c.memb[cfg.Key(u.nick) := m])],
       mem := s.mem[p := u.(nchans := u.nchans + 1)])
  }

  /** Look the user up, add a record where there is none, and make it a member. */
  function Enroll(cfg: Config, s: State, ck: Key, ident: string, pfx: string): (t: State)
    requires Live(s) && ck in s.chans
    ensures Live(t) && t.chans.Keys == s.chans.Keys
  {
    if cfg.Key(ident) in s.users then AddMemb(cfg, s, ck, s.users[cfg.Key(ident)], pfx)
    else AddMemb(cfg, AddUser(cfg, s, ident), ck, s.next, pfx)
  }

  /** The lookup key and the key a new record would get agree, or the latter is free. */
  predicate EnrollOk(cfg: Config, s: State, ident: string) {
    cfg.Key(ident) in s.users || cfg.Key(Ident2Nick(ident, MAX_NICK_LEN)) !in s.users
  }

  /** The key under which Enroll files the member. */
  function EnrollKey(cfg: Config, s: State, ident: string): Key {
    if cfg.Key(ident) in s.users then cfg.Key(ident) else cfg.Key(Ident2Nick(ident, MAX_NICK_LEN))
  }

  function AddChan(cfg: Config, s: State, name: string): State {
    s.(chans := s.chans[cfg.Key(name) := Chan(Trunc(name, MAX_CHAN_LEN), map[], EmptyModes(INITIAL_MODES))])
  }

  /** "if (--u->nchans == 0) delete and free u" for each record in `ps`. */
  function Released(mem: map<Ptr, User>, ps: set<Ptr>): map<Ptr, User> {
    map p | p in mem && !(p in ps && mem[p].nchans <= 1) ::
      if p in ps then mem[p].(nchans := mem[p].nchans - 1) else mem[p]
  }

  function ReleasedKeys(users: map<Key, Ptr>, mem: map<Ptr, User>, ps: set<Ptr>): map<Key, Ptr> {
    map k | k in users && !(users[k] in ps && users[k] in mem && mem[users[k]].nchans <= 1) :: users[k]
  }

  function MembPtrs(c: Chan): set<Ptr> {
    set k | k in c.memb :: c.memb[k].u
  }

  function ReleaseMembers(s: State, c: Chan): State {
    s.(users := ReleasedKeys(s.users, s.mem, MembPtrs(c)), mem := Released(s.mem, MembPtrs(c)))
  }

  function DropChan(s: State, ck: Key): State
    requires ck in s.chans
  {
    ReleaseMembers(s, s.chans[ck]).(chans := s.chans - {ck})
  }

  function ClearMemb(s: State, ck: Key): State
    requires ck in s.chans
  {
    ReleaseMembers(s, s.chans[ck]).(chans := s.chans[ck := s.chans[ck].(memb := map[])])
  }

  function DropMemb(s: State, ck: Key, k: Key): State
    requires ck in s.chans
  {
    var c := s.chans[ck];
    if k !in c.memb then s
    else
      s.(users := ReleasedKeys(s.users, s.mem, {c.memb[k].u}),
         mem := Released(s.mem, {c.memb[k].u}),
         chans := s.chans[ck := c.(memb := c.memb - {k})])
  }

  function WithoutMember(chans: map<Key, Chan>, k: Key): map<Key, Chan> {
    map ck | ck in chans :: chans[ck].(memb := chans[ck].memb - {k})
  }

  function DropUser(s: State, k: Key): State
    requires k in s.users
  {
    s.(users := s.users - {k},
       mem := s.mem - {s.users[k]},
       chans := WithoutMember(s.chans, k))
  }

  /** Put under the new key, then delete the old one. */
  function Moved<V>(m: map<Key, V>, k: Key, nk: Key): map<Key, V> {
    if k in m then m[nk := m[k]] - {k} else m
  }

  function WithMoved(chans: map<Key, Chan>, k: Key, nk: Key): map<Key, Chan> {
    map ck | ck in chans :: chans[ck].(memb := Moved(chans[ck].memb, k, nk))
  }

  function Rename(cfg: Config, s: State, ident: string, newnick: string): State
    requires Live(s)
  {
    var k := cfg.Key(ident);
    if k !in s.users then s
    else
      var p := s.users[k];
      var u := s.mem[p];
      if IEq(cfg.cm, Ident2Nick(ident, MAX_NICK_LEN), newnick) then
        s.(mem := s.mem[p := u.(nick := Trunc(newnick, |u.nick| + 1))])
      else
        var nk := cfg.Key(newnick);
        s.(users := Moved(s.users, k, nk),
           mem := s.mem[p := u.(nick := newnick)],
           chans := WithMoved(s.chans, k, nk))
  }

  /** The rename is of an unknown user, or one of case only that keeps the key, or one to a free key. */
  predicate RenameOk(cfg: Config, s: State, ident: string, newnick: string) {
    var k := cfg.Key(ident);
    k in s.users ==>
      if IEq(cfg.cm, Ident2Nick(ident, MAX_NICK_LEN), newnick) then cfg.Key(newnick) == k
      else cfg.Key(newnick) !in s.users
  }

  /** lsi_ucb_clear, with its two early returns. */
  function Clear(s: State): State {
    if s.chans == map[] then s
    else s.(users := map[], mem := s.mem - s.users.Values, chans := map[])
  }
}
