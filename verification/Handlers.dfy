// The message handlers of irc_track.c as a transition function over the user
// and channel base, and the messages they can process.
module Handlers {
  import opened CStrings
  import opened CaseMap
  import opened Message
  import opened Modes
  import opened Tracking

  /** A handler's result; Undefined marks the messages on which the C code leaves its strings or maps. */
  datatype Outcome = Done | ProtoErr | Undefined

  predicate Me(cfg: Config, s: State, nick: string) {
    IEq(cfg.cm, nick, s.mynick)
  }

  function Join(cfg: Config, s: State, ident: string, name: string): State
    requires Live(s)
  {
    var ck := cfg.Key(name);
    if Me(cfg, s, Ident2Nick(ident, MAX_NICK_LEN)) then
      if ck in s.chans then s else AddChan(cfg, s, name)
    else if ck !in s.chans then s
    else Enroll(cfg, s, ck, ident, "")
  }

  /** PART and KICK: our own leaving drops the channel, another's drops the member. */
  function Leave(cfg: Config, s: State, me: bool, ident: string, name: string): State {
    var ck := cfg.Key(name);
    if ck !in s.chans then s
    else if me then DropChan(s, ck)
    else if cfg.Key(ident) in s.users then DropMemb(s, ck, cfg.Key(ident))
    else s
  }

  function Quit(cfg: Config, s: State, ident: string): State {
    if cfg.Key(ident) in s.users then DropUser(s, cfg.Key(ident)) else s
  }

  /** One entry of a 353 list: an optional leading symbol, then the nick. */
  datatype NameEntry = NameEntry(nick: string, pfx: string)

  /** The first entry of a list and the position behind it. */
  function FirstName(syms: string, p: string): (r: (NameEntry, nat))
    requires p != []
    ensures r.1 <= |p|
  {
    var from := if p[0] in syms then 1 else 0;
    var end := from + IndexOf(p[from..], ' ');
    (NameEntry(Trunc(p[from..end], MAX_NICK_LEN), p[..from]), end)
  }

  /** The entries of a 353 list in order; None where the cursor runs over the terminator. */
  function NameEntries(syms: string, p: string): Option<seq<NameEntry>> {
    if p == [] then None
    else
      var (e, end) := FirstName(syms, p);
      if end == |p| then Some([e]) else Prefixed([e], NameEntries(syms, p[end + 1..]))
  }

  function Prefixed(a: seq<NameEntry>, b: Option<seq<NameEntry>>): Option<seq<NameEntry>> {
    if b.None? then None else Some(a + b.value)
  }

  function EnrollAll(cfg: Config, s: State, ck: Key, names: seq<NameEntry>): (t: State)
    requires Live(s) && ck in s.chans
    ensures Live(t) && t.chans.Keys == s.chans.Keys
    decreases |names|
  {
    if names == [] then s
    else EnrollAll(cfg, Enroll(cfg, s, ck, names[0].nick, names[0].pfx), ck, names[1..])
  }

  function StartNames(s: State, ck: Key): State
    requires ck in s.chans
  {
    if s.endofnames then ClearMemb(s, ck).(endofnames := false) else s
  }

  function Names(cfg: Config, s: State, name: string, list: string): (State, Outcome)
    requires Live(s)
  {
    var ck := cfg.Key(name);
    if ck !in s.chans then (s, Done)
    else
      var names := NameEntries(cfg.syms, list);
      var t := StartNames(s, ck);
      if names.None? || !Live(t) then (s, Undefined)
      else (EnrollAll(cfg, t, ck, names.value), Done)
  }

  /** h_NICK on the base and, before it, handle_NICK on our own nick. */
  function Nick(cfg: Config, s: State, ident: string, newnick: string): State
    requires Live(s)
  {
    var mynick := if Me(cfg, s, Ident2Nick(ident, 2 * MAX_NICK_LEN)) then Trunc(newnick, MAX_NICK_LEN) else s.mynick;
    Rename(cfg, s, ident, newnick).(mynick := mynick)
  }

  // ---------- MODE and 324 ----------

  predicate Applies(cfg: Config, ch: Change) {
    ch.letter in cfg.letters ==> |cfg.letters| == |cfg.syms| && ch.arg.Some?
  }

  function UpdateMember(cfg: Config, c: Chan, nick: string, sym: char, enab: bool): Chan {
    var k := cfg.Key(nick);
    if k !in c.memb then c
    else c.(memb := c.memb[k := c.memb[k].(modepfx := UpdatePfx(cfg.syms, c.memb[k].modepfx, sym, enab).0)])
  }

  function ChangeModes(cfg: Config, modes: ModeArray, ch: Change): ModeArray {
    if ch.enab then AddMode(modes, ch.ModeStr()) else DropMode(cfg, modes, ch.ModeStr()).0
  }

  function ApplyChange(cfg: Config, c: Chan, ch: Change): Chan
    requires Applies(cfg, ch)
  {
    var i := IndexOf(cfg.letters, ch.letter);
    if i < |cfg.letters| then UpdateMember(cfg, c, ch.arg.value, cfg.syms[i], ch.enab)
    else c.(modes := ChangeModes(cfg, c.modes, ch))
  }

  function ApplyChanges(cfg: Config, c: Chan, chs: seq<Change>): Chan
    requires forall i | 0 <= i < |chs| :: Applies(cfg, chs[i])
  {
    if chs == [] then c
    else ApplyChange(cfg, ApplyChanges(cfg, c, chs[..|chs| - 1]), chs[|chs| - 1])
  }

  function FoldModes(cfg: Config, modes: ModeArray, chs: seq<Change>): ModeArray {
    if chs == [] then modes
    else ChangeModes(cfg, FoldModes(cfg, modes, chs[..|chs| - 1]), chs[|chs| - 1])
  }

  predicate IsChannel(cfg: Config, target: string) {
    target == [] || target[0] in cfg.chantypes
  }

  function ChanMode(cfg: Config, s: State, args: seq<string>): (State, Outcome)
    requires |args| >= 2
  {
    var ck := cfg.Key(args[0]);
    if !IsChannel(cfg, args[0]) || ck !in s.chans then (s, Done)
    else
      var chs := Changes(cfg, args[1], true, args[2..]);
      if exists i | 0 <= i < |chs| :: !Applies(cfg, chs[i]) then (s, Undefined)
      else (s.(chans := s.chans[ck := ApplyChanges(cfg, s.chans[ck], chs)]), Done)
  }

  function ModeIs(cfg: Config, s: State, args: seq<string>): State
    requires |args| >= 3
  {
    var ck := cfg.Key(args[1]);
    if ck !in s.chans then s
    else
      var c := s.chans[ck];
      var chs := Changes(cfg, args[2], true, args[3..]);
      s.(chans := s.chans[ck := c.(modes := FoldModes(cfg, EmptyModes(|c.modes|), chs))])
  }

  // ---------- the transition function ----------

  datatype Command = JOIN | PART | QUIT | KICK | NICK | N353 | N366 | MODE | N324 | Other

  function CommandOf(cmd: string): Command {
    match cmd
    case "JOIN" => JOIN
    case "PART" => PART
    case "QUIT" => QUIT
    case "KICK" => KICK
    case "NICK" => NICK
    case "353" => N353
    case "366" => N366
    case "MODE" => MODE
    case "324" => N324
    case _ => Other
  }

  /** The arguments a handler insists on (nargs less the prefix and command slots). */
  function MinArgs(c: Command): nat {
    match c
    case JOIN => 1 case PART => 1 case QUIT => 0 case KICK => 2 case NICK => 1
    case N353 => 4 case N366 => 2 case MODE => 2 case N324 => 3 case Other => 0
  }

  function Step(cfg: Config, s: State, msg: Msg): (State, Outcome) {
    var c := CommandOf(msg.cmd);
    if c == Other then (s, Done)
    else if msg.prefix.None? || |msg.args| < MinArgs(c) then (s, ProtoErr)
    else if !Live(s) then (s, Undefined)
    else
      var from := msg.prefix.value;
      match c
      case JOIN => (Join(cfg, s, from, msg.args[0]), Done)
      case PART => (Leave(cfg, s, Me(cfg, s, Ident2Nick(from, MAX_NICK_LEN)), from, msg.args[0]), Done)
      case QUIT => (Quit(cfg, s, from), Done)
      case KICK => (Leave(cfg, s, Me(cfg, s, msg.args[1]), msg.args[1], msg.args[0]), Done)
      case NICK => (Nick(cfg, s, from, msg.args[0]), Done)
      case N353 => Names(cfg, s, msg.args[2], msg.args[3])
      case N366 => (s.(endofnames := true), Done)
      case MODE => ChanMode(cfg, s, msg.args)
      case N324 => (ModeIs(cfg, s, msg.args), Done)
      case Other => (s, Done)
  }

  function Run(cfg: Config, s: State, msgs: seq<Msg>): State
    decreases |msgs|
  {
    if msgs == [] then s else Run(cfg, Step(cfg, s, msgs[0]).0, msgs[1..])
  }

  /** What lsi_trk_init sets up. */
  function Initial(mynick: string): State {
    State(map[], map[], 0, map[], true, mynick)
  }

  // ---------- which messages keep the base consistent ----------

  /** How many blanks a text ends in. */
  function EndBlanks(p: string): (k: nat)
    ensures k <= |p|
  {
    if p != [] && p[|p| - 1] == ' ' then 1 + EndBlanks(p[..|p| - 1]) else 0
  }

  /** A 353 list ends in a name: it is not empty and has no blank behind it.  Should the symbols
      hold a blank, every second blank in a row is taken for one, and their number decides. */
  predicate ListOk(syms: string, p: string) {
    var k := EndBlanks(p);
    if ' ' !in syms then p != [] && k == 0
    else if k < |p| then k % 2 == 0
    else k % 2 == 1
  }

  /** Every prefix letter in a mode string, under the sign in front of it, takes an argument and
      has a symbol. */
  predicate ModesOk(cfg: Config, modes: string) {
    forall p | 0 <= p < |modes| && IsMode(cfg, modes[p]) && modes[p] in cfg.letters ::
      |cfg.letters| == |cfg.syms| && TakesArg(cfg, modes[p], SignAfter(modes[..p], true))
  }

  predicate JoinOk(cfg: Config, s: State, from: string, name: string) {
    var ck := cfg.Key(name);
    if Me(cfg, s, Ident2Nick(from, MAX_NICK_LEN)) then
      ck in s.chans || cfg.Key(Trunc(name, MAX_CHAN_LEN)) == ck
    else ck in s.chans ==> EnrollOk(cfg, s, from)
  }

  predicate JoinIsNew(cfg: Config, s: State, from: string, name: string) {
    var ck := cfg.Key(name);
    Me(cfg, s, Ident2Nick(from, MAX_NICK_LEN)) || ck !in s.chans
    || EnrollKey(cfg, s, from) !in s.chans[ck].memb
  }

  /** A guard on state and message: a joining user's key is unambiguous, a new channel's
      name fits its buffer, a rename is proper, a name list ends in a name and every prefix
      mode has its argument. */
  predicate MsgOk(cfg: Config, s: State, msg: Msg) {
    var c := CommandOf(msg.cmd);
    (c != Other && msg.prefix.Some? && |msg.args| >= MinArgs(c)) ==>
      var from := msg.prefix.value;
      match c
      case JOIN => JoinOk(cfg, s, from, msg.args[0])
      case NICK => RenameOk(cfg, s, from, msg.args[0])
      case N353 => cfg.Key(msg.args[2]) in s.chans ==> ListOk(cfg.syms, msg.args[3])
      case MODE => IsChannel(cfg, msg.args[0]) && cfg.Key(msg.args[0]) in s.chans ==> ModesOk(cfg, msg.args[1])
      case _ => true
  }

  /** The message makes nobody a member who is one already. */
  predicate NoReadd(cfg: Config, s: State, msg: Msg) {
    var c := CommandOf(msg.cmd);
    (c != Other && msg.prefix.Some? && |msg.args| >= MinArgs(c)) ==>
      match c
      case JOIN => JoinIsNew(cfg, s, msg.prefix.value, msg.args[0])
      case N353 =>
        var ck := cfg.Key(msg.args[2]);
        var names := NameEntries(cfg.syms, msg.args[3]);
        ck in s.chans && names.Some? ==>
          NewNames(cfg, if s.endofnames then {} else s.chans[ck].memb.Keys, names.value)
      case _ => true
  }

  /** The listed names are distinct under case folding and none is in `present`. */
  predicate NewNames(cfg: Config, present: set<Key>, names: seq<NameEntry>)
    decreases |names|
  {
    names == [] ||
    (cfg.Key(names[0].nick) !in present
     && NewNames(cfg, present + {cfg.Key(names[0].nick)}, names[1..]))
  }

  predicate RunOk(cfg: Config, s: State, msgs: seq<Msg>)
    decreases |msgs|
  {
    msgs == [] || (MsgOk(cfg, s, msgs[0]) && RunOk(cfg, Step(cfg, s, msgs[0]).0, msgs[1..]))
  }

  predicate RunNoReadd(cfg: Config, s: State, msgs: seq<Msg>)
    decreases |msgs|
  {
    msgs == [] || (NoReadd(cfg, s, msgs[0]) && RunNoReadd(cfg, Step(cfg, s, msgs[0]).0, msgs[1..]))
  }
}
