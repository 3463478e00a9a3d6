// What MODE and 324 do to the modes of a channel and the prefixes of its members, said on
// the text of the message.
module ModeEffects {
  import opened CStrings
  import opened Slots
  import opened CaseMap
  import opened Message
  import opened Modes
  import opened ModeText
  import opened Prefixes
  import opened Tracking
  import opened Handlers
  import opened HandlerLemmas
  import opened Grades
  import opened Effects

  /** The message is about a channel, not about our own modes. */
  predicate AboutChannel(cfg: Config, name: string) {
    name == "" || name[0] in cfg.chantypes
  }

  /** A MODE with one change. */
  function OneMode(from: string, name: string, plus: bool, c: char, args: seq<string>): Msg {
    Msg(Some(from), "MODE", [name, [if plus then '+' else '-', c]] + args)
  }

  /** A change as it is kept in a channel: the letter, and its argument behind a blank. */
  function Entry(c: char, arg: Option<string>): string {
    match arg
    case None => [c]
    case Some(a) => [c] + " " + a
  }

  /** The argument the text gives a letter. */
  function ArgOf(cfg: Config, c: char, plus: bool, args: seq<string>): Option<string> {
    if !Carries(cfg, c, plus) then None else Some(if args == [] then "*" else args[0])
  }

  lemma {:induction false} OneChange(cfg: Config, plus: bool, c: char, args: seq<string>)
    requires c != '+' && c != '-'
    ensures Changes(cfg, [if plus then '+' else '-', c], true, args) ==
            if !Announced(cfg, c) then [] else [Change(plus, c, ArgOf(cfg, c, plus, args))]
  {
    hide Changes;
    var text := [if plus then '+' else '-', c];
    assert text + "" == text;
    FirstLetter(cfg, plus, c, "", true, args);
    SignHolds(cfg, true, "", plus, args);
    SignHolds(cfg, true, "", plus, if args == [] then [] else args[1..]);
  }

  /** What the one change does to its channel. */
  lemma {:induction false} OneModeStep(cfg: Config, s: State, from: string, name: string, plus: bool, c: char,
                                       args: seq<string>)
    requires Inv(cfg, s) && AboutChannel(cfg, name) && cfg.Key(name) in s.chans
    requires c != '+' && c != '-' && Announced(cfg, c)
    requires var ch := Change(plus, c, ArgOf(cfg, c, plus, args)); Applies(cfg, ch)
    ensures var ch, ck := Change(plus, c, ArgOf(cfg, c, plus, args)), cfg.Key(name);
            Step(cfg, s, OneMode(from, name, plus, c, args)) ==
            (s.(chans := s.chans[ck := ApplyChange(cfg, s.chans[ck], ch)]), Done)
  {
    hide Canon, Inv, Live, Changes, Applies, ApplyChange, Carries, Announced, ArgOf, Step;
    LiveOf(cfg, s);
    DispatchReplies(cfg, s, from, OneMode(from, name, plus, c, args).args);
    OneChange(cfg, plus, c, args);
    var ch, msg := Change(plus, c, ArgOf(cfg, c, plus, args)), OneMode(from, name, plus, c, args);
    assert msg.args[2..] == args;
    assert [ch][..0] == [];
    assert ApplyChanges(cfg, s.chans[cfg.Key(name)], [ch]) == ApplyChange(cfg, s.chans[cfg.Key(name)], ch);
  }

  // ---------- modes of the channel ----------

  /** A mode that is no prefix is added behind all others, with its argument. */
  lemma {:induction false} ModeIsAdded(cfg: Config, s: State, from: string, name: string, c: char, args: seq<string>)
    requires Inv(cfg, s) && Graded(cfg, s) && AboutChannel(cfg, name) && cfg.Key(name) in s.chans
    requires c != '+' && c != '-' && Announced(cfg, c) && c !in cfg.letters
    ensures var (t, r) := Step(cfg, s, OneMode(from, name, true, c, args));
            var ck := cfg.Key(name);
            && r == Done && OnlyModes(s, t, ck)
            && Contents(t.chans[ck].modes) == Contents(s.chans[ck].modes) + [Entry(c, ArgOf(cfg, c, true, args))]
  {
    hide Canon, Inv, Carries, Announced, Contents, AddMode, Changes, OneMode;
    OneModeStep(cfg, s, from, name, true, c, args);
    var ck, ch := cfg.Key(name), Change(true, c, ArgOf(cfg, c, true, args));
    assert ChanGraded(cfg, s.chans[ck]);
    AddModeAppends(s.chans[ck].modes, ch.ModeStr());
    EntryIsModeStr(ch);
  }

  lemma {:induction false} EntryIsModeStr(ch: Change)
    ensures ch.ModeStr() == Entry(ch.letter, ch.arg)
  {
    if ch.arg.Some? {
      assert [ch.letter] + (" " + ch.arg.value) == [ch.letter] + " " + ch.arg.value;
    } else {
      assert [ch.letter] + "" == [ch.letter];
    }
  }

  /** Nothing but the modes of `ck` differs. */
  ghost predicate OnlyModes(s: State, t: State, ck: Key) {
    ck in s.chans && ck in t.chans && t == s.(chans := s.chans[ck := s.chans[ck].(modes := t.chans[ck].modes)])
  }

  /** The entries a "-c" may take away: a list mode by its whole text, any other by its letter. */
  predicate Names(cfg: Config, c: char, entry: string, e: string) {
    if c in cfg.classA then e == entry else e != "" && e[0] == c
  }

  /** The first entry the text names is gone, and the last one has taken its place. */
  ghost predicate FirstTaken(cfg: Config, c: char, entry: string, was: seq<string>, now: seq<string>) {
    exists i | 0 <= i < |was| :: TakenAt(cfg, c, entry, was, now, i)
  }

  ghost predicate TakenAt(cfg: Config, c: char, entry: string, was: seq<string>, now: seq<string>, i: nat)
    requires i < |was|
  {
    && Names(cfg, c, entry, was[i]) && (forall j | 0 <= j < i :: !Names(cfg, c, entry, was[j]))
    && |now| == |was| - 1
    && forall j | 0 <= j < |now| :: now[j] == if j == i then was[|was| - 1] else was[j]
  }

  /** A mode that is no prefix is taken away: of the entries the text names, if there are any, the first
      is gone; all others stay. */
  lemma {:induction false} ModeIsTaken(cfg: Config, s: State, from: string, name: string, c: char, args: seq<string>)
    requires Inv(cfg, s) && Graded(cfg, s) && AboutChannel(cfg, name) && cfg.Key(name) in s.chans
    requires c != '+' && c != '-' && Announced(cfg, c) && c !in cfg.letters
    ensures var (t, r) := Step(cfg, s, OneMode(from, name, false, c, args));
            var ck, entry := cfg.Key(name), Entry(c, ArgOf(cfg, c, false, args));
            && r == Done && OnlyModes(s, t, ck)
            && var (was, now) := (Contents(s.chans[ck].modes), Contents(t.chans[ck].modes));
               if forall e | e in was :: !Names(cfg, c, entry, e) then now == was
               else
                 && FirstTaken(cfg, c, entry, was, now)
                 && exists e | e in was :: Names(cfg, c, entry, e) && multiset(was) == multiset(now) + multiset{e}
  {
    hide Canon, Inv, Step, Carries, Contents, DropMode, Changes, OneMode, Names, Classify, FirstTaken;
    OneModeStep(cfg, s, from, name, false, c, args);
    var ck, ch := cfg.Key(name), Change(false, c, ArgOf(cfg, c, false, args));
    assert ChanGraded(cfg, s.chans[ck]);
    EntryIsModeStr(ch);
    AnnouncedIsClassed(cfg, c);
    DropIsTaken(cfg, s.chans[ck].modes, c, ch.ModeStr());
  }

  /** The same on the mode array. */
  lemma {:induction false} DropIsTaken(cfg: Config, arr: ModeArray, c: char, entry: string)
    requires Compact(arr) && entry != "" && entry[0] == c && Classify(cfg, c) != NoClass
    ensures var (was, now) := (Contents(arr), Contents(DropMode(cfg, arr, entry).0));
            if forall e | e in was :: !Names(cfg, c, entry, e) then now == was
            else
              && FirstTaken(cfg, c, entry, was, now)
              && exists e | e in was :: Names(cfg, c, entry, e) && multiset(was) == multiset(now) + multiset{e}
  {
    hide Contents, Classify, Names, Matches, DropMode, FirstMatch, LastSlot;
    DropModeRemovesOne(cfg, arr, entry);
    var was := Contents(arr);
    forall e | e in was ensures Matches(cfg, entry, Some(e)) <==> Names(cfg, c, entry, e) {
      MatchesIsNames(cfg, c, entry, e);
    }
    if DropMode(cfg, arr, entry).1 {
      DropModeContents(cfg, arr, entry);
      var i := FirstMatch(cfg, arr, entry);
      var now := Contents(DropMode(cfg, arr, entry).0);
      assert arr[i] == Some(was[i]) && was[i] in was;
      forall j | 0 <= j < i ensures !Names(cfg, c, entry, was[j]) {
        assert arr[j] == Some(was[j]) && was[j] in was && !Matches(cfg, entry, arr[j]);
      }
      assert TakenAt(cfg, c, entry, was, now, i);
    }
  }

  lemma AnnouncedIsClassed(cfg: Config, c: char)
    requires Announced(cfg, c) && c !in cfg.letters
    ensures Classify(cfg, c) != NoClass
  {
  }

  lemma MatchesIsNames(cfg: Config, c: char, entry: string, e: string)
    requires entry != "" && entry[0] == c
    ensures Matches(cfg, entry, Some(e)) <==> Names(cfg, c, entry, e)
  {
  }

  // ---------- prefixes of members ----------

  /** The symbol of the i-th letter is given to, or taken from, the member the argument names; the
      prefix is from then on the list of symbols held.  Nobody else and no mode changes. */
  lemma {:induction false} PrefixIsChanged(cfg: Config, s: State, from: string, name: string, plus: bool, i: nat,
                                           who: string, more: seq<string>)
    requires Inv(cfg, s) && Graded(cfg, s) && AboutChannel(cfg, name) && cfg.Key(name) in s.chans
    requires i < |cfg.letters| == |cfg.syms| && NoneTwice(cfg.letters) && NoneTwice(cfg.syms)
    requires var c := cfg.letters[i]; c != '+' && c != '-' && Carries(cfg, c, plus)
    ensures var (t, r) := Step(cfg, s, OneMode(from, name, plus, cfg.letters[i], [who] + more));
            var ck, k, sym := cfg.Key(name), cfg.Key(who), cfg.syms[i];
            && r == Done
            && var m := s.chans[ck].memb;
               if k !in m then t == s
               else
                 var held := set x | x in m[k].modepfx;
                 t == s.(chans := s.chans[ck := s.chans[ck].(memb := m[k := m[k].(modepfx :=
                        if !plus then Kept(cfg.syms, held - {sym})
                        else if |m[k].modepfx| == 7 then m[k].modepfx
                        else Kept(cfg.syms, held + {sym}))])])
  {
    hide Canon, Inv, Step, Carries, Contents, Changes, OneMode, Kept, Compact, UpdatePfx, Ordered, IndexOf;
    var c, ck, k := cfg.letters[i], cfg.Key(name), cfg.Key(who);
    IndexOfIs(cfg.letters, c, i);
    assert Announced(cfg, c);
    OneModeStep(cfg, s, from, name, plus, c, [who] + more);
    assert ChanGraded(cfg, s.chans[ck]);
    PrefixAfter(cfg, s.chans[ck], Change(plus, c, Some(who)), i);
    if k !in s.chans[ck].memb {
      assert s.chans[ck := s.chans[ck]] == s.chans;
    }
  }

  /** The same on the channel. */
  lemma {:induction false} PrefixAfter(cfg: Config, c: Chan, ch: Change, i: nat)
    requires ChanGraded(cfg, c) && Applies(cfg, ch) && i == IndexOf(cfg.letters, ch.letter) < |cfg.letters|
    requires NoneTwice(cfg.syms) && ch.arg.Some?
    ensures var k, m, sym := cfg.Key(ch.arg.value), c.memb, cfg.syms[i];
            ApplyChange(cfg, c, ch) ==
            if k !in m then c
            else
              var held := set x | x in m[k].modepfx;
              c.(memb := m[k := m[k].(modepfx :=
                if !ch.enab then Kept(cfg.syms, held - {sym})
                else if |m[k].modepfx| == 7 then m[k].modepfx
                else Kept(cfg.syms, held + {sym}))])
  {
    hide Canon, Kept, Compact, UpdatePfx, Ordered, IndexOf, ChangeModes;
    var k := cfg.Key(ch.arg.value);
    if k in c.memb {
      assert PfxOk(cfg, c.memb[k].modepfx);
      UpdateKeeps(cfg.syms, c.memb[k].modepfx, cfg.syms[i], ch.enab);
    }
  }

  /** A MODE about anything but a channel leaves the base alone, and so does one for an unknown
      channel and one with a letter nobody announced. */
  lemma {:induction false} ModeElsewhere(cfg: Config, s: State, from: string, name: string, text: string,
                                         args: seq<string>)
    requires Inv(cfg, s)
    ensures !AboutChannel(cfg, name) || cfg.Key(name) !in s.chans ==>
              Step(cfg, s, Msg(Some(from), "MODE", [name, text] + args)) == (s, Done)
  {
    hide Canon, Inv, Live, Changes, Applies, ApplyChanges, Step;
    LiveOf(cfg, s);
    DispatchReplies(cfg, s, from, [name, text] + args);
  }

  // ---------- several changes at once ----------

  /** The MODE that asks for a list of changes, and the MODEs that ask for one of them each. */
  function Together(from: string, name: string, chs: seq<Change>): Msg {
    Msg(Some(from), "MODE", [name, Text(chs, true)] + Given(chs))
  }

  function OneByOne(from: string, name: string, chs: seq<Change>): seq<Msg> {
    seq(|chs|, i requires 0 <= i < |chs| => Together(from, name, [chs[i]]))
  }

  /** Every prefix letter has a symbol and an argument. */
  predicate AllApply(cfg: Config, chs: seq<Change>) {
    forall i | 0 <= i < |chs| :: chs[i].letter in cfg.letters ==> |cfg.letters| == |cfg.syms| && chs[i].arg.Some?
  }

  lemma {:induction false} TogetherStep(cfg: Config, s: State, from: string, name: string, chs: seq<Change>)
    requires Inv(cfg, s) && AboutChannel(cfg, name) && cfg.Key(name) in s.chans
    requires AllSound(cfg, chs) && AllApply(cfg, chs)
    ensures forall i | 0 <= i < |chs| :: Applies(cfg, chs[i])
    ensures var ck := cfg.Key(name);
            Step(cfg, s, Together(from, name, chs)) ==
            (s.(chans := s.chans[ck := ApplyChanges(cfg, s.chans[ck], chs)]), Done)
  {
    hide Canon, Inv, Live, Changes, ApplyChanges, AllSound, Text, Given, Step;
    LiveOf(cfg, s);
    DispatchReplies(cfg, s, from, Together(from, name, chs).args);
    var msg := Together(from, name, chs);
    assert msg.args[2..] == Given(chs) + [];
    TextIsRead(cfg, chs, true, []);
  }

  lemma {:induction false} ApplyLast(cfg: Config, c: Chan, chs: seq<Change>)
    requires chs != [] && forall i | 0 <= i < |chs| :: Applies(cfg, chs[i])
    ensures var n := |chs| - 1;
            ApplyChanges(cfg, c, chs) == ApplyChanges(cfg, ApplyChanges(cfg, c, chs[..n]), [chs[n]])
  {
    hide Applies, ApplyChange;
    var last := [chs[|chs| - 1]];
    assert last[..0] == [];
  }

  /** Several changes in one MODE do what one MODE for each of them would do, in the order of the text. */
  lemma {:induction false} ModeIsOneByOne(cfg: Config, s: State, from: string, name: string, chs: seq<Change>)
    requires Inv(cfg, s) && AboutChannel(cfg, name) && cfg.Key(name) in s.chans
    requires AllSound(cfg, chs) && AllApply(cfg, chs)
    ensures Step(cfg, s, Together(from, name, chs)) == (Run(cfg, s, OneByOne(from, name, chs)), Done)
    decreases |chs|
  {
    hide Canon, Inv, Step, ApplyChanges, Together, AboutChannel, Sound, Applies;
    TogetherStep(cfg, s, from, name, chs);
    var ck, n := cfg.Key(name), |chs| - 1;
    if chs == [] {
      NoChanges(cfg, s.chans[ck]);
      assert s.chans[ck := s.chans[ck]] == s.chans;
      assert OneByOne(from, name, chs) == [];
    } else {
      var front, last := chs[..n], [chs[n]];
      ModeIsOneByOne(cfg, s, from, name, front);
      TogetherStep(cfg, s, from, name, front);
      var u := Step(cfg, s, Together(from, name, front)).0;
      TogetherKeeps(cfg, s, from, name, front);
      TogetherStep(cfg, u, from, name, last);
      ApplyLast(cfg, s.chans[ck], chs);
      OneMore(from, name, chs);
      RunSnoc(cfg, s, OneByOne(from, name, front), Together(from, name, last));
      var a, b := u.chans[ck], ApplyChanges(cfg, u.chans[ck], last);
      assert s.chans[ck := a][ck := b] == s.chans[ck := b];
    }
  }

  lemma NoChanges(cfg: Config, c: Chan)
    ensures ApplyChanges(cfg, c, []) == c
  {
  }

  lemma {:induction false} OneMore(from: string, name: string, chs: seq<Change>)
    requires chs != []
    ensures var n := |chs| - 1;
            OneByOne(from, name, chs) == OneByOne(from, name, chs[..n]) + [Together(from, name, [chs[n]])]
  {
    hide Together;
  }

  lemma {:induction false} TogetherKeeps(cfg: Config, s: State, from: string, name: string, chs: seq<Change>)
    requires Inv(cfg, s) && AboutChannel(cfg, name) && cfg.Key(name) in s.chans
    requires AllSound(cfg, chs) && AllApply(cfg, chs)
    ensures Inv(cfg, Step(cfg, s, Together(from, name, chs)).0)
  {
    hide Canon, Inv, ApplyChanges, Together, Sound, SameMembers;
    TogetherStep(cfg, s, from, name, chs);
    ApplyChangesSameMembers(cfg, s.chans[cfg.Key(name)], chs);
    ReplacedChanKeeps(cfg, s, cfg.Key(name), ApplyChanges(cfg, s.chans[cfg.Key(name)], chs));
  }

  lemma {:induction false} RunSnoc(cfg: Config, s: State, msgs: seq<Msg>, msg: Msg)
    ensures Run(cfg, s, msgs + [msg]) == Step(cfg, Run(cfg, s, msgs), msg).0
    decreases |msgs|
  {
    hide Step;
    if msgs == [] {
      assert (msgs + [msg])[1..] == [];
    } else {
      assert (msgs + [msg])[1..] == msgs[1..] + [msg];
      RunSnoc(cfg, Step(cfg, s, msgs[0]).0, msgs[1..], msg);
    }
  }

  // ---------- 324 ----------

  /** The mode array after a list of changes that all set something. */
  ghost predicate AddedTo(was: seq<string>, now: seq<string>, chs: seq<Change>) {
    && |now| == |was| + |chs| && was <= now
    && forall i | 0 <= i < |chs| :: now[|was| + i] == Entry(chs[i].letter, chs[i].arg)
  }

  lemma {:induction false} AddedOneMore(was: seq<string>, now: seq<string>, chs: seq<Change>)
    requires chs != [] && AddedTo(was, now, chs[..|chs| - 1])
    ensures var ch := chs[|chs| - 1]; AddedTo(was, now + [Entry(ch.letter, ch.arg)], chs)
  {
    hide Entry;
  }

  lemma {:induction false} AddedInOrder(cfg: Config, modes: ModeArray, chs: seq<Change>)
    requires Compact(modes) && forall i | 0 <= i < |chs| :: chs[i].enab
    ensures var r := FoldModes(cfg, modes, chs); Compact(r) && AddedTo(Contents(modes), Contents(r), chs)
    decreases |chs|
  {
    hide Contents, Compact, AddMode, DropMode, Entry, AddedTo;
    if chs == [] {
      NoneAdded(Contents(modes));
    } else {
      var n := |chs| - 1;
      AddedInOrder(cfg, modes, chs[..n]);
      var r := FoldModes(cfg, modes, chs[..n]);
      AddModeAppends(r, chs[n].ModeStr());
      EntryIsModeStr(chs[n]);
      AddedOneMore(Contents(modes), Contents(r), chs);
    }
  }

  lemma NoneAdded(was: seq<string>)
    ensures AddedTo(was, was, [])
  {
  }

  /** The 324 that lists some modes. */
  function ModeReply(from: string, x: string, name: string, chs: seq<Change>): Msg {
    Msg(Some(from), "324", [x, name, ['+'] + Text(chs, true)] + Given(chs))
  }

  lemma {:induction false} ModeReplyStep(cfg: Config, s: State, from: string, x: string, name: string, chs: seq<Change>)
    requires Inv(cfg, s) && cfg.Key(name) in s.chans && AllSound(cfg, chs)
    ensures var c := s.chans[cfg.Key(name)];
            Step(cfg, s, ModeReply(from, x, name, chs)) ==
            (s.(chans := s.chans[cfg.Key(name) := c.(modes := FoldModes(cfg, EmptyModes(|c.modes|), chs))]), Done)
  {
    hide Canon, Inv, Live, Changes, FoldModes, AllSound, Text, Given, EmptyModes, Step;
    LiveOf(cfg, s);
    DispatchReplies(cfg, s, from, ModeReply(from, x, name, chs).args);
    assert ModeReply(from, x, name, chs).args[3..] == Given(chs) + [];
    SignHolds(cfg, true, Text(chs, true), true, Given(chs) + []);
    TextIsRead(cfg, chs, true, []);
  }

  /** A 324 that lists modes leaves exactly those, in the order and with the arguments of the text,
      whatever was known before. */
  lemma {:induction false} ModeReplyReplaces(cfg: Config, s: State, from: string, x: string, name: string,
                                             chs: seq<Change>)
    requires Inv(cfg, s) && Graded(cfg, s) && cfg.Key(name) in s.chans && AllSound(cfg, chs)
    requires forall i | 0 <= i < |chs| :: chs[i].enab
    ensures var (t, r) := Step(cfg, s, ModeReply(from, x, name, chs));
            var ck := cfg.Key(name);
            && r == Done && OnlyModes(s, t, ck)
            && |Contents(t.chans[ck].modes)| == |chs|
            && forall i | 0 <= i < |chs| :: Contents(t.chans[ck].modes)[i] == Entry(chs[i].letter, chs[i].arg)
  {
    hide Canon, Inv, Step, FoldModes, Contents, Compact, AllSound, ModeReply, Entry, EmptyModes, AddedTo;
    ModeReplyStep(cfg, s, from, x, name, chs);
    var c := s.chans[cfg.Key(name)];
    assert ChanGraded(cfg, c);
    CompactHasSlots(c.modes);
    EmptyIsCompact(|c.modes|);
    AddedInOrder(cfg, EmptyModes(|c.modes|), chs);
    AddedToNone(Contents(FoldModes(cfg, EmptyModes(|c.modes|), chs)), chs);
  }

  lemma AddedToNone(now: seq<string>, chs: seq<Change>)
    requires AddedTo([], now, chs)
    ensures |now| == |chs| && forall i | 0 <= i < |chs| :: now[i] == Entry(chs[i].letter, chs[i].arg)
  {
    hide Entry;
    assert forall i | 0 <= i < |chs| :: now[0 + i] == now[i];
  }

  lemma CompactHasSlots(modes: ModeArray)
    requires Compact(modes)
    ensures |modes| > 0
  {
  }
}
