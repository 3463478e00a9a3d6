// When the handlers of 353 and MODE stay inside their strings: conditions on
// the text of the message.
module Guards {
  import opened CStrings
  import opened Message
  import opened CaseMap
  import opened Modes
  import opened Tracking
  import opened Handlers

  // ---------- the cursor of 353 ----------

  lemma {:induction false} EndBlanksIs(p: string, k: nat)
    requires k <= |p| && (forall j | |p| - k <= j < |p| :: p[j] == ' ')
    requires k < |p| ==> p[|p| - k - 1] != ' '
    ensures EndBlanks(p) == k
    decreases k
  {
    if k > 0 {
      EndBlanksIs(p[..|p| - 1], k - 1);
    }
  }

  lemma {:induction false} EndBlanksAre(p: string)
    ensures var k := EndBlanks(p);
            && (forall j | |p| - k <= j < |p| :: p[j] == ' ')
            && (k < |p| ==> p[|p| - k - 1] != ' ')
  {
    if p != [] && p[|p| - 1] == ' ' {
      EndBlanksAre(p[..|p| - 1]);
    }
  }

  /** What stands in front of the rest decides only where the rest is all blanks. */
  lemma {:induction false} EndBlanksBehind(p: string, end: nat)
    requires end < |p| && p[end] == ' '
    ensures var (k, q) := (EndBlanks(p), p[end + 1..]);
            && (EndBlanks(q) < |q| ==> k == EndBlanks(q))
            && (EndBlanks(q) == |q| && end > 0 && p[end - 1] != ' ' ==> k == |q| + 1 < |p|)
            && (EndBlanks(q) == |q| && end == 0 ==> k == |p|)
            && (EndBlanks(q) == |q| && end == 1 && p[0] == ' ' ==> k == |p| == |q| + 2)
  {
    var q := p[end + 1..];
    EndBlanksAre(q);
    assert forall j | end < j < |p| :: p[j] == q[j - end - 1];
    if EndBlanks(q) < |q| {
      EndBlanksIs(p, EndBlanks(q));
    } else if end > 0 && p[end - 1] != ' ' {
      EndBlanksIs(p, |q| + 1);
    } else if end == 0 || (end == 1 && p[0] == ' ') {
      EndBlanksIs(p, |p|);
    }
  }

  lemma {:induction false} OneName(syms: string, p: string)
    requires p != [] && FirstName(syms, p).1 == |p|
    ensures ListOk(syms, p)
  {
    hide EndBlanks;
    EndBlanksIs(p, if p[|p| - 1] == ' ' then 1 else 0);
  }

  lemma {:induction false} NameThenMore(syms: string, p: string)
    requires p != [] && FirstName(syms, p).1 < |p|
    ensures var end := FirstName(syms, p).1; ListOk(syms, p) <==> ListOk(syms, p[end + 1..])
  {
    hide EndBlanks;
    var end := FirstName(syms, p).1;
    assert p[end] == ' ';
    assert end > 0 && p[end - 1] == ' ' ==> end == 1 && ' ' in syms;
    EndBlanksBehind(p, end);
  }

  /** The cursor of the 353 handler stays inside the list if and only if the list ends in a name. */
  lemma {:induction false} ListOkIff(syms: string, p: string)
    ensures NameEntries(syms, p).Some? <==> ListOk(syms, p)
    decreases |p|
  {
    hide FirstName, ListOk;
    if p == [] {
      EmptyList(syms);
    } else if FirstName(syms, p).1 == |p| {
      OneName(syms, p);
    } else {
      NameThenMore(syms, p);
      ListOkIff(syms, p[FirstName(syms, p).1 + 1..]);
    }
  }

  lemma EmptyList(syms: string)
    ensures !ListOk(syms, "")
  {
  }

  /** With symbols as servers announce them: the list is not empty and does not end in a blank. */
  lemma {:induction false} ListOkPlainly(syms: string, p: string)
    requires ' ' !in syms
    ensures NameEntries(syms, p).Some? <==> p != [] && p[|p| - 1] != ' '
  {
    ListOkIff(syms, p);
  }

  lemma {:induction false} NamesDefinedIff(cfg: Config, s: State, name: string, list: string)
    requires Live(s) && (cfg.Key(name) in s.chans ==> Live(StartNames(s, cfg.Key(name))))
    ensures Names(cfg, s, name, list).1 == Done <==> (cfg.Key(name) in s.chans ==> ListOk(cfg.syms, list))
  {
    hide Canon, NameEntries, ListOk, EnrollAll, StartNames;
    ListOkIff(cfg.syms, list);
  }

  // ---------- the arguments of MODE ----------

  /** What the parser hands out carries its arguments exactly where the text asks for them. */
  lemma {:induction false} PrefixArgsByText(cfg: Config, modes: string, enab: bool, args: seq<string>)
    ensures AllPrefixArgs(cfg, Changes(cfg, modes, enab, args)) <==>
            forall p | 0 <= p < |modes| && IsMode(cfg, modes[p]) && modes[p] in cfg.letters ::
              TakesArg(cfg, modes[p], SignAfter(modes[..p], enab))
  {
    var chs := Changes(cfg, modes, enab, args);
    ChangesCount(cfg, modes, enab, args);
    forall i | 0 <= i < |chs|
      ensures exists p | 0 <= p < |modes| && IsMode(cfg, modes[p]) :: chs[i].letter == modes[p] &&
                (chs[i].arg.Some? <==> TakesArg(cfg, modes[p], SignAfter(modes[..p], enab)))
    {
      var p := ModeAt(cfg, modes, i);
      ChangesByPosition(cfg, modes, enab, args, p);
    }
    forall p | 0 <= p < |modes| && IsMode(cfg, modes[p])
      ensures exists i | 0 <= i < |chs| :: chs[i].letter == modes[p] &&
                (chs[i].arg.Some? <==> TakesArg(cfg, modes[p], SignAfter(modes[..p], enab)))
    {
      ChangesByPosition(cfg, modes, enab, args, p);
    }
  }

  /** The position of the i-th known letter. */
  lemma {:induction false} ModeAt(cfg: Config, modes: string, i: nat) returns (p: nat)
    requires i < CountModes(cfg, modes)
    ensures p < |modes| && IsMode(cfg, modes[p]) && CountModes(cfg, modes[..p]) == i
  {
    if IsMode(cfg, modes[0]) && i == 0 {
      p := 0;
    } else {
      p := ModeAt(cfg, modes[1..], if IsMode(cfg, modes[0]) then i - 1 else i);
      assert modes[..p + 1][1..] == modes[1..][..p];
      p := p + 1;
    }
  }

  /** MODE never reads a missing argument or symbol if and only if its text says so. */
  lemma {:induction false} ChanModeDefinedIff(cfg: Config, s: State, args: seq<string>)
    requires |args| >= 2
    ensures ChanMode(cfg, s, args).1 == Done <==>
            (IsChannel(cfg, args[0]) && cfg.Key(args[0]) in s.chans ==> ModesOk(cfg, args[1]))
    ensures ChanMode(cfg, s, args).1 != ProtoErr
  {
    hide Canon, Changes, ApplyChanges;
    ApplicableIff(cfg, args[1], args[2..]);
  }

  lemma {:induction false} ApplicableIff(cfg: Config, modes: string, args: seq<string>)
    ensures var chs := Changes(cfg, modes, true, args);
            (forall i | 0 <= i < |chs| :: Applies(cfg, chs[i])) <==> ModesOk(cfg, modes)
  {
    hide Changes, TakesArg, SignAfter;
    var chs := Changes(cfg, modes, true, args);
    PrefixArgsByText(cfg, modes, true, args);
    if |cfg.letters| != |cfg.syms| {
      if p :| 0 <= p < |modes| && IsMode(cfg, modes[p]) && modes[p] in cfg.letters {
        ChangesByPosition(cfg, modes, true, args, p);
      }
      if i :| 0 <= i < |chs| && chs[i].letter in cfg.letters {
        ChangesCount(cfg, modes, true, args);
        var p := ModeAt(cfg, modes, i);
        ChangesByPosition(cfg, modes, true, args, p);
      }
    }
  }

  /** With the lists a server should announce, every MODE is defined. */
  lemma {:induction false} SoundListsSuffice(cfg: Config, s: State, args: seq<string>)
    requires |args| >= 2 && PrefixesTakeArgs(cfg) && |cfg.letters| == |cfg.syms|
    ensures ModesOk(cfg, args[1]) && ChanMode(cfg, s, args).1 == Done
  {
    hide Canon, ApplyChanges;
    ChanModeDefinedIff(cfg, s, args);
    forall p | 0 <= p < |args[1]| && IsMode(cfg, args[1][p]) && args[1][p] in cfg.letters
      ensures TakesArg(cfg, args[1][p], SignAfter(args[1][..p], true))
    {
    }
  }
}
