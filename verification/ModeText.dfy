// What the text of a MODE says, letter by letter and list by list: the lists of
// 005 decide about arguments, and a printed list of changes is read back.
module ModeText {
  import opened CStrings
  import opened Message
  import opened CaseMap
  import opened Modes

  /** The first change is `c` with the first argument, or "*" where there is none left; the others follow. */
  ghost predicate StartsWithArg(cfg: Config, text: string, enab: bool, args: seq<string>,
                                plus: bool, c: char, rest: string)
  {
    Changes(cfg, text, enab, args) ==
    [Change(plus, c, Some(if args == [] then "*" else args[0]))]
    + Changes(cfg, rest, plus, if args == [] then [] else args[1..])
  }

  /** The first change is `c` alone, and all arguments are left over. */
  ghost predicate StartsWithout(cfg: Config, text: string, enab: bool, args: seq<string>,
                                plus: bool, c: char, rest: string)
  {
    Changes(cfg, text, enab, args) == [Change(plus, c, None)] + Changes(cfg, rest, plus, args)
  }

  /** The letter behind a sign: the first of the four lists that holds it decides whether it takes an
      argument, and a prefix letter in none of them always does. */
  lemma {:induction false} FirstLetter(cfg: Config, plus: bool, c: char, rest: string, enab: bool, args: seq<string>)
    requires c != '+' && c != '-'
    ensures var text := [if plus then '+' else '-', c] + rest;
            var (a, b, cc, d) := (c in cfg.classA, c in cfg.classB, c in cfg.classC, c in cfg.classD);
            && (a || b ==> StartsWithArg(cfg, text, enab, args, plus, c, rest))
            && (!a && !b && cc && plus ==> StartsWithArg(cfg, text, enab, args, plus, c, rest))
            && (!a && !b && cc && !plus ==> StartsWithout(cfg, text, enab, args, plus, c, rest))
            && (!a && !b && !cc && d ==> StartsWithout(cfg, text, enab, args, plus, c, rest))
            && (!a && !b && !cc && !d && c in cfg.letters ==> StartsWithArg(cfg, text, enab, args, plus, c, rest))
            && (!a && !b && !cc && !d && c !in cfg.letters ==>
                  Changes(cfg, text, enab, args) == Changes(cfg, rest, plus, args))
  {
    var sign, text := if plus then '+' else '-', [if plus then '+' else '-', c] + rest;
    assert text[0] == sign && text[1..] == [c] + rest && ([c] + rest)[1..] == rest;
    assert Changes(cfg, text, enab, args) == Changes(cfg, [c] + rest, plus, args);
  }

  /** A sign stands for all letters up to the next one; at the start it is '+'. */
  lemma {:induction false} SignHolds(cfg: Config, plus: bool, rest: string, enab: bool, args: seq<string>)
    ensures Changes(cfg, [if plus then '+' else '-'] + rest, enab, args) == Changes(cfg, rest, plus, args)
    ensures Changes(cfg, "", enab, args) == []
  {
    var text := [if plus then '+' else '-'] + rest;
    assert text[1..] == rest;
  }

  // ---------- printed and read back ----------

  /** Whether a letter comes with an argument. */
  predicate Carries(cfg: Config, c: char, plus: bool) {
    c in cfg.classA || c in cfg.classB || if c in cfg.classC then plus else c !in cfg.classD
  }

  predicate Announced(cfg: Config, c: char) {
    c in cfg.classA || c in cfg.classB || c in cfg.classC || c in cfg.classD || c in cfg.letters
  }

  /** A change that can be asked for: an announced letter, with an argument where it takes one. */
  predicate Sound(cfg: Config, ch: Change) {
    && ch.letter != '+' && ch.letter != '-' && Announced(cfg, ch.letter)
    && (ch.arg.Some? <==> Carries(cfg, ch.letter, ch.enab))
  }

  predicate AllSound(cfg: Config, chs: seq<Change>) {
    forall i | 0 <= i < |chs| :: Sound(cfg, chs[i])
  }

  /** The mode string for a list of changes: a sign where it differs from the one in force. */
  function Text(chs: seq<Change>, enab: bool): string {
    if chs == [] then ""
    else
      (if chs[0].enab == enab then [] else [if chs[0].enab then '+' else '-'])
      + [chs[0].letter] + Text(chs[1..], chs[0].enab)
  }

  /** The arguments of a list of changes. */
  function Given(chs: seq<Change>): seq<string> {
    if chs == [] then [] else (if chs[0].arg.Some? then [chs[0].arg.value] else []) + Given(chs[1..])
  }

  lemma {:induction false} LetterIsRead(cfg: Config, ch: Change, rest: string, args: seq<string>)
    requires Sound(cfg, ch)
    ensures Changes(cfg, [ch.letter] + rest, ch.enab, (if ch.arg.Some? then [ch.arg.value] else []) + args) ==
            [ch] + Changes(cfg, rest, ch.enab, args)
  {
    var text, given := [ch.letter] + rest, (if ch.arg.Some? then [ch.arg.value] else []) + args;
    assert text[0] == ch.letter && text[1..] == rest;
    assert if ch.arg.Some? then given[0] == ch.arg.value && given[1..] == args else given == args;
  }

  /** Whatever changes are put into a mode string are read from it: the same letters, signs and
      arguments, in the same order. */
  lemma {:induction false} TextIsRead(cfg: Config, chs: seq<Change>, enab: bool, more: seq<string>)
    requires AllSound(cfg, chs)
    ensures Changes(cfg, Text(chs, enab), enab, Given(chs) + more) == chs
    decreases |chs|
  {
    hide Changes, Sound;
    if chs == [] {
      SignHolds(cfg, true, "", enab, Given(chs) + more);
    } else {
      var ch, rest := chs[0], Text(chs[1..], chs[0].enab);
      var one: seq<string> := if ch.arg.Some? then [ch.arg.value] else [];
      assert Given(chs) + more == one + (Given(chs[1..]) + more);
      LetterIsRead(cfg, ch, rest, Given(chs[1..]) + more);
      TextIsRead(cfg, chs[1..], ch.enab, more);
      assert chs == [ch] + chs[1..];
      if ch.enab == enab {
        assert Text(chs, enab) == [ch.letter] + rest;
      } else {
        SignHolds(cfg, ch.enab, [ch.letter] + rest, enab, Given(chs) + more);
        assert Text(chs, enab) == [if ch.enab then '+' else '-'] + ([ch.letter] + rest);
      }
    }
  }
}
