// The client's own user modes (handle_MODE in irc_msghnd.c), kept as a string of
// distinct letters.
module Umodes {
  import opened CStrings
  import opened CaseMap
  import opened Message
  import opened InPlace
  import opened Printer

  const MAX_UMODES_LEN := 64

  /** One letter of a mode string. */
  function Toggle(modes: string, c: char, enab: bool): string {
    var m := IndexOf(modes, c);
    if enab == (m < |modes|) then modes
    else if enab then Trunc(modes + [c], MAX_UMODES_LEN)
    else modes[..m] + modes[m + 1..]
  }

  function SignOf(c: char, enab: bool): bool {
    if c == '+' then true else if c == '-' then false else enab
  }

  predicate IsSign(c: char) {
    c == '+' || c == '-'
  }

  /** The user modes after a mode string. */
  function Toggles(modes: string, s: string, enab: bool): string
    decreases |s|
  {
    if s == [] then modes
    else if IsSign(s[0]) then Toggles(modes, s[1..], SignOf(s[0], enab))
    else Toggles(Toggle(modes, s[0], enab), s[1..], enab)
  }

  /** handle_MODE: None where the message has too few arguments. */
  function HandleMode(cm: CaseMapping, mynick: string, modes: string, msg: Msg): Option<string> {
    if |msg.args| < 2 then None
    else if !IEq(cm, msg.args[0], mynick) then Some(modes)
    else Some(Toggles(modes, msg.args[1], true))
  }

  // ---------- what a mode string asks for ----------

  /** Whether `c` should be set in the end: as its last occurrence says, or as before. */
  function Asked(was: bool, s: string, enab: bool, c: char): bool
    decreases |s|
  {
    if s == [] then was
    else Asked(if s[0] == c then enab else was, s[1..], SignOf(s[0], enab), c)
  }

  ghost predicate Letters(modes: string) {
    |modes| < MAX_UMODES_LEN && forall i, j | 0 <= i < j < |modes| :: modes[i] != modes[j]
  }

  /** One letter is inserted into or removed from the set; it is only refused where the 63
      characters are used up. */
  lemma {:induction false} ToggleIsSetUpdate(modes: string, c: char, enab: bool, d: char)
    requires Letters(modes)
    ensures var r := Toggle(modes, c, enab);
            && Letters(r)
            && (d != c ==> (d in r <==> d in modes))
            && (c in r <==> enab && (c in modes || |modes| + 1 < MAX_UMODES_LEN))
            && |r| <= |modes| + 1
  {
    var m, r := IndexOf(modes, c), Toggle(modes, c, enab);
    if enab != (m < |modes|) && !enab {
      if d in modes && d != c {
        var j :| 0 <= j < |modes| && modes[j] == d;
        assert r[if j < m then j else j - 1] == d;
      }
    } else if enab != (m < |modes|) && |modes| + 1 < MAX_UMODES_LEN {
      assert r[|modes|] == c;
      if d in modes {
        var j :| 0 <= j < |modes| && modes[j] == d;
        assert r[j] == d;
      }
    }
  }

  /** After any mode string the letters are still distinct, none is set that was not asked for, and
      with room for all of them exactly the ones asked for are set. */
  lemma {:induction false} TogglesAreAsked(modes: string, s: string, enab: bool, c: char)
    requires Letters(modes) && !IsSign(c)
    ensures var r := Toggles(modes, s, enab);
            && Letters(r)
            && (c in r ==> Asked(c in modes, s, enab, c))
            && (|modes| + |s| < MAX_UMODES_LEN ==> (c in r <==> Asked(c in modes, s, enab, c)))
    decreases |s|
  {
    if s != [] {
      if IsSign(s[0]) {
        TogglesAreAsked(modes, s[1..], SignOf(s[0], enab), c);
      } else {
        var m := Toggle(modes, s[0], enab);
        ToggleIsSetUpdate(modes, s[0], enab, c);
        TogglesAreAsked(m, s[1..], enab, c);
        AskedGrows(c in m, if s[0] == c then enab else c in modes, s[1..], enab, c);
      }
    }
  }

  lemma {:induction false} AskedGrows(a: bool, b: bool, s: string, enab: bool, c: char)
    requires a ==> b
    ensures Asked(a, s, enab, c) ==> Asked(b, s, enab, c)
    decreases |s|
  {
    if s != [] {
      AskedGrows(if s[0] == c then enab else a, if s[0] == c then enab else b, s[1..], SignOf(s[0], enab), c);
    }
  }

  lemma {:induction false} TogglesInTwo(modes: string, a: string, b: string, enab: bool)
    ensures Toggles(modes, a + b, enab) == Toggles(Toggles(modes, a, enab), b, SignBehind(a, enab))
    decreases |a|
  {
    hide Toggle;
    if a == [] {
      assert a + b == b;
    } else {
      assert (a + b)[0] == a[0] && (a + b)[1..] == a[1..] + b;
      TogglesInTwo(if IsSign(a[0]) then modes else Toggle(modes, a[0], enab), a[1..], b, SignOf(a[0], enab));
    }
  }

  /** The sign in force behind a mode string. */
  function SignBehind(s: string, enab: bool): bool
    decreases |s|
  {
    if s == [] then enab else SignBehind(s[1..], SignOf(s[0], enab))
  }

  lemma {:induction false} OthersLeaveIt(modes: string, s: string, enab: bool, c: char)
    requires Letters(modes) && c !in s
    ensures Letters(Toggles(modes, s, enab)) && (c in Toggles(modes, s, enab) <==> c in modes)
    decreases |s|
  {
    hide Toggle, Letters;
    if s != [] {
      var m := if IsSign(s[0]) then modes else Toggle(modes, s[0], enab);
      ToggleIsSetUpdate(modes, s[0], enab, c);
      OthersLeaveIt(m, s[1..], SignOf(s[0], enab), c);
    }
  }

  /** Exactly when a letter is set in the end: its last occurrence sets it, and did not find the 63
      characters used up by others. */
  lemma {:induction false} SetUnlessFull(modes: string, s: string, c: char, p: nat)
    requires Letters(modes) && !IsSign(c) && p < |s| && s[p] == c && c !in s[p + 1..]
    ensures var before := Toggles(modes, s[..p], true);
            c in Toggles(modes, s, true) <==>
            SignBehind(s[..p], true) && (c in before || |before| + 1 < MAX_UMODES_LEN)
  {
    hide Toggle, Letters;
    var before, enab, rest := Toggles(modes, s[..p], true), SignBehind(s[..p], true), s[p + 1..];
    assert s == s[..p] + ([c] + rest);
    TogglesInTwo(modes, s[..p], [c] + rest, true);
    LettersStay(modes, s[..p], true);
    ToggleIsSetUpdate(before, c, enab, c);
    assert ([c] + rest)[1..] == rest;
    OthersLeaveIt(Toggle(before, c, enab), rest, enab, c);
  }

  lemma {:induction false} NoSignKeeps(mid: string, enab: bool)
    requires forall i | 0 <= i < |mid| :: mid[i] != '+' && mid[i] != '-'
    ensures SignBehind(mid, enab) == enab
    decreases |mid|
  {
    if mid != [] {
      NoSignKeeps(mid[1..], enab);
    }
  }

  lemma {:induction false} LastSignIs(a: string, plus: bool, mid: string, enab: bool)
    requires forall i | 0 <= i < |mid| :: mid[i] != '+' && mid[i] != '-'
    ensures SignBehind(a + [if plus then '+' else '-'] + mid, enab) == plus
    decreases |a|
  {
    var sign := [if plus then '+' else '-'];
    if a != [] {
      assert (a + sign + mid)[0] == a[0] && (a + sign + mid)[1..] == a[1..] + sign + mid;
      LastSignIs(a[1..], plus, mid, SignOf(a[0], enab));
    } else {
      assert (a + sign + mid)[0] == sign[0] && (a + sign + mid)[1..] == mid;
      NoSignKeeps(mid, plus);
    }
  }

  /** On the text: the last sign in front of the last mention of a letter decides, '+' where there is
      none; setting it needs room among the 63. */
  lemma {:induction false} LastSignDecides(modes: string, a: string, mid: string, c: char, rest: string)
    requires Letters(modes) && c != '+' && c != '-' && c !in rest
    requires forall i | 0 <= i < |mid| :: mid[i] != '+' && mid[i] != '-'
    ensures var before := Toggles(modes, a + "+" + mid, true);
            c in Toggles(modes, a + "+" + mid + [c] + rest, true) <==> c in before || |before| < 63
    ensures c !in Toggles(modes, a + "-" + mid + [c] + rest, true)
    ensures var before := Toggles(modes, mid, true);
            c in Toggles(modes, mid + [c] + rest, true) <==> c in before || |before| < 63
  {
    hide Toggles, Letters, SignBehind;
    LastSignIs(a, true, mid, true);
    LastSignIs(a, false, mid, true);
    NoSignKeeps(mid, true);
    SetBehind(modes, a + "+" + mid, c, rest);
    SetBehind(modes, a + "-" + mid, c, rest);
    SetBehind(modes, mid, c, rest);
  }

  /** A MODE is about us if and only if its first argument is our nick; then one letter with a sign in
      front of it is set or cleared, and no other changes. */
  lemma {:induction false} OneModeOfOurs(cm: CaseMapping, me: string, modes: string, p: Option<string>, target: string,
                                         plus: bool, c: char, more: seq<string>, d: char)
    requires Letters(modes) && c != '+' && c != '-'
    ensures var text := [if plus then '+' else '-', c];
            var r := HandleMode(cm, me, modes, Msg(p, "MODE", [target, text] + more));
            && r.Some? && (!IEq(cm, target, me) ==> r.value == modes)
            && (IEq(cm, target, me) ==>
                  && (c in r.value <==> plus && (c in modes || |modes| < 63))
                  && (d != c ==> (d in r.value <==> d in modes)))
    ensures HandleMode(cm, me, modes, Msg(p, "MODE", [target])).None?
  {
    hide IEq, Letters, Toggle;
    var text := [if plus then '+' else '-', c];
    assert text[1..] == [c] && [c][1..] == [];
    assert Toggles(Toggle(modes, c, plus), [], plus) == Toggle(modes, c, plus);
    assert Toggles(modes, [c], plus) == Toggle(modes, c, plus);
    assert Toggles(modes, text, true) == Toggles(modes, [c], plus);
    ToggleIsSetUpdate(modes, c, plus, d);
  }

  lemma {:induction false} SetBehind(modes: string, front: string, c: char, rest: string)
    requires Letters(modes) && !IsSign(c) && c !in rest
    ensures var before := Toggles(modes, front, true);
            c in Toggles(modes, front + [c] + rest, true) <==>
            SignBehind(front, true) && (c in before || |before| < 63)
  {
    hide Toggles, Letters, SignBehind;
    var s, p := front + [c] + rest, |front|;
    assert s[..p] == front && s[p] == c && s[p + 1..] == rest;
    SetUnlessFull(modes, s, c, p);
  }

  lemma {:induction false} LettersStay(modes: string, s: string, enab: bool)
    requires Letters(modes)
    ensures Letters(Toggles(modes, s, enab))
    decreases |s|
  {
    hide Toggle, Letters;
    if s != [] {
      ToggleIsSetUpdate(modes, s[0], enab, s[0]);
      LettersStay(if IsSign(s[0]) then modes else Toggle(modes, s[0], enab), s[1..], SignOf(s[0], enab));
    }
  }

  // ---------- in place ----------

  /** What the removal loop has done when it looks at position `i`. */
  ghost predicate Shifted(was: string, buf: string, m: nat, i: nat) {
    && |buf| == |was| && m < i < |was|
    && (forall j | 0 <= j < m || i <= j < |was| :: buf[j] == was[j])
    && (forall j | m <= j < i - 1 :: buf[j] == was[j + 1])
    && buf[i - 1] == NUL
  }

  lemma {:induction false} ShiftedHolds(was: string, buf: string, s: string, m: nat)
    requires Holds(was, 0, s) && m < |s| && Shifted(was, buf, m, |s|)
    ensures Holds(buf, 0, s[..m] + s[m + 1..])
  {
    var r := s[..m] + s[m + 1..];
    HoldsText(was, s);
    forall j | 0 <= j < |r| ensures buf[j] == r[j] && r[j] != NUL {
      assert r[j] == was[if j < m then j else j + 1];
    }
    assert buf[0..|r|] == r;
  }

  /** The letter at `m` is taken out, those behind it move up. */
  method RemoveAt(buf: array<char>, m: nat, ghost s: string)
    requires Holds(buf[..], 0, s) && m < |s|
    modifies buf
    ensures Holds(buf[..], 0, s[..m] + s[m + 1..])
  {
    ghost var was := buf[..];
    HoldsText(was, s);
    buf[m] := NUL;
    var i := m + 1;
    while buf[i] != NUL
      invariant m < i <= |s| && Shifted(was, buf[..], m, i)
      decreases |s| - i
    {
      buf[i - 1] := buf[i];
      buf[i] := NUL;
      i := i + 1;
    }
    ShiftedHolds(was, buf[..], s, m);
  }

  method ToggleOne(umodes: array<char>, c: char, enab: bool, ghost modes: string)
    requires umodes.Length == MAX_UMODES_LEN && Holds(umodes[..], 0, modes) && c != NUL
    modifies umodes
    ensures Holds(umodes[..], 0, Toggle(modes, c, enab))
  {
    hide Holds, IndexOf;
    HoldsText(umodes[..], modes);
    var m := Strchr(umodes, 0, c, |modes|);
    if enab == m.Some? {
      return;
    }
    if !enab {
      RemoveAt(umodes, m.value, modes);
    } else {
      StrNcat(umodes, [c], MAX_UMODES_LEN, modes);
    }
  }

  /** The loop of handle_MODE. */
  method ApplyModes(umodes: array<char>, s: string, ghost modes: string)
    requires umodes.Length == MAX_UMODES_LEN && Holds(umodes[..], 0, modes) && NUL !in s
    modifies umodes
    ensures Holds(umodes[..], 0, Toggles(modes, s, true))
  {
    hide Holds, Toggle;
    ghost var cur := modes;
    var p, enab := 0, true;
    assert s[0..] == s;
    while p < |s|
      invariant 0 <= p <= |s| && Holds(umodes[..], 0, cur)
      invariant Toggles(cur, s[p..], enab) == Toggles(modes, s, true)
    {
      var c := s[p];
      assert s[p..][0] == c && s[p..][1..] == s[p + 1..] && c in s;
      if c == '+' || c == '-' {
        enab := c == '+';
      } else {
        ToggleOne(umodes, c, enab, cur);
        cur := Toggle(cur, c, enab);
      }
      p := p + 1;
    }
    assert s[p..] == [];
  }

  /** handle_MODE */
  method Handle(cm: CaseMapping, mynick: string, umodes: array<char>, msg: Msg, ghost modes: string) returns (ok: bool)
    requires umodes.Length == MAX_UMODES_LEN && Holds(umodes[..], 0, modes)
    requires |msg.args| > 1 ==> NUL !in msg.args[1]
    modifies umodes
    ensures var r := HandleMode(cm, mynick, modes, msg);
            ok == r.Some? && Holds(umodes[..], 0, if ok then r.value else modes)
  {
    hide Holds, Toggles, IEq;
    if |msg.args| < 2 {
      return false;
    }
    var c := IStrCmp(cm, msg.args[0], mynick);
    if c == 0 {
      ApplyModes(umodes, msg.args[1], modes);
    }
    return true;
  }
}
