// Capability negotiation and message tags of IRCv3 (v3.c).
module V3 {
  import opened CStrings
  import opened Slots
  import opened Tokenizer
  import opened InPlace
  import opened Printer

  const MAX_V3CAPS := 16
  const MAX_V3CAPLEN := 128
  const MAX_V3CAPLINE := 512

  /** struct v3cap */
  datatype Cap = Cap(name: string, adddata: string, musthave: bool, offered: bool, enabled: bool)

  /** find_cap: the first slot with that name, or the length. */
  function FindCap(caps: seq<Cap>, name: string): (i: nat)
    ensures i <= |caps| && (i < |caps| ==> caps[i].name == name)
    ensures forall j | 0 <= j < i :: caps[j].name != name
  {
    if caps == [] || caps[0].name == name then 0 else 1 + FindCap(caps[1..], name)
  }

  ghost predicate Unique(caps: seq<Cap>) {
    forall i, j | 0 <= i < j < |caps| :: caps[i].name != caps[j].name
  }

  ghost function Names(caps: seq<Cap>): set<string> {
    set i | 0 <= i < |caps| :: caps[i].name
  }

  /** lsi_v3_want_cap on the list of used slots. */
  function WantCap(caps: seq<Cap>, name: string, musthave: bool): (bool, seq<Cap>) {
    var i := FindCap(caps, name);
    var cap := Cap(Trunc(name, MAX_V3CAPLEN), "", musthave, false, false);
    if i < |caps| then (true, caps[i := cap])
    else if i >= MAX_V3CAPS then (false, caps)
    else (true, caps + [cap])
  }

  /** lsi_v3_clear_cap */
  function ClearCap(caps: seq<Cap>, name: string): seq<Cap> {
    var i := FindCap(caps, name);
    if i == |caps| then caps else SwapOut(caps, i)
  }

  // ---------- the list keeps unique names ----------

  /** A short name is added to, or refreshed in, a list of unique names; one of 128 characters or
      more breaks it exactly where what is left of it is already there. */
  lemma {:induction false} WantKeepsUniqueIff(caps: seq<Cap>, name: string, musthave: bool)
    requires Unique(caps) && forall i | 0 <= i < |caps| :: |caps[i].name| < MAX_V3CAPLEN
    ensures var (ok, r) := WantCap(caps, name, musthave);
            && (ok <==> |caps| < MAX_V3CAPS || name in Names(caps))
            && (!ok ==> r == caps)
            && (forall i | 0 <= i < |r| :: |r[i].name| < MAX_V3CAPLEN)
            && (ok ==> Names(r) == Names(caps) + {Trunc(name, MAX_V3CAPLEN)})
            && (Unique(r) <==> !ok || |name| < MAX_V3CAPLEN || Trunc(name, MAX_V3CAPLEN) !in Names(caps))
  {
    var i := FindCap(caps, name);
    var (ok, r) := WantCap(caps, name, musthave);
    var t := Trunc(name, MAX_V3CAPLEN);
    if i < |caps| {
      assert caps[i].name == name == t;
      assert forall j | 0 <= j < |r| :: r[j].name == caps[j].name;
      assert Names(r) == Names(caps);
      assert t in Names(caps);
    } else if ok {
      assert forall j | 0 <= j < |caps| :: r[j] == caps[j];
      assert r[|caps|].name == t;
      assert Names(r) == Names(caps) + {t};
      if t in Names(caps) && |name| >= MAX_V3CAPLEN {
        var j :| 0 <= j < |caps| && caps[j].name == t;
        assert r[j].name == r[|caps|].name;
      }
    }
  }

  /** Where it is accepted, one slot holds the cap as wanted, neither offered nor enabled and without
      data; a cap of that name, or the end of the list, makes place for it, and no other changes. */
  lemma {:induction false} WantSets(caps: seq<Cap>, name: string, musthave: bool)
    requires Unique(caps) && |name| < 128
    ensures WantCap(caps, name, musthave).0 <==> |caps| < 16 || name in Names(caps)
    ensures var (ok, r) := WantCap(caps, name, musthave);
            ok ==> exists i | 0 <= i < |r| ::
              && r[i] == Cap(name, "", musthave, false, false)
              && (name in Names(caps) ==> |r| == |caps|) && (name !in Names(caps) ==> i == |caps| == |r| - 1)
              && forall j | 0 <= j < |r| && j != i :: j < |caps| && r[j] == caps[j]
  {
    var i := FindCap(caps, name);
    var (ok, r) := WantCap(caps, name, musthave);
    if ok {
      assert i < |caps| ==> caps[i].name in Names(caps);
      assert r[i] == Cap(name, "", musthave, false, false);
    }
  }

  /** Clearing takes out exactly the cap of that name. */
  lemma {:induction false} ClearTakesOne(caps: seq<Cap>, name: string)
    requires Unique(caps)
    ensures var r := ClearCap(caps, name);
            && Unique(r) && Names(r) == Names(caps) - {name}
            && multiset(r) <= multiset(caps)
            && |r| == |caps| - (if name in Names(caps) then 1 else 0)
  {
    var i, r := FindCap(caps, name), ClearCap(caps, name);
    if i < |caps| {
      assert caps[i].name in Names(caps);
      SwapOutRemovesOne(caps, i);
      forall x | x in Names(caps) - {name} ensures x in Names(r) {
        var j :| 0 <= j < |caps| && caps[j].name == x;
        assert r[if j == |caps| - 1 then i else j].name == x;
      }
      forall x | x in Names(r) ensures x in Names(caps) - {name} {
        var j :| 0 <= j < |r| && r[j].name == x;
        assert r[j] == caps[if j == i then |caps| - 1 else j];
      }
    }
  }

  // ---------- requests and acknowledgements ----------

  function OfferedNames(caps: seq<Cap>): seq<string> {
    if caps == [] then []
    else (if caps[0].offered then [caps[0].name] else []) + OfferedNames(caps[1..])
  }

  function Join(names: seq<string>, d: char): string {
    if names == [] then ""
    else if |names| == 1 then names[0]
    else names[0] + [d] + Join(names[1..], d)
  }

  /** lsi_v3_mk_capreq: the request, as far as it fits, and whether there is one. */
  function MkCapReq(caps: seq<Cap>, sz: nat): (string, bool)
    requires sz > 0
  {
    (Trunc(Join(OfferedNames(caps), ' '), sz), OfferedNames(caps) != [])
  }

  /** One piece of a list of caps: the cap is offered or enabled, and what follows a '=' is kept. */
  function Mark(caps: seq<Cap>, piece: string, offered: bool): (r: seq<Cap>)
    ensures |r| == |caps|
  {
    var i, eq := FindCap(caps, CutAt(piece, '=')), IndexOf(piece, '=');
    if i == |caps| then caps
    else
      var c := caps[i];
      caps[i := c.(offered := c.offered || offered, enabled := c.enabled || !offered,
                   adddata := if eq < |piece| then Trunc(piece[eq + 1..], MAX_V3CAPLEN) else c.adddata)]
  }

  function MarkAll(caps: seq<Cap>, pieces: seq<string>, offered: bool): (r: seq<Cap>)
    ensures |r| == |caps|
    decreases |pieces|
  {
    if pieces == [] then caps else MarkAll(Mark(caps, pieces[0], offered), pieces[1..], offered)
  }

  /** lsi_v3_update_caps */
  function UpdateCaps(caps: seq<Cap>, line: string, offered: bool): seq<Cap> {
    MarkAll(caps, Pieces(Trunc(line, MAX_V3CAPLINE), ' '), offered)
  }

  function StripEnd(s: string): (r: string)
    ensures r <= s && (r == [] || r[|r| - 1] != ' ')
  {
    if s != [] && s[|s| - 1] == ' ' then StripEnd(s[..|s| - 1]) else s
  }

  /** handle_CAP_ACK: None where the acknowledged list is not the one asked for. */
  function Ack(caps: seq<Cap>, req: string, arg: string): Option<seq<Cap>> {
    if StripEnd(arg) != req then None else Some(UpdateCaps(caps, req, false))
  }

  /** What is left of a request line for the names, behind "CAP REQ :". */
  const CAPREQ_ROOM := MAX_V3CAPLEN - 9

  /** Names that stay whole in a list. */
  predicate Listable(name: string) {
    name != [] && ' ' !in name && '=' !in name
  }

  lemma {:induction false} PiecesOfJoin(names: seq<string>, d: char)
    requires names != [] && forall i | 0 <= i < |names| :: names[i] != [] && d !in names[i]
    ensures Pieces(Join(names, d), d) == names && Join(names, d)[0] == names[0][0]
  {
    hide After, CutAt;
    if |names| == 1 {
      CutFront(names[0], "", d);
      assert names[0] + "" == names[0];
      AfterEnd(names[0], d);
    } else {
      PiecesOfJoin(names[1..], d);
      AfterGap(names[0], Join(names[1..], d), d);
      assert names[0] + [d] + Join(names[1..], d) == names[0] + ([d] + Join(names[1..], d));
      CutFront(names[0], [d] + Join(names[1..], d), d);
    }
  }

  /** A cap named alone is marked and keeps its data; nothing else changes. */
  lemma {:induction false} MarkEffect(caps: seq<Cap>, name: string, offered: bool)
    requires Unique(caps) && '=' !in name
    ensures var r := Mark(caps, name, offered);
            forall i | 0 <= i < |caps| :: r[i] == Marked(caps[i], caps[i].name == name, offered)
    ensures Unique(Mark(caps, name, offered))
  {
    IndexOfIs(name, '=', |name|);
    assert name[..|name|] == name;
  }

  /** The cap offered by an LS line, or enabled by an ACK, if it is named there. */
  function Marked(c: Cap, named: bool, offered: bool): Cap {
    if !named then c else if offered then c.(offered := true) else c.(enabled := true)
  }

  /** A cap named with data behind a '=' is marked likewise, and the data is kept, as far as it fits. */
  lemma {:induction false} MarkWithData(caps: seq<Cap>, name: string, data: string, offered: bool)
    requires Unique(caps) && '=' !in name
    ensures var r := Mark(caps, name + "=" + data, offered);
            forall i | 0 <= i < |caps| ::
              r[i] == if caps[i].name != name then caps[i]
                      else Marked(caps[i], true, offered).(adddata := if |data| < 128 then data else data[..127])
  {
    var piece := name + "=" + data;
    assert piece == name + ("=" + data);
    CutFront(name, "=" + data, '=');
    assert piece[|name| + 1..] == data;
  }

  lemma {:induction false} MarkAllEffect(caps: seq<Cap>, names: seq<string>, offered: bool)
    requires Unique(caps) && forall k | 0 <= k < |names| :: '=' !in names[k]
    ensures var r := MarkAll(caps, names, offered);
            forall i | 0 <= i < |caps| :: r[i] == Marked(caps[i], caps[i].name in names, offered)
    decreases |names|
  {
    if names != [] {
      var m, r := Mark(caps, names[0], offered), MarkAll(caps, names, offered);
      MarkEffect(caps, names[0], offered);
      MarkAllEffect(m, names[1..], offered);
      forall i | 0 <= i < |caps|
        ensures r[i] == Marked(caps[i], caps[i].name in names, offered)
      {
        assert m[i].name == caps[i].name;
        assert caps[i].name in names <==> caps[i].name == names[0] || caps[i].name in names[1..];
      }
    }
  }

  /** A line of cap names that fits its buffer marks exactly the caps it names: as offered in an LS, as
      enabled otherwise. */
  lemma {:induction false} LineMarksNamed(caps: seq<Cap>, names: seq<string>, offered: bool)
    requires Unique(caps) && names != [] && (forall k | 0 <= k < |names| :: Listable(names[k]))
    requires |Join(names, ' ')| < 512
    ensures var r := UpdateCaps(caps, Join(names, ' '), offered);
            |r| == |caps| && forall i | 0 <= i < |caps| ::
              r[i] == if caps[i].name !in names then caps[i]
                      else if offered then caps[i].(offered := true) else caps[i].(enabled := true)
  {
    hide Pieces, Join, MarkAll, Unique;
    PiecesOfJoin(names, ' ');
    MarkAllEffect(caps, names, offered);
  }

  lemma {:induction false} OfferedAre(caps: seq<Cap>, i: nat)
    requires i < |caps| && Unique(caps)
    ensures caps[i].name in OfferedNames(caps) <==> caps[i].offered
    ensures forall n | n in OfferedNames(caps) :: exists j | 0 <= j < |caps| :: caps[j].offered && caps[j].name == n
  {
    forall n | n in OfferedNames(caps) ensures exists j | 0 <= j < |caps| :: caps[j].offered && caps[j].name == n {
      var j := OfferedFrom(caps, n);
    }
    if caps[i].offered {
      OfferedHas(caps, i);
    }
  }

  lemma {:induction false} OfferedFrom(caps: seq<Cap>, n: string) returns (j: nat)
    requires n in OfferedNames(caps)
    ensures j < |caps| && caps[j].offered && caps[j].name == n
  {
    if caps[0].offered && caps[0].name == n {
      j := 0;
    } else {
      j := OfferedFrom(caps[1..], n);
      j := j + 1;
    }
  }

  lemma {:induction false} OfferedHas(caps: seq<Cap>, i: nat)
    requires i < |caps| && caps[i].offered
    ensures caps[i].name in OfferedNames(caps)
  {
    if i > 0 {
      OfferedHas(caps[1..], i - 1);
    }
  }

  /** There is something to ask for exactly if a wanted cap was offered. */
  lemma {:induction false} AsksIfOffered(caps: seq<Cap>, sz: nat)
    requires sz > 0
    ensures MkCapReq(caps, sz).1 <==> exists i | 0 <= i < |caps| :: caps[i].offered
  {
    if i :| 0 <= i < |caps| && caps[i].offered {
      OfferedHas(caps, i);
    }
    if OfferedNames(caps) != [] {
      var j := OfferedFrom(caps, OfferedNames(caps)[0]);
    }
  }

  ghost predicate Distinct(names: seq<string>) {
    forall i, j | 0 <= i < j < |names| :: names[i] != names[j]
  }

  lemma {:induction false} OfferedDistinct(caps: seq<Cap>)
    requires Unique(caps)
    ensures Distinct(OfferedNames(caps))
  {
    if caps != [] {
      OfferedDistinct(caps[1..]);
      var rest := OfferedNames(caps[1..]);
      forall k | 0 <= k < |rest| ensures rest[k] != caps[0].name {
        var j := OfferedFrom(caps[1..], rest[k]);
        assert caps[1 + j].name == rest[k];
      }
    }
  }

  /** A list that is cut off anywhere lacks one of its names. */
  lemma {:induction false} CutListLacksOne(names: seq<string>, d: char, t: string) returns (k: nat)
    requires t < Join(names, d) && Distinct(names)
    requires forall i | 0 <= i < |names| :: names[i] != [] && d !in names[i]
    ensures k < |names| && names[k] !in Pieces(t, d)
    decreases |names|
  {
    hide After, CutAt, Pieces;
    var n := names[0];
    var all := Join(names, d);
    if |t| <= |n| {
      assert t == n[..|t|];
      OnePiece(t, d);
      k := if t == n then 1 else 0;
    } else {
      assert t[..|n|] == n && t[|n|] == d;
      var u := t[|n| + 1..];
      assert t == n + [d] + u;
      assert all[|n| + 1..] == Join(names[1..], d);
      assert forall i | 0 <= i < |u| :: u[i] == Join(names[1..], d)[i];
      assert u == Join(names[1..], d)[..|u|];
      if u == [] {
        LastPiece(n, d);
        assert t == n + [d];
        k := 1;
      } else {
        PiecesOfJoin(names[1..], d);
        assert u[0] == names[1][0] && names[1][0] in names[1];
        k := CutListLacksOne(names[1..], d, u);
        NextPiece(n, d, u);
        k := k + 1;
      }
    }
  }

  lemma OnePiece(t: string, d: char)
    requires d !in t
    ensures Pieces(t, d) == [t]
  {
    hide After, CutAt;
    AfterEnd(t, d);
    CutFront(t, "", d);
    assert t + "" == t;
  }

  lemma LastPiece(t: string, d: char)
    requires d !in t
    ensures Pieces(t + [d], d) == [t]
  {
    hide After, CutAt;
    AfterSpace(t, d);
    CutFront(t, [d], d);
  }

  lemma NextPiece(t: string, d: char, u: string)
    requires d !in t && u != [] && u[0] != d
    ensures Pieces(t + [d] + u, d) == [t] + Pieces(u, d)
  {
    hide After, CutAt;
    AfterGap(t, u, d);
    CutFront(t, [d] + u, d);
    assert t + [d] + u == t + ([d] + u);
  }

  lemma {:induction false} JoinEnds(names: seq<string>, d: char)
    requires names != [] && forall i | 0 <= i < |names| :: names[i] != [] && d !in names[i]
    ensures var s := Join(names, d); s != [] && s[|s| - 1] != d
  {
    if |names| == 1 {
      assert names[0][|names[0]| - 1] in names[0];
    } else {
      JoinEnds(names[1..], d);
    }
  }

  function Spaces(n: nat): (s: string)
    ensures |s| == n && forall i | 0 <= i < n :: s[i] == ' '
  {
    seq(n, _ => ' ')
  }

  lemma {:induction false} StripPad(s: string, n: nat)
    requires s == [] || s[|s| - 1] != ' '
    ensures StripEnd(s + Spaces(n)) == s
    decreases n
  {
    var t := s + Spaces(n);
    if n > 0 {
      assert t[..|t| - 1] == s + Spaces(n - 1);
      StripPad(s, n - 1);
    } else {
      assert t == s;
    }
  }

  /** The caps whose names are asked for. */
  ghost predicate Askable(caps: seq<Cap>) {
    && Unique(caps) && OfferedNames(caps) != []
    && forall i | 0 <= i < |caps| && caps[i].offered :: Listable(caps[i].name)
  }

  lemma {:induction false} AskedAreListable(caps: seq<Cap>)
    requires Askable(caps)
    ensures forall k | 0 <= k < |OfferedNames(caps)| :: Listable(OfferedNames(caps)[k])
  {
    forall k | 0 <= k < |OfferedNames(caps)| ensures Listable(OfferedNames(caps)[k]) {
      var j := OfferedFrom(caps, OfferedNames(caps)[k]);
    }
  }

  /** A request that fits is acknowledged, with any blanks behind it, for exactly the offered caps. */
  lemma {:induction false} AckEnablesOffered(caps: seq<Cap>, pad: nat)
    requires Askable(caps) && |Join(OfferedNames(caps), ' ')| < CAPREQ_ROOM
    ensures var req := MkCapReq(caps, CAPREQ_ROOM).0;
            var a := Ack(caps, req, req + Spaces(pad));
            && a.Some? && |a.value| == |caps|
            && forall i | 0 <= i < |caps| :: a.value[i] == caps[i].(enabled := caps[i].enabled || caps[i].offered)
  {
    hide Pieces, Join, StripEnd, MarkAll, Unique;
    var names := OfferedNames(caps);
    AskedAreListable(caps);
    assert Unique(caps);
    PiecesOfJoin(names, ' ');
    JoinEnds(names, ' ');
    StripPad(Join(names, ' '), pad);
    MarkAllEffect(caps, names, false);
    forall i | 0 <= i < |caps|
      ensures caps[i].name in names <==> caps[i].offered
    {
      OfferedAre(caps, i);
    }
  }

  /** A request enables all the caps it was made for exactly if their names fit its line. */
  lemma {:induction false} AckEnablesAllIff(caps: seq<Cap>, pad: nat)
    requires Askable(caps) && forall i | 0 <= i < |caps| :: !caps[i].enabled
    ensures var req := MkCapReq(caps, CAPREQ_ROOM).0;
            var a := Ack(caps, req, req + Spaces(pad));
            (a.Some? && forall i | 0 <= i < |caps| && caps[i].offered :: a.value[i].enabled)
            <==> |Join(OfferedNames(caps), ' ')| <= 118
  {
    hide Pieces, Join, StripEnd, MarkAll, Unique;
    var names := OfferedNames(caps);
    var all := Join(names, ' ');
    if |all| < CAPREQ_ROOM {
      AckEnablesOffered(caps, pad);
    } else {
      AskedAreListable(caps);
      OfferedDistinct(caps);
      var req := all[..CAPREQ_ROOM - 1];
      var k := CutListLacksOne(names, ' ', req);
      var j := OfferedFrom(caps, names[k]);
      if Ack(caps, req, req + Spaces(pad)).Some? {
        PiecesAreClean(req, all, names);
        MarkAllEffect(caps, Pieces(req, ' '), false);
      }
    }
  }

  /** An ACK counts exactly if it is the list asked for, with nothing but blanks behind it. */
  lemma {:induction false} AckIsForRequest(caps: seq<Cap>, req: string, arg: string)
    requires req == "" || req[|req| - 1] != ' '
    ensures Ack(caps, req, arg).Some? <==> exists n: nat :: arg == req + Spaces(n)
  {
    hide UpdateCaps;
    if n: nat :| arg == req + Spaces(n) {
      StripPad(req, n);
    }
    StripIsPad(arg);
  }

  lemma {:induction false} StripIsPad(s: string)
    ensures exists n: nat :: s == StripEnd(s) + Spaces(n)
  {
    if s != [] && s[|s| - 1] == ' ' {
      StripIsPad(s[..|s| - 1]);
      var n: nat :| s[..|s| - 1] == StripEnd(s[..|s| - 1]) + Spaces(n);
      assert s == StripEnd(s) + Spaces(n + 1);
    } else {
      assert s == StripEnd(s) + Spaces(0);
    }
  }

  lemma {:induction false} AfterHas(s: string, d: char, c: char)
    requires c !in s
    ensures c !in CutAt(s, d) && (After(s, d).Some? ==> c !in After(s, d).value)
  {
  }

  lemma {:induction false} PiecesHave(s: string, d: char, c: char)
    requires c !in s
    ensures forall k | 0 <= k < |Pieces(s, d)| :: c !in Pieces(s, d)[k]
    decreases |s|
  {
    hide After, CutAt;
    AfterHas(s, d, c);
    if After(s, d).Some? {
      PiecesHave(After(s, d).value, d, c);
    }
  }

  lemma {:induction false} JoinHas(names: seq<string>, d: char, c: char)
    requires c != d && forall i | 0 <= i < |names| :: c !in names[i]
    ensures c !in Join(names, d)
  {
    if |names| > 1 {
      JoinHas(names[1..], d, c);
    }
  }

  lemma {:induction false} PiecesAreClean(req: string, all: string, names: seq<string>)
    requires req <= all == Join(names, ' ') && forall k | 0 <= k < |names| :: Listable(names[k])
    ensures forall k | 0 <= k < |Pieces(req, ' ')| :: '=' !in Pieces(req, ' ')[k]
  {
    JoinHas(names, ' ', '=');
    PiecesHave(req, ' ', '=');
  }

  // ---------- the slots ----------

  predicate CapFits(c: Cap) {
    NUL !in c.name && |c.name| < MAX_V3CAPLEN
  }

  /** The v3caps of a context. */
  class Caps {
    const v3caps: array<Option<Cap>>

    ghost predicate Valid()
      reads v3caps
    {
      && v3caps.Length == MAX_V3CAPS && Compact(v3caps[..])
      && forall i | 0 <= i < |List()| :: CapFits(List()[i])
    }

    ghost function List(): seq<Cap>
      reads v3caps
    {
      Contents(v3caps[..])
    }

    constructor ()
      ensures Valid() && fresh(v3caps) && List() == []
    {
      v3caps := new Option<Cap>[MAX_V3CAPS](_ => None);
    }

    /** The slot of a cap, or the first one that is NULL, or 16: the loop of the two methods below. */
    method Slot(cap: string) returns (i: nat)
      requires Valid()
      ensures i == FindCap(List(), cap)
    {
      i := 0;
      while i < v3caps.Length && v3caps[i].Some? && v3caps[i].value.name != cap
        invariant 0 <= i <= FindCap(List(), cap)
      {
        i := i + 1;
      }
    }

    /** lsi_v3_want_cap */
    method Want(cap: string, musthave: bool) returns (ok: bool)
      requires Valid() && NUL !in cap
      modifies v3caps
      ensures Valid() && (ok, List()) == WantCap(old(List()), cap, musthave)
    {
      hide FindCap;
      ghost var slots, caps := v3caps[..], List();
      var i := Slot(cap);
      if i >= v3caps.Length {
        return false;
      }
      var entry := Cap(Trunc(cap, MAX_V3CAPLEN), "", musthave, false, false);
      PutSlot(slots, i, entry);
      v3caps[i] := Some(entry);
      assert v3caps[..] == slots[i := Some(entry)];
      return true;
    }

    /** lsi_v3_clear_cap */
    method Clear(cap: string)
      requires Valid()
      modifies v3caps
      ensures Valid() && List() == ClearCap(old(List()), cap)
    {
      hide FindCap, Contents;
      ghost var slots, caps := v3caps[..], List();
      var cnt := 0;
      while cnt < v3caps.Length && v3caps[cnt].Some?
        invariant 0 <= cnt <= |caps|
      {
        cnt := cnt + 1;
      }
      var i := Slot(cap);
      if i < v3caps.Length && v3caps[i].Some? {
        SwapOutSlots(slots, i);
        SwapOutSubset(caps, i);
        v3caps[i] := v3caps[cnt - 1];
        v3caps[cnt - 1] := None;
        assert v3caps[..] == slots[i := slots[cnt - 1]][cnt - 1 := None];
      }
    }

    /** lsi_v3_check_caps: stopping at the first NULL slot misses nothing. */
    method Check(offered: bool) returns (ok: bool)
      requires Valid()
      ensures ok <==> forall i | 0 <= i < v3caps.Length && v3caps[i].Some? && v3caps[i].value.musthave ::
                if offered then v3caps[i].value.offered else v3caps[i].value.enabled
    {
      var i := 0;
      while i < v3caps.Length && v3caps[i].Some?
        invariant 0 <= i <= |List()|
        invariant forall j | 0 <= j < i && List()[j].musthave ::
                    if offered then List()[j].offered else List()[j].enabled
      {
        var cap := v3caps[i].value;
        assert cap == List()[i];
        if cap.musthave && ((offered && !cap.offered) || (!offered && !cap.enabled)) {
          return false;
        }
        i := i + 1;
      }
      return true;
    }

    /** lsi_v3_mk_capreq */
    method MakeCapReq(dest: array<char>, sz: nat) returns (any: bool)
      requires Valid() && 0 < sz <= dest.Length
      modifies dest
      ensures Holds(dest[..], 0, MkCapReq(List(), sz).0) && any == MkCapReq(List(), sz).1
      ensures dest[sz..] == old(dest[sz..])
    {
      hide Holds, Trunc, Contents, OfferedNames, Join;
      dest[0] := NUL;
      StartEmpty(dest[..], sz);
      ghost var caps := List();
      ghost var text := "";
      NoneOffered(caps);
      var i, first := 0, true;
      while i < v3caps.Length && v3caps[i].Some?
        invariant 0 <= i <= |caps| && first == (OfferedNames(caps[..i]) == [])
        invariant text == Join(OfferedNames(caps[..i]), ' ')
        invariant Holds(dest[..], 0, Trunc(text, sz)) && dest[sz..] == old(dest[sz..])
        modifies dest
      {
        var cap := v3caps[i].value;
        assert cap == caps[i];
        OfferedSnoc(caps, i);
        JoinSnoc(OfferedNames(caps[..i]), cap.name, ' ');
        if cap.offered {
          if !first {
            Append(dest, sz, " ", text);
            text := text + " ";
          }
          Append(dest, sz, cap.name, text);
          text := text + cap.name;
          first := false;
        }
        i := i + 1;
      }
      assert caps[..i] == caps;
      return !first;
    }

    /** find_cap: 16 stands for NULL. */
    method Find(name: string) returns (i: nat)
      requires Valid()
      ensures i == (var k := FindCap(List(), name); if k < |List()| then k else v3caps.Length)
    {
      hide FindCap, Contents;
      ghost var caps := List();
      i := 0;
      while i < v3caps.Length && !(v3caps[i].Some? && v3caps[i].value.name == name)
        invariant 0 <= i <= v3caps.Length
        invariant forall j | 0 <= j < i && j < |caps| :: caps[j].name != name
      {
        i := i + 1;
      }
      FindCapIs(caps, name, if i < |caps| then i else |caps|);
    }

    /** What lsi_v3_update_caps does with one piece. */
    method MarkOne(piece: string, offered: bool)
      requires Valid()
      modifies v3caps
      ensures Valid() && List() == Mark(old(List()), piece, offered)
    {
      hide FindCap, Contents, Trunc, IndexOf;
      ghost var slots, caps := v3caps[..], List();
      var eq := IndexOf(piece, '=');
      var i := Find(piece[..eq]);
      if i < v3caps.Length {
        var c := v3caps[i].value;
        var adddata := if eq < |piece| then Trunc(piece[eq + 1..], MAX_V3CAPLEN) else c.adddata;
        var entry := c.(offered := c.offered || offered, enabled := c.enabled || !offered, adddata := adddata);
        PutSlot(slots, i, entry);
        v3caps[i] := Some(entry);
        assert v3caps[..] == slots[i := Some(entry)];
      }
    }

    /** lsi_v3_update_caps */
    method Update(capsline: string, offered: bool)
      requires Valid() && NUL !in capsline
      modifies v3caps
      ensures Valid() && List() == UpdateCaps(old(List()), capsline, offered)
    {
      hide Holds, Text, NextIs, CutAt, After, Pieces, Mark, Trunc, Contents, Kept;
      ghost var goal := UpdateCaps(List(), capsline, offered);
      ghost var line := Trunc(capsline, MAX_V3CAPLINE);
      var buf := new char[MAX_V3CAPLINE];
      buf[0] := NUL;
      StartEmpty(buf[..], MAX_V3CAPLINE);
      Append(buf, MAX_V3CAPLINE, capsline, "");
      assert "" + capsline == capsline;
      HoldsText(buf[..], line);
      ghost var end := |line|;
      var cur := 0;
      while true
        invariant Valid() && 0 <= cur <= end && Text(buf[..], cur, end)
        invariant MarkAll(List(), Pieces(buf[..][cur..end], ' '), offered) == goal
        modifies v3caps, buf
        decreases end - cur
      {
        ghost var was, t := buf[..], buf[..][cur..end];
        var next := NextTok(buf, cur, ' ', end);
        ghost var now := buf[..];
        NextPieceIs(was, now, cur, ' ', end, next);
        var piece := ReadStr(buf, cur, CutAt(t, ' '));
        ghost var caps := List();
        MarkOne(piece, offered);
        assert buf[..] == now;
        if next.None? {
          return;
        }
        cur := next.value;
      }
    }
  }

  lemma {:induction false} FindCapIs(caps: seq<Cap>, name: string, i: nat)
    requires i <= |caps| && (i < |caps| ==> caps[i].name == name) && forall j | 0 <= j < i :: caps[j].name != name
    ensures FindCap(caps, name) == i
  {
  }

  lemma {:induction false} NextPieceIs(was: string, buf: string, cur: nat, d: char, end: nat, next: Option<nat>)
    requires NextIs(was, buf, cur, d, end, next)
    ensures var t := was[cur..end];
            && Holds(buf, cur, CutAt(t, d))
            && match next
               case None => Pieces(t, d) == [CutAt(t, d)]
               case Some(p) => cur < p < end && Text(buf, p, end)
                               && Pieces(t, d) == [CutAt(t, d)] + Pieces(buf[p..end], d)
  {
    hide Holds, CutAt, After;
  }

  lemma SwapOutSubset(caps: seq<Cap>, i: nat)
    requires i < |caps|
    ensures forall k | 0 <= k < |SwapOut(caps, i)| :: SwapOut(caps, i)[k] == caps[if k == i then |caps| - 1 else k]
  {
  }

  lemma StartEmpty(buf: string, sz: nat)
    requires 0 < sz <= |buf| && buf[0] == NUL
    ensures Holds(buf, 0, Trunc("", sz))
  {
  }

  lemma NoneOffered(caps: seq<Cap>)
    ensures OfferedNames(caps[..0]) == [] && Join([], ' ') == ""
  {
  }

  lemma {:induction false} OfferedSnoc(caps: seq<Cap>, i: nat)
    requires i < |caps|
    ensures var names := OfferedNames(caps[..i]);
            OfferedNames(caps[..i + 1]) == if caps[i].offered then names + [caps[i].name] else names
  {
    if i == 0 {
      assert caps[..1][1..] == [];
    } else {
      var rest := caps[1..];
      OfferedSnoc(rest, i - 1);
      assert caps[..i][1..] == rest[..i - 1] && caps[..i + 1][1..] == rest[..i];
    }
  }

  lemma {:induction false} JoinSnoc(names: seq<string>, n: string, d: char)
    ensures Join(names + [n], d) == (if names == [] then "" else Join(names, d) + [d]) + n
  {
    if names == [] {
      assert names + [n] == [n] && "" + n == n;
    } else {
      JoinSnoc(names[1..], n, d);
      assert (names + [n])[1..] == names[1..] + [n];
    }
  }
}
