// The mode prefix of a member, said with the symbol list alone: it is that list with the
// symbols the member does not hold left out.
module Prefixes {
  import opened CStrings
  import opened Message
  import opened CaseMap
  import opened Modes
  import opened Handlers
  import Slots
  import opened Grades

  /** `syms` with everything left out that is not held. */
  function Kept(syms: string, held: set<char>): string {
    if syms == [] then ""
    else (if syms[0] in held then [syms[0]] else []) + Kept(syms[1..], held)
  }

  ghost predicate NoneTwice(syms: string) {
    forall i, j | 0 <= i < j < |syms| :: syms[i] != syms[j]
  }

  /** Any two symbols of `pfx` stand in `syms` in the same order. */
  ghost predicate InListOrder(syms: string, pfx: string) {
    forall i, j | 0 <= i < j < |pfx| :: Before(syms, pfx[i], pfx[j])
  }

  ghost predicate Before(syms: string, a: char, b: char) {
    exists p, q | 0 <= p < q < |syms| :: syms[p] == a && syms[q] == b
  }

  lemma {:induction false} OrderedIsInListOrder(syms: string, pfx: string)
    requires Ordered(syms, pfx)
    ensures InListOrder(syms, pfx) && forall c | c in pfx :: c in syms
  {
    hide IndexOf;
    forall c | c in pfx ensures c in syms {
      assert c in Chars(pfx);
    }
    forall i, j | 0 <= i < j < |pfx|
      ensures Before(syms, pfx[i], pfx[j])
    {
      assert pfx[i] in syms && pfx[j] in syms;
      assert Ranks(syms, pfx)[i] < Ranks(syms, pfx)[j];
      var p, q := IndexOf(syms, pfx[i]), IndexOf(syms, pfx[j]);
      assert syms[p] == pfx[i] && syms[q] == pfx[j];
    }
  }

  lemma {:induction false} TailInListOrder(syms: string, pfx: string)
    requires syms != [] && NoneTwice(syms) && InListOrder(syms, pfx) && forall c | c in pfx :: c in syms
    requires NoneTwice(pfx)
    ensures var rest := if syms[0] in pfx then pfx[1..] else pfx;
            && (syms[0] in pfx ==> pfx[0] == syms[0])
            && InListOrder(syms[1..], rest) && NoneTwice(rest) && forall c | c in rest :: c in syms[1..]
  {
    var a, t := syms[0], syms[1..];
    forall i | 0 < i < |pfx| ensures pfx[i] != a {
      assert Before(syms, pfx[0], pfx[i]);
    }
    var rest := if a in pfx then pfx[1..] else pfx;
    assert a !in rest;
    forall c | c in rest ensures c in t {
      assert c in syms && c != a;
    }
    forall i, j | 0 <= i < j < |rest|
      ensures Before(t, rest[i], rest[j])
    {
      var off := |pfx| - |rest|;
      assert rest[i] == pfx[i + off] && rest[j] == pfx[j + off];
      assert Before(syms, pfx[i + off], pfx[j + off]);
      var p, q :| 0 <= p < q < |syms| && syms[p] == pfx[i + off] && syms[q] == pfx[j + off];
      assert rest[i] in rest;
      assert p > 0;
      assert t[p - 1] == rest[i] && t[q - 1] == rest[j];
    }
  }

  lemma {:induction false} InListOrderIsKept(syms: string, pfx: string, held: set<char>)
    requires NoneTwice(syms) && NoneTwice(pfx) && InListOrder(syms, pfx) && forall c | c in pfx :: c in syms
    requires forall c | c in syms :: c in held <==> c in pfx
    ensures pfx == Kept(syms, held)
    decreases |syms|
  {
    assert |pfx| > 0 ==> pfx[0] in pfx && pfx[0] in syms;
    if syms == [] {
      assert |pfx| == 0;
    } else {
      TailInListOrder(syms, pfx);
      var a, rest := syms[0], if syms[0] in pfx then pfx[1..] else pfx;
      hide InListOrder;
      assert NoneTwice(syms[1..]);
      forall c | c in syms[1..] ensures c in held <==> c in rest {
        assert c in syms && c != a;
        assert a in pfx ==> pfx == [a] + rest;
      }
      InListOrderIsKept(syms[1..], rest, held);
      assert a in pfx ==> pfx == [a] + rest;
    }
  }

  lemma {:induction false} OrderedHasNoneTwice(syms: string, pfx: string)
    requires Ordered(syms, pfx)
    ensures NoneTwice(pfx)
  {
    hide IndexOf;
    forall i, j | 0 <= i < j < |pfx| ensures pfx[i] != pfx[j] {
      var ranks := Ranks(syms, pfx);
      assert ranks[i] < ranks[j] && ranks[i] == Rank(syms, pfx[i]) && ranks[j] == Rank(syms, pfx[j]);
    }
  }

  /** What the order of a prefix means. */
  lemma {:induction false} OrderedIsKept(syms: string, pfx: string)
    requires Ordered(syms, pfx)
    ensures NoneTwice(pfx) && InListOrder(syms, pfx) && (forall c | c in pfx :: c in syms)
    ensures NoneTwice(syms) ==> pfx == Kept(syms, set c | c in pfx)
  {
    OrderedIsInListOrder(syms, pfx);
    OrderedHasNoneTwice(syms, pfx);
    if NoneTwice(syms) {
      InListOrderIsKept(syms, pfx, set c | c in pfx);
    }
  }

  /** In every reachable state a member's prefix is the list of symbols with those left out that the
      member does not hold, and has at most 7 of them. */
  lemma {:induction false} ReachablePrefix(cfg: Config, mynick: string, msgs: seq<Msg>, ck: Key, k: Key)
    requires var t := Run(cfg, Initial(mynick), msgs); ck in t.chans && k in t.chans[ck].memb
    ensures var pfx := Run(cfg, Initial(mynick), msgs).chans[ck].memb[k].modepfx;
            && |pfx| <= 7 && NoneTwice(pfx) && InListOrder(cfg.syms, pfx) && (forall c | c in pfx :: c in cfg.syms)
            && (NoneTwice(cfg.syms) ==> pfx == Kept(cfg.syms, set c | c in pfx))
  {
    hide Run, Slots.Compact, Ordered;
    RunGraded(cfg, Initial(mynick), msgs);
    var c := Run(cfg, Initial(mynick), msgs).chans[ck];
    assert ChanGraded(cfg, c) && PfxOk(cfg, c.memb[k].modepfx);
    OrderedIsKept(cfg.syms, c.memb[k].modepfx);
  }

  /** Giving a symbol to a member, or taking it away: the prefix becomes the list of all symbols held
      from then on, unless there are 7 already. */
  lemma {:induction false} UpdateKeeps(syms: string, pfx: string, sym: char, enab: bool)
    requires Ordered(syms, pfx) && |pfx| <= 7 && NoneTwice(syms) && sym in syms
    ensures var held := set c | c in pfx;
            UpdatePfx(syms, pfx, sym, enab).0 ==
            if !enab then Kept(syms, held - {sym})
            else if |pfx| == 7 then pfx
            else Kept(syms, held + {sym})
  {
    UpdatePfxIsSetUpdate(syms, pfx, sym, enab);
    var (r, ok) := UpdatePfx(syms, pfx, sym, enab);
    OrderedIsKept(syms, pfx);
    OrderedIsKept(syms, r);
    hide Ordered, Kept, UpdatePfx;
    CharsAre(pfx);
    CharsAre(r);
    var held := set c | c in pfx;
    assert !enab && sym !in pfx ==> held - {sym} == held;
    assert enab && sym in pfx ==> held + {sym} == held;
  }

  lemma CharsAre(s: string)
    ensures Chars(s) == set c | c in s
  {
  }
}
