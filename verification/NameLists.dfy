// The lists of 353: printed entries are read back, and what one line does to
// its room.
module NameLists {
  import opened CStrings
  import opened CaseMap
  import opened Message
  import opened Modes
  import opened Tracking
  import opened Handlers
  import opened HandlerLemmas
  import opened Roster
  import opened Guards
  import opened Tokenizer
  import opened Effects

  /** The text of a list: each nick with its symbol in front, a blank in between. */
  function ListText(es: seq<NameEntry>): string {
    if es == [] then ""
    else if |es| == 1 then es[0].pfx + es[0].nick
    else es[0].pfx + es[0].nick + " " + ListText(es[1..])
  }

  /** An entry a server can list: at most one symbol, and a nick of 1 to 63 characters without a blank
      that is not itself taken for a symbol. */
  predicate Listable(syms: string, e: NameEntry) {
    && (e.pfx == "" || (|e.pfx| == 1 && e.pfx[0] in syms))
    && e.nick != "" && |e.nick| < 64 && ' ' !in e.nick
    && (e.pfx == "" ==> e.nick[0] !in syms)
  }

  predicate AllListable(syms: string, es: seq<NameEntry>) {
    forall i | 0 <= i < |es| :: Listable(syms, es[i])
  }

  lemma {:induction false} EntryIsRead(syms: string, e: NameEntry, rest: string)
    requires Listable(syms, e) && (rest == "" || rest[0] == ' ')
    ensures FirstName(syms, e.pfx + e.nick + rest) == (e, |e.pfx| + |e.nick|)
  {
    hide IndexOf;
    var p, n := e.pfx + e.nick + rest, |e.pfx|;
    assert p[..n] == e.pfx && p[n..] == e.nick + rest;
    assert p[0] in syms <==> n == 1;
    CutFront(e.nick, rest, ' ');
    assert p[n..n + |e.nick|] == e.nick;
  }

  /** Whatever entries a list is printed from are read from it. */
  lemma {:induction false} ListIsRead(syms: string, es: seq<NameEntry>)
    requires es != [] && AllListable(syms, es)
    ensures NameEntries(syms, ListText(es)) == Some(es)
    decreases |es|
  {
    hide FirstName, Listable;
    var e, p := es[0], ListText(es);
    EntryIsSome(syms, e);
    if |es| == 1 {
      EntryIsRead(syms, e, "");
      assert p == e.pfx + e.nick + "";
      assert es == [e];
    } else {
      var rest := ListText(es[1..]);
      EntryIsRead(syms, e, " " + rest);
      assert p == e.pfx + e.nick + (" " + rest);
      var end := |e.pfx| + |e.nick|;
      assert p[end + 1..] == rest;
      ListIsRead(syms, es[1..]);
      assert es == [e] + es[1..];
    }
  }

  lemma EntryIsSome(syms: string, e: NameEntry)
    requires Listable(syms, e)
    ensures e.pfx + e.nick != ""
  {
  }

  /** The last mention of a nick decides about its symbol. */
  lemma {:induction false} LastMention(cfg: Config, m: Members, es: seq<NameEntry>, i: nat)
    requires i < |es| && forall j | i < j < |es| :: cfg.Key(es[j].nick) != cfg.Key(es[i].nick)
    ensures var l := Listed(cfg, m, es); cfg.Key(es[i].nick) in l && l[cfg.Key(es[i].nick)] == es[i].pfx
    decreases |es|
  {
    hide Canon;
    var n := |es| - 1;
    if i < n {
      LastMention(cfg, m, es[..n], i);
    }
  }

  lemma {:induction false} NotMentioned(cfg: Config, m: Members, es: seq<NameEntry>, k: Key)
    requires forall j | 0 <= j < |es| :: cfg.Key(es[j].nick) != k
    ensures var l := Listed(cfg, m, es); (k in l <==> k in m) && (k in m ==> l[k] == m[k])
    decreases |es|
  {
    hide Canon;
    if es != [] {
      NotMentioned(cfg, m, es[..|es| - 1], k);
    }
  }

  /** What a 353 line with these entries does to the members of its room: everybody listed is one, with
      the symbol of the last mention; the members there were stay, unless the flag says that a new list
      begins. */
  ghost predicate ListedIn(cfg: Config, before: map<Key, Memb>, after: map<Key, Memb>, anew: bool, es: seq<NameEntry>) {
    && (forall i | 0 <= i < |es| && LastOne(cfg, es, i) ::
          cfg.Key(es[i].nick) in after && after[cfg.Key(es[i].nick)].modepfx == es[i].pfx)
    && (forall k | NotIn(cfg, es, k) ::
          (k in after <==> k in before && !anew) && (k in after ==> after[k].modepfx == before[k].modepfx))
  }

  ghost predicate LastOne(cfg: Config, es: seq<NameEntry>, i: nat)
    requires i < |es|
  {
    forall j | i < j < |es| :: cfg.Key(es[j].nick) != cfg.Key(es[i].nick)
  }

  ghost predicate NotIn(cfg: Config, es: seq<NameEntry>, k: Key) {
    forall j | 0 <= j < |es| :: cfg.Key(es[j].nick) != k
  }

  /** A 353 line for a known room lists exactly its entries there, and changes no other room. */
  lemma {:induction false} NamesEnter(cfg: Config, s: State, from: string, x: string, y: string, name: string,
                                      es: seq<NameEntry>, more: seq<string>)
    requires Inv(cfg, s) && es != [] && AllListable(cfg.syms, es)
    ensures var (t, r) := Step(cfg, s, Msg(Some(from), "353", [x, y, name, ListText(es)] + more));
            var ck := cfg.Key(name);
            && r == Done && t.mynick == s.mynick && t.chans.Keys == s.chans.Keys
            && if ck !in s.chans then t == s
               else
                 && !t.endofnames && ListedIn(cfg, s.chans[ck].memb, t.chans[ck].memb, s.endofnames, es)
                 && forall dk | dk in s.chans && dk != ck :: SameMembs(s.chans[dk].memb, t.chans[dk].memb)
  {
    hide Canon, Inv, Live, NameEntries, Names, Listed, ListOk, AllListable, ListText, RoomsOf, MembersOf, ListedIn,
         SameMembs, Step;
    var list, ck := ListText(es), cfg.Key(name);
    LiveOf(cfg, s);
    DispatchReplies(cfg, s, from, [x, y, name, list] + more);
    ListIsRead(cfg.syms, es);
    ListOkIff(cfg.syms, list);
    if ck !in s.chans {
      NamesUnknown(cfg, s, name, list);
    } else {
      NamesListed(cfg, s, name, list, es);
    }
  }

  lemma {:induction false} NamesListed(cfg: Config, s: State, name: string, list: string, es: seq<NameEntry>)
    requires Inv(cfg, s) && cfg.Key(name) in s.chans && NameEntries(cfg.syms, list) == Some(es) && Live(s)
    ensures var (t, r) := Names(cfg, s, name, list);
            var ck := cfg.Key(name);
            && r == Done && t.mynick == s.mynick && t.chans.Keys == s.chans.Keys && !t.endofnames
            && ListedIn(cfg, s.chans[ck].memb, t.chans[ck].memb, s.endofnames, es)
            && forall dk | dk in s.chans && dk != ck :: SameMembs(s.chans[dk].memb, t.chans[dk].memb)
  {
    hide Canon, Inv, Live, NameEntries, Names, Listed, ListOk, RoomsOf, MembersOf, ListedIn, SameMembs;
    var ck := cfg.Key(name);
    ListOkIff(cfg.syms, list);
    NamesKeep(cfg, s, name, list);
    NamesView(cfg, s, name, list);
    var t := Names(cfg, s, name, list).0;
    RoomsAre(s.chans);
    RoomsAre(t.chans);
    assert RoomsOf(t.chans)[ck] == Listed(cfg, if s.endofnames then map[] else MembersOf(s.chans[ck]), es);
    ListedInRoom(cfg, s.chans[ck], t.chans[ck], s.endofnames, es);
    forall dk | dk in s.chans && dk != ck ensures SameMembs(s.chans[dk].memb, t.chans[dk].memb) {
      assert RoomsOf(t.chans)[dk] == RoomsOf(s.chans)[dk];
      SameMembers(s.chans[dk], t.chans[dk]);
    }
  }

  ghost predicate SameMembs(a: map<Key, Memb>, b: map<Key, Memb>) {
    a.Keys == b.Keys && forall k | k in a :: a[k].modepfx == b[k].modepfx
  }

  lemma SameMembers(c: Chan, d: Chan)
    requires MembersOf(c) == MembersOf(d)
    ensures SameMembs(c.memb, d.memb)
  {
    assert MembersOf(c).Keys == c.memb.Keys && MembersOf(d).Keys == d.memb.Keys;
    assert forall k | k in c.memb :: MembersOf(c)[k] == c.memb[k].modepfx && MembersOf(d)[k] == d.memb[k].modepfx;
  }

  lemma NamesUnknown(cfg: Config, s: State, name: string, list: string)
    requires Live(s) && cfg.Key(name) !in s.chans
    ensures Names(cfg, s, name, list) == (s, Done)
  {
    hide Canon, Live;
  }

  lemma {:induction false} ListedInRoom(cfg: Config, c: Chan, d: Chan, anew: bool, es: seq<NameEntry>)
    requires MembersOf(d) == Listed(cfg, if anew then map[] else MembersOf(c), es)
    ensures ListedIn(cfg, c.memb, d.memb, anew, es)
  {
    hide Canon, Listed;
    var start: Members := if anew then map[] else MembersOf(c);
    assert MembersOf(d).Keys == d.memb.Keys && MembersOf(c).Keys == c.memb.Keys;
    forall i | 0 <= i < |es| && LastOne(cfg, es, i)
      ensures cfg.Key(es[i].nick) in d.memb && d.memb[cfg.Key(es[i].nick)].modepfx == es[i].pfx
    {
      LastMention(cfg, start, es, i);
      assert cfg.Key(es[i].nick) in MembersOf(d);
    }
    forall k | NotIn(cfg, es, k)
      ensures (k in d.memb <==> k in c.memb && !anew) && (k in d.memb ==> d.memb[k].modepfx == c.memb[k].modepfx)
    {
      NotMentioned(cfg, start, es, k);
      assert k in MembersOf(d) <==> k in d.memb;
    }
  }
}
