// Message tags of IRCv3: unescaping their values (decode_v3tag in v3.c), and how they
// travel in front of a message.
module V3Tags {
  import opened CStrings
  import opened Message
  import opened Tokenizer
  import opened InPlace
  import opened V3

  const MAX_V3TAGLEN := 512

  /** What a character stands for behind a backslash. */
  function Meaning(c: char): char {
    match c
    case 's' => ' '
    case 'r' => '\r'
    case 'n' => '\n'
    case ':' => ';'
    case _ => c
  }

  /** What decode_v3tag writes when there is room for all of it. */
  function Unescape(s: string, escnext: bool): string {
    if s == [] then []
    else if s[0] == '\\' then (if escnext then ['\\'] else []) + Unescape(s[1..], !escnext)
    else [if escnext then Meaning(s[0]) else s[0]] + Unescape(s[1..], false)
  }

  /** The escaping of values in the Message Tags specification, section "Escaping values". */
  function EscapeChar(c: char): string {
    match c
    case ';' => "\\:"
    case ' ' => "\\s"
    case '\\' => "\\\\"
    case '\r' => "\\r"
    case '\n' => "\\n"
    case _ => [c]
  }

  function Escape(v: string): string {
    if v == [] then [] else EscapeChar(v[0]) + Escape(v[1..])
  }

  /** mkv3tag: the decoded tag up to its first '=', and what follows that. */
  function TagOf(raw: string): (string, Option<string>) {
    var d := Trunc(Unescape(raw, false), MAX_V3TAGLEN);
    var eq := IndexOf(d, '=');
    (d[..eq], if eq == |d| then None else Some(d[eq + 1..]))
  }

  lemma {:induction false} UnescapeChar(c: char, t: string)
    ensures Unescape(EscapeChar(c) + t, false) == [c] + Unescape(t, false)
  {
    var e := EscapeChar(c);
    if |e| == 1 {
      assert (e + t)[1..] == t;
    } else {
      assert (e + t)[1..][1..] == t;
      assert (e + t)[1..][0] == e[1];
    }
  }

  /** Unescaping undoes escaping, in front of anything. */
  lemma {:induction false} EscapeIsUndone(v: string, t: string)
    ensures Unescape(Escape(v) + t, false) == v + Unescape(t, false)
  {
    hide EscapeChar, Unescape;
    if v == [] {
      assert Escape(v) + t == t && v + Unescape(t, false) == Unescape(t, false);
    } else {
      EscapeIsUndone(v[1..], t);
      UnescapeChar(v[0], Escape(v[1..]) + t);
      Regroup(EscapeChar(v[0]), Escape(v[1..]), t);
      assert v == [v[0]] + v[1..];
      Regroup([v[0]], v[1..], Unescape(t, false));
    }
  }

  /** The five escapes of the specification; a backslash in front of anything else is dropped, also one
      at the very end, so every string means something. */
  lemma {:induction false} BackslashIsDropped(c: char, t: string)
    ensures Unescape(['\\', c] + t, false) ==
            (if c == 's' then " " else if c == 'r' then "\r" else if c == 'n' then "\n" else if c == ':' then ";"
             else [c]) + Unescape(t, false)
    ensures Unescape(['\\'], false) == []
  {
    var s := ['\\', c] + t;
    assert s[1..][0] == c && s[1..][1..] == t;
    assert ['\\'][1..] == [];
  }

  /** A text without backslashes stands for itself, in front of anything. */
  lemma {:induction false} PlainStays(k: string, t: string)
    requires '\\' !in k
    ensures Unescape(k + t, false) == k + Unescape(t, false)
  {
    if k == [] {
      assert k + t == t;
    } else {
      PlainStays(k[1..], t);
      assert (k + t)[0] == k[0] && (k + t)[1..] == k[1..] + t;
    }
  }

  /** An escaped value holds nothing a line or a tag could end at. */
  lemma {:induction false} EscapedIsSafe(v: string, c: char)
    requires c in [' ', ';', '\r', '\n'] || (c == NUL && NUL !in v)
    ensures c !in Escape(v)
  {
    if v != [] {
      EscapedIsSafe(v[1..], c);
    }
  }

  // ---------- tags in front of a message ----------

  datatype Tag = Tag(key: string, value: string)

  predicate PlainKey(k: string) {
    k != [] && forall c | c in k :: c !in [' ', ';', '=', '\\', NUL, '\r', '\n']
  }

  function RawTag(t: Tag): string {
    t.key + "=" + Escape(t.value)
  }

  function RawTags(tags: seq<Tag>): (r: seq<string>)
    ensures |r| == |tags|
  {
    if tags == [] then [] else [RawTag(tags[0])] + RawTags(tags[1..])
  }

  lemma NothingLeft(e: string, v: string)
    requires Unescape(e + "", false) == v + Unescape("", false)
    ensures Unescape(e, false) == v
  {
    assert e + "" == e && v + "" == v;
  }

  /** A key and a value that fit the 511 characters are decoded as they were. */
  lemma {:induction false} TagIsDecoded(t: Tag)
    requires PlainKey(t.key) && |t.key| + 1 + |t.value| < MAX_V3TAGLEN
    ensures TagOf(RawTag(t)) == (t.key, Some(t.value))
  {
    hide Unescape, Escape, IndexOf, PlainKey;
    var k, e, v := t.key, Escape(t.value), t.value;
    KeyHasNo(k, '=');
    KeyHasNo(k, '\\');
    Regroup(k, "=", e);
    PlainStays(k, "=" + e);
    PlainStays("=", e);
    EscapeIsUndone(v, "");
    NothingLeft(e, v);
    assert Unescape(RawTag(t), false) == k + ("=" + v);
    SplitsAtEquals(k, v);
  }

  /** A tag without a '=' has no value. */
  lemma {:induction false} BareTag(key: string)
    requires '=' !in key && '\\' !in key && |key| < 512
    ensures TagOf(key) == (key, None)
  {
    hide Unescape;
    assert key + "" == key;
    PlainStays(key, "");
    assert Unescape("", false) == "" by { UnescapeStep("", false); }
    assert key + Unescape("", false) == key;
    IndexOfIs(key, '=', |key|);
    assert key[..|key|] == key;
  }

  lemma SplitsAtEquals(k: string, v: string)
    requires '=' !in k
    ensures var d := k + ("=" + v);
            && IndexOf(d, '=') == |k| && d[..|k|] == k && d[|k| + 1..] == v && |d| == |k| + 1 + |v|
  {
    hide IndexOf;
    CutFront(k, "=" + v, '=');
  }

  lemma KeyHasNo(k: string, c: char)
    requires PlainKey(k) && c in [' ', ';', '=', '\\', NUL, '\r', '\n']
    ensures c !in k
  {
  }

  lemma {:induction false} RawIsSafe(t: Tag, c: char)
    requires PlainKey(t.key) && c in [' ', ';', '\r', '\n']
    ensures c !in RawTag(t) && RawTag(t) != []
  {
    EscapedIsSafe(t.value, c);
    KeyHasNo(t.key, c);
  }

  lemma {:induction false} RawTagsAre(tags: seq<Tag>)
    requires forall i | 0 <= i < |tags| :: PlainKey(tags[i].key)
    ensures forall i | 0 <= i < |tags| :: RawTags(tags)[i] == RawTag(tags[i])
  {
    if tags != [] {
      RawTagsAre(tags[1..]);
    }
  }

  lemma {:induction false} TextBehindTags(tags: string, rest: string)
    requires ' ' !in tags
    ensures TagSplit(tags + " " + rest) == Some((tags, rest))
  {
    assert tags + " " + rest == tags + ([' '] + rest);
    CutFront(tags, [' '] + rest, ' ');
    assert (tags + ([' '] + rest))[..|tags|] == tags && (tags + ([' '] + rest))[|tags| + 1..] == rest;
  }

  predicate TagFits(t: Tag) {
    PlainKey(t.key) && |t.key| + 1 + |t.value| < MAX_V3TAGLEN
  }

  /** A message with tags in front. */
  function TaggedLine(tags: seq<Tag>, m: Msg): string {
    "@" + (Join(RawTags(tags), ';') + " " + Body(m, true))
  }

  /** A message sent with tags is received as the same message, with the same raw tags, and each
      of them is decoded as the key and the value it was made from. */
  lemma {:induction false} TagsTravel(tags: seq<Tag>, m: Msg, max: nat)
    requires tags != [] && WellFormed(m) && forall i | 0 <= i < |tags| :: TagFits(tags[i])
    ensures ParseText(TaggedLine(tags, m), max) == Some((Take(RawTags(tags), max), m))
    ensures forall i | 0 <= i < |tags| :: TagOf(RawTags(tags)[i]) == (tags[i].key, Some(tags[i].value))
  {
    hide TagOf, TagSplit, Tokenizer.Tokenize, RawTag, Pieces, WellFormed, Body, Escape, Join, RawTags;
    var raws, body := RawTags(tags), Body(m, true);
    RawTagsAre(tags);
    forall i | 0 <= i < |tags|
      ensures ' ' !in raws[i] && ';' !in raws[i] && raws[i] != []
      ensures TagOf(raws[i]) == (tags[i].key, Some(tags[i].value))
    {
      RawIsSafe(tags[i], ' ');
      RawIsSafe(tags[i], ';');
      TagIsDecoded(tags[i]);
    }
    PiecesOfJoin(raws, ';');
    JoinHas(raws, ';', ' ');
    TextBehindTags(Join(raws, ';'), body);
    ReadBackIff(m, true);
    BodyIsSome(m);
    assert TaggedLine(tags, m)[1..] == Join(raws, ';') + " " + body;
  }

  lemma BodyIsSome(m: Msg)
    requires WellFormed(m)
    ensures Body(m, true) != ""
  {
  }

  // ---------- in place ----------

  /** decode_v3tag: the value, or as much of it as there is room for, always terminated. */
  method DecodeV3Tag(dest: array<char>, sz: nat, v3tag: string) returns (bc: nat)
    requires 0 < sz <= dest.Length && NUL !in v3tag
    modifies dest
    ensures Holds(dest[..], 0, Trunc(Unescape(v3tag, false), sz))
    ensures bc == Min(|Unescape(v3tag, false)| + 1, sz)
    ensures dest[sz..] == old(dest[sz..])
  {
    hide Unescape, Meaning, Decoding;
    ghost var all := Unescape(v3tag, false);
    NulFree(v3tag, false);
    DecodeStart(dest[..], v3tag);
    bc := 0;
    var p, escnext, done := 0, false, false;
    while bc < sz && !done
      invariant bc <= sz && p <= |v3tag| && dest[sz..] == old(dest[sz..])
      invariant !done ==> Decoding(dest[..], bc, v3tag, p, escnext, all)
      invariant done ==> bc == |all| + 1 && dest[..|all|] == all && dest[|all|] == NUL
      decreases |v3tag| - p, !done
    {
      var c := if p < |v3tag| then v3tag[p] else NUL;
      ghost var buf := dest[..];
      DecodeStep(buf, bc, v3tag, p, escnext, all);
      if p == |v3tag| {
        dest[bc] := NUL;
        bc := bc + 1;
        done := true;
      } else {
        p := p + 1;
        if c == '\\' {
          if escnext {
            dest[bc] := '\\';
            assert dest[..] == buf[bc := '\\'];
            bc := bc + 1;
          }
          escnext := !escnext;
        } else {
          var d := if escnext then Meaning(c) else c;
          dest[bc] := d;
          assert dest[..] == buf[bc := d];
          bc := bc + 1;
          escnext := false;
        }
      }
    }
    if !done {
      DecodeFull(dest[..], sz, v3tag, p, escnext, all);
    }
    if bc >= sz {
      dest[sz - 1] := NUL;
    }
    DecodeEnd(dest[..], bc, sz, all, done);
  }

  /** What is written so far, with what the rest stands for, is the whole value. */
  ghost predicate Decoding(buf: string, bc: nat, s: string, p: nat, escnext: bool, all: string) {
    bc <= |buf| && p <= |s| && buf[..bc] + Unescape(s[p..], escnext) == all
  }

  lemma DecodeStart(buf: string, s: string)
    ensures Decoding(buf, 0, s, 0, false, Unescape(s, false))
  {
    assert s[0..] == s;
  }

  lemma {:induction false} DecodeStep(buf: string, bc: nat, s: string, p: nat, escnext: bool, all: string)
    requires Decoding(buf, bc, s, p, escnext, all) && bc < |buf|
    ensures p == |s| ==> bc == |all| && buf[..bc] == all
    ensures p < |s| && s[p] == '\\' && escnext ==> Decoding(buf[bc := '\\'], bc + 1, s, p + 1, false, all)
    ensures p < |s| && s[p] == '\\' && !escnext ==> Decoding(buf, bc, s, p + 1, true, all)
    ensures p < |s| && s[p] != '\\' ==>
              var d := if escnext then Meaning(s[p]) else s[p];
              Decoding(buf[bc := d], bc + 1, s, p + 1, false, all)
  {
    hide Unescape, Meaning;
    UnescapeStep(s[p..], escnext);
    if p < |s| {
      assert s[p..][1..] == s[p + 1..];
      var d := if s[p] == '\\' then '\\' else if escnext then Meaning(s[p]) else s[p];
      var now := buf[bc := d];
      assert now[..bc + 1] == buf[..bc] + [d];
      Regroup(buf[..bc], [d], Unescape(s[p + 1..], false));
    }
  }

  lemma {:induction false} DecodeFull(buf: string, sz: nat, s: string, p: nat, escnext: bool, all: string)
    requires Decoding(buf, sz, s, p, escnext, all) && sz > 0
    ensures sz <= |all| && buf[..sz - 1] == all[..sz - 1]
  {
    hide Unescape;
    assert all[..sz] == buf[..sz];
  }

  lemma {:induction false} DecodeEnd(buf: string, bc: nat, sz: nat, all: string, done: bool)
    requires 0 < sz <= |buf| && bc <= sz && NUL !in all && (bc < sz ==> done)
    requires if done then bc == |all| + 1 && buf[..|all|] == all && buf[|all|] == NUL
             else bc == sz && sz - 1 <= |all| && buf[..sz - 1] == all[..sz - 1] && buf[sz - 1] == NUL
    ensures Holds(buf, 0, Trunc(all, sz)) && bc == Min(|all| + 1, sz)
  {
  }

  lemma UnescapeStep(s: string, escnext: bool)
    ensures s == [] ==> Unescape(s, escnext) == []
    ensures s != [] && s[0] == '\\' && escnext ==> Unescape(s, escnext) == ['\\'] + Unescape(s[1..], false)
    ensures s != [] && s[0] == '\\' && !escnext ==> Unescape(s, escnext) == Unescape(s[1..], true)
    ensures s != [] && s[0] != '\\' ==>
              Unescape(s, escnext) == [if escnext then Meaning(s[0]) else s[0]] + Unescape(s[1..], false)
  {
  }

  lemma {:induction false} NulFree(s: string, escnext: bool)
    requires NUL !in s
    ensures NUL !in Unescape(s, escnext)
  {
    if s != [] {
      NulFree(s[1..], if s[0] == '\\' then !escnext else false);
    }
  }
}
