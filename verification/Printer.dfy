// Printing a message into a buffer (lsi_ut_snrcmsg in util.c, lsi_b_strNcat in base_string.c).
module Printer {
  import opened CStrings
  import opened Message
  import opened Tokenizer
  import opened InPlace

  lemma {:induction false} TruncTwice(a: string, b: string, sz: nat)
    requires sz > 0
    ensures Trunc(Trunc(a, sz) + b, sz) == Trunc(a + b, sz)
  {
    if |a| >= sz {
      assert (a + b)[..sz - 1] == a[..sz - 1];
      assert (Trunc(a, sz) + b)[..sz - 1] == a[..sz - 1];
    }
  }

  /** lsi_b_strNcat: what fits of `src` is put behind the string in `dest`. */
  method StrNcat(dest: array<char>, src: string, sz: nat, ghost d: string)
    requires sz <= dest.Length && Holds(dest[..], 0, d) && |d| < sz && NUL !in src
    modifies dest
    ensures Holds(dest[..], 0, Trunc(d + src, sz))
    ensures dest[sz..] == old(dest[sz..])
  {
    hide Trunc;
    ghost var was := dest[..];
    assert forall j | 0 <= j < |d| :: was[j] == was[0..|d|][j] && d[j] in d;
    var len := 0;
    while dest[len] != NUL
      invariant 0 <= len <= |d|
      decreases |d| - len
    {
      len := len + 1;
    }
    if len + 1 >= sz {
      TruncIs(d, src, sz, 0);
      assert src[..0] == "" && d + "" == d;
      return;
    }
    var k, room := 0, sz - (len + 1);
    while room - k > 0 && k < |src|
      invariant 0 <= k <= |src| && k <= room
      invariant forall j | 0 <= j < dest.Length && !(len <= j < len + k) :: dest[j] == was[j]
      invariant forall j | 0 <= j < k :: dest[len + j] == src[j]
    {
      dest[len + k] := src[k];
      k := k + 1;
    }
    dest[len + k] := NUL;
    AppendHolds(was, dest[..], d, src, k);
    TruncIs(d, src, sz, k);
  }

  lemma {:induction false} TruncIs(d: string, src: string, sz: nat, k: nat)
    requires |d| < sz && k <= |src| && (k == |src| <= sz - 1 - |d| || k == sz - 1 - |d|)
    ensures Trunc(d + src, sz) == d + src[..k]
  {
  }

  lemma {:induction false} AppendHolds(was: string, buf: string, d: string, src: string, k: nat)
    requires Holds(was, 0, d) && NUL !in src && k <= |src| && |d| + k < |buf| == |was|
    requires forall j | 0 <= j < |d| :: buf[j] == was[j]
    requires forall j | 0 <= j < k :: buf[|d| + j] == src[j]
    requires buf[|d| + k] == NUL
    ensures Holds(buf, 0, d + src[..k])
  {
    var t := d + src[..k];
    forall j | 0 <= j < |t| ensures t[j] == buf[j] && t[j] != NUL {
      if j < |d| {
        assert d[j] == was[0..|d|][j] && d[j] in d;
      } else {
        assert t[j] == src[j - |d|] == buf[|d| + (j - |d|)] && src[j - |d|] in src;
      }
    }
    assert buf[0..|t|] == t;
  }

  /** The parts of a message are C strings, at most 18 of them. */
  predicate Printable(m: Msg) {
    && |m.args| <= MAX_ARGS && NUL !in m.cmd && (m.prefix.Some? ==> NUL !in m.prefix.value)
    && forall i | 0 <= i < |m.args| :: NUL !in m.args[i]
  }

  lemma {:induction false} PrintNext(args: seq<string>, i: nat, coltr: bool)
    requires i < |args|
    ensures PrintArgs(args[i..], coltr) ==
            " " + (if i + 1 == |args| && Colon(args[i], coltr) then ":" else "") + args[i]
            + PrintArgs(args[i + 1..], coltr)
  {
    assert args[i..][0] == args[i] && args[i..][1..] == args[i + 1..];
  }

  /** One more piece behind what was printed so far. */
  method Append(dest: array<char>, sz: nat, src: string, ghost text: string)
    requires 0 < sz <= dest.Length && Holds(dest[..], 0, Trunc(text, sz)) && NUL !in src
    modifies dest
    ensures Holds(dest[..], 0, Trunc(text + src, sz))
    ensures dest[sz..] == old(dest[sz..])
  {
    TruncTwice(text, src, sz);
    StrNcat(dest, src, sz, Trunc(text, sz));
  }

  method PrintHeadTo(dest: array<char>, sz: nat, m: Msg)
    requires 0 < sz <= dest.Length && Printable(m)
    modifies dest
    ensures Holds(dest[..], 0, Trunc(PrintHead(m), sz))
    ensures dest[sz..] == old(dest[sz..])
  {
    dest[0] := NUL;
    assert Holds(dest[..], 0, Trunc("", sz));
    hide Trunc, Holds;
    ghost var text := "";
    if m.prefix.Some? {
      Append(dest, sz, ":", "");
      Append(dest, sz, m.prefix.value, ":");
      Append(dest, sz, " ", ":" + m.prefix.value);
      text := ":" + m.prefix.value + " ";
    }
    Append(dest, sz, m.cmd, text);
    assert text + m.cmd == PrintHead(m);
  }

  method PrintArgTo(dest: array<char>, sz: nat, colon: bool, a: string, ghost text: string)
    requires 0 < sz <= dest.Length && Holds(dest[..], 0, Trunc(text, sz)) && NUL !in a
    modifies dest
    ensures Holds(dest[..], 0, Trunc(text + (" " + (if colon then ":" else "") + a), sz))
    ensures dest[sz..] == old(dest[sz..])
  {
    hide Trunc, Holds;
    Append(dest, sz, " ", text);
    ghost var c := if colon then ":" else "";
    if colon {
      Append(dest, sz, ":", text + " ");
    }
    assert text + " " + c == if colon then text + " " + ":" else text + " ";
    Append(dest, sz, a, text + " " + c);
    assert text + " " + c + a == text + (" " + c + a);
  }

  /** lsi_ut_snrcmsg: the line, or as much of it as there is room for. */
  method SnrcMsg(dest: array<char>, sz: nat, m: Msg, coltr: bool)
    requires 0 < sz <= dest.Length && Printable(m)
    modifies dest
    ensures Holds(dest[..], 0, Trunc(Body(m, coltr) + "\r\n", sz))
    ensures dest[sz..] == old(dest[sz..])
  {
    PrintHeadTo(dest, sz, m);
    ghost var text := PrintHead(m);
    var i := 0;
    assert m.args[0..] == m.args && m.args[|m.args|..] == [];
    assert PrintArgs([], coltr) == "";
    hide Trunc, Holds, PrintArgs, PrintHead;
    while i < |m.args|
      invariant 0 <= i <= |m.args|
      invariant text + PrintArgs(m.args[i..], coltr) == Body(m, coltr)
      invariant Holds(dest[..], 0, Trunc(text, sz)) && dest[sz..] == old(dest[sz..])
    {
      PrintNext(m.args, i, coltr);
      var colon := i + 1 == |m.args| && Colon(m.args[i], coltr);
      ghost var piece := " " + (if colon then ":" else "") + m.args[i];
      PrintArgTo(dest, sz, colon, m.args[i], text);
      Regroup(text, piece, PrintArgs(m.args[i + 1..], coltr));
      text := text + piece;
      i := i + 1;
    }
    assert text + "" == text;
    Append(dest, sz, "\r\n", text);
  }
}
