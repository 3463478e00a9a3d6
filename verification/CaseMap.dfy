// Case mapping and canonical keys: the fold tables of cmap.c, the prefix
// comparison of bucklist.c, the hash functions of skmap.c and the identity and
// comparison helpers of util.c.
module CaseMap {
  import opened CStrings

  datatype CaseMapping = Rfc1459 | StrictRfc1459 | Ascii

  /** A canonical prefix: folded, and cut in front of the first '!', '@' or NUL. */
  type Key = string

  /** One entry of the fold tables; '!' and '@' fold to the key terminator. */
  function Fold(cm: CaseMapping, c: char): char {
    if c == '!' || c == '@' then NUL
    else if 'a' <= c <= 'z' then (c as int - 32) as char
    else if cm.Rfc1459? && '{' <= c <= '}' then (c as int - 32) as char
    else if cm.StrictRfc1459? && '{' <= c <= '~' then (c as int - 32) as char
    else c
  }

  function Canon(cm: CaseMapping, s: string): Key {
    if s == [] || Fold(cm, s[0]) == NUL then []
    else [Fold(cm, s[0])] + Canon(cm, s[1..])
  }

  lemma CanonShape(cm: CaseMapping, s: string)
    ensures var k := Canon(cm, s);
            && |k| <= |s|
            && (forall i | 0 <= i < |k| :: k[i] == Fold(cm, s[i]) && k[i] != NUL)
            && (|k| < |s| ==> Fold(cm, s[|k|]) == NUL)
  {
  }

  /** The character the loops read at position i: NUL at the end of the string. */
  function FoldAt(cm: CaseMapping, s: string, i: nat): char
    requires i <= |s|
  {
    if i == |s| then NUL else Fold(cm, s[i])
  }

  /** A canonical prefix is pinned down by its characters and where it stops. */
  lemma {:induction false} CanonIs(cm: CaseMapping, s: string, i: nat, k: Key)
    requires i <= |s| && FoldAt(cm, s, i) == NUL
    requires |k| == i && forall j | 0 <= j < i :: k[j] == Fold(cm, s[j]) && k[j] != NUL
    ensures Canon(cm, s) == k
  {
    CanonShape(cm, s);
    assert |Canon(cm, s)| == i;
  }

  /** Canonicalising twice changes nothing. */
  lemma {:induction false} CanonIdempotent(cm: CaseMapping, s: string)
    ensures Canon(cm, Canon(cm, s)) == Canon(cm, s)
  {
    var k := Canon(cm, s);
    CanonShape(cm, s);
    CanonIs(cm, k, |k|, k);
  }

  /** Cutting the string behind its canonical part leaves the key alone, cutting inside it does not. */
  lemma {:induction false} CanonOfPrefix(cm: CaseMapping, s: string, n: nat)
    requires n <= |s|
    ensures |Canon(cm, s)| <= |s|
    ensures Canon(cm, s[..n]) == if n <= |Canon(cm, s)| then Canon(cm, s)[..n] else Canon(cm, s)
  {
    var k := Canon(cm, s);
    CanonShape(cm, s);
    if n <= |k| {
      CanonIs(cm, s[..n], n, k[..n]);
    } else {
      CanonIs(cm, s[..n], |k|, k);
    }
  }

  /** Past i non-terminating characters, the key ends at i exactly when the character there folds to NUL. */
  lemma {:induction false} CanonReaches(cm: CaseMapping, s: string, i: nat)
    requires i <= |s| && forall j | 0 <= j < i :: Fold(cm, s[j]) != NUL
    ensures i <= |Canon(cm, s)|
    ensures |Canon(cm, s)| == i <==> FoldAt(cm, s, i) == NUL
    ensures FoldAt(cm, s, i) != NUL ==> Canon(cm, s)[i] == FoldAt(cm, s, i)
  {
    CanonShape(cm, s);
  }

  /** The bitwise `&` and `^` of C on the values of two characters. */
  function BitAnd(a: nat, b: nat): nat {
    if a == 0 || b == 0 then 0
    else 2 * BitAnd(a / 2, b / 2) + (if a % 2 == 1 && b % 2 == 1 then 1 else 0)
  }

  function BitXor(a: nat, b: nat): nat
    decreases a + b
  {
    if a == 0 && b == 0 then 0
    else 2 * BitXor(a / 2, b / 2) + (if a % 2 != b % 2 then 1 else 0)
  }

  lemma BitAndSelf(a: nat)
    ensures BitAnd(a, a) == a
  {
  }

  /** pfxeq of bucklist.c.  Its loop joins the two characters with a bitwise `&`, so it
      can stop early on two different characters that share no bit. */
  method PfxEq(cm: CaseMapping, n1: string, n2: string) returns (eq: bool)
    ensures eq <==> Canon(cm, n1) == Canon(cm, n2)
  {
    var i := 0;
    var c1, c2 := FoldAt(cm, n1, 0), FoldAt(cm, n2, 0);
    while BitAnd(c1 as int, c2 as int) != 0
      invariant i <= |n1| && i <= |n2|
      invariant c1 == FoldAt(cm, n1, i) && c2 == FoldAt(cm, n2, i)
      invariant forall j | 0 <= j < i :: Fold(cm, n1[j]) == Fold(cm, n2[j]) != NUL
      decreases |n1| - i
    {
      if c1 != c2 {
        CanonReaches(cm, n1, i);
        CanonReaches(cm, n2, i);
        return false;
      }
      i := i + 1;
      c1, c2 := FoldAt(cm, n1, i), FoldAt(cm, n2, i);
    }
    CanonReaches(cm, n1, i);
    CanonReaches(cm, n2, i);
    BitAndSelf(c1 as int);
    if c1 == c2 {
      CanonShape(cm, n2);
      CanonIs(cm, n1, i, Canon(cm, n2));
    }
    return c1 == c2;
  }

  /** strhash_small, as a function of the canonical prefix alone: the next character is
      the n-th one, shifted by n mod 3 bits inside a byte. */
  function HashSmallFrom(k: Key, n: nat, acc: nat): nat {
    if k == [] then acc
    else HashSmallFrom(k[1..], n + 1, BitXor(acc, Shifted(k[0], n + 1)))
  }

  function Shifted(c: char, n: nat): nat {
    (c as int * (if n % 3 == 0 then 1 else if n % 3 == 1 then 2 else 4)) % 256
  }

  function HashSmall(k: Key): nat {
    HashSmallFrom(k, 0, 0xaa)
  }

  /** strhash_mid: two such bytes, filled in turn; `first` selects the byte used last. */
  function HashMidFrom(k: Key, n: nat, first: bool, r0: nat, r1: nat): nat {
    if k == [] then r0 * 256 + r1
    else
      var x := Shifted(k[0], n + 1);
      HashMidFrom(k[1..], n + 1, !first,
                  if first then BitXor(r0, x) else r0,
                  if first then r1 else BitXor(r1, x))
  }

  function HashMid(k: Key): nat {
    HashMidFrom(k, 0, true, 0xaa, 0xaa)
  }

  method StrHashSmall(cm: CaseMapping, s: string) returns (res: nat)
    ensures res == HashSmall(Canon(cm, s))
  {
    res := 0xaa;
    ghost var k := Canon(cm, s);
    CanonShape(cm, s);
    assert k[0..] == k;
    var i, shift := 0, 0;
    while FoldAt(cm, s, i) != NUL
      invariant i == shift <= |k|
      invariant HashSmallFrom(k[i..], i, res) == HashSmall(k)
      decreases |s| - i
    {
      CanonReaches(cm, s, i);
      assert k[i..][1..] == k[i + 1..];
      shift := shift + 1;
      res := BitXor(res, Shifted(Fold(cm, s[i]), shift));
      i := i + 1;
    }
    CanonReaches(cm, s, i);
  }

  method StrHashMid(cm: CaseMapping, s: string) returns (res: nat)
    ensures res == HashMid(Canon(cm, s))
  {
    var r0: nat, r1: nat := 0xaa, 0xaa;
    ghost var k := Canon(cm, s);
    CanonShape(cm, s);
    assert k[0..] == k;
    var i, shift, first := 0, 0, true;
    while FoldAt(cm, s, i) != NUL
      invariant i == shift <= |k|
      invariant HashMidFrom(k[i..], i, first, r0, r1) == HashMid(k)
      decreases |s| - i
    {
      CanonReaches(cm, s, i);
      assert k[i..][1..] == k[i + 1..];
      first := !first;
      shift := shift + 1;
      var x := Shifted(Fold(cm, s[i]), shift);
      if first {
        r1 := BitXor(r1, x);
      } else {
        r0 := BitXor(r0, x);
      }
      i := i + 1;
    }
    CanonReaches(cm, s, i);
    return r0 * 256 + r1;
  }

  /** lsi_ut_ident2nick: the nick in front of '!' and '@', in a buffer of `sz` bytes. */
  function Ident2Nick(ident: string, sz: nat): (nick: string)
    requires sz > 0
    ensures nick <= ident && |nick| < sz
    ensures '!' !in nick && '@' !in nick
  {
    CutAt(CutAt(Trunc(ident, sz), '@'), '!')
  }

  lemma {:induction false} CutKeepsKey(cm: CaseMapping, s: string, c: char)
    requires Fold(cm, c) == NUL
    ensures Canon(cm, CutAt(s, c)) == Canon(cm, s)
  {
    var i := IndexOf(s, c);
    CanonShape(cm, s);
    if i < |s| && i < |Canon(cm, s)| {
      assert false;
    }
    CanonOfPrefix(cm, s, i);
  }

  /** Extracting the nick keeps the key, as far as the buffer reaches. */
  lemma {:induction false} NickKeepsKey(cm: CaseMapping, ident: string, sz: nat)
    requires sz > 0
    ensures Canon(cm, Ident2Nick(ident, sz)) == Canon(cm, Trunc(ident, sz))
    ensures Canon(cm, Ident2Nick(ident, sz)) == Canon(cm, ident) <==> |Canon(cm, ident)| < sz
  {
    var t := Trunc(ident, sz);
    var a := CutAt(t, '@');
    CutKeepsKey(cm, t, '@');
    CutKeepsKey(cm, a, '!');
    assert t == ident[..|t|];
    CanonOfPrefix(cm, ident, |t|);
    if |t| == |ident| {
      assert t == ident;
    }
  }

  /** lsi_ut_tolower, which folds downwards and over its own ranges. */
  function Lower(cm: CaseMapping, c: char): char {
    var range := if cm.Rfc1459? then 4 else if cm.StrictRfc1459? then 3 else 0;
    if 'A' <= c && c as int <= 'Z' as int + range then (c as int + 32) as char else c
  }

  /** lsi_ut_istrcmp(a, b) == 0 */
  predicate IEq(cm: CaseMapping, a: string, b: string) {
    |a| == |b| && forall i | 0 <= i < |a| :: Lower(cm, a[i]) == Lower(cm, b[i])
  }

  method IStrCmp(cm: CaseMapping, n1: string, n2: string) returns (r: int)
    ensures r == 0 <==> IEq(cm, n1, n2)
  {
    var len := (if |n1| < |n2| then |n1| else |n2|) + 1;
    var i := 0;
    while len != 0 && i < |n1| && i < |n2|
      invariant i <= |n1| && i <= |n2|
      invariant len + i == (if |n1| < |n2| then |n1| else |n2|) + 1
      invariant forall j | 0 <= j < i :: Lower(cm, n1[j]) == Lower(cm, n2[j])
    {
      var c1, c2 := Lower(cm, n1[i]), Lower(cm, n2[i]);
      if c1 != c2 {
        return c1 as int - c2 as int;
      }
      i, len := i + 1, len - 1;
    }
    if len == 0 { return 0; }
    if i < |n1| { return 1; }
    if i < |n2| { return -1; }
    return 0;
  }

  /** The two case mappings of the library agree on two characters (that end no key) unless
      these are '^' and '~' under an RFC 1459 mapping. */
  lemma {:induction false} FoldsAgreeOnChars(cm: CaseMapping, a: char, b: char)
    requires Fold(cm, a) != NUL && Fold(cm, b) != NUL
    ensures (Lower(cm, a) == Lower(cm, b) <==> Fold(cm, a) == Fold(cm, b))
       <==> (cm.Ascii? || {a, b} != {'^', '~'})
  {
    if {a, b} == {'^', '~'} {
      assert a in {a, b} && b in {a, b} && '^' in {a, b} && '~' in {a, b};
    } else if a == b {
    } else {
      assert !(a == '^' && b == '~') && !(a == '~' && b == '^');
    }
  }

  // ---------- what the two foldings make of a character ----------

  /** `l` is the other case of `u`, for the upper case letters up to `top`. */
  predicate CasePair(u: char, l: char, top: char) {
    'A' <= u <= top && l as int == u as int + 32
  }

  predicate SameButCase(a: char, b: char, top: char) {
    a == b || CasePair(a, b, top) || CasePair(b, a, top)
  }

  /** lsi_ut_tolower takes two characters for the same exactly if they are, or are each other's case:
      letters everywhere, up to ']' under strict-rfc1459 and up to '^' under rfc1459. */
  lemma {:induction false} LowerPairs(cm: CaseMapping, a: char, b: char)
    ensures cm.Ascii? ==> (Lower(cm, a) == Lower(cm, b) <==> SameButCase(a, b, 'Z'))
    ensures cm.StrictRfc1459? ==> (Lower(cm, a) == Lower(cm, b) <==> SameButCase(a, b, ']'))
    ensures cm.Rfc1459? ==> (Lower(cm, a) == Lower(cm, b) <==> SameButCase(a, b, '^'))
  {
    if cm.Rfc1459? {
      assert 'Z' as int + 4 == '^' as int;
    } else if cm.StrictRfc1459? {
      assert 'Z' as int + 3 == ']' as int;
    }
  }

  /** The fold tables do so up to '^' under strict-rfc1459 and up to ']' under rfc1459, for characters
      that end no key; and exactly '!', '@' and NUL end one. */
  lemma {:induction false} FoldPairs(cm: CaseMapping, a: char, b: char)
    ensures Fold(cm, a) == NUL <==> a == '!' || a == '@' || a == '\0'
    ensures Fold(cm, a) != NUL && Fold(cm, b) != NUL ==>
              && (cm.Ascii? ==> (Fold(cm, a) == Fold(cm, b) <==> SameButCase(a, b, 'Z')))
              && (cm.StrictRfc1459? ==> (Fold(cm, a) == Fold(cm, b) <==> SameButCase(a, b, '^')))
              && (cm.Rfc1459? ==> (Fold(cm, a) == Fold(cm, b) <==> SameButCase(a, b, ']')))
  {
    if cm.Rfc1459? {
      assert '{' as int - 32 == '[' as int && '}' as int - 32 == ']' as int;
    } else if cm.StrictRfc1459? {
      assert '{' as int - 32 == '[' as int && '~' as int - 32 == '^' as int;
    }
  }

  /** No '!', '@' or NUL in it, and outside ascii no '^' or '~'. */
  predicate Plain(cm: CaseMapping, s: string) {
    forall c | c in s :: c !in ['!', '@', '\0'] && (!cm.Ascii? ==> c !in ['^', '~'])
  }

  /** Two plain strings are equal under lsi_ut_istrcmp exactly if they have the same key. */
  lemma {:induction false} IEqIsKeyEq(cm: CaseMapping, a: string, b: string)
    requires Plain(cm, a) && Plain(cm, b)
    ensures IEq(cm, a, b) <==> Canon(cm, a) == Canon(cm, b)
    ensures |Canon(cm, a)| == |a|
  {
    hide Canon, Fold, Lower;
    CanonShape(cm, a);
    CanonShape(cm, b);
    forall i | 0 <= i < |a| ensures Fold(cm, a[i]) != NUL {
      assert a[i] in a;
      FoldPairs(cm, a[i], a[i]);
    }
    forall i | 0 <= i < |b| ensures Fold(cm, b[i]) != NUL {
      assert b[i] in b;
      FoldPairs(cm, b[i], b[i]);
    }
    forall i | 0 <= i < |a| && i < |b|
      ensures Lower(cm, a[i]) == Lower(cm, b[i]) <==> Fold(cm, a[i]) == Fold(cm, b[i])
    {
      assert a[i] in a && b[i] in b;
      LowerPairs(cm, a[i], b[i]);
      FoldPairs(cm, a[i], b[i]);
    }
  }

  /** Letters in the other case are equal under every mapping, and have the same key. */
  lemma {:induction false} OtherCaseIsEqual(cm: CaseMapping, a: string, b: string)
    requires |a| == |b| && forall i | 0 <= i < |a| :: SameButCase(a[i], b[i], 'Z')
    requires forall c | c in a :: c !in ['!', '@', '\0']
    requires forall c | c in b :: c !in ['!', '@', '\0']
    ensures IEq(cm, a, b) && Canon(cm, a) == Canon(cm, b) && |Canon(cm, a)| == |a|
  {
    hide Canon, Fold, Lower;
    CanonShape(cm, a);
    CanonShape(cm, b);
    forall i | 0 <= i < |a|
      ensures Lower(cm, a[i]) == Lower(cm, b[i])
      ensures Fold(cm, a[i]) == Fold(cm, b[i]) != NUL
    {
      assert a[i] in a && b[i] in b;
      LowerPairs(cm, a[i], b[i]);
      FoldPairs(cm, a[i], b[i]);
      FoldPairs(cm, b[i], b[i]);
    }
  }

  /** `^` is the exclusive or: doing it twice is doing nothing. */
  lemma {:induction false} XorTwice(a: nat, b: nat)
    ensures BitXor(BitXor(a, b), b) == a
    decreases a + b
  {
    if a != 0 || b != 0 {
      XorTwice(a / 2, b / 2);
    }
  }

  /** The hashes of "A", worked out by hand, and what the three shifts make of a character. */
  lemma {:induction false} HashOfA()
    ensures HashSmall("A") == 0x28 && HashMid("A") == 0x28aa
    ensures Shifted('C', 1) == 0x86 && Shifted('C', 2) == 0x0c && Shifted('C', 3) == 0x43
  {
    hide BitXor;
    XorOfA();
    assert "A"[1..] == "" && Shifted('A', 1) == 0x82;
  }

  lemma {:induction false} XorOfA()
    ensures BitXor(0xaa, 0x82) == 0x28
  {
    assert BitXor(2, 2) == 0;
    assert BitXor(10, 8) == 2;
    assert BitXor(42, 32) == 10;
  }
}
