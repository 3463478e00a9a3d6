// Base64 (common.c), with the decoder of section 4 of RFC 4648 as its inverse.
module Base64 {
  import opened CStrings

  const UPPER := "ABCDEFGHIJKLMNOPQRSTUVWXYZ"
  const LOWER := "abcdefghijklmnopqrstuvwxyz"
  const DIGITS := "0123456789"

  /** b64_alpha */
  const ALPHA := UPPER + LOWER + DIGITS + "+/"

  /** What a symbol of the alphabet stands for. */
  function Value(c: char): (v: nat)
    ensures v < 64
  {
    if 'A' <= c <= 'Z' then c as int - 'A' as int
    else if 'a' <= c <= 'z' then c as int - 'a' as int + 26
    else if '0' <= c <= '9' then c as int - '0' as int + 52
    else if c == '+' then 62
    else 63
  }

  lemma {:induction false} UpperAt(i: nat)
    requires i < 26
    ensures UPPER[i] == 'A' + i as char
  {
    assert UPPER[i] == "ABCDEFGHIJKLMNOPQRSTUVWXYZ"[i];
  }

  lemma {:induction false} LowerAt(i: nat)
    requires i < 26
    ensures LOWER[i] == 'a' + i as char
  {
    assert LOWER[i] == "abcdefghijklmnopqrstuvwxyz"[i];
  }

  lemma {:induction false} DigitAt(i: nat)
    requires i < 10
    ensures DIGITS[i] == '0' + i as char
  {
    assert DIGITS[i] == "0123456789"[i];
  }

  /** The alphabet has 64 different symbols, none of them the padding. */
  lemma {:induction false} ValueOfAlpha(i: nat)
    requires i < 64
    ensures |ALPHA| == 64 && Value(ALPHA[i]) == i && ALPHA[i] != '='
    ensures ALPHA[i] == if i < 26 then 'A' + i as char else if i < 52 then 'a' + (i - 26) as char
                        else if i < 62 then '0' + (i - 52) as char else if i == 62 then '+' else '/'
  {
    if i < 26 {
      UpperAt(i);
      assert ALPHA[i] == UPPER[i];
    } else if i < 52 {
      LowerAt(i - 26);
      assert ALPHA[i] == LOWER[i - 26];
    } else if i < 62 {
      DigitAt(i - 52);
      assert ALPHA[i] == DIGITS[i - 52];
    }
  }

  function Sextet(c: char): (q: bv8)
    ensures q < 64
  {
    Value(c) as bv8
  }

  function Symbol(q: bv8): char
    requires q < 64
  {
    ValueOfAlpha(q as int);
    ALPHA[q as int]
  }

  lemma {:induction false} SextetOfSymbol(q: bv8)
    requires q < 64
    ensures Sextet(Symbol(q)) == q && Symbol(q) != '='
  {
    ValueOfAlpha(q as int);
  }

  // ---------- the bits of three octets ----------

  function Bits0(a: bv8): (q: bv8)
    ensures q < 64
  {
    a >> 2
  }

  function Bits1(a: bv8, b: bv8): (q: bv8)
    ensures q < 64
  {
    ((a & 0x03) << 4) | ((b & 0xf0) >> 4)
  }

  function Bits2(b: bv8, c: bv8): (q: bv8)
    ensures q < 64
  {
    ((b & 0x0f) << 2) | ((c & 0xc0) >> 6)
  }

  function Bits3(c: bv8): (q: bv8)
    ensures q < 64
  {
    c & 0x3f
  }

  /** One to three octets as four characters, padded with '='. */
  function Quad(t: seq<bv8>): (r: string)
    requires 1 <= |t| <= 3
    ensures |r| == 4
  {
    var a, b, c := t[0], if |t| > 1 then t[1] else 0, if |t| > 2 then t[2] else 0;
    [Symbol(Bits0(a)), Symbol(Bits1(a, b)),
     if |t| > 1 then Symbol(Bits2(b, c)) else '=', if |t| > 2 then Symbol(Bits3(c)) else '=']
  }

  /** The whole input, three octets at a time. */
  function Encode(input: seq<bv8>): string {
    if input == [] then ""
    else
      var n := Min(|input|, 3);
      Quad(input[..n]) + Encode(input[n..])
  }

  // ---------- the decoder ----------

  function Octet0(w: bv8, x: bv8): bv8 {
    (w << 2) | (x >> 4)
  }

  function Octet1(x: bv8, y: bv8): bv8 {
    ((x & 0x0f) << 4) | (y >> 2)
  }

  function Octet2(y: bv8, z: bv8): bv8 {
    ((y & 0x03) << 6) | z
  }

  function Unquad(s: string): seq<bv8>
    requires |s| == 4
  {
    var w, x, y, z := Sextet(s[0]), Sextet(s[1]), Sextet(s[2]), Sextet(s[3]);
    if s[2] == '=' then [Octet0(w, x)]
    else if s[3] == '=' then [Octet0(w, x), Octet1(x, y)]
    else [Octet0(w, x), Octet1(x, y), Octet2(y, z)]
  }

  /** Base 64 decoding, RFC 4648, section 4. */
  function Decode(s: string): seq<bv8>
    requires |s| % 4 == 0
  {
    if s == "" then [] else Unquad(s[..4]) + Decode(s[4..])
  }

  lemma {:induction false} BitsComeBack(a: bv8, b: bv8, c: bv8)
    ensures Octet0(Bits0(a), Bits1(a, b)) == a
    ensures Octet1(Bits1(a, b), Bits2(b, c)) == b
    ensures Octet2(Bits2(b, c), Bits3(c)) == c
  {
    Back0(a, b);
    Back1(a, b, c);
    Back2(b, c);
  }

  lemma Back0(a: bv8, b: bv8)
    ensures Octet0(Bits0(a), Bits1(a, b)) == a
  {
  }

  lemma Back1(a: bv8, b: bv8, c: bv8)
    ensures Octet1(Bits1(a, b), Bits2(b, c)) == b
  {
  }

  lemma Back2(b: bv8, c: bv8)
    ensures Octet2(Bits2(b, c), Bits3(c)) == c
  {
  }

  lemma {:induction false} QuadComesBack(t: seq<bv8>)
    requires 1 <= |t| <= 3
    ensures Unquad(Quad(t)) == t
  {
    hide Bits0, Bits1, Bits2, Bits3, Octet0, Octet1, Octet2, Symbol, Sextet;
    var a, b, c := t[0], if |t| > 1 then t[1] else 0, if |t| > 2 then t[2] else 0;
    BitsComeBack(a, b, c);
    SextetOfSymbol(Bits0(a));
    SextetOfSymbol(Bits1(a, b));
    SextetOfSymbol(Bits2(b, c));
    SextetOfSymbol(Bits3(c));
  }

  /** Decoding recovers every input, and an input of n octets makes 4 * ceil(n / 3) characters. */
  lemma {:induction false} EncodingComesBack(input: seq<bv8>)
    ensures |Encode(input)| == (|input| + 2) / 3 * 4
    ensures Decode(Encode(input)) == input
  {
    hide Quad, Unquad;
    if input != [] {
      var n := Min(|input|, 3);
      var head, rest := Quad(input[..n]), Encode(input[n..]);
      EncodingComesBack(input[n..]);
      QuadComesBack(input[..n]);
      assert (head + rest)[..4] == head && (head + rest)[4..] == rest;
      assert input == input[..n] + input[n..];
    }
  }

  // ---------- in place ----------

  /** The first `n` characters of `r` were written over `was` from `at` on. */
  ghost predicate Written(was: string, buf: string, at: nat, r: string, n: nat) {
    && |buf| == |was| && n <= |r| && at + n <= |was|
    && (forall j | at <= j < at + n :: buf[j] == r[j - at])
    && forall j | 0 <= j < |buf| && !(at <= j < at + n) :: buf[j] == was[j]
  }

  lemma {:induction false} WriteOne(was: string, buf: string, at: nat, r: string, n: nat)
    requires Written(was, buf, at, r, n) && n < |r| && at + n < |was|
    ensures Written(was, buf[at + n := r[n]], at, r, n + 1)
  {
  }

  lemma {:induction false} WrittenIs(was: string, buf: string, at: nat, r: string)
    requires Written(was, buf, at, r, |r|)
    ensures buf[..at] == was[..at] && buf[at..at + |r|] == r && buf[at + |r|..] == was[at + |r|..]
  {
  }

  lemma WrittenNone(was: string, at: nat, r: string)
    requires at <= |was|
    ensures Written(was, was, at, r, 0)
  {
  }

  /** b64_core */
  method Core(dest: array<char>, at: nat, input: seq<bv8>)
    requires at + 4 <= dest.Length && 1 <= |input| <= 3
    modifies dest
    ensures dest[..at] == old(dest[..at]) && dest[at..at + 4] == Quad(input) && dest[at + 4..] == old(dest[at + 4..])
  {
    hide Symbol, Bits0, Bits1, Bits2, Bits3, Written;
    ghost var was := dest[..];
    var ntrip := |input|;
    var a, b, c := input[0], if ntrip > 1 then input[1] else 0, if ntrip > 2 then input[2] else 0;
    var q := [Bits0(a), Bits1(a, b), Bits2(b, c), Bits3(c)];
    var nquad := ntrip + 1;
    ghost var r := Quad(input);
    WrittenNone(was, at, r);
    var i := 0;
    while i < nquad
      invariant 0 <= i <= nquad && Written(was, dest[..], at, r, i)
    {
      ghost var buf := dest[..];
      WriteOne(was, buf, at, r, i);
      dest[at + i] := Symbol(q[i]);
      assert dest[..] == buf[at + i := r[i]];
      i := i + 1;
    }
    while i < 4
      invariant nquad <= i <= 4 && Written(was, dest[..], at, r, i)
    {
      ghost var buf := dest[..];
      WriteOne(was, buf, at, r, i);
      dest[at + i] := '=';
      assert dest[..] == buf[at + i := r[i]];
      i := i + 1;
    }
    WrittenIs(was, dest[..], at, r);
  }

  /** `all` is what is in the buffer up to `optr` and `rest`; behind that nothing was written. */
  ghost predicate Progress(was: string, buf: string, optr: nat, all: string, rest: string) {
    optr <= |buf| == |was| && buf[optr..] == was[optr..] && all == buf[..optr] + rest
  }

  lemma {:induction false} ProgressStep(was: string, buf: string, now: string, optr: nat, all: string, q: string,
                                        rest: string)
    requires Progress(was, buf, optr, all, q + rest) && |now| == |buf| && optr + |q| <= |buf|
    requires now[..optr] == buf[..optr] && now[optr..optr + |q|] == q && now[optr + |q|..] == buf[optr + |q|..]
    ensures Progress(was, now, optr + |q|, all, rest)
  {
    assert now[..optr + |q|] == buf[..optr] + q;
    assert buf[optr + |q|..] == buf[optr..][|q|..] && was[optr + |q|..] == was[optr..][|q|..];
    assert buf[..optr] + (q + rest) == buf[..optr] + q + rest;
  }

  /** The loop of lsi_com_base64. */
  method EncodeGroups(dest: array<char>, input: seq<bv8>, ghost groups: nat)
    requires 3 * groups <= |input| + 2 < 3 * groups + 3 && 4 * groups <= dest.Length
    modifies dest
    ensures Progress(old(dest[..]), dest[..], 4 * groups, Encode(input), Encode(input[|input|..]))
  {
    hide Encode, Quad, Progress;
    ghost var was, k, pos := dest[..], 0, 0;
    var len, i, optr := |input|, 0, 0;
    Start(was, input);
    while i < len
      invariant i == 3 * k && optr == 4 * k && k <= groups && pos == Min(i, len)
      invariant Progress(was, dest[..], optr, Encode(input), Encode(input[pos..]))
    {
      var m := Min(len - i, 3);
      ghost var buf := dest[..];
      Core(dest, optr, input[i..i + m]);
      Advance(was, buf, dest[..], optr, Encode(input), input, pos, m);
      i, optr, k, pos := i + 3, optr + 4, k + 1, pos + m;
    }
  }

  /** lsi_com_base64: nothing is written where the result and a terminator would not fit, and no
      terminator is. */
  method Base64(dest: array<char>, destsz: nat, input: seq<bv8>) returns (n: nat)
    requires destsz <= dest.Length
    modifies dest
    ensures n == (if |Encode(input)| < destsz then |Encode(input)| else 0)
    ensures dest[..n] == (if n > 0 then Encode(input) else "")
    ensures dest[n..] == old(dest[n..])
  {
    hide Encode, Progress;
    EncodingComesBack(input);
    var reslen := (|input| + 2) / 3 * 4;
    if reslen >= destsz {
      return 0;
    }
    ghost var was := dest[..];
    EncodeGroups(dest, input, (|input| + 2) / 3);
    End(was, dest[..], reslen, Encode(input), input);
    return reslen;
  }

  lemma Start(was: string, input: seq<bv8>)
    ensures Progress(was, was, 0, Encode(input), Encode(input[0..]))
  {
    assert input[0..] == input;
  }

  lemma {:induction false} Advance(was: string, buf: string, now: string, optr: nat, all: string, input: seq<bv8>,
                                   i: nat, m: nat)
    requires i < |input| && m == Min(|input| - i, 3) && Progress(was, buf, optr, all, Encode(input[i..]))
    requires |now| == |buf| && optr + 4 <= |buf|
    requires now[..optr] == buf[..optr] && now[optr..optr + 4] == Quad(input[i..i + m])
    requires now[optr + 4..] == buf[optr + 4..]
    ensures Progress(was, now, optr + 4, all, Encode(input[i + m..]))
  {
    hide Encode, Quad, Progress;
    EncodeStep(input, i);
    ProgressStep(was, buf, now, optr, all, Quad(input[i..i + m]), Encode(input[i + m..]));
  }

  lemma End(was: string, buf: string, optr: nat, all: string, input: seq<bv8>)
    requires Progress(was, buf, optr, all, Encode(input[|input|..]))
    ensures optr <= |buf| == |was| && buf[..optr] == all && buf[optr..] == was[optr..]
  {
  }

  lemma {:induction false} EncodeStep(input: seq<bv8>, i: nat)
    requires i < |input|
    ensures var m := Min(|input| - i, 3);
            Encode(input[i..]) == Quad(input[i..i + m]) + Encode(input[i + m..])
  {
    var m := Min(|input| - i, 3);
    assert input[i..][..m] == input[i..i + m] && input[i..][m..] == input[i + m..];
  }

  /** Three of the test vectors in section 10 of RFC 4648: "f", "fo" and "foo". */
  lemma {:induction false} TestVectors()
    ensures Quad([0x66]) == "Zg==" && Quad([0x66, 0x6f]) == "Zm8=" && Quad([0x66, 0x6f, 0x6f]) == "Zm9v"
  {
    ValueOfAlpha(25);
    ValueOfAlpha(32);
    ValueOfAlpha(38);
    ValueOfAlpha(60);
    ValueOfAlpha(61);
    ValueOfAlpha(47);
  }
}
