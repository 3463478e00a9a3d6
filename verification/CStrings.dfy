// C string helpers shared by the other modules.  A `string` stands for the
// characters in front of the terminating NUL.
module CStrings {
  datatype Option<+T> = None | Some(value: T)

  function Min(a: nat, b: nat): nat {
    if a < b then a else b
  }

  const NUL: char := '\0'

  /** What lsi_b_strNcpy leaves in a destination of `sz` bytes: at most sz-1 characters of `s`. */
  function Trunc(s: string, sz: nat): (r: string)
    requires sz > 0
    ensures r <= s && |r| < sz
    ensures |s| < sz ==> r == s
  {
    if |s| < sz then s else s[..sz - 1]
  }

  /** strchr: the position of the first `c` in `s`, or |s| where C returns NULL. */
  function IndexOf(s: string, c: char): (i: nat)
    ensures i <= |s|
    ensures i < |s| ==> s[i] == c
    ensures forall j | 0 <= j < i :: s[j] != c
    ensures i < |s| <==> c in s
  {
    if s == [] then 0
    else if s[0] == c then 0
    else
      1 + IndexOf(s[1..], c)
  }

  lemma {:induction false} IndexOfIs(s: string, c: char, i: nat)
    requires i <= |s| && (forall j | 0 <= j < i :: s[j] != c) && (i < |s| ==> s[i] == c)
    ensures IndexOf(s, c) == i
  {
  }

  /** `s` up to, and without, its first `c`. */
  function CutAt(s: string, c: char): (r: string)
    ensures r <= s && c !in r
  {
    s[..IndexOf(s, c)]
  }

  /** The C string in a buffer. */
  function CStr(buf: seq<char>): string {
    CutAt(buf, NUL)
  }

  lemma {:induction false} CStrIs(buf: seq<char>, s: string)
    requires |s| < |buf| && buf[|s|] == NUL
    requires forall j | 0 <= j < |s| :: buf[j] == s[j] && s[j] != NUL
    ensures CStr(buf) == s
  {
    IndexOfIs(buf, NUL, |s|);
  }
}
