// Fixed arrays of pointers whose entries are kept in front of the NULL slots.
module Slots {
  import opened CStrings

  /** The entries in front of the first NULL slot. */
  function Contents<T>(arr: seq<Option<T>>): (c: seq<T>)
    ensures |c| <= |arr| && forall i | 0 <= i < |c| :: arr[i] == Some(c[i])
    ensures |c| < |arr| ==> arr[|c|].None?
  {
    if arr == [] || arr[0].None? then [] else [arr[0].value] + Contents(arr[1..])
  }

  /** The non-NULL slots form a prefix of an array that has slots. */
  ghost predicate Compact<T>(arr: seq<Option<T>>) {
    |arr| > 0 && forall i | |Contents(arr)| <= i < |arr| :: arr[i].None?
  }

  lemma {:induction false} ContentsIs<T>(arr: seq<Option<T>>, c: seq<T>)
    requires |c| <= |arr| && (forall i | 0 <= i < |c| :: arr[i] == Some(c[i]))
    requires |c| < |arr| ==> arr[|c|].None?
    ensures Contents(arr) == c
  {
    assert |Contents(arr)| == |c|;
  }

  /** `c` without its i-th element, the last one taking its place. */
  function SwapOut<T>(c: seq<T>, i: nat): (d: seq<T>)
    requires i < |c|
  {
    var n := |c| - 1;
    if i == n then c[..n] else c[..n][i := c[n]]
  }

  lemma {:induction false} SwapOutRemovesOne<T>(c: seq<T>, i: nat)
    requires i < |c|
    ensures multiset(c) == multiset(SwapOut(c, i)) + multiset{c[i]}
  {
    var n := |c| - 1;
    assert c == c[..n] + [c[n]];
    if i < n {
      assert c[..n] == c[..i] + [c[i]] + c[i + 1..n];
      assert SwapOut(c, i) == c[..i] + [c[n]] + c[i + 1..n];
    }
  }

  /** The same on the slots: the last entry is moved into slot `i`. */
  lemma {:induction false} SwapOutSlots<T>(arr: seq<Option<T>>, i: nat)
    requires Compact(arr) && i < |Contents(arr)|
    ensures var last := |Contents(arr)| - 1;
            var r := arr[i := arr[last]][last := None];
            Compact(r) && Contents(r) == SwapOut(Contents(arr), i)
  {
    var last := |Contents(arr)| - 1;
    ContentsIs(arr[i := arr[last]][last := None], SwapOut(Contents(arr), i));
  }

  /** An entry replaced, or put into the first NULL slot. */
  lemma {:induction false} PutSlot<T>(arr: seq<Option<T>>, i: nat, x: T)
    requires Compact(arr) && i <= |Contents(arr)| && i < |arr|
    ensures var (c, r) := (Contents(arr), arr[i := Some(x)]);
            Compact(r) && Contents(r) == if i < |c| then c[i := x] else c + [x]
  {
    var c := Contents(arr);
    ContentsIs(arr[i := Some(x)], if i < |c| then c[i := x] else c + [x]);
  }
}
