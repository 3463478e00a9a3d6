// The linked list under each bucket of the hash map (bucklist.c).
module Bucklist {
  import opened CStrings
  import opened CaseMap
  import opened Table

  class Node<V> {
    var key: string
    var val: V
    var next: Node?<V>

    constructor (key: string, val: V)
      ensures this.key == key && this.val == val && next == null
    {
      this.key, this.val, next := key, val, null;
    }
  }

  ghost function EntriesOf<V>(nodes: seq<Node<V>>): (b: Bucket<V>)
    reads nodes
    ensures |b| == |nodes| && forall i | 0 <= i < |b| :: b[i] == Entry(nodes[i].key, nodes[i].val)
  {
    if nodes == [] then [] else [Entry(nodes[0].key, nodes[0].val)] + EntriesOf(nodes[1..])
  }

  lemma {:induction false} Without<V>(s: seq<Node<V>>, p: nat)
    requires p < |s| && forall i, j | 0 <= i < j < |s| :: s[i] != s[j]
    ensures var r := s[..p] + s[p + 1..];
            && |r| == |s| - 1
            && (forall i | 0 <= i < |r| :: r[i] == s[if i < p then i else i + 1])
            && (forall i, j | 0 <= i < j < |r| :: r[i] != r[j])
  {
  }

  /** The entries of a spliced sequence of nodes. */
  lemma {:induction false} EntriesInsert<V>(nodes: seq<Node<V>>, p: nat, n: Node<V>, was: Bucket<V>)
    requires p <= |nodes| == |was|
    requires forall i | 0 <= i < |was| :: was[i] == Entry(nodes[i].key, nodes[i].val)
    ensures EntriesOf(nodes[..p] + [n] + nodes[p..]) == was[..p] + [Entry(n.key, n.val)] + was[p..]
  {
    var now, e := nodes[..p] + [n] + nodes[p..], was[..p] + [Entry(n.key, n.val)] + was[p..];
    hide EntriesOf;
    forall i | 0 <= i < |now| ensures EntriesOf(now)[i] == e[i] {
      assert i > p ==> now[i] == nodes[i - 1] && e[i] == was[i - 1];
    }
  }

  lemma {:induction false} EntriesRemove<V>(nodes: seq<Node<V>>, p: nat, was: Bucket<V>)
    requires p < |nodes| == |was|
    requires forall i | 0 <= i < |was| :: was[i] == Entry(nodes[i].key, nodes[i].val)
    ensures EntriesOf(nodes[..p] + nodes[p + 1..]) == was[..p] + was[p + 1..]
  {
    var now, e := nodes[..p] + nodes[p + 1..], was[..p] + was[p + 1..];
    hide EntriesOf;
    forall i | 0 <= i < |now| ensures EntriesOf(now)[i] == e[i] {
      assert i >= p ==> now[i] == nodes[i + 1] && e[i] == was[i + 1];
    }
  }

  lemma {:induction false} EntriesUpdate<V>(nodes: seq<Node<V>>, p: nat, val: V, was: Bucket<V>)
    requires p < |nodes| == |was|
    requires forall i | 0 <= i < |was| ::
               nodes[i].key == was[i].key && nodes[i].val == if i == p then val else was[i].val
    ensures EntriesOf(nodes) == was[p := Entry(was[p].key, val)]
  {
    hide EntriesOf;
  }

  ghost function Nexts<V>(nodes: seq<Node<V>>): (next: seq<Node?<V>>)
    reads nodes
    ensures |next| == |nodes| && forall i | 0 <= i < |nodes| :: next[i] == nodes[i].next
  {
    seq(|nodes|, i requires 0 <= i < |nodes| reads nodes => nodes[i].next)
  }

  /** What follows each node of a chain. */
  ghost predicate Chain<V>(nodes: seq<Node<V>>, next: seq<Node?<V>>) {
    |next| == |nodes| && forall i | 0 <= i < |nodes| :: next[i] == if i + 1 < |nodes| then nodes[i + 1] else null
  }

  /** A chain whose node in front of the p-th is linked to the one behind it. */
  lemma {:induction false} ChainWithout<V>(s: seq<Node<V>>, next: seq<Node?<V>>, p: nat)
    requires p < |s| && Chain(s, next)
    ensures var n := if p > 0 then next[p - 1 := next[p]] else next;
            Chain(s[..p] + s[p + 1..], n[..p] + n[p + 1..])
    ensures next[p] == if p + 1 < |s| then s[p + 1] else null
  {
    var m := if p > 0 then next[p - 1 := next[p]] else next;
    var r, n := s[..p] + s[p + 1..], m[..p] + m[p + 1..];
    forall i | 0 <= i < |r| ensures n[i] == if i + 1 < |r| then r[i + 1] else null {
      assert n[i] == m[if i < p then i else i + 1];
      assert i + 1 < |r| ==> r[i + 1] == s[if i + 1 < p then i + 1 else i + 2];
    }
  }

  /** A chain with a new node in front of the p-th, or at its end. */
  lemma {:induction false} ChainWith<V>(s: seq<Node<V>>, next: seq<Node?<V>>, p: nat, n: Node<V>, after: Node?<V>)
    requires p <= |s| && Chain(s, next) && after == if p < |s| then s[p] else null
    ensures var m := if p > 0 then next[p - 1 := n] else next;
            Chain(s[..p] + [n] + s[p..], m[..p] + [after] + m[p..])
  {
    var k := if p > 0 then next[p - 1 := n] else next;
    var r, m := s[..p] + [n] + s[p..], k[..p] + [after] + k[p..];
    forall i | 0 <= i < |r| ensures m[i] == if i + 1 < |r| then r[i + 1] else null {
      assert i > p ==> m[i] == k[i - 1];
      assert i + 1 < |r| && i + 1 > p ==> r[i + 1] == s[i];
    }
  }

  lemma {:induction false} With<V>(s: seq<Node<V>>, p: nat, n: Node<V>)
    requires p <= |s| && n !in s && forall i, j | 0 <= i < j < |s| :: s[i] != s[j]
    ensures var r := s[..p] + [n] + s[p..];
            && |r| == |s| + 1
            && (forall i | 0 <= i < |r| :: r[i] == if i < p then s[i] else if i == p then n else s[i - 1])
            && (forall i, j | 0 <= i < j < |r| :: r[i] != r[j])
  {
  }

  lemma FromBoth<V>(s: seq<Node<V>>, p: nat)
    requires p < |s|
    ensures forall n | n in s[..p] + s[p + 1..] :: n in s
  {
  }

  lemma FoundAt<V>(cm: CaseMapping, b: Bucket<V>, k: Key)
    ensures var p := Pos(cm, b, k);
            && FindIn(cm, b, k) == (if p < |b| then Some(b[p].val) else None)
            && RemoveIn(cm, b, k) == if p < |b| then b[..p] + b[p + 1..] else b
  {
  }

  class Bucklist<V> {
    const cm: CaseMapping
    var head: Node?<V>
    var iter: Node?<V>
    ghost var nodes: seq<Node<V>>

    /** The nodes hang together, in order and without repetition. */
    ghost predicate Valid()
      reads this, nodes
    {
      && (nodes == [] ==> head == null)
      && (nodes != [] ==> head == nodes[0])
      && Chain(nodes, Nexts(nodes))
      && (forall i, j | 0 <= i < j < |nodes| :: nodes[i] != nodes[j])
    }

    ghost function Contents(): (b: Bucket<V>)
      reads this, nodes
      ensures |b| == |nodes|
    {
      EntriesOf(nodes)
    }

    constructor (cm: CaseMapping)
      ensures Valid() && Contents() == [] && nodes == [] && this.cm == cm
    {
      this.cm := cm;
      head, iter := null, null;
      nodes := [];
    }

    method IsEmpty() returns (empty: bool)
      requires Valid()
      ensures empty <==> Contents() == []
    {
      empty := head == null;
    }

    /** The stores that link a new node in front of the p-th, or behind the last. */
    method Link(newnode: Node<V>, prev: Node?<V>, ghost p: nat)
      requires Valid() && p <= |nodes| && newnode !in nodes
      requires prev == if p > 0 then nodes[p - 1] else null
      requires newnode.next == if p < |nodes| then nodes[p] else null
      modifies this`head, this`nodes, nodes`next
      ensures Valid() && nodes == old(nodes)[..p] + [newnode] + old(nodes)[p..]
    {
      hide EntriesOf, Nexts, Chain;
      ghost var was, before, after := nodes, Nexts(nodes), newnode.next;
      ChainWith(was, before, p, newnode, after);
      if prev != null {
        prev.next := newnode;
      } else {
        head := newnode;
      }
      ghost var next := Nexts(was);
      assert next == if p > 0 then before[p - 1 := newnode] else before;
      With(was, p, newnode);
      nodes := was[..p] + [newnode] + was[p..];
      assert Nexts(nodes) == next[..p] + [after] + next[p..];
    }

    lemma HeadIs()
      requires Valid()
      ensures head == if nodes != [] then nodes[0] else null
    {
    }

    lemma NextIs(p: nat)
      requires Valid() && p < |nodes|
      ensures nodes[p].next == if p + 1 < |nodes| then nodes[p + 1] else null
    {
      assert Nexts(nodes)[p] == nodes[p].next;
    }

    /** The walk of lsi_bucklist_insert: the neighbours of the i-th place, or of the end. */
    method Walk(i: nat) returns (prev: Node?<V>, next: Node?<V>, ghost p: nat)
      requires Valid()
      ensures p == if i < |nodes| then i else |nodes|
      ensures prev == if p > 0 then nodes[p - 1] else null
      ensures next == if p < |nodes| then nodes[p] else null
    {
      hide Valid;
      HeadIs();
      prev, next, p := null, head, 0;
      if next == null {
        return;
      }
      var rem := i;
      NextIs(p);
      while next.next != null && rem != 0
        invariant p < |nodes| && next == nodes[p] && p + rem == i
        invariant prev == if p > 0 then nodes[p - 1] else null
        invariant next.next == if p + 1 < |nodes| then nodes[p + 1] else null
        decreases |nodes| - p
      {
        rem := rem - 1;
        prev := next;
        next := next.next;
        p := p + 1;
        NextIs(p);
      }
      if rem != 0 {
        prev := next;
        next := null;
        p := p + 1;
      }
    }

    /** lsi_bucklist_insert: in front of the i-th node, or at the end of a shorter list. */
    method Insert(i: nat, key: string, val: V)
      requires Valid()
      modifies this`head, this`nodes, nodes
      ensures Valid() && forall n | n in nodes :: n in old(nodes) || fresh(n)
      ensures var at := if i < |old(nodes)| then i else |old(nodes)|;
              Contents() == old(Contents())[..at] + [Entry(key, val)] + old(Contents())[at..]
    {
      hide EntriesOf, Valid;
      ghost var was := Contents();
      var newnode := new Node(key, val);
      var prev, next, p := Walk(i);
      newnode.next := next;
      Link(newnode, prev, p);
      EntriesInsert(old(nodes), p, newnode, was);
    }

    /** The place of the first node under a key, walking from the head. */
    method Locate(key: string) returns (prev: Node?<V>, n: Node?<V>, ghost p: nat)
      requires Valid()
      ensures p == Pos(cm, Contents(), Canon(cm, key)) <= |nodes|
      ensures n == if p < |nodes| then nodes[p] else null
      ensures n != null ==> prev == if p > 0 then nodes[p - 1] else null
    {
      hide Canon, Pos, EntriesOf, Valid;
      HeadIs();
      prev, n, p := null, head, 0;
      while n != null
        invariant p <= |nodes| && n == (if p < |nodes| then nodes[p] else null)
        invariant prev == if p > 0 then nodes[p - 1] else null
        invariant forall j | 0 <= j < p :: Canon(cm, Contents()[j].key) != Canon(cm, key)
        decreases |nodes| - p
      {
        var eq := PfxEq(cm, n.key, key);
        if eq {
          PosIs(cm, Contents(), Canon(cm, key), p);
          return;
        }
        NextIs(p);
        prev := n;
        n := n.next;
        p := p + 1;
      }
      PosIs(cm, Contents(), Canon(cm, key), p);
    }

    method Find(key: string) returns (val: Option<V>)
      requires Valid()
      ensures val == FindIn(cm, Contents(), Canon(cm, key))
    {
      var prev, n, p := Locate(key);
      val := if n != null then Some(n.val) else None;
    }

    method SetVal(n: Node<V>, ghost p: nat, val: V)
      requires Valid() && p < |nodes| && n == nodes[p]
      modifies n`val
      ensures Valid() && Contents() == old(Contents())[p := Entry(old(Contents())[p].key, val)]
    {
      hide EntriesOf;
      ghost var was := Contents();
      n.val := val;
      EntriesUpdate(nodes, p, val, was);
    }

    method Replace(key: string, val: V) returns (ok: bool)
      requires Valid()
      modifies nodes`val
      ensures Valid() && nodes == old(nodes)
      ensures ok <==> FindIn(cm, old(Contents()), Canon(cm, key)).Some?
      ensures ok ==> Contents() == PutIn(cm, old(Contents()), key, val)
      ensures !ok ==> Contents() == old(Contents())
    {
      hide EntriesOf, Pos, Canon;
      var prev, n, p := Locate(key);
      if n == null {
        return false;
      }
      SetVal(n, p, val);
      return true;
    }

    /** The stores that take the p-th node out. */
    method Unlink(n: Node<V>, prev: Node?<V>, ghost p: nat)
      requires Valid() && p < |nodes| && n == nodes[p]
      requires prev == if p > 0 then nodes[p - 1] else null
      modifies this`head, this`nodes, nodes`next
      ensures Valid() && nodes == old(nodes)[..p] + old(nodes)[p + 1..]
    {
      hide EntriesOf, Nexts, Chain;
      ghost var was, before := nodes, Nexts(nodes);
      ChainWithout(was, before, p);
      if prev == null {
        head := n.next;
      } else {
        prev.next := n.next;
      }
      ghost var next := Nexts(was);
      assert next == if p > 0 then before[p - 1 := before[p]] else before;
      Without(was, p);
      nodes := was[..p] + was[p + 1..];
      assert Nexts(nodes) == next[..p] + next[p + 1..];
    }

    method Remove(key: string) returns (val: Option<V>)
      requires Valid()
      modifies this`head, this`nodes, nodes
      ensures Valid() && (forall n | n in nodes :: n in old(nodes))
      ensures val == FindIn(cm, old(Contents()), Canon(cm, key))
      ensures Contents() == RemoveIn(cm, old(Contents()), Canon(cm, key))
    {
      hide Pos, Canon, EntriesOf, Valid, FindIn, RemoveIn;
      var prev, n, p := Locate(key);
      ghost var was := Contents();
      FoundAt(cm, was, Canon(cm, key));
      if n == null {
        return None;
      }
      val := Some(n.val);
      Unlink(n, prev, p);
      EntriesRemove(old(nodes), p, was);
      FromBoth(old(nodes), p);
    }

    /** lsi_bucklist_first and _next: the iterator steps through the nodes. */
    method First() returns (ok: bool, e: Option<Entry<V>>)
      requires Valid()
      modifies this`iter
      ensures Valid() && Contents() == old(Contents())
      ensures ok <==> nodes != []
      ensures ok ==> iter == nodes[0] && e == Some(Contents()[0])
      ensures !ok ==> iter == old(iter) && e == None
    {
      hide Chain, Nexts;
      if head == null {
        return false, None;
      }
      iter := head;
      return true, Some(Entry(iter.key, iter.val));
    }

    method Next(ghost p: nat) returns (ok: bool, e: Option<Entry<V>>)
      requires Valid() && p < |nodes| && iter == nodes[p]
      modifies this`iter
      ensures Valid() && Contents() == old(Contents())
      ensures ok <==> p + 1 < |nodes|
      ensures ok ==> iter == nodes[p + 1] && e == Some(Contents()[p + 1])
      ensures !ok ==> iter == old(iter) && e == None
    {
      hide Chain, EntriesOf;
      NextIs(p);
      if iter == null || iter.next == null {
        return false, None;
      }
      iter := iter.next;
      return true, Some(Entry(iter.key, iter.val));
    }
  }
}
