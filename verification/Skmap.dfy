// The string-keyed hash map of skmap.c: an array of bucket lists, a cached
// count and a resumable iterator.
module Skmap {
  import opened CStrings
  import opened CaseMap
  import opened Table
  import opened Bucklist

  class Skmap<V> {
    const cm: CaseMapping
    const buck: array<Bucklist?<V>>
    var count: nat
    var iterating: bool
    var bit: nat
    ghost var table: seq<Bucket<V>>   // the contents, bucket by bucket
    ghost var at: nat                 // the iterator's place in its bucket
    ghost var Repr: set<object>

    /** Bucket i is a NULL pointer or a list of this map, with its nodes and contents. */
    ghost predicate Owned(i: nat)
      requires i < buck.Length
      reads this, buck, Repr
    {
      && i < |table|
      && (buck[i] == null ==> table[i] == [])
      && (buck[i] != null ==>
            && buck[i] in Repr && (forall n | n in buck[i].nodes :: n in Repr)
            && buck[i].Valid() && buck[i].cm == cm && buck[i].Contents() == table[i])
    }

    /** No two buckets share a list or a node. */
    ghost predicate Apart(i: nat, j: nat)
      requires i < buck.Length && j < buck.Length
      reads this, buck, Repr
    {
      buck[i] != null && buck[j] != null && buck[i] in Repr && buck[j] in Repr ==>
        buck[i] != buck[j] && forall n | n in buck[i].nodes :: n !in buck[j].nodes
    }

    ghost predicate Shaped()
      reads this, Repr
    {
      && this in Repr && buck in Repr && |table| == buck.Length > 0
      && (forall i | 0 <= i < buck.Length :: Owned(i))
      && (forall i, j | 0 <= i < buck.Length && 0 <= j < buck.Length && i != j :: Apart(i, j))
    }

    ghost predicate Valid()
      reads this, Repr
    {
      Shaped() && Ok(cm, table) && count == |Flat(table, |table|)|
    }

    /** lsi_skmap_init */
    constructor (bsz: nat, cm: CaseMapping)
      requires bsz > 0
      ensures Valid() && fresh(Repr) && this.cm == cm && buck.Length == bsz
      ensures table == seq(bsz, _ => []) && !iterating && count == 0
    {
      this.cm := cm;
      count, iterating, bit, at := 0, false, 0, 0;
      buck := new Bucklist?<V>[bsz](_ => null);
      table := seq(bsz, _ => []);
      new;
      Repr := {this, buck};
      FlatOverEmpty(table, 0, bsz);
    }

    method Index(key: string) returns (ind: nat)
      requires buck.Length > 0
      ensures ind == Slot(buck.Length, Canon(cm, key))
    {
      var h;
      if buck.Length <= 256 {
        h := StrHashSmall(cm, key);
      } else {
        h := StrHashMid(cm, key);
      }
      ind := h % buck.Length;
    }

    /** lsi_skmap_get */
    method Get(key: string) returns (val: Option<V>)
      requires Valid()
      ensures val == Table.Get(cm, table, key)
    {
      var ind := Index(key);
      var kl := buck[ind];
      assert Owned(ind);
      if kl == null {
        return None;
      }
      val := kl.Find(key);
    }

    // ---------- changing one list ----------

    /** A NULL bucket gets an empty list. */
    method EnsureBucket(ind: nat)
      requires Shaped() && ind < buck.Length
      modifies buck, this`Repr
      ensures Shaped() && buck[ind] != null
      ensures fresh(Repr - old(Repr)) && old(Repr) <= Repr
    {
      if buck[ind] == null {
        var l := new Bucklist<V>(cm);
        buck[ind] := l;
        Repr := Repr + {l};
        forall i | 0 <= i < buck.Length ensures Owned(i) {
          assert old(Owned(i)) && old(Owned(ind));
        }
        forall i, j | 0 <= i < buck.Length && 0 <= j < buck.Length && i != j ensures Apart(i, j) {
          assert old(Apart(i, j)) && old(Owned(i)) && old(Owned(j));
        }
      }
    }

    /** Where only the ind-th list and its nodes changed, the other lists stay. */
    twostate lemma ListsStay(ind: nat)
      requires old(Shaped()) && ind < buck.Length && unchanged(buck) && old(Repr) <= Repr
      requires buck[ind] != null && buck[ind] in Repr && buck[ind].Valid() && buck[ind].cm == cm
      requires forall o | o in old(Repr) && o != this && o != buck[ind]
                          && o !in old(NodeSet(buck[ind].nodes)) :: unchanged(o)
      requires table == old(table)[ind := buck[ind].Contents()]
      ensures forall i | 0 <= i < buck.Length && i != ind :: Owned(i)
    {
      forall i | 0 <= i < buck.Length && i != ind ensures Owned(i)
      {
        assert old(Owned(i)) && old(Apart(i, ind)) && old(Owned(ind));
        if buck[i] != null {
          var l := buck[i];
          assert l in old(Repr) && l != buck[ind] && l.nodes == old(l.nodes) && l.head == old(l.head);
          assert forall n | n in l.nodes ::
              n in old(Repr) && n !in old(NodeSet(buck[ind].nodes)) && n as object != this;
          assert forall n | n in l.nodes :: n.next == old(n.next) && n.key == old(n.key) && n.val == old(n.val);
        }
      }
    }

    /** Where only the ind-th list changed, the map stays well shaped. */
    twostate lemma ListChanged(ind: nat)
      requires old(Shaped()) && ind < buck.Length && unchanged(buck) && old(Repr) <= Repr
      requires buck[ind] != null && buck[ind] in Repr && buck[ind].Valid() && buck[ind].cm == cm
      requires forall n | n in buck[ind].nodes :: n in Repr && (n in old(buck[ind].nodes) || fresh(n))
      requires forall o | o in old(Repr) && o != this && o != buck[ind]
                          && o !in old(NodeSet(buck[ind].nodes)) :: unchanged(o)
      requires table == old(table)[ind := buck[ind].Contents()]
      ensures Shaped()
    {
      ListsStay(ind);
      assert Owned(ind);
      forall i, j | 0 <= i < buck.Length && 0 <= j < buck.Length && i != j ensures Apart(i, j) {
        assert old(Apart(i, j)) && old(Owned(i)) && old(Owned(j));
      }
    }

    /** Insert in front of the ind-th list, as lsi_skmap_put does for a new key. */
    method InsertAt(ind: nat, key: string, val: V)
      requires Shaped() && ind < buck.Length && buck[ind] != null
      modifies Repr
      ensures Shaped() && table == old(table)[ind := [Entry(key, val)] + old(table)[ind]]
      ensures fresh(Repr - old(Repr)) && unchanged(buck)
      ensures count == old(count) && iterating == old(iterating) && bit == old(bit) && at == old(at)
    {
      hide Bucklist.Valid;
      var kl := buck[ind];
      assert Owned(ind);
      kl.Insert(0, key, val);
      assert kl.Contents() == [Entry(key, val)] + old(kl.Contents());
      Repr := Repr + NodeSet(kl.nodes);
      table := table[ind := kl.Contents()];
      ListChanged(ind);
    }

    method ReplaceAt(ind: nat, key: string, val: V)
      requires Shaped() && ind < buck.Length && buck[ind] != null
      requires FindIn(cm, table[ind], Canon(cm, key)).Some?
      modifies Repr
      ensures Shaped() && table == old(table)[ind := PutIn(cm, old(table)[ind], key, val)]
      ensures Repr == old(Repr) && unchanged(buck)
      ensures count == old(count) && iterating == old(iterating) && bit == old(bit) && at == old(at)
    {
      hide Canon, FindIn, PutIn;
      var kl := buck[ind];
      assert Owned(ind);
      var _ := kl.Replace(key, val);
      table := table[ind := kl.Contents()];
      ListChanged(ind);
    }

    method RemoveAt(ind: nat, key: string) returns (val: Option<V>)
      requires Shaped() && ind < buck.Length && buck[ind] != null
      modifies Repr
      ensures Shaped() && table == old(table)[ind := RemoveIn(cm, old(table)[ind], Canon(cm, key))]
      ensures val == FindIn(cm, old(table)[ind], Canon(cm, key))
      ensures Repr == old(Repr) && unchanged(buck)
      ensures count == old(count) && iterating == old(iterating) && bit == old(bit) && at == old(at)
    {
      hide Canon, FindIn, RemoveIn;
      var kl := buck[ind];
      assert Owned(ind);
      val := kl.Remove(key);
      table := table[ind := kl.Contents()];
      ListChanged(ind);
    }

    /** The part of lsi_skmap_put that works on one list. */
    method PutAt(ind: nat, key: string, val: V) returns (isNew: bool)
      requires Shaped() && ind < buck.Length && buck[ind] != null
      modifies Repr
      ensures Shaped() && table == old(table)[ind := PutIn(cm, old(table)[ind], key, val)]
      ensures isNew <==> FindIn(cm, old(table)[ind], Canon(cm, key)).None?
      ensures fresh(Repr - old(Repr))
      ensures count == old(count) && iterating == old(iterating) && bit == old(bit) && at == old(at)
    {
      var kl := buck[ind];
      assert Owned(ind);
      var e := kl.Find(key);
      hide Canon, Shaped, Pos;
      if e.None? {
        InsertAt(ind, key, val);
      } else {
        ReplaceAt(ind, key, val);
      }
      isNew := e.None?;
    }

    // ---------- the interface ----------

    /** lsi_skmap_put; None stands for a NULL element, which is refused. */
    method Put(key: string, elem: Option<V>) returns (ok: bool)
      requires Valid()
      modifies Repr
      ensures Valid() && fresh(Repr - old(Repr)) && iterating == old(iterating) && bit == old(bit) && at == old(at)
      ensures ok <==> elem.Some?
      ensures table == if ok then Table.Put(cm, old(table), key, elem.value) else old(table)
    {
      hide Canon, Ok, Flat, Slot, PutIn, FindIn, Model;
      if elem.None? {
        return false;
      }
      PutRefines(cm, table, key, elem.value);
      PutCount(cm, table, key, elem.value);
      var ind := Index(key);
      EnsureBucket(ind);
      var isNew := PutAt(ind, key, elem.value);
      if isNew {
        SetCount(count + 1);
      }
      return true;
    }

    /** lsi_skmap_del */
    method Del(key: string) returns (e: Option<V>)
      requires Valid()
      modifies Repr
      ensures Valid() && Repr == old(Repr) && iterating == old(iterating) && bit == old(bit) && at == old(at)
      ensures e == Table.Get(cm, old(table), key)
      ensures table == Table.Del(cm, old(table), key)
    {
      hide Canon, Ok, Flat, Slot, RemoveIn, FindIn, Model;
      var ind := Index(key);
      DelRefines(cm, table, key);
      DelCount(cm, table, key);
      assert Owned(ind);
      if buck[ind] == null {
        NothingThere(cm, Canon(cm, key), table[ind]);
        DelNothing(cm, table, key);
        return None;
      }
      e := RemoveAt(ind, key);
      if e.Some? {
        SetCount(count - 1);
      }
    }

    /** lsi_skmap_clear */
    method Clear()
      requires Valid()
      modifies this, buck
      ensures Valid() && Repr == old(Repr)
      ensures count == 0 && table == seq(buck.Length, _ => []) && Model(cm, table) == map[]
    {
      for i := 0 to buck.Length
        invariant this in Repr && buck in Repr && Repr == old(Repr)
        invariant forall j | 0 <= j < i :: buck[j] == null
      {
        buck[i] := null;
      }
      count := 0;
      table := seq(buck.Length, _ => []);
      FlatOverEmpty(table, 0, |table|);
      FlatCounts(cm, table);
    }

    method SetCount(n: nat)
      requires Shaped()
      modifies this`count
      ensures count == n && Shaped()
    {
      count := n;
      ScalarsChanged();
    }

    /** Where the lists, their nodes and contents are as before, the map stays well shaped. */
    twostate lemma ScalarsChanged()
      requires old(Shaped()) && unchanged(buck) && Repr == old(Repr) && table == old(table)
      requires forall o | o in old(Repr) && o != this :: unchanged(o)
      ensures Shaped()
    {
      forall i | 0 <= i < buck.Length ensures Owned(i) {
        assert old(Owned(i));
        if buck[i] != null {
          var l := buck[i];
          assert l in old(Repr) && l as object != this && l.nodes == old(l.nodes) && l.head == old(l.head);
          assert forall n | n in l.nodes :: n in old(Repr) && n as object != this;
          assert forall n | n in l.nodes :: n.next == old(n.next) && n.key == old(n.key) && n.val == old(n.val);
        }
      }
      forall i, j | 0 <= i < buck.Length && 0 <= j < buck.Length && i != j ensures Apart(i, j) {
        assert old(Apart(i, j)) && old(Owned(i)) && old(Owned(j));
      }
    }

    // ---------- iteration ----------

    /** The iterator stands on the at-th entry of bucket `bit`, the n-th of all. */
    ghost predicate Standing(n: nat)
      reads this, Repr
    {
      && Shaped() && bit < buck.Length && buck[bit] != null && Owned(bit)
      && at < |buck[bit].nodes| && buck[bit].iter == buck[bit].nodes[at]
      && n == |Flat(table, bit)| + at
    }

    /** What an iterator call on its way to the n-th entry returns: that entry, or the end. */
    ghost predicate Yields(n: nat, ok: bool, e: Option<Entry<V>>)
      reads this, Repr
    {
      var all := Flat(table, |table|);
      ok == iterating &&
      if n < |all| then ok && Standing(n) && e == Some(all[n]) else !ok && e == None
    }

    lemma StandsAt(n: nat)
      requires Valid() && Standing(n)
      ensures var all := Flat(table, |table|);
              && bit < |table| && at < |table[bit]| && n < |all| && all[n] == table[bit][at]
              && |Flat(table, bit + 1)| == n - at + |table[bit]| <= |all|
    {
      hide Flat, Ok, Bucklist.Valid;
      assert Owned(bit);
      FlatAt(table, bit, at, |table|);
    }

    /** The scan for the next bucket in use. */
    method SkipEmpty(from: nat) returns (i: nat)
      requires Shaped() && from <= buck.Length
      ensures i == NextBucket(table, from)
    {
      i := from;
      while i < buck.Length
        invariant from <= i <= buck.Length && NextBucket(table, from) == NextBucket(table, i)
      {
        assert Owned(i);
        if buck[i] != null {
          var empty := buck[i].IsEmpty();
          if !empty {
            return;
          }
        }
        i := i + 1;
      }
    }

    /** Start on the list of bucket b. */
    method StartBucket(b: nat) returns (e: Option<Entry<V>>)
      requires Valid() && b < buck.Length && table[b] != []
      modifies Repr
      ensures Valid() && table == old(table) && Repr == old(Repr) && count == old(count)
      ensures iterating && Standing(|Flat(table, b)|) && e == Some(table[b][0])
    {
      hide Ok, Flat, Bucklist.Valid;
      assert Owned(b);
      var kl := buck[b];
      var ok;
      ok, e := kl.First();
      iterating, bit, at := true, b, 0;
      assert table == table[b := kl.Contents()];
      ListChanged(b);
      assert Owned(b);
    }

    method Stop()
      requires Valid()
      modifies this`iterating, this`bit
      ensures Valid() && !iterating
    {
      iterating, bit := false, buck.Length;
      ScalarsChanged();
    }

    /** lsi_skmap_first */
    method First() returns (ok: bool, e: Option<Entry<V>>)
      requires Valid()
      modifies Repr
      ensures Valid() && table == old(table) && Repr == old(Repr) && count == old(count)
      ensures Yields(0, ok, e)
    {
      ok, e := FromBucket(0);
    }

    /** Go on with the first bucket in use from `from` on. */
    method FromBucket(from: nat) returns (ok: bool, e: Option<Entry<V>>)
      requires Valid() && from <= buck.Length
      modifies Repr
      ensures Valid() && table == old(table) && Repr == old(Repr) && count == old(count)
      ensures Yields(|Flat(table, from)|, ok, e)
    {
      var b := SkipEmpty(from);
      FlatOverEmpty(table, from, b);
      hide Ok, NextBucket, Flat, Shaped;
      if b == buck.Length {
        Stop();
        return false, None;
      }
      FlatAt(table, b, 0, |table|);
      e := StartBucket(b);
      ok := true;
    }

    /** Step inside the list the iterator stands in. */
    method StepInBucket(ghost n: nat) returns (ok: bool, e: Option<Entry<V>>)
      requires Valid() && Standing(n)
      modifies Repr
      ensures Valid() && table == old(table) && Repr == old(Repr) && count == old(count)
      ensures bit == old(bit) < buck.Length == |table| && iterating == old(iterating)
      ensures ok <==> old(at) + 1 < |table[bit]|
      ensures ok ==> Standing(n + 1) && at == old(at) + 1 && e == Some(table[bit][at])
    {
      hide Ok, Flat, Bucklist.Valid;
      var kl := buck[bit];
      assert Owned(bit);
      ok, e := kl.Next(at);
      if ok {
        at := at + 1;
      }
      assert table == table[bit := kl.Contents()];
      ListChanged(bit);
      assert Owned(bit);
    }

    /** lsi_bucklist_next as lsi_skmap_next uses it. */
    method NextInBucket(ghost n: nat) returns (ok: bool, e: Option<Entry<V>>)
      requires Valid() && iterating && Standing(n)
      modifies Repr
      ensures Valid() && table == old(table) && Repr == old(Repr) && count == old(count)
      ensures ok ==> Yields(n + 1, ok, e)
      ensures !ok ==> bit + 1 <= buck.Length == |table| && |Flat(table, bit + 1)| == n + 1
    {
      hide Valid, Standing, Flat, Bucklist.Valid;
      StandsAt(n);
      ok, e := StepInBucket(n);
      if ok {
        StandsAt(n + 1);
      }
    }

    /** lsi_skmap_next: the entry behind the current one in the order of the buckets, or the end. */
    method Next(ghost n: nat) returns (ok: bool, e: Option<Entry<V>>)
      requires Valid() && (iterating ==> Standing(n))
      modifies Repr
      ensures Valid() && table == old(table) && Repr == old(Repr) && count == old(count)
      ensures if old(iterating) then Yields(n + 1, ok, e) else !ok && !iterating && e == None
    {
      hide Valid, Standing, Flat, Yields;
      if !iterating {
        return false, None;
      }
      ok, e := NextInBucket(n);
      if !ok {
        ok, e := FromBucket(bit + 1);
      }
    }

    /** The "first, then next until false" idiom of the callers: with the map left alone it
        visits every entry once, in order, and stops after exactly `count` of them. */
    method Traverse() returns (visited: seq<Entry<V>>)
      requires Valid()
      modifies Repr
      ensures Valid() && table == old(table) && Repr == old(Repr) && count == old(count)
      ensures visited == Flat(table, |table|) && |visited| == count && !iterating
    {
      ghost var all := Flat(table, |table|);
      assert count == |all|;
      hide Valid, Flat, Standing, Yields;
      var ok, e := First();
      visited := [];
      while ok
        invariant Valid() && table == old(table) && Repr == old(Repr) && count == old(count)
        invariant Yields(|visited|, ok, e) && visited <= all
        decreases |all| - |visited|
      {
        ghost var n := |visited|;
        YieldsMeans(n, ok, e);
        visited := Extend(visited, e.value, all);
        ok, e := Next(n);
      }
      YieldsMeans(|visited|, ok, e);
    }

    function Extend(visited: seq<Entry<V>>, e: Entry<V>, ghost all: seq<Entry<V>>): (r: seq<Entry<V>>)
      requires visited <= all && |visited| < |all| && e == all[|visited|]
      ensures r <= all && |r| == |visited| + 1
    {
      visited + [e]
    }

    lemma YieldsMeans(n: nat, ok: bool, e: Option<Entry<V>>)
      requires Yields(n, ok, e)
      ensures var all := Flat(table, |table|);
              ok == iterating && if ok then n < |all| && e == Some(all[n]) && Standing(n) else n >= |all|
    {
      hide Flat, Standing;
    }
  }

  ghost function NodeSet<V>(nodes: seq<Node<V>>): set<object> {
    set n | n in nodes
  }

  lemma {:induction false} NothingThere<V>(cm: CaseMapping, k: Key, b: Bucket<V>)
    ensures b == [] ==> FindIn(cm, b, k) == None
  {
  }

  lemma {:induction false} DelNothing<V>(cm: CaseMapping, t: seq<Bucket<V>>, key: string)
    requires |t| > 0 && Table.Get(cm, t, key).None?
    ensures Table.Del(cm, t, key) == t
  {
    hide Canon, Slot;
  }
}
