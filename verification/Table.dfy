// The hash map of skmap.c as a value: a sequence of buckets, each a sequence
// of entries, and the finite map over canonical keys that it stands for.
module Table {
  import opened CStrings
  import opened CaseMap

  datatype Entry<V> = Entry(key: string, val: V)

  type Bucket<V> = seq<Entry<V>>

  /** The position of the first entry under k, or |b|. */
  function Pos<V>(cm: CaseMapping, b: Bucket<V>, k: Key): (i: nat)
    ensures i <= |b| && (i < |b| ==> Canon(cm, b[i].key) == k)
    ensures forall j | 0 <= j < i :: Canon(cm, b[j].key) != k
  {
    if b == [] || Canon(cm, b[0].key) == k then 0 else 1 + Pos(cm, b[1..], k)
  }

  function FindIn<V>(cm: CaseMapping, b: Bucket<V>, k: Key): Option<V> {
    var i := Pos(cm, b, k);
    if i < |b| then Some(b[i].val) else None
  }

  /** A known key keeps its spelling and gets the new value; a new one goes in front. */
  function PutIn<V>(cm: CaseMapping, b: Bucket<V>, key: string, val: V): Bucket<V> {
    var i := Pos(cm, b, Canon(cm, key));
    if i < |b| then b[i := Entry(b[i].key, val)] else [Entry(key, val)] + b
  }

  function RemoveIn<V>(cm: CaseMapping, b: Bucket<V>, k: Key): Bucket<V> {
    var i := Pos(cm, b, k);
    if i < |b| then b[..i] + b[i + 1..] else b
  }

  /** hfn(key) % bsz, on the canonical key. */
  function Slot(bsz: nat, k: Key): (i: nat)
    requires bsz > 0
    ensures i < bsz
  {
    (if bsz <= 256 then HashSmall(k) else HashMid(k)) % bsz
  }

  function Put<V>(cm: CaseMapping, t: seq<Bucket<V>>, key: string, val: V): seq<Bucket<V>>
    requires |t| > 0
  {
    var i := Slot(|t|, Canon(cm, key));
    t[i := PutIn(cm, t[i], key, val)]
  }

  function Get<V>(cm: CaseMapping, t: seq<Bucket<V>>, key: string): Option<V>
    requires |t| > 0
  {
    FindIn(cm, t[Slot(|t|, Canon(cm, key))], Canon(cm, key))
  }

  function Del<V>(cm: CaseMapping, t: seq<Bucket<V>>, key: string): seq<Bucket<V>>
    requires |t| > 0
  {
    var i := Slot(|t|, Canon(cm, key));
    t[i := RemoveIn(cm, t[i], Canon(cm, key))]
  }

  // ---------- what the table stands for ----------

  ghost predicate BucketOk<V>(cm: CaseMapping, bsz: nat, i: nat, b: Bucket<V>)
    requires bsz > 0
  {
    && (forall j | 0 <= j < |b| :: Slot(bsz, Canon(cm, b[j].key)) == i)
    && (forall j, l | 0 <= j < l < |b| :: Canon(cm, b[j].key) != Canon(cm, b[l].key))
  }

  /** Every entry sits in its slot and no two entries of a bucket have the same key. */
  ghost predicate Ok<V>(cm: CaseMapping, t: seq<Bucket<V>>) {
    |t| > 0 && forall i | 0 <= i < |t| :: BucketOk(cm, |t|, i, t[i])
  }

  ghost function KeysIn<V>(cm: CaseMapping, b: Bucket<V>): set<Key> {
    set e | e in b :: Canon(cm, e.key)
  }

  /** The keys of the first n buckets. */
  ghost function Keys<V>(cm: CaseMapping, t: seq<Bucket<V>>, n: nat): set<Key>
    requires n <= |t|
  {
    if n == 0 then {} else Keys(cm, t, n - 1) + KeysIn(cm, t[n - 1])
  }

  /** The entries of the first n buckets, in order. */
  function Flat<V>(t: seq<Bucket<V>>, n: nat): seq<Entry<V>>
    requires n <= |t|
  {
    if n == 0 then [] else Flat(t, n - 1) + t[n - 1]
  }

  lemma {:induction false} InKeysIn<V>(cm: CaseMapping, b: Bucket<V>, k: Key)
    ensures k in KeysIn(cm, b) <==> Pos(cm, b, k) < |b|
  {
    hide Canon;
    if k in KeysIn(cm, b) {
      var e :| e in b && Canon(cm, e.key) == k;
      var j :| 0 <= j < |b| && b[j] == e;
    }
    assert Pos(cm, b, k) < |b| ==> b[Pos(cm, b, k)] in b;
  }

  lemma {:induction false} InKeys<V>(cm: CaseMapping, t: seq<Bucket<V>>, n: nat, k: Key)
    requires Ok(cm, t) && n <= |t|
    ensures k in Keys(cm, t, n) <==> Slot(|t|, k) < n && Pos(cm, t[Slot(|t|, k)], k) < |t[Slot(|t|, k)]|
  {
    hide Canon, Slot;
    if n > 0 {
      InKeys(cm, t, n - 1, k);
      InKeysIn(cm, t[n - 1], k);
      assert BucketOk(cm, |t|, n - 1, t[n - 1]);
    }
  }

  /** The finite map over canonical keys. */
  ghost function Model<V>(cm: CaseMapping, t: seq<Bucket<V>>): map<Key, V>
    requires Ok(cm, t)
  {
    map k | k in Keys(cm, t, |t|) ::
      (InKeys(cm, t, |t|, k); t[Slot(|t|, k)][Pos(cm, t[Slot(|t|, k)], k)].val)
  }

  /** Lookup reads the finite map. */
  lemma {:induction false} GetRefines<V>(cm: CaseMapping, t: seq<Bucket<V>>, key: string)
    requires Ok(cm, t)
    ensures var m, k := Model(cm, t), Canon(cm, key);
            Get(cm, t, key) == if k in m then Some(m[k]) else None
  {
    hide Canon, Slot;
    InKeys(cm, t, |t|, Canon(cm, key));
  }

  lemma {:induction false} ModelAt<V>(cm: CaseMapping, t: seq<Bucket<V>>, k: Key)
    requires Ok(cm, t)
    ensures var m, f := Model(cm, t), FindIn(cm, t[Slot(|t|, k)], k);
            (k in m <==> f.Some?) && (k in m ==> f == Some(m[k]))
  {
    hide Canon, Slot;
    InKeys(cm, t, |t|, k);
  }

  ghost predicate Distinct<V>(cm: CaseMapping, b: Bucket<V>) {
    forall j, l | 0 <= j < l < |b| :: Canon(cm, b[j].key) != Canon(cm, b[l].key)
  }

  lemma {:induction false} PosIs<V>(cm: CaseMapping, b: Bucket<V>, k: Key, i: nat)
    requires i <= |b| && (forall j | 0 <= j < i :: Canon(cm, b[j].key) != k)
    requires i < |b| ==> Canon(cm, b[i].key) == k
    ensures Pos(cm, b, k) == i
  {
  }

  lemma {:induction false} PutInFinds<V>(cm: CaseMapping, b: Bucket<V>, key: string, val: V, k: Key)
    ensures FindIn(cm, PutIn(cm, b, key, val), k) == if k == Canon(cm, key) then Some(val) else FindIn(cm, b, k)
  {
    hide Canon;
    var i, j := Pos(cm, b, Canon(cm, key)), Pos(cm, b, k);
    var c := PutIn(cm, b, key, val);
    if i < |b| {
      PosIs(cm, c, k, j);
    } else if k == Canon(cm, key) {
      PosIs(cm, c, k, 0);
    } else {
      PosIs(cm, c, k, j + 1);
    }
  }

  lemma {:induction false} PutInKeeps<V>(cm: CaseMapping, bsz: nat, i: nat, b: Bucket<V>, key: string, val: V)
    requires bsz > 0 && BucketOk(cm, bsz, i, b) && Slot(bsz, Canon(cm, key)) == i
    ensures BucketOk(cm, bsz, i, PutIn(cm, b, key, val))
    ensures |PutIn(cm, b, key, val)| == if FindIn(cm, b, Canon(cm, key)).Some? then |b| else |b| + 1
  {
    hide Canon, Slot;
  }

  lemma {:induction false} RemoveInOther<V>(cm: CaseMapping, b: Bucket<V>, i: nat, j: Key)
    requires i < |b| && Canon(cm, b[i].key) != j
    ensures FindIn(cm, b[..i] + b[i + 1..], j) == FindIn(cm, b, j)
  {
    hide Canon, Pos;
    var p, c := Pos(cm, b, j), b[..i] + b[i + 1..];
    assert forall l | 0 <= l < i :: c[l] == b[l];
    assert forall l | i <= l < |c| :: c[l] == b[l + 1];
    PosIs(cm, c, j, if p < i then p else p - 1);
  }

  lemma {:induction false} RemoveInGone<V>(cm: CaseMapping, b: Bucket<V>, i: nat)
    requires i < |b| && Distinct(cm, b)
    ensures FindIn(cm, b[..i] + b[i + 1..], Canon(cm, b[i].key)) == None
  {
    var k, c := Canon(cm, b[i].key), b[..i] + b[i + 1..];
    hide Canon, Pos;
    forall l | 0 <= l < |c| ensures Canon(cm, c[l].key) != k {
      assert c[l] == b[if l < i then l else l + 1];
    }
    PosIs(cm, c, k, |c|);
  }

  lemma {:induction false} RemoveInFinds<V>(cm: CaseMapping, b: Bucket<V>, k: Key, j: Key)
    requires Distinct(cm, b)
    ensures FindIn(cm, RemoveIn(cm, b, k), j) == if j == k then None else FindIn(cm, b, j)
  {
    hide Canon, Distinct;
    var i := Pos(cm, b, k);
    if i < |b| {
      if j == k {
        RemoveInGone(cm, b, i);
      } else {
        RemoveInOther(cm, b, i, j);
      }
    }
  }

  lemma {:induction false} RemoveInKeeps<V>(cm: CaseMapping, bsz: nat, i: nat, b: Bucket<V>, k: Key)
    requires bsz > 0 && BucketOk(cm, bsz, i, b)
    ensures BucketOk(cm, bsz, i, RemoveIn(cm, b, k))
    ensures |RemoveIn(cm, b, k)| == if FindIn(cm, b, k).Some? then |b| - 1 else |b|
  {
    hide Canon, Slot;
    var c, p := RemoveIn(cm, b, k), Pos(cm, b, k);
    assert forall j | 0 <= j < |c| :: c[j] == b[if j < p then j else j + 1];
  }

  /** Putting refines the update of the finite map. */
  lemma {:induction false} PutRefines<V>(cm: CaseMapping, t: seq<Bucket<V>>, key: string, val: V)
    requires Ok(cm, t)
    ensures Ok(cm, Put(cm, t, key, val))
    ensures Model(cm, Put(cm, t, key, val)) == Model(cm, t)[Canon(cm, key) := val]
  {
    hide Canon, Slot, Model, PutIn, FindIn, BucketOk;
    var u, i := Put(cm, t, key, val), Slot(|t|, Canon(cm, key));
    PutInKeeps(cm, |t|, i, t[i], key, val);
    assert Ok(cm, u);
    forall k ensures k in Model(cm, u) <==> k in Model(cm, t)[Canon(cm, key) := val]
             ensures k in Model(cm, u) ==> Model(cm, u)[k] == Model(cm, t)[Canon(cm, key) := val][k]
    {
      ModelAt(cm, u, k);
      ModelAt(cm, t, k);
      PutInFinds(cm, t[i], key, val, k);
    }
  }

  lemma OkIsDistinct<V>(cm: CaseMapping, t: seq<Bucket<V>>, i: nat)
    requires Ok(cm, t) && i < |t|
    ensures Distinct(cm, t[i])
  {
  }

  /** Deleting refines removal from the finite map. */
  lemma {:induction false} DelRefines<V>(cm: CaseMapping, t: seq<Bucket<V>>, key: string)
    requires Ok(cm, t)
    ensures Ok(cm, Del(cm, t, key))
    ensures Model(cm, Del(cm, t, key)) == Model(cm, t) - {Canon(cm, key)}
  {
    hide Canon, Slot, Model, RemoveIn, FindIn, BucketOk, Distinct;
    var u, i := Del(cm, t, key), Slot(|t|, Canon(cm, key));
    RemoveInKeeps(cm, |t|, i, t[i], Canon(cm, key));
    OkIsDistinct(cm, t, i);
    assert Ok(cm, u);
    forall k ensures k in Model(cm, u) <==> k in Model(cm, t) - {Canon(cm, key)}
             ensures k in Model(cm, u) ==> Model(cm, u)[k] == Model(cm, t)[k]
    {
      ModelAt(cm, u, k);
      ModelAt(cm, t, k);
      RemoveInFinds(cm, t[i], Canon(cm, key), k);
    }
  }

  /** Replacing keeps the spelling of the stored key, everything else too. */
  lemma {:induction false} PutKeepsSpelling<V>(cm: CaseMapping, t: seq<Bucket<V>>, key: string, val: V)
    requires Ok(cm, t) && Canon(cm, key) in Model(cm, t)
    ensures var u := Put(cm, t, key, val);
            |u| == |t| && forall i, j | 0 <= i < |t| && 0 <= j < |t[i]| ::
              |u[i]| == |t[i]| && u[i][j].key == t[i][j].key
              && (Canon(cm, t[i][j].key) != Canon(cm, key) ==> u[i][j] == t[i][j])
  {
    hide Canon, Slot;
    ModelAt(cm, t, Canon(cm, key));
  }

  // ---------- the count ----------

  lemma {:induction false} FlatLength<V>(t: seq<Bucket<V>>, i: nat, b: Bucket<V>, n: nat)
    requires i < |t| && n <= |t|
    ensures |Flat(t[i := b], n)| == |Flat(t, n)| + if i < n then |b| - |t[i]| else 0
  {
    if n > 0 {
      FlatLength(t, i, b, n - 1);
    }
  }

  lemma {:induction false} KeysInSize<V>(cm: CaseMapping, b: Bucket<V>)
    requires Distinct(cm, b)
    ensures |KeysIn(cm, b)| == |b|
    decreases |b|
  {
    hide Canon;
    if b != [] {
      var n := |b| - 1;
      KeysInSize(cm, b[..n]);
      assert b == b[..n] + [b[n]];
      assert KeysIn(cm, b) == KeysIn(cm, b[..n]) + {Canon(cm, b[n].key)};
      InKeysIn(cm, b[..n], Canon(cm, b[n].key));
    }
  }

  lemma {:induction false} FlatKeys<V>(cm: CaseMapping, t: seq<Bucket<V>>, n: nat)
    requires Ok(cm, t) && n <= |t|
    ensures |Flat(t, n)| == |Keys(cm, t, n)|
  {
    hide Canon, Slot, KeysIn, Distinct, Ok;
    if n > 0 {
      FlatKeys(cm, t, n - 1);
      KeysDisjoint(cm, t, n - 1);
      BucketSize(cm, t, n - 1);
      DisjointSize(Keys(cm, t, n - 1), KeysIn(cm, t[n - 1]));
    }
  }

  lemma {:induction false} DisjointSize(a: set<Key>, b: set<Key>)
    requires a !! b
    ensures |a + b| == |a| + |b|
  {
  }

  lemma {:induction false} BucketSize<V>(cm: CaseMapping, t: seq<Bucket<V>>, i: nat)
    requires Ok(cm, t) && i < |t|
    ensures |KeysIn(cm, t[i])| == |t[i]|
  {
    hide Canon, Slot;
    assert BucketOk(cm, |t|, i, t[i]);
    KeysInSize(cm, t[i]);
  }

  /** The number of entries is the size of the finite map. */
  lemma {:induction false} FlatCounts<V>(cm: CaseMapping, t: seq<Bucket<V>>)
    requires Ok(cm, t)
    ensures |Flat(t, |t|)| == |Model(cm, t)|
  {
    FlatKeys(cm, t, |t|);
    ModelKeys(cm, t);
  }

  lemma {:induction false} ModelKeys<V>(cm: CaseMapping, t: seq<Bucket<V>>)
    requires Ok(cm, t)
    ensures |Model(cm, t)| == |Keys(cm, t, |t|)|
  {
    hide Canon, Slot;
    assert Model(cm, t).Keys == Keys(cm, t, |t|);
  }

  lemma {:induction false} KeysDisjoint<V>(cm: CaseMapping, t: seq<Bucket<V>>, n: nat)
    requires Ok(cm, t) && n < |t|
    ensures Keys(cm, t, n) !! KeysIn(cm, t[n])
  {
    hide Canon, Slot, Keys, KeysIn;
    var a, b := Keys(cm, t, n), KeysIn(cm, t[n]);
    forall k | k in a ensures k !in b {
      InKeys(cm, t, n, k);
      InKeysIn(cm, t[n], k);
      assert BucketOk(cm, |t|, n, t[n]);
    }
  }

  /** What putting does to the number of entries. */
  lemma {:induction false} PutCount<V>(cm: CaseMapping, t: seq<Bucket<V>>, key: string, val: V)
    requires Ok(cm, t)
    ensures |Flat(Put(cm, t, key, val), |t|)| == |Flat(t, |t|)| + if Get(cm, t, key).Some? then 0 else 1
  {
    hide Canon, Slot;
    var i := Slot(|t|, Canon(cm, key));
    PutInKeeps(cm, |t|, i, t[i], key, val);
    FlatLength(t, i, PutIn(cm, t[i], key, val), |t|);
  }

  /** What deleting does to the number of entries. */
  lemma {:induction false} DelCount<V>(cm: CaseMapping, t: seq<Bucket<V>>, key: string)
    requires Ok(cm, t)
    ensures |Flat(Del(cm, t, key), |t|)| == |Flat(t, |t|)| - if Get(cm, t, key).Some? then 1 else 0
  {
    hide Canon, Slot;
    var i := Slot(|t|, Canon(cm, key));
    RemoveInKeeps(cm, |t|, i, t[i], Canon(cm, key));
    FlatLength(t, i, RemoveIn(cm, t[i], Canon(cm, key)), |t|);
  }

  // ---------- iteration ----------

  /** The first non-empty bucket from `from` on. */
  function NextBucket<V>(t: seq<Bucket<V>>, from: nat): (i: nat)
    requires from <= |t|
    ensures from <= i <= |t| && (i < |t| ==> t[i] != [])
    ensures forall j | from <= j < i :: t[j] == []
    decreases |t| - from
  {
    if from == |t| || t[from] != [] then from else NextBucket(t, from + 1)
  }

  lemma {:induction false} FlatOverEmpty<V>(t: seq<Bucket<V>>, from: nat, to: nat)
    requires from <= to <= |t| && forall j | from <= j < to :: t[j] == []
    ensures Flat(t, to) == Flat(t, from)
  {
    if from < to {
      FlatOverEmpty(t, from, to - 1);
    }
  }

  /** The entry at a cursor, by its place in the whole. */
  lemma {:induction false} FlatAt<V>(t: seq<Bucket<V>>, i: nat, j: nat, n: nat)
    requires i < n <= |t| && j < |t[i]|
    ensures |Flat(t, i)| + j < |Flat(t, n)| && Flat(t, n)[|Flat(t, i)| + j] == t[i][j]
    ensures |Flat(t, i + 1)| == |Flat(t, i)| + |t[i]| <= |Flat(t, n)|
    decreases n
  {
    if i < n - 1 {
      FlatAt(t, i, j, n - 1);
    }
  }

  lemma {:induction false} FlatHas<V>(cm: CaseMapping, t: seq<Bucket<V>>, n: nat, e: Entry<V>)
    requires Ok(cm, t) && n <= |t| && e in Flat(t, n)
    ensures var i, k := Slot(|t|, Canon(cm, e.key)), Canon(cm, e.key);
            i < n && FindIn(cm, t[i], k) == Some(e.val)
  {
    hide Canon, Slot;
    if e in t[n - 1] {
      assert BucketOk(cm, |t|, n - 1, t[n - 1]);
      var j :| 0 <= j < |t[n - 1]| && t[n - 1][j] == e;
      PosIs(cm, t[n - 1], Canon(cm, e.key), j);
    } else {
      FlatHas(cm, t, n - 1, e);
    }
  }

  /** The traversal order lists the finite map: as many entries as it has keys, each
      entry under its key with its value. */
  lemma {:induction false} TraversalIsModel<V>(cm: CaseMapping, t: seq<Bucket<V>>)
    requires Ok(cm, t)
    ensures |Flat(t, |t|)| == |Model(cm, t)|
    ensures forall e | e in Flat(t, |t|) :: Canon(cm, e.key) in Model(cm, t) && Model(cm, t)[Canon(cm, e.key)] == e.val
    ensures forall k | k in Model(cm, t) :: exists e | e in Flat(t, |t|) :: Canon(cm, e.key) == k
  {
    FlatCounts(cm, t);
    hide Canon, Slot, Model, Flat, Ok, Pos;
    forall e | e in Flat(t, |t|)
      ensures Canon(cm, e.key) in Model(cm, t) && Model(cm, t)[Canon(cm, e.key)] == e.val
    {
      FlatHas(cm, t, |t|, e);
      ModelAt(cm, t, Canon(cm, e.key));
    }
    forall k | k in Model(cm, t) ensures exists e | e in Flat(t, |t|) :: Canon(cm, e.key) == k {
      ModelAt(cm, t, k);
      var i := Slot(|t|, k);
      var j := Pos(cm, t[i], k);
      FlatAt(t, i, j, |t|);
      assert t[i][j] in Flat(t, |t|);
    }
  }
}
