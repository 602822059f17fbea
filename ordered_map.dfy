/**
 * A map kept as a sequence of key/value pairs in iteration order.  Java's
 * `LinkedHashMap` iterates in insertion (or access) order; the caches whose
 * `ConcurrentHashMap` iteration order matters are modelled with the same
 * sequence, its order standing for whatever order the map iterates in.
 */
module OrderedMap {
  import opened JavaText

  type Assoc<K, V> = seq<(K, V)>

  /** No key occurs twice. */
  predicate KeysUnique<K(==), V>(m: Assoc<K, V>) {
    forall i, j :: 0 <= i < j < |m| ==> m[i].0 != m[j].0
  }

  predicate HasKey<K(==), V>(m: Assoc<K, V>, k: K) {
    exists i :: 0 <= i < |m| && m[i].0 == k
  }

  /** The position of `k`, or |m| when it is absent. */
  function IndexOf<K(==), V>(m: Assoc<K, V>, k: K): (i: nat)
    ensures i <= |m|
    ensures i < |m| ==> m[i].0 == k
    ensures forall j :: 0 <= j < i ==> m[j].0 != k
  {
    if m == [] then 0
    else if m[0].0 == k then 0
    else 1 + IndexOf(m[1..], k)
  }

  lemma IndexOfFound<K, V>(m: Assoc<K, V>, k: K)
    ensures IndexOf(m, k) < |m| <==> HasKey(m, k)
  {
  }

  /** Map.get: the value of `k`, None when it is absent. */
  function Get<K(==), V>(m: Assoc<K, V>, k: K): (r: Option<V>)
    ensures r.Some? <==> HasKey(m, k)
    ensures r.Some? ==> exists i :: 0 <= i < |m| && m[i] == (k, r.value)
  {
    var i := IndexOf(m, k);
    IndexOfFound(m, k);
    if i < |m| then Some(m[i].1) else None
  }

  /** In a map without duplicate keys, the pair at `i` is what Get finds. */
  lemma GetAt<K, V>(m: Assoc<K, V>, i: nat)
    requires KeysUnique(m) && i < |m|
    ensures Get(m, m[i].0) == Some(m[i].1)
  {
    var j := IndexOf(m, m[i].0);
    IndexOfFound(m, m[i].0);
    assert j <= i;
  }

  /** Map.put: an existing key keeps its place, a new key goes last. */
  function Put<K(==), V>(m: Assoc<K, V>, k: K, v: V): (r: Assoc<K, V>)
    ensures |r| == if HasKey(m, k) then |m| else |m| + 1
    ensures HasKey(m, k) ==> r == m[IndexOf(m, k) := (k, v)]
    ensures !HasKey(m, k) ==> r == m + [(k, v)]
  {
    IndexOfFound(m, k);
    var i := IndexOf(m, k);
    if i < |m| then m[i := (k, v)] else m + [(k, v)]
  }

  /** The first occurrence of `k` is where IndexOf finds it. */
  lemma {:induction false} IndexOfAt<K, V>(m: Assoc<K, V>, k: K, i: nat)
    requires i < |m| && m[i].0 == k
    requires forall j :: 0 <= j < i ==> m[j].0 != k
    ensures IndexOf(m, k) == i
  {
    if i > 0 {
      IndexOfAt(m[1..], k, i - 1);
    }
  }

  /** After put, `k` maps to `v`, whether or not the keys were unique. */
  lemma PutGetSame<K, V>(m: Assoc<K, V>, k: K, v: V)
    ensures Get(Put(m, k, v), k) == Some(v)
  {
    var r := Put(m, k, v);
    IndexOfFound(m, k);
    if HasKey(m, k) {
      IndexOfAt(r, k, IndexOf(m, k));
    } else {
      IndexOfAt(r, k, |m|);
    }
  }

  lemma PutKeepsUnique<K, V>(m: Assoc<K, V>, k: K, v: V)
    requires KeysUnique(m)
    ensures KeysUnique(Put(m, k, v))
  {
    IndexOfFound(m, k);
  }

  /** After put, `k` maps to `v` and every other key to what it did. */
  lemma PutGet<K, V>(m: Assoc<K, V>, k: K, v: V, k': K)
    requires KeysUnique(m)
    ensures Get(Put(m, k, v), k') == if k' == k then Some(v) else Get(m, k')
  {
    var r := Put(m, k, v);
    PutKeepsUnique(m, k, v);
    IndexOfFound(m, k);
    IndexOfFound(m, k');
    if k' == k {
      GetAt(r, if HasKey(m, k) then IndexOf(m, k) else |m|);
    } else if HasKey(m, k') {
      var i := IndexOf(m, k');
      assert r[i] == m[i];
      GetAt(r, i);
    } else {
      assert !HasKey(r, k');
    }
  }

  /** Map.remove: the pair for `k` goes, the others keep their order. */
  function Remove<K(==,!new), V(!new)>(m: Assoc<K, V>, k: K): (r: Assoc<K, V>)
    ensures |r| <= |m|
  {
    if m == [] then []
    else if m[0].0 == k then Remove(m[1..], k)
    else [m[0]] + Remove(m[1..], k)
  }

  /** Remove keeps exactly the pairs whose key is not `k`. */
  lemma {:induction false} RemoveMembers<K(!new), V(!new)>(m: Assoc<K, V>, k: K)
    ensures !HasKey(Remove(m, k), k)
    ensures forall p :: p in Remove(m, k) <==> p in m && p.0 != k
  {
    if m != [] {
      RemoveMembers(m[1..], k);
      assert forall p :: p in m <==> p == m[0] || p in m[1..];
    }
  }

  lemma {:induction false} RemoveAbsent<K(!new), V(!new)>(m: Assoc<K, V>, k: K)
    requires !HasKey(m, k)
    ensures Remove(m, k) == m
  {
    if m != [] {
      assert m[0].0 != k;
      assert !HasKey(m[1..], k);
      RemoveAbsent(m[1..], k);
      assert [m[0]] + m[1..] == m;
    }
  }

  /** With unique keys, removing a present key shortens the map by exactly one. */
  lemma {:induction false} RemovePresent<K(!new), V(!new)>(m: Assoc<K, V>, k: K)
    requires KeysUnique(m) && HasKey(m, k)
    ensures |Remove(m, k)| == |m| - 1
    ensures Remove(m, k) == m[..IndexOf(m, k)] + m[IndexOf(m, k) + 1..]
  {
    var t := m[1..];
    if m[0].0 == k {
      assert !HasKey(t, k) by {
        forall j | 0 <= j < |t| ensures t[j].0 != k {
          assert t[j] == m[j + 1];
        }
      }
      RemoveAbsent(t, k);
    } else {
      assert KeysUnique(t) by {
        forall i, j | 0 <= i < j < |t| ensures t[i].0 != t[j].0 {
          assert t[i] == m[i + 1] && t[j] == m[j + 1];
        }
      }
      var j :| 0 <= j < |m| && m[j].0 == k;
      assert t[j - 1].0 == k;
      RemovePresent(t, k);
      var i := IndexOf(t, k);
      assert IndexOf(m, k) == i + 1;
      assert Remove(m, k) == [m[0]] + Remove(t, k);
      assert Remove(m, k) == [m[0]] + (t[..i] + t[i + 1..]);
      assert m[..i + 1] == [m[0]] + t[..i];
      assert m[i + 2..] == t[i + 1..];
    }
  }

  lemma RemoveKeepsUnique<K(!new), V(!new)>(m: Assoc<K, V>, k: K)
    requires KeysUnique(m)
    ensures KeysUnique(Remove(m, k))
  {
    if HasKey(m, k) {
      RemovePresent(m, k);
    } else {
      RemoveAbsent(m, k);
    }
  }

  /** After remove, `k` is absent and every other key maps to what it did. */
  lemma RemoveGet<K(!new), V(!new)>(m: Assoc<K, V>, k: K, k': K)
    requires KeysUnique(m)
    ensures Get(Remove(m, k), k') == if k' == k then None else Get(m, k')
  {
    var r := Remove(m, k);
    RemoveKeepsUnique(m, k);
    RemoveMembers(m, k);
    if k' != k {
      if HasKey(m, k') {
        var i := IndexOf(m, k');
        IndexOfFound(m, k');
        assert m[i] in r;
        var j :| 0 <= j < |r| && r[j] == m[i];
        GetAt(r, j);
        GetAt(m, i);
      }
    }
  }

  /** The pairs whose value passes `keep`, in their order (removeIf with the negation). */
  function Filter<K(==,!new), V(!new)>(m: Assoc<K, V>, keep: V -> bool): (r: Assoc<K, V>)
    ensures |r| <= |m|
    ensures forall p :: p in r <==> p in m && keep(p.1)
  {
    if m == [] then []
    else if keep(m[0].1) then [m[0]] + Filter(m[1..], keep)
    else Filter(m[1..], keep)
  }

  /** Filtering keeps keys unique. */
  lemma {:induction false} FilterKeepsUnique<K(!new), V(!new)>(m: Assoc<K, V>, keep: V -> bool)
    requires KeysUnique(m)
    ensures KeysUnique(Filter(m, keep))
  {
    if m != [] {
      FilterKeepsUnique(m[1..], keep);
      var rest := Filter(m[1..], keep);
      if keep(m[0].1) {
        forall j | 0 <= j < |rest|
          ensures rest[j].0 != m[0].0
        {
          assert rest[j] in m[1..];
        }
      }
    }
  }

  /** The pairs after the first (Iterator.next then Iterator.remove). */
  function DropFirst<K(==), V>(m: Assoc<K, V>): (r: Assoc<K, V>)
    ensures m == [] ==> r == []
    ensures m != [] ==> |r| == |m| - 1 && forall p :: p in r ==> p in m
  {
    if m == [] then [] else m[1..]
  }

  /** Dropping the eldest pair keeps keys unique and every other key's value. */
  lemma DropFirstGet<K, V>(m: Assoc<K, V>, k: K)
    requires KeysUnique(m) && m != [] && m[0].0 != k
    ensures KeysUnique(DropFirst(m)) && Get(DropFirst(m), k) == Get(m, k)
  {
    var r := DropFirst(m);
    if HasKey(m, k) {
      var i := IndexOf(m, k);
      IndexOfFound(m, k);
      GetAt(m, i);
      GetAt(r, i - 1);
    } else {
      assert !HasKey(r, k) by {
        forall j | 0 <= j < |r| ensures r[j].0 != k {
          assert r[j] == m[j + 1];
        }
      }
    }
  }

  /** Every key still present after dropping the eldest pair keeps its value. */
  lemma DropFirstKeepsOthers<K, V>(m: Assoc<K, V>)
    requires KeysUnique(m) && m != []
    ensures forall k :: Get(DropFirst(m), k).Some? ==> Get(DropFirst(m), k) == Get(m, k)
  {
    forall k | Get(DropFirst(m), k).Some?
      ensures Get(DropFirst(m), k) == Get(m, k)
    {
      var j :| 0 <= j < |DropFirst(m)| && DropFirst(m)[j].0 == k;
      assert m[j + 1].0 == k;
      DropFirstGet(m, k);
    }
  }

  /** A new key goes last: Get finds it there, and every other key where it was. */
  lemma GetAppend<K, V>(m: Assoc<K, V>, k: K, v: V, k': K)
    requires !HasKey(m, k)
    ensures Get(m + [(k, v)], k') == if k' == k then Some(v) else Get(m, k')
  {
    var s := m + [(k, v)];
    IndexOfFound(m, k');
    if HasKey(m, k') {
      var i := IndexOf(m, k');
      assert forall j :: 0 <= j < i ==> s[j] == m[j];
      IndexOfAt(s, k', i);
    } else if k' == k {
      assert forall j :: 0 <= j < |m| ==> s[j] == m[j];
      IndexOfAt(s, k, |m|);
    } else {
      assert !HasKey(s, k') by {
        forall j | 0 <= j < |s| ensures s[j].0 != k' {
          if j < |m| {
            assert s[j] == m[j];
          }
        }
      }
    }
  }

  /**
   * Put on an access-ordered map: the pair for `k` (if any) leaves its place
   * and `(k, v)` goes last.
   */
  function MoveLast<K(==,!new), V(!new)>(m: Assoc<K, V>, k: K, v: V): (r: Assoc<K, V>)
    ensures r != [] && r[|r| - 1] == (k, v)
  {
    Remove(m, k) + [(k, v)]
  }

  /** Moving a key last keeps keys unique and changes only that key's value. */
  lemma MoveLastGet<K(!new), V(!new)>(m: Assoc<K, V>, k: K, v: V)
    requires KeysUnique(m)
    ensures KeysUnique(MoveLast(m, k, v))
    ensures |MoveLast(m, k, v)| == if HasKey(m, k) then |m| else |m| + 1
    ensures forall k' :: Get(MoveLast(m, k, v), k') == if k' == k then Some(v) else Get(m, k')
  {
    var r := Remove(m, k);
    RemoveKeepsUnique(m, k);
    RemoveMembers(m, k);
    if HasKey(m, k) {
      RemovePresent(m, k);
    } else {
      RemoveAbsent(m, k);
    }
    forall k' ensures Get(MoveLast(m, k, v), k') == if k' == k then Some(v) else Get(m, k') {
      GetAppend(r, k, v, k');
      RemoveGet(m, k, k');
    }
  }

  /** Moving a key last with the value it already has keeps the same pairs. */
  lemma MoveLastSamePairs<K(!new), V(!new)>(m: Assoc<K, V>, k: K)
    requires KeysUnique(m) && HasKey(m, k)
    ensures forall p :: p in MoveLast(m, k, Get(m, k).value) <==> p in m
  {
    var v := Get(m, k).value;
    RemoveMembers(m, k);
    forall p | p in m && p.0 == k ensures p == (k, v) {
      var i :| 0 <= i < |m| && m[i] == p;
      GetAt(m, i);
    }
  }
}
