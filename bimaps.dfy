/**
 * The contents of the relation containers, as values.
 *
 * A one-to-many relation is a sequence of links with at most one link per child;
 * the order of the sequence is the order in which a parent's children are listed.
 * A one-to-one relation is a map from child to parent that is injective.
 */
module BiMaps {
  import opened Wrappers

  /** One edge of a relation: `child` is linked to `parent`. */
  datatype Link<K, V> = Link(child: K, parent: V)

  function Init<T>(s: seq<T>): seq<T>
    requires s != []
  {
    s[..|s| - 1]
  }

  function Last<T>(s: seq<T>): T
    requires s != []
  {
    s[|s| - 1]
  }

  /** No element occurs twice. */
  predicate Distinct<T(==)>(ks: seq<T>)
  {
    forall i, j :: 0 <= i < j < |ks| ==> ks[i] != ks[j]
  }

  function Elements<T>(ks: seq<T>): set<T>
  {
    set k | k in ks
  }

  /** A sequence is free of duplicates exactly when its set of elements is as large as the sequence. */
  lemma {:induction false} DistinctIffSetSize<T>(ks: seq<T>)
    ensures Distinct(ks) <==> |Elements(ks)| == |ks|
  {
    if ks != [] {
      var init, x := Init(ks), Last(ks);
      assert ks == init + [x];
      assert Elements(ks) == Elements(init) + {x};
      DistinctIffSetSize(init);
      SetSizeAtMostLength(init);
      if x in init {
        assert Elements(ks) == Elements(init);
        var i :| 0 <= i < |init| && init[i] == x;
        assert ks[i] == ks[|ks| - 1];
      } else {
        assert |Elements(ks)| == |Elements(init)| + 1;
        if Distinct(init) {
          assert Distinct(ks);
        }
      }
    }
  }

  lemma {:induction false} SetSizeAtMostLength<T>(ks: seq<T>)
    ensures |Elements(ks)| <= |ks|
  {
    if ks != [] {
      var init, x := Init(ks), Last(ks);
      assert ks == init + [x];
      assert Elements(ks) == Elements(init) + {x};
      SetSizeAtMostLength(init);
    }
  }

  // ---------------------------------------------------------------------------
  // Ordered one-to-many relations
  // ---------------------------------------------------------------------------

  /** Every child has at most one link, hence at most one parent. */
  predicate Functional<K(==), V>(s: seq<Link<K, V>>)
  {
    forall i, j :: 0 <= i < j < |s| ==> s[i].child != s[j].child
  }

  /** The parent `k` is linked to, if any. */
  function ParentOf<K(==), V>(s: seq<Link<K, V>>, k: K): Option<V>
  {
    if s == [] then None
    else if Last(s).child == k then Some(Last(s).parent)
    else ParentOf(Init(s), k)
  }

  /** The children linked to `v`, in the relation's order. */
  function ChildrenOf<K, V(==)>(s: seq<Link<K, V>>, v: V): seq<K>
  {
    if s == [] then []
    else ChildrenOf(Init(s), v) + (if Last(s).parent == v then [Last(s).child] else [])
  }

  /** The links that `keep` accepts, in their order. */
  function Filter<K, V>(s: seq<Link<K, V>>, keep: Link<K, V> -> bool): (r: seq<Link<K, V>>)
    ensures forall l :: l in r ==> l in s && keep(l)
    ensures forall l :: l in s && keep(l) ==> l in r
  {
    if s == [] then []
    else
      assert s == Init(s) + [Last(s)];
      Filter(Init(s), keep) + (if keep(Last(s)) then [Last(s)] else [])
  }

  function OtherChild<K(==), V>(k: K): Link<K, V> -> bool
  {
    (l: Link<K, V>) => l.child != k
  }

  function OtherParent<K, V(==)>(v: V): Link<K, V> -> bool
  {
    (l: Link<K, V>) => l.parent != v
  }

  function OtherLink<K(==), V(==)>(k: K, v: V): Link<K, V> -> bool
  {
    (l: Link<K, V>) => l != Link(k, v)
  }

  /** Drops the link of child `k` (`removeKey` / `remove(key)`). */
  function RemoveChild<K(==), V>(s: seq<Link<K, V>>, k: K): seq<Link<K, V>>
  {
    Filter(s, OtherChild(k))
  }

  /** Drops every link to parent `v` (`removeValue`). */
  function RemoveParent<K, V(==)>(s: seq<Link<K, V>>, v: V): seq<Link<K, V>>
  {
    Filter(s, OtherParent(v))
  }

  /** Drops the link from `k` to `v` if it is there (`remove(key, value)`). */
  function RemoveLink<K(==), V(==)>(s: seq<Link<K, V>>, k: K, v: V): seq<Link<K, V>>
  {
    Filter(s, OtherLink(k, v))
  }

  /** Dense insertion: the child is unlinked and then appended under its new parent. */
  function PutAppend<K(==), V>(s: seq<Link<K, V>>, k: K, v: V): seq<Link<K, V>>
  {
    RemoveChild(s, k) + [Link(k, v)]
  }

  /** Replaces the parent of every link of `k`, keeping the link where it is. */
  function Relink<K(==), V>(s: seq<Link<K, V>>, k: K, v: V): (r: seq<Link<K, V>>)
    ensures |r| == |s|
    ensures forall i :: 0 <= i < |s| ==> r[i].child == s[i].child
  {
    if s == [] then []
    else Relink(Init(s), k, v) + [if Last(s).child == k then Link(k, v) else Last(s)]
  }

  /** Insertion-ordered map insertion: a present child keeps its position, a new one is appended. */
  function PutKeep<K(==), V>(s: seq<Link<K, V>>, k: K, v: V): seq<Link<K, V>>
  {
    if ParentOf(s, k).Some? then Relink(s, k, v) else s + [Link(k, v)]
  }

  /** Copying a one-to-many map link by link, in its order, rebuilds it exactly. */
  lemma PutKeepPrefix<K, V>(s: seq<Link<K, V>>, i: nat)
    requires Functional(s) && i < |s|
    ensures PutKeep(s[..i], s[i].child, s[i].parent) == s[..i + 1]
  {
    ParentOfNone(s[..i], s[i].child);
    forall l | l in s[..i] ensures l.child != s[i].child {
      var j :| 0 <= j < i && s[..i][j] == l;
    }
    assert s[..i + 1] == s[..i] + [s[i]];
  }

  /** Dense bulk insertion: `PutAppend` for each child in turn. */
  function PutAllAppend<K(==), V>(s: seq<Link<K, V>>, ks: seq<K>, v: V): seq<Link<K, V>>
  {
    if ks == [] then s else PutAppend(PutAllAppend(s, Init(ks), v), Last(ks), v)
  }

  /** `PutKeep` for each child in turn. */
  function PutEachKeep<K(==), V>(s: seq<Link<K, V>>, ks: seq<K>, v: V): seq<Link<K, V>>
  {
    if ks == [] then s else PutKeep(PutEachKeep(s, Init(ks), v), Last(ks), v)
  }

  /** `RemoveChild` for each child in turn. */
  function RemoveEach<K(==), V>(s: seq<Link<K, V>>, ks: seq<K>): seq<Link<K, V>>
  {
    if ks == [] then s else RemoveChild(RemoveEach(s, Init(ks)), Last(ks))
  }

  // --- basic facts

  lemma {:induction false} ParentOfNone<K, V>(s: seq<Link<K, V>>, k: K)
    ensures ParentOf(s, k).None? <==> forall l :: l in s ==> l.child != k
  {
    if s != [] {
      assert s == Init(s) + [Last(s)];
      ParentOfNone(Init(s), k);
    }
  }

  /** In a functional relation a child's parent is `v` exactly when the link is present. */
  lemma {:induction false} ParentOfIsLink<K, V>(s: seq<Link<K, V>>, k: K, v: V)
    requires Functional(s)
    ensures ParentOf(s, k) == Some(v) <==> Link(k, v) in s
  {
    if s != [] {
      assert s == Init(s) + [Last(s)];
      ParentOfIsLink(Init(s), k, v);
      if Last(s).child == k {
        ParentOfNone(Init(s), k);
      }
    }
  }

  /** `k` is listed among `v`'s children exactly when the link is present. */
  lemma {:induction false} ChildrenOfIsLink<K, V>(s: seq<Link<K, V>>, k: K, v: V)
    ensures k in ChildrenOf(s, v) <==> Link(k, v) in s
  {
    if s != [] {
      assert s == Init(s) + [Last(s)];
      ChildrenOfIsLink(Init(s), k, v);
    }
  }

  /** Both directions of a functional relation agree. */
  lemma ChildrenOfIffParentOf<K, V>(s: seq<Link<K, V>>, k: K, v: V)
    requires Functional(s)
    ensures k in ChildrenOf(s, v) <==> ParentOf(s, k) == Some(v)
  {
    ChildrenOfIsLink(s, k, v);
    ParentOfIsLink(s, k, v);
  }

  lemma {:induction false} FunctionalSnoc<K, V>(s: seq<Link<K, V>>, l: Link<K, V>)
    ensures Functional(s + [l]) <==> Functional(s) && ParentOf(s, l.child).None?
  {
    ParentOfNone(s, l.child);
    var t := s + [l];
    if Functional(t) {
      forall i, j | 0 <= i < j < |s| ensures s[i].child != s[j].child {
        assert t[i] == s[i] && t[j] == s[j];
      }
      forall m | m in s ensures m.child != l.child {
        var i :| 0 <= i < |s| && s[i] == m;
        assert t[i] == m && t[|s|] == l;
      }
    }
  }

  lemma {:induction false} FilterFunctional<K, V>(s: seq<Link<K, V>>, keep: Link<K, V> -> bool)
    requires Functional(s)
    ensures Functional(Filter(s, keep))
  {
    if s != [] {
      var init, x := Init(s), Last(s);
      assert s == init + [x];
      FunctionalSnoc(init, x);
      FilterFunctional(init, keep);
      if keep(x) {
        ParentOfNone(init, x.child);
        ParentOfNone(Filter(init, keep), x.child);
        FunctionalSnoc(Filter(init, keep), x);
      }
    }
  }

  /** After filtering a functional relation, a child keeps its parent exactly when its link is kept. */
  lemma FilterParentOf<K, V>(s: seq<Link<K, V>>, keep: Link<K, V> -> bool, k: K)
    requires Functional(s)
    ensures Functional(Filter(s, keep))
    ensures ParentOf(Filter(s, keep), k) ==
      if ParentOf(s, k).Some? && keep(Link(k, ParentOf(s, k).value)) then ParentOf(s, k) else None
  {
    FilterFunctional(s, keep);
    var r := Filter(s, keep);
    match ParentOf(r, k)
    case Some(v) =>
      ParentOfIsLink(r, k, v);
      ParentOfIsLink(s, k, v);
    case None =>
      ParentOfNone(r, k);
      if ParentOf(s, k).Some? {
        ParentOfIsLink(s, k, ParentOf(s, k).value);
      }
  }

  /** Filtering keeps a parent's children in order when every link to that parent is kept. */
  lemma {:induction false} FilterKeepsChildren<K, V>(s: seq<Link<K, V>>, keep: Link<K, V> -> bool, v: V)
    requires forall l :: l in s && l.parent == v ==> keep(l)
    ensures ChildrenOf(Filter(s, keep), v) == ChildrenOf(s, v)
  {
    if s != [] {
      assert s == Init(s) + [Last(s)];
      FilterKeepsChildren(Init(s), keep, v);
      var f := Filter(Init(s), keep);
      if keep(Last(s)) {
        assert Filter(s, keep) == f + [Last(s)];
        assert Init(f + [Last(s)]) == f;
      } else {
        assert Filter(s, keep) == f + [];
        assert f + [] == f;
      }
    }
  }

  /** A parent with no children still has none after filtering. */
  lemma FilterNoChildren<K, V>(s: seq<Link<K, V>>, keep: Link<K, V> -> bool, v: V)
    requires ChildrenOf(s, v) == []
    ensures ChildrenOf(Filter(s, keep), v) == []
  {
    if ChildrenOf(Filter(s, keep), v) != [] {
      var k := ChildrenOf(Filter(s, keep), v)[0];
      ChildrenOfIsLink(Filter(s, keep), k, v);
      ChildrenOfIsLink(s, k, v);
    }
  }

  // --- the single-step operations

  /** After `RemoveChild`, `k` has no parent and every other child keeps its own. */
  lemma RemoveChildSpec<K, V>(s: seq<Link<K, V>>, k: K, j: K)
    requires Functional(s)
    ensures Functional(RemoveChild(s, k))
    ensures ParentOf(RemoveChild(s, k), j) == if j == k then None else ParentOf(s, j)
  {
    FilterParentOf(s, OtherChild(k), j);
  }

  /** After `RemoveParent`, the children of `v` have no parent and every other child keeps its own. */
  lemma RemoveParentSpec<K, V>(s: seq<Link<K, V>>, v: V, j: K)
    requires Functional(s)
    ensures Functional(RemoveParent(s, v))
    ensures ChildrenOf(RemoveParent(s, v), v) == []
    ensures ParentOf(RemoveParent(s, v), j) == if ParentOf(s, j) == Some(v) then None else ParentOf(s, j)
  {
    FilterParentOf(s, OtherParent(v), j);
    var r := RemoveParent(s, v);
    if ChildrenOf(r, v) != [] {
      ChildrenOfIsLink(r, ChildrenOf(r, v)[0], v);
    }
  }

  /** After `RemoveLink`, only the link from `k` to `v` is gone. */
  lemma RemoveLinkSpec<K, V>(s: seq<Link<K, V>>, k: K, v: V, j: K)
    requires Functional(s)
    ensures Functional(RemoveLink(s, k, v))
    ensures ParentOf(RemoveLink(s, k, v), j) == if j == k && ParentOf(s, j) == Some(v) then None else ParentOf(s, j)
  {
    FilterParentOf(s, OtherLink(k, v), j);
  }

  /** After `PutAppend`, `k`'s parent is `v`, other children are unaffected, and `k` is `v`'s last child. */
  lemma PutAppendSpec<K, V>(s: seq<Link<K, V>>, k: K, v: V, j: K)
    requires Functional(s)
    ensures Functional(PutAppend(s, k, v))
    ensures ParentOf(PutAppend(s, k, v), j) == if j == k then Some(v) else ParentOf(s, j)
    ensures Link(k, v) !in s ==> ChildrenOf(PutAppend(s, k, v), v) == ChildrenOf(s, v) + [k]
  {
    var r := RemoveChild(s, k);
    RemoveChildSpec(s, k, j);
    RemoveChildSpec(s, k, k);
    FunctionalSnoc(r, Link(k, v));
    assert Init(r + [Link(k, v)]) == r;
    if Link(k, v) !in s {
      FilterKeepsChildren(s, OtherChild(k), v);
    }
  }

  lemma {:induction false} RelinkParentOf<K, V>(s: seq<Link<K, V>>, k: K, v: V, j: K)
    ensures ParentOf(Relink(s, k, v), j) == if j == k && ParentOf(s, k).Some? then Some(v) else ParentOf(s, j)
  {
    if s != [] {
      var r := Relink(s, k, v);
      assert Init(r) == Relink(Init(s), k, v);
      RelinkParentOf(Init(s), k, v, j);
    }
  }

  /** After `PutKeep`, `k`'s parent is `v` and other children are unaffected; a new child is appended. */
  lemma PutKeepSpec<K, V>(s: seq<Link<K, V>>, k: K, v: V, j: K)
    requires Functional(s)
    ensures Functional(PutKeep(s, k, v))
    ensures ParentOf(PutKeep(s, k, v), j) == if j == k then Some(v) else ParentOf(s, j)
    ensures ParentOf(s, k).None? ==> ChildrenOf(PutKeep(s, k, v), v) == ChildrenOf(s, v) + [k]
  {
    if ParentOf(s, k).Some? {
      RelinkParentOf(s, k, v, j);
    } else {
      FunctionalSnoc(s, Link(k, v));
      assert Init(s + [Link(k, v)]) == s;
    }
  }

  // --- the folds

  /** `PutAllAppend` links every listed child to `v` and leaves other children alone. */
  lemma {:induction false} PutAllAppendSpec<K, V>(s: seq<Link<K, V>>, ks: seq<K>, v: V, j: K)
    requires Functional(s)
    ensures Functional(PutAllAppend(s, ks, v))
    ensures ParentOf(PutAllAppend(s, ks, v), j) == if j in ks then Some(v) else ParentOf(s, j)
  {
    if ks != [] {
      assert ks == Init(ks) + [Last(ks)];
      PutAllAppendSpec(s, Init(ks), v, j);
      PutAllAppendSpec(s, Init(ks), v, Last(ks));
      PutAppendSpec(PutAllAppend(s, Init(ks), v), Last(ks), v, j);
    }
  }

  /** Starting from a parent with no children, `PutAllAppend` of distinct children lists exactly those children, in order. */
  lemma {:induction false} PutAllAppendOrder<K, V>(s: seq<Link<K, V>>, ks: seq<K>, v: V)
    requires Functional(s) && Distinct(ks) && ChildrenOf(s, v) == []
    ensures ChildrenOf(PutAllAppend(s, ks, v), v) == ks
  {
    if ks != [] {
      var init, k := Init(ks), Last(ks);
      assert ks == init + [k];
      var prev := PutAllAppend(s, init, v);
      PutAllAppendOrder(s, init, v);
      PutAllAppendSpec(s, init, v, k);
      ChildrenOfIsLink(prev, k, v);
      PutAppendSpec(prev, k, v, k);
    }
  }

  /** `RemoveEach` unlinks every listed child and leaves other children alone. */
  lemma {:induction false} RemoveEachSpec<K, V>(s: seq<Link<K, V>>, ks: seq<K>, j: K)
    requires Functional(s)
    ensures Functional(RemoveEach(s, ks))
    ensures ParentOf(RemoveEach(s, ks), j) == if j in ks then None else ParentOf(s, j)
  {
    if ks != [] {
      assert ks == Init(ks) + [Last(ks)];
      RemoveEachSpec(s, Init(ks), j);
      RemoveChildSpec(RemoveEach(s, Init(ks)), Last(ks), j);
    }
  }

  lemma {:induction false} RemoveEachNoChildren<K, V>(s: seq<Link<K, V>>, ks: seq<K>, v: V)
    requires ChildrenOf(s, v) == []
    ensures ChildrenOf(RemoveEach(s, ks), v) == []
  {
    if ks != [] {
      RemoveEachNoChildren(s, Init(ks), v);
      FilterNoChildren(RemoveEach(s, Init(ks)), OtherChild(Last(ks)), v);
    }
  }

  /** `PutEachKeep` links every listed child to `v` and leaves other children alone. */
  lemma {:induction false} PutEachKeepSpec<K, V>(s: seq<Link<K, V>>, ks: seq<K>, v: V, j: K)
    requires Functional(s)
    ensures Functional(PutEachKeep(s, ks, v))
    ensures ParentOf(PutEachKeep(s, ks, v), j) == if j in ks then Some(v) else ParentOf(s, j)
  {
    if ks != [] {
      assert ks == Init(ks) + [Last(ks)];
      PutEachKeepSpec(s, Init(ks), v, j);
      PutKeepSpec(PutEachKeep(s, Init(ks), v), Last(ks), v, j);
    }
  }

  /**
   * Starting from a relation in which `v` has no children and none of the listed
   * children is linked, `PutEachKeep` of distinct children lists exactly those children, in order.
   */
  lemma {:induction false} PutEachKeepOrder<K, V>(s: seq<Link<K, V>>, ks: seq<K>, v: V)
    requires Functional(s) && Distinct(ks) && ChildrenOf(s, v) == []
    requires forall k :: k in ks ==> ParentOf(s, k).None?
    ensures ChildrenOf(PutEachKeep(s, ks, v), v) == ks
  {
    if ks != [] {
      var init, k := Init(ks), Last(ks);
      assert ks == init + [k];
      var prev := PutEachKeep(s, init, v);
      PutEachKeepOrder(s, init, v);
      PutEachKeepSpec(s, init, v, k);
      PutKeepSpec(prev, k, v, k);
    }
  }

  // ---------------------------------------------------------------------------
  // One-to-one relations
  // ---------------------------------------------------------------------------

  /** No parent is linked to two children. */
  predicate Injective<K, V(==)>(m: map<K, V>)
  {
    forall a, b :: a in m && b in m && a != b ==> m[a] != m[b]
  }

  /** Drops the entry whose value is `v` (`removeValue`, `inverse().remove`). */
  function RemoveValue<K, V(==)>(m: map<K, V>, v: V): (r: map<K, V>)
    ensures v !in r.Values
    ensures forall k :: k in r ==> k in m && m[k] != v
    ensures forall k :: k in m && m[k] != v ==> k in r
    ensures forall k :: k in r ==> r[k] == m[k]
  {
    map k | k in m && m[k] != v :: m[k]
  }

  /** Drops the entry from `k` to `v` if it is there (`remove(key, value)`). */
  function RemovePair<K, V(==)>(m: map<K, V>, k: K, v: V): map<K, V>
  {
    if k in m && m[k] == v then m - {k} else m
  }

  /** Links `k` to `v`, first dropping whatever `v` and `k` were linked to (`forcePut`, `putForce`). */
  function ForcePut<K, V(==)>(m: map<K, V>, k: K, v: V): map<K, V>
  {
    RemoveValue(m, v)[k := v]
  }

  /** Links `k` to `v` when `v` is free or already `k`'s (the dense `put`). */
  function Put<K, V>(m: map<K, V>, k: K, v: V): map<K, V>
    requires forall j :: j in m && m[j] == v ==> j == k
  {
    m[k := v]
  }

  /** Guava's `BiMap.put`: refused (`None`) when `v` is already linked to another key. */
  function TryPut<K, V(==)>(m: map<K, V>, k: K, v: V): Option<map<K, V>>
  {
    if k in m && m[k] == v then Some(m)
    else if v in m.Values then None
    else Some(m[k := v])
  }

  /** The state after a sequence of operations that may stop early, and whether it ran to the end. */
  datatype Applied<M> = Applied(state: M, ok: bool)

  /** `TryPut` for each child in turn, stopping at the first refusal with the state reached so far. */
  function TryPutEach<K, V(==)>(m: map<K, V>, ks: seq<K>, v: V): Applied<map<K, V>>
  {
    if ks == [] then Applied(m, true)
    else
      var prev := TryPutEach(m, Init(ks), v);
      if !prev.ok then prev
      else match TryPut(prev.state, Last(ks), v)
        case Some(next) => Applied(next, true)
        case None => Applied(prev.state, false)
  }

  /** The child linked to `v` in an injective map (`inverse().get`, `getKey`). */
  function KeyOf<K, V(==)>(m: map<K, V>, v: V): (k: K)
    requires Injective(m) && v in m.Values
    ensures k in m && m[k] == v
    ensures forall j :: j in m && m[j] == v ==> j == k
  {
    var k :| k in m && m[k] == v; k
  }

  /** Every one-to-one operation keeps the map injective and links as it says. */
  lemma OneToOneOpsInjective<K, V>(m: map<K, V>, k: K, v: V)
    requires Injective(m)
    ensures Injective(m - {k})
    ensures Injective(RemoveValue(m, v))
    ensures Injective(RemovePair(m, k, v))
    ensures Injective(ForcePut(m, k, v)) && ForcePut(m, k, v)[k] == v
    ensures (forall j :: j in m && m[j] == v ==> j == k) ==> Injective(Put(m, k, v))
    ensures TryPut(m, k, v).Some? ==> Injective(TryPut(m, k, v).value) && TryPut(m, k, v).value[k] == v
  {
  }

  /** `ForcePut` drops the entry of `v`'s old child and replaces `k`'s parent; nothing else changes. */
  lemma ForcePutSpec<K, V>(m: map<K, V>, k: K, v: V, j: K)
    requires j != k
    ensures j in ForcePut(m, k, v) <==> j in m && m[j] != v
    ensures j in ForcePut(m, k, v) ==> ForcePut(m, k, v)[j] == m[j]
  {
  }

  /**
   * Putting a free value under distinct keys one by one succeeds for at most one key:
   * the second put is refused, and the state reached links only the first key.
   */
  lemma {:induction false} TryPutEachFreeValue<K, V>(m: map<K, V>, ks: seq<K>, v: V)
    requires Injective(m) && v !in m.Values && Distinct(ks) && ks != []
    ensures TryPutEach(m, ks, v).state == m[ks[0] := v]
    ensures TryPutEach(m, ks, v).ok <==> |ks| == 1
  {
    if |ks| == 1 {
      assert Init(ks) == [];
    } else {
      var init := Init(ks);
      assert init[0] == ks[0];
      TryPutEachFreeValue(m, init, v);
      var prev := TryPutEach(m, init, v);
      if |init| == 1 {
        assert ks[1] == Last(ks) && ks[1] != ks[0];
        assert prev.state[ks[0]] == v;
        assert v in prev.state.Values;
      }
    }
  }

  /** Once a put is refused, the later children change nothing. */
  lemma {:induction false} TryPutEachStops<K, V>(m: map<K, V>, ks: seq<K>, n: nat, v: V)
    requires n <= |ks| && !TryPutEach(m, ks[..n], v).ok
    ensures TryPutEach(m, ks, v) == TryPutEach(m, ks[..n], v)
    decreases |ks|
  {
    if |ks| == n {
      assert ks[..n] == ks;
    } else {
      assert Init(ks)[..n] == ks[..n];
      TryPutEachStops(m, Init(ks), n, v);
    }
  }
}
