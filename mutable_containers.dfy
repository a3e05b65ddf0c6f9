/**
 * The containers of polymorphic maps a `MutableRefsTable` holds: a map per
 * connection, shared with the table it was made from until the first write,
 * when it is replaced by a private copy and the connection is recorded as
 * copied. Each method below is one call sequence the table makes on the map
 * it gets back from `getOneToAbstractManyMutableMap` or
 * `getAbstractOneToOneMutableMap`.
 */
module MutableContainers {
  import opened Wrappers
  import opened Ids
  import opened BiMaps
  import opened TableSpec
  import opened Containers

  /** `original.forEach { (k, v) -> copy[k] = v }` into a new `LinkedBidirectionalMap`. */
  method CopyLinkedBiMap(original: LinkedBiMap) returns (copy: LinkedBiMap)
    requires original.Valid()
    ensures fresh(copy) && copy.Valid() && copy.links == original.links
  {
    copy := new LinkedBiMap();
    var i := 0;
    while i < |original.links|
      invariant 0 <= i <= |original.links|
      invariant copy.Valid() && copy.links == original.links[..i]
      modifies copy
    {
      PutKeepPrefix(original.links, i);
      copy.Put(original.links[i].child, original.links[i].parent);
      i := i + 1;
    }
    assert original.links[..i] == original.links;
  }

  /**
   * `original.forEach { (k, v) -> copy[k] = v }` into a new `HashBiMap`; no `put` is
   * refused, since the original already gives each value to one key only.
   */
  method CopyHashBiMap(original: HashBiMap) returns (copy: HashBiMap)
    requires original.Valid()
    ensures fresh(copy) && copy.Valid() && copy.m == original.m
  {
    copy := new HashBiMap();
    var todo := original.m.Keys;
    while todo != {}
      invariant todo <= original.m.Keys
      invariant copy.Valid() && copy.m == map k | k in original.m && k !in todo :: original.m[k]
      modifies copy
      decreases |todo|
    {
      var k :| k in todo;
      assert original.m[k] !in copy.m.Values;
      var _ := copy.Put(k, original.m[k]);
      todo := todo - {k};
    }
  }

  /** `ks.forEach { m.remove(it) }` */
  method RemoveAll(m: LinkedBiMap, ks: seq<ChildEntityId>)
    requires m.Valid()
    modifies m
    ensures m.Valid() && m.links == RemoveEach(old(m.links), ks)
  {
    var i := 0;
    while i < |ks|
      invariant 0 <= i <= |ks|
      invariant m.Valid() && m.links == RemoveEach(old(m.links), ks[..i])
    {
      assert Init(ks[..i + 1]) == ks[..i] && Last(ks[..i + 1]) == ks[i];
      m.Remove(ks[i]);
      i := i + 1;
    }
    assert ks[..i] == ks;
  }

  /** `ks.forEach { m[it] = p }` */
  method PutAll(m: LinkedBiMap, ks: seq<ChildEntityId>, p: ParentEntityId)
    requires m.Valid()
    modifies m
    ensures m.Valid() && m.links == PutEachKeep(old(m.links), ks, p)
  {
    var i := 0;
    while i < |ks|
      invariant 0 <= i <= |ks|
      invariant m.Valid() && m.links == PutEachKeep(old(m.links), ks[..i], p)
    {
      assert Init(ks[..i + 1]) == ks[..i] && Last(ks[..i + 1]) == ks[i];
      m.Put(ks[i], p);
      i := i + 1;
    }
    assert ks[..i] == ks;
  }

  /**
   * `ks.forEach { m[it] = p }` on a `HashBiMap`: a `put` refused because `p` is already
   * another child's parent throws, which ends the loop; `ok` is false then.
   */
  method TryPutAll(m: HashBiMap, ks: seq<ChildEntityId>, p: ParentEntityId) returns (ok: bool)
    requires m.Valid()
    modifies m
    ensures m.Valid() && Applied(m.m, ok) == TryPutEach(old(m.m), ks, p)
  {
    ok := true;
    var i := 0;
    while i < |ks| && ok
      invariant 0 <= i <= |ks|
      invariant m.Valid() && Applied(m.m, ok) == TryPutEach(old(m.m), ks[..i], p)
    {
      assert Init(ks[..i + 1]) == ks[..i] && Last(ks[..i + 1]) == ks[i];
      ok := m.Put(ks[i], p);
      i := i + 1;
    }
    if ok {
      assert ks[..i] == ks;
    } else {
      TryPutEachStops(old(m.m), ks, i, p);
    }
  }

  lemma UpdateTwice<K, V>(m: map<K, V>, k: K, a: V, b: V)
    ensures m[k := a][k := b] == m[k := b]
  {
  }


  /** `MutableOneToAbstractManyContainer` with `oneToAbstractManyCopiedToModify`. */
  class OneToAbstractManyContainer {
    var maps: map<ConnectionId, LinkedBiMap>
    var copiedToModify: set<ConnectionId>
    /** The contents of the maps, kept in step with them by `Valid`. */
    ghost var contents: map<ConnectionId, AbstractMany>
    /** The copies this container made, the only maps it writes. */
    ghost var owned: set<LinkedBiMap>

    /**
     * Each map holds its connection's contents and keeps its invariant; a map is
     * this container's own exactly when its connection was copied, and a copy
     * serves one connection only.
     */
    ghost predicate Valid()
      reads this, maps.Values
    {
      Shape() && Coupled()
    }

    /** The part of `Valid` that does not look inside the maps. */
    ghost predicate Shape()
      reads this
    {
      && maps.Keys == contents.Keys
      && (forall c :: c in contents ==> Functional(contents[c]))
      && copiedToModify <= maps.Keys
      && (forall c :: c in maps ==> (maps[c] in owned <==> c in copiedToModify))
      && (forall c1, c2 :: c1 in copiedToModify && c2 in copiedToModify && c1 != c2 ==> maps[c1] != maps[c2])
    }

    ghost predicate Coupled()
      reads this, maps.Values
    {
      forall c :: c in maps ==> c in contents && maps[c].links == contents[c]
    }

    /** The contents of `c`'s map; a connection without one reads as empty. */
    ghost function At(c: ConnectionId): AbstractMany
      reads this
    {
      if c in contents then contents[c] else []
    }

    /** `toMutableContainer`: the maps of an immutable table, none of them copied yet. */
    constructor From(shared: map<ConnectionId, LinkedBiMap>)
      requires forall c :: c in shared ==> shared[c].Valid()
      ensures Valid() && maps == shared && copiedToModify == {} && owned == {}
      ensures contents == LinksOf(shared)
    {
      maps := shared;
      copiedToModify := {};
      contents := LinksOf(shared);
      owned := {};
    }

    /**
     * `getOneToAbstractManyMutableMap`: the map of `c` this container may write, an
     * empty one when `c` has none, and a fresh copy of a shared map the first time.
     */
    method GetMutableMap(c: ConnectionId) returns (m: LinkedBiMap)
      requires Valid()
      modifies this
      ensures Valid() && contents == old(contents)[c := old(At(c))]
      ensures copiedToModify == old(copiedToModify) + {c}
      ensures c in old(copiedToModify) ==> m == old(maps[c])
      ensures c !in old(copiedToModify) ==> fresh(m)
      ensures c in maps && m == maps[c] && m in owned
      ensures forall c' :: c' in maps && c' != c ==> maps[c'] != m
      ensures forall o :: o in owned && o !in old(owned) ==> fresh(o)
      ensures maps == old(maps)[c := m]
    {
      ghost var added := c !in maps;
      if c !in maps {
        AddEmpty(c);
      }
      ghost var before := maps;
      m := Thaw(c);
      if added {
        UpdateTwice(old(maps), c, before[c], m);
      }
      forall o | o in owned && o !in old(owned) ensures fresh(o) {
        assert o in owned - old(owned);
      }
    }

    /** The first half of `getOneToAbstractManyMutableMap`: an empty map for a connection without one. */
    method AddEmpty(c: ConnectionId)
      requires Valid() && c !in maps
      modifies this
      ensures Valid() && contents == old(contents)[c := []] && c in maps
      ensures owned == old(owned) && copiedToModify == old(copiedToModify)
      ensures fresh(maps[c]) && maps == old(maps)[c := maps[c]]
    {
      var empty := new LinkedBiMap();
      maps := maps[c := empty];
      contents := contents[c := []];
    }

    /** Records the new contents of `c`'s map once the calls on it are done. */
    method Commit(c: ConnectionId, m: LinkedBiMap)
      requires Shape() && c in maps && maps[c] == m && m.Valid()
      requires forall c' :: c' in maps && c' != c ==> maps[c'].links == contents[c']
      modifies this`contents
      ensures Valid() && contents == old(contents)[c := m.links]
      ensures maps == old(maps) && copiedToModify == old(copiedToModify)
    {
      contents := contents[c := m.links];
    }

    /** The second half: the map of `c` itself once copied, otherwise a fresh copy that replaces it. */
    method Thaw(c: ConnectionId) returns (m: LinkedBiMap)
      requires Valid() && c in maps
      modifies this
      ensures Valid() && contents == old(contents)
      ensures copiedToModify == old(copiedToModify) + {c}
      ensures c in old(copiedToModify) ==> m == old(maps[c])
      ensures c !in old(copiedToModify) ==> fresh(m)
      ensures c in maps && m == maps[c] && m in owned
      ensures forall c' :: c' in maps && c' != c ==> maps[c'] != m
      ensures owned - old(owned) <= {m} && (m in old(owned) || fresh(m))
      ensures maps == old(maps)[c := m]
    {
      if c in copiedToModify {
        m := maps[c];
      } else {
        m := CopyLinkedBiMap(maps[c]);
        maps := maps[c := m];
        copiedToModify := copiedToModify + {c};
        owned := owned + {m};
      }
    }

    /** `removeValue(p)`: unlink every child of `p`. */
    method RemoveValue(c: ConnectionId, p: ParentEntityId)
      requires Valid()
      modifies this, owned
      ensures Valid() && contents == old(contents)[c := RemoveParent(old(At(c)), p)]
      ensures forall o :: o in owned && o !in old(owned) ==> fresh(o)
      ensures c in maps && maps == old(maps)[c := maps[c]]
      ensures copiedToModify == old(copiedToModify) + {c}
    {
      var m := GetMutableMap(c);
      m.RemoveValue(p);
      Commit(c, m);
      UpdateTwice(old(contents), c, old(At(c)), m.links);
    }
    /** `remove(k)`: unlink child `k`. */
    method Remove(c: ConnectionId, k: ChildEntityId)
      requires Valid()
      modifies this, owned
      ensures Valid() && contents == old(contents)[c := RemoveChild(old(At(c)), k)]
      ensures forall o :: o in owned && o !in old(owned) ==> fresh(o)
      ensures c in maps && maps == old(maps)[c := maps[c]]
      ensures copiedToModify == old(copiedToModify) + {c}
    {
      var m := GetMutableMap(c);
      m.Remove(k);
      Commit(c, m);
      UpdateTwice(old(contents), c, old(At(c)), m.links);
    }

    /** `remove(k, p)`: unlink `k` from `p` if that is its parent. */
    method RemoveLink(c: ConnectionId, k: ChildEntityId, p: ParentEntityId)
      requires Valid()
      modifies this, owned
      ensures Valid() && contents == old(contents)[c := BiMaps.RemoveLink(old(At(c)), k, p)]
      ensures forall o :: o in owned && o !in old(owned) ==> fresh(o)
      ensures c in maps && maps == old(maps)[c := maps[c]]
      ensures copiedToModify == old(copiedToModify) + {c}
    {
      var m := GetMutableMap(c);
      m.RemoveLink(k, p);
      Commit(c, m);
      UpdateTwice(old(contents), c, old(At(c)), m.links);
    }

    /** `remove(k)` then `put(k, p)`: make `p` the parent of `k`, `k` moving to the end. */
    method Reparent(c: ConnectionId, k: ChildEntityId, p: ParentEntityId)
      requires Valid()
      modifies this, owned
      ensures Valid() && contents == old(contents)[c := PutKeep(RemoveChild(old(At(c)), k), k, p)]
      ensures forall o :: o in owned && o !in old(owned) ==> fresh(o)
      ensures c in maps && maps == old(maps)[c := maps[c]]
      ensures copiedToModify == old(copiedToModify) + {c}
    {
      var m := GetMutableMap(c);
      m.Remove(k);
      m.Put(k, p);
      Commit(c, m);
      UpdateTwice(old(contents), c, old(At(c)), m.links);
    }
    /** `removeValue(p)`, then `remove` each of `ks`, then `put` each of `ks` under `p`, in order. */
    method RelinkChildren(c: ConnectionId, p: ParentEntityId, ks: seq<ChildEntityId>)
      requires Valid()
      modifies this, owned
      ensures Valid()
      ensures contents == old(contents)[c := PutEachKeep(RemoveEach(RemoveParent(old(At(c)), p), ks), ks, p)]
      ensures forall o :: o in owned && o !in old(owned) ==> fresh(o)
      ensures c in maps && maps == old(maps)[c := maps[c]]
      ensures copiedToModify == old(copiedToModify) + {c}
    {
      var m := GetMutableMap(c);
      m.RemoveValue(p);
      RemoveAll(m, ks);
      PutAll(m, ks, p);
      Commit(c, m);
      UpdateTwice(old(contents), c, old(At(c)), m.links);
    }

    /** `removeValue(p)`, then `put` each of `ks` under `p`, in order. */
    method ReplaceChildren(c: ConnectionId, p: ParentEntityId, ks: seq<ChildEntityId>)
      requires Valid()
      modifies this, owned
      ensures Valid() && contents == old(contents)[c := PutEachKeep(RemoveParent(old(At(c)), p), ks, p)]
      ensures forall o :: o in owned && o !in old(owned) ==> fresh(o)
      ensures c in maps && maps == old(maps)[c := maps[c]]
      ensures copiedToModify == old(copiedToModify) + {c}
    {
      var m := GetMutableMap(c);
      m.RemoveValue(p);
      PutAll(m, ks, p);
      Commit(c, m);
      UpdateTwice(old(contents), c, old(At(c)), m.links);
    }
  }

  /** `MutableAbstractOneToOneContainer` with `abstractOneToOneCopiedToModify`. */
  class AbstractOneToOneContainer {
    var maps: map<ConnectionId, HashBiMap>
    var copiedToModify: set<ConnectionId>
    /** The contents of the maps, kept in step with them by `Valid`. */
    ghost var contents: map<ConnectionId, AbstractOne>
    /** The copies this container made, the only maps it writes. */
    ghost var owned: set<HashBiMap>

    /**
     * Each map holds its connection's contents and keeps its invariant; a map is
     * this container's own exactly when its connection was copied, and a copy
     * serves one connection only.
     */
    ghost predicate Valid()
      reads this, maps.Values
    {
      Shape() && Coupled()
    }

    /** The part of `Valid` that does not look inside the maps. */
    ghost predicate Shape()
      reads this
    {
      && maps.Keys == contents.Keys
      && (forall c :: c in contents ==> Injective(contents[c]))
      && copiedToModify <= maps.Keys
      && (forall c :: c in maps ==> (maps[c] in owned <==> c in copiedToModify))
      && (forall c1, c2 :: c1 in copiedToModify && c2 in copiedToModify && c1 != c2 ==> maps[c1] != maps[c2])
    }

    ghost predicate Coupled()
      reads this, maps.Values
    {
      forall c :: c in maps ==> c in contents && maps[c].m == contents[c]
    }

    /** The contents of `c`'s map; a connection without one reads as empty. */
    ghost function At(c: ConnectionId): AbstractOne
      reads this
    {
      if c in contents then contents[c] else map[]
    }

    /** `toMutableContainer`: the maps of an immutable table, none of them copied yet. */
    constructor From(shared: map<ConnectionId, HashBiMap>)
      requires forall c :: c in shared ==> shared[c].Valid()
      ensures Valid() && maps == shared && copiedToModify == {} && owned == {}
      ensures contents == PairsOf(shared)
    {
      maps := shared;
      copiedToModify := {};
      contents := PairsOf(shared);
      owned := {};
    }

    /**
     * `getAbstractOneToOneMutableMap`: the map of `c` this container may write, an
     * empty one when `c` has none, and a fresh copy of a shared map the first time.
     */
    method GetMutableMap(c: ConnectionId) returns (m: HashBiMap)
      requires Valid()
      modifies this
      ensures Valid() && contents == old(contents)[c := old(At(c))]
      ensures copiedToModify == old(copiedToModify) + {c}
      ensures c in old(copiedToModify) ==> m == old(maps[c])
      ensures c !in old(copiedToModify) ==> fresh(m)
      ensures c in maps && m == maps[c] && m in owned
      ensures forall c' :: c' in maps && c' != c ==> maps[c'] != m
      ensures forall o :: o in owned && o !in old(owned) ==> fresh(o)
      ensures maps == old(maps)[c := m]
    {
      ghost var added := c !in maps;
      if c !in maps {
        AddEmpty(c);
      }
      ghost var before := maps;
      m := Thaw(c);
      if added {
        UpdateTwice(old(maps), c, before[c], m);
      }
      forall o | o in owned && o !in old(owned) ensures fresh(o) {
        assert o in owned - old(owned);
      }
    }

    /** The first half of `getAbstractOneToOneMutableMap`: an empty map for a connection without one. */
    method AddEmpty(c: ConnectionId)
      requires Valid() && c !in maps
      modifies this
      ensures Valid() && contents == old(contents)[c := map[]] && c in maps
      ensures owned == old(owned) && copiedToModify == old(copiedToModify)
      ensures fresh(maps[c]) && maps == old(maps)[c := maps[c]]
    {
      var empty := new HashBiMap();
      maps := maps[c := empty];
      contents := contents[c := map[]];
    }

    /** Records the new contents of `c`'s map once the calls on it are done. */
    method Commit(c: ConnectionId, m: HashBiMap)
      requires Shape() && c in maps && maps[c] == m && m.Valid()
      requires forall c' :: c' in maps && c' != c ==> maps[c'].m == contents[c']
      modifies this`contents
      ensures Valid() && contents == old(contents)[c := m.m]
      ensures maps == old(maps) && copiedToModify == old(copiedToModify)
    {
      contents := contents[c := m.m];
    }

    /** The second half: the map of `c` itself once copied, otherwise a fresh copy that replaces it. */
    method Thaw(c: ConnectionId) returns (m: HashBiMap)
      requires Valid() && c in maps
      modifies this
      ensures Valid() && contents == old(contents)
      ensures copiedToModify == old(copiedToModify) + {c}
      ensures c in old(copiedToModify) ==> m == old(maps[c])
      ensures c !in old(copiedToModify) ==> fresh(m)
      ensures c in maps && m == maps[c] && m in owned
      ensures forall c' :: c' in maps && c' != c ==> maps[c'] != m
      ensures owned - old(owned) <= {m} && (m in old(owned) || fresh(m))
      ensures maps == old(maps)[c := m]
    {
      if c in copiedToModify {
        m := maps[c];
      } else {
        m := CopyHashBiMap(maps[c]);
        maps := maps[c := m];
        copiedToModify := copiedToModify + {c};
        owned := owned + {m};
      }
    }
    /** `inverse().remove(p)`: unlink the child of `p`. */
    method InverseRemove(c: ConnectionId, p: ParentEntityId)
      requires Valid()
      modifies this, owned
      ensures Valid() && contents == old(contents)[c := RemoveValue(old(At(c)), p)]
      ensures forall o :: o in owned && o !in old(owned) ==> fresh(o)
      ensures c in maps && maps == old(maps)[c := maps[c]]
      ensures copiedToModify == old(copiedToModify) + {c}
    {
      var m := GetMutableMap(c);
      m.InverseRemove(p);
      Commit(c, m);
      UpdateTwice(old(contents), c, old(At(c)), m.m);
    }

    /** `remove(k)`: unlink child `k`. */
    method Remove(c: ConnectionId, k: ChildEntityId)
      requires Valid()
      modifies this, owned
      ensures Valid() && contents == old(contents)[c := old(At(c)) - {k}]
      ensures forall o :: o in owned && o !in old(owned) ==> fresh(o)
      ensures c in maps && maps == old(maps)[c := maps[c]]
      ensures copiedToModify == old(copiedToModify) + {c}
    {
      var m := GetMutableMap(c);
      m.Remove(k);
      Commit(c, m);
      UpdateTwice(old(contents), c, old(At(c)), m.m);
    }

    /** `remove(k, p)`: unlink `k` from `p` if that is its parent. */
    method RemovePair(c: ConnectionId, k: ChildEntityId, p: ParentEntityId)
      requires Valid()
      modifies this, owned
      ensures Valid() && contents == old(contents)[c := BiMaps.RemovePair(old(At(c)), k, p)]
      ensures forall o :: o in owned && o !in old(owned) ==> fresh(o)
      ensures c in maps && maps == old(maps)[c := maps[c]]
      ensures copiedToModify == old(copiedToModify) + {c}
    {
      var m := GetMutableMap(c);
      m.RemovePair(k, p);
      Commit(c, m);
      UpdateTwice(old(contents), c, old(At(c)), m.m);
    }

    /** `inverse().remove(p)`, then `put` each of `ks` under `p` until one is refused. */
    method ReplaceChildren(c: ConnectionId, p: ParentEntityId, ks: seq<ChildEntityId>) returns (ok: bool)
      requires Valid()
      modifies this, owned
      ensures Valid()
      ensures contents == old(contents)[c := TryPutEach(RemoveValue(old(At(c)), p), ks, p).state]
      ensures ok == TryPutEach(RemoveValue(old(At(c)), p), ks, p).ok
      ensures forall o :: o in owned && o !in old(owned) ==> fresh(o)
      ensures c in maps && maps == old(maps)[c := maps[c]]
      ensures copiedToModify == old(copiedToModify) + {c}
    {
      var m := GetMutableMap(c);
      m.InverseRemove(p);
      ok := TryPutAll(m, ks, p);
      Commit(c, m);
      UpdateTwice(old(contents), c, old(At(c)), m.m);
    }

    /** `inverse().remove(p)`, then `put(k, p)`, which `p` being free lets through. */
    method ReplaceChildOfParent(c: ConnectionId, p: ParentEntityId, k: ChildEntityId)
      requires Valid()
      modifies this, owned
      ensures Valid() && contents == old(contents)[c := Put(RemoveValue(old(At(c)), p), k, p)]
      ensures forall o :: o in owned && o !in old(owned) ==> fresh(o)
      ensures c in maps && maps == old(maps)[c := maps[c]]
      ensures copiedToModify == old(copiedToModify) + {c}
    {
      var m := GetMutableMap(c);
      m.InverseRemove(p);
      var ok := m.Put(k, p);
      assert ok;
      Commit(c, m);
      UpdateTwice(old(contents), c, old(At(c)), m.m);
    }

    /** `remove(k)`, `inverse().remove(p)`, then `put(k, p)`, which both being free lets through. */
    method ReplaceParentOfChild(c: ConnectionId, k: ChildEntityId, p: ParentEntityId)
      requires Valid()
      modifies this, owned
      ensures Valid() && contents == old(contents)[c := Put(RemoveValue(old(At(c)) - {k}, p), k, p)]
      ensures forall o :: o in owned && o !in old(owned) ==> fresh(o)
      ensures c in maps && maps == old(maps)[c := maps[c]]
      ensures copiedToModify == old(copiedToModify) + {c}
    {
      var m := GetMutableMap(c);
      m.Remove(k);
      m.InverseRemove(p);
      var ok := m.Put(k, p);
      assert ok;
      Commit(c, m);
      UpdateTwice(old(contents), c, old(At(c)), m.m);
    }

    /** `remove(k)`, then `forcePut(k, p)`. */
    method ForceParentOfChild(c: ConnectionId, k: ChildEntityId, p: ParentEntityId)
      requires Valid()
      modifies this, owned
      ensures Valid() && contents == old(contents)[c := ForcePut(old(At(c)) - {k}, k, p)]
      ensures forall o :: o in owned && o !in old(owned) ==> fresh(o)
      ensures c in maps && maps == old(maps)[c := maps[c]]
      ensures copiedToModify == old(copiedToModify) + {c}
    {
      var m := GetMutableMap(c);
      m.Remove(k);
      m.ForcePut(k, p);
      Commit(c, m);
      UpdateTwice(old(contents), c, old(At(c)), m.m);
    }
  }
  /** A connection's map is copied once: a second access returns the copy the first one made. */
  method AccessTwice(x: OneToAbstractManyContainer, y: AbstractOneToOneContainer, c: ConnectionId)
    returns (first: LinkedBiMap, second: LinkedBiMap, firstOne: HashBiMap, secondOne: HashBiMap)
    requires x.Valid() && y.Valid()
    modifies x, y
    ensures first == second && firstOne == secondOne
    ensures c !in old(x.copiedToModify) ==> fresh(first)
    ensures c !in old(y.copiedToModify) ==> fresh(firstOne)
  {
    first := x.GetMutableMap(c);
    second := x.GetMutableMap(c);
    firstOne := y.GetMutableMap(c);
    secondOne := y.GetMutableMap(c);
  }
}
