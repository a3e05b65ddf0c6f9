/**
 * The polymorphic relation maps, which tables share and a `MutableRefsTable`
 * edits in place once it has its own copy. Their contents are the values of
 * module `BiMaps`; each method is one operation of the map, and keeps the
 * map's own invariant.
 */
module Containers {
  import opened Wrappers
  import opened Ids
  import opened BiMaps

  /** The links held by each of a table's polymorphic one-to-many maps. */
  function LinksOf(maps: map<ConnectionId, LinkedBiMap>): map<ConnectionId, seq<Link<ChildEntityId, ParentEntityId>>>
    reads maps.Values
  {
    map c | c in maps :: maps[c].links
  }

  /** The pairs held by each of a table's polymorphic one-to-one maps. */
  function PairsOf(maps: map<ConnectionId, HashBiMap>): map<ConnectionId, map<ChildEntityId, ParentEntityId>>
    reads maps.Values
  {
    map c | c in maps :: maps[c].m
  }

  /** `LinkedBidirectionalMap`: polymorphic one-to-many, in key insertion order. */
  class LinkedBiMap {
    var links: seq<Link<ChildEntityId, ParentEntityId>>

    ghost predicate Valid()
      reads this
    {
      Functional(links)
    }

    constructor ()
      ensures Valid() && links == []
    {
      links := [];
    }

    method RemoveValue(p: ParentEntityId)
      requires Valid()
      modifies this
      ensures Valid() && links == RemoveParent(old(links), p)
    {
      RemoveParentSpec(links, p, ChildEntityId(p.id));
      links := RemoveParent(links, p);
    }

    method Remove(k: ChildEntityId)
      requires Valid()
      modifies this
      ensures Valid() && links == RemoveChild(old(links), k)
    {
      RemoveChildSpec(links, k, k);
      links := RemoveChild(links, k);
    }

    /** `remove(key, value)` */
    method RemoveLink(k: ChildEntityId, p: ParentEntityId)
      requires Valid()
      modifies this
      ensures Valid() && links == BiMaps.RemoveLink(old(links), k, p)
    {
      RemoveLinkSpec(links, k, p, k);
      links := BiMaps.RemoveLink(links, k, p);
    }

    /** `put` / `set`: a present child keeps its position. */
    method Put(k: ChildEntityId, p: ParentEntityId)
      requires Valid()
      modifies this
      ensures Valid() && links == PutKeep(old(links), k, p)
    {
      PutKeepSpec(links, k, p, k);
      links := PutKeep(links, k, p);
    }
  }

  /** Guava's `HashBiMap`: polymorphic one-to-one. */
  class HashBiMap {
    var m: map<ChildEntityId, ParentEntityId>

    ghost predicate Valid()
      reads this
    {
      Injective(m)
    }

    constructor ()
      ensures Valid() && m == map[]
    {
      m := map[];
    }

    /** `inverse().remove(p)` */
    method InverseRemove(p: ParentEntityId)
      requires Valid()
      modifies this
      ensures Valid() && m == RemoveValue(old(m), p)
    {
      OneToOneOpsInjective(m, ChildEntityId(p.id), p);
      m := RemoveValue(m, p);
    }

    method Remove(k: ChildEntityId)
      requires Valid()
      modifies this
      ensures Valid() && m == old(m) - {k}
    {
      OneToOneOpsInjective(m, k, ParentEntityId(k.id));
      m := m - {k};
    }

    /** `remove(key, value)` */
    method RemovePair(k: ChildEntityId, p: ParentEntityId)
      requires Valid()
      modifies this
      ensures Valid() && m == BiMaps.RemovePair(old(m), k, p)
    {
      OneToOneOpsInjective(m, k, p);
      m := BiMaps.RemovePair(m, k, p);
    }

    /**
     * `put` / `set`: refused when `p` is another key's value, which Guava reports by
     * throwing; `ok` is false then and the map is unchanged.
     */
    method Put(k: ChildEntityId, p: ParentEntityId) returns (ok: bool)
      requires Valid()
      modifies this
      ensures Valid()
      ensures ok <==> TryPut(old(m), k, p).Some?
      ensures m == if ok then TryPut(old(m), k, p).value else old(m)
    {
      OneToOneOpsInjective(m, k, p);
      match TryPut(m, k, p)
      case Some(next) =>
        m := next;
        ok := true;
      case None =>
        ok := false;
    }

    method ForcePut(k: ChildEntityId, p: ParentEntityId)
      requires Valid()
      modifies this
      ensures Valid() && m == BiMaps.ForcePut(old(m), k, p)
    {
      OneToOneOpsInjective(m, k, p);
      m := BiMaps.ForcePut(m, k, p);
    }
  }
}
