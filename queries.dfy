/**
 * The read-only query surface shared by `RefsTable` and `MutableRefsTable`
 * (`AbstractRefsTable`), over a snapshot of the four containers. The class
 * hierarchy of entity types is a parameter: `assignable(a, b)` holds when the
 * entity class with id `a` is assignable from the one with id `b`.
 */
module Queries {
  import opened Wrappers
  import opened Ids
  import opened BiMaps
  import opened TableSpec

  /** `sameClass`: does the connection's class id admit an entity of class `myClazz`? */
  function SameClass(fromConnection: int, myClazz: int, kind: ConnectionType, assignable: (int, int) -> bool): bool
  {
    match kind
    case OneToOne => fromConnection == myClazz
    case OneToMany => fromConnection == myClazz
    case OneToAbstractMany => assignable(fromConnection, myClazz)
    case AbstractOneToOne => assignable(fromConnection, myClazz)
  }

  /**
   * For a dense connection `sameClass` is exactly the class test dense ids must pass; for
   * any connection, an id of the connection's own class passes when every class is
   * assignable from itself, as `isAssignableFrom` is.
   */
  lemma SameClassConforms(c: ConnectionId, k: ChildEntityId, p: ParentEntityId, assignable: (int, int) -> bool)
    ensures IsDense(c) ==> (SameClass(c.childClass, k.id.clazz, c.connectionType, assignable) <==> ChildConforms(c, k))
    ensures IsDense(c) ==> (SameClass(c.parentClass, p.id.clazz, c.connectionType, assignable) <==> ParentConforms(c, p))
    ensures (forall a :: assignable(a, a)) && k.id.clazz == c.childClass ==>
              SameClass(c.childClass, k.id.clazz, c.connectionType, assignable)
    ensures (forall a :: assignable(a, a)) && p.id.clazz == c.parentClass ==>
              SameClass(c.parentClass, p.id.clazz, c.connectionType, assignable)
  {
  }

  /** The connection sits in the container of its own kind. */
  predicate InTable(t: Tables, c: ConnectionId)
  {
    match c.connectionType
    case OneToMany => c in t.oneToMany
    case OneToOne => c in t.oneToOne
    case OneToAbstractMany => c in t.oneToAbstractMany
    case AbstractOneToOne => c in t.abstractOneToOne
  }

  /** What one pass over a container's connections finds: each connection `f` has an answer for. */
  ghost function Found<V>(keys: set<ConnectionId>, f: ConnectionId --> Option<V>): map<ConnectionId, V>
    requires forall c :: c in keys ==> f.requires(c)
  {
    map c | c in keys && f(c).Some? :: f(c).value
  }

  lemma FoundAt<V>(keys: set<ConnectionId>, f: ConnectionId --> Option<V>, c: ConnectionId)
    requires forall c :: c in keys ==> f.requires(c)
    ensures c in Found(keys, f) <==> c in keys && f(c).Some?
    ensures c in Found(keys, f) ==> Found(keys, f)[c] == f(c).value
  {
  }

  /**
   * One `for` loop of a query: visits every connection of `keys` and, where `f` has an
   * answer, records it unless the result already holds that connection (`putIfAbsent`).
   */
  method PutEachAbsent<V>(keys: set<ConnectionId>, f: ConnectionId --> Option<V>, res0: map<ConnectionId, V>)
    returns (res: map<ConnectionId, V>)
    requires forall c :: c in keys ==> f.requires(c)
    ensures res == Found(keys, f) + res0
  {
    res := res0;
    var todo := keys;
    while todo != {}
      invariant todo <= keys
      invariant res == Found(keys - todo, f) + res0
      decreases |todo|
    {
      var c :| c in todo;
      todo := todo - {c};
      match f(c)
      case Some(v) =>
        if c !in res {
          res := res[c := v];
        }
      case None =>
    }
  }

  // ---------------------------------------------------------------------------
  // Parents of a child, over all connections
  // ---------------------------------------------------------------------------

  /** A parent slot of a dense container as the parent's entity id. */
  function SlotParent(c: ConnectionId, slot: Option<int>): Option<ParentEntityId>
  {
    match slot
    case Some(q) => Some(ParentFromSlot(c, q))
    case None => None
  }

  /** The lookups of `getParentRefsOfChild`, one per container, each behind its container's class filter. */
  function DenseManyParentOf(t: Tables, k: ChildEntityId): ConnectionId -> Option<ParentEntityId>
  {
    (c: ConnectionId) => if c.childClass == k.id.clazz then SlotParent(c, ParentOf(DenseManyAt(t, c), k.id.arrayId)) else None
  }

  function DenseOneParentOf(t: Tables, k: ChildEntityId): ConnectionId -> Option<ParentEntityId>
  {
    (c: ConnectionId) => if c.childClass == k.id.clazz then SlotParent(c, Lookup(DenseOneAt(t, c), k.id.arrayId)) else None
  }

  function AbstractManyParentOf(t: Tables, k: ChildEntityId, assignable: (int, int) -> bool): ConnectionId -> Option<ParentEntityId>
  {
    (c: ConnectionId) => if assignable(c.childClass, k.id.clazz) then ParentOf(AbstractManyAt(t, c), k) else None
  }

  function AbstractOneParentOf(t: Tables, k: ChildEntityId, assignable: (int, int) -> bool): ConnectionId -> Option<ParentEntityId>
  {
    (c: ConnectionId) => if assignable(c.childClass, k.id.clazz) then Lookup(AbstractOneAt(t, c), k) else None
  }

  /**
   * The parents of `k` by connection. The containers are visited in the order one-to-many,
   * one-to-one, one-to-abstract-many, abstract-one-to-one, and the first answer for a
   * connection stands, so later containers sit on the left of the right-biased `+`.
   */
  ghost function ParentRefsOfChild(t: Tables, k: ChildEntityId, assignable: (int, int) -> bool): map<ConnectionId, ParentEntityId>
  {
    Found(t.abstractOneToOne.Keys, AbstractOneParentOf(t, k, assignable))
    + (Found(t.oneToAbstractMany.Keys, AbstractManyParentOf(t, k, assignable))
       + (Found(t.oneToOne.Keys, DenseOneParentOf(t, k))
          + Found(t.oneToMany.Keys, DenseManyParentOf(t, k))))
  }

  /** `getParentRefsOfChild` */
  method GetParentRefsOfChild(t: Tables, k: ChildEntityId, assignable: (int, int) -> bool)
    returns (res: map<ConnectionId, ParentEntityId>)
    ensures res == ParentRefsOfChild(t, k, assignable)
  {
    res := PutEachAbsent(t.oneToMany.Keys, DenseManyParentOf(t, k), map[]);
    assert res == Found(t.oneToMany.Keys, DenseManyParentOf(t, k));
    res := PutEachAbsent(t.oneToOne.Keys, DenseOneParentOf(t, k), res);
    res := PutEachAbsent(t.oneToAbstractMany.Keys, AbstractManyParentOf(t, k, assignable), res);
    res := PutEachAbsent(t.abstractOneToOne.Keys, AbstractOneParentOf(t, k, assignable), res);
  }

  /**
   * In a well-formed table, `k`'s parents by connection are exactly its linked parents under
   * every connection the table holds whose child class admits `k`.
   */
  lemma ParentRefsOfChildSpec(t: Tables, k: ChildEntityId, assignable: (int, int) -> bool, c: ConnectionId)
    requires WellFormed(t)
    ensures c in ParentRefsOfChild(t, k, assignable) <==>
              InTable(t, c) && SameClass(c.childClass, k.id.clazz, c.connectionType, assignable) && LinkedParent(t, c, k).Some?
    ensures c in ParentRefsOfChild(t, k, assignable) ==> ParentRefsOfChild(t, k, assignable)[c] == LinkedParent(t, c, k).value
  {
    OnlyOwnContainer(t, c);
    var want := if SameClass(c.childClass, k.id.clazz, c.connectionType, assignable) then LinkedParent(t, c, k) else None;
    match c.connectionType
    case OneToMany =>
      assert DenseManyParentOf(t, k)(c) == want;
      FoundAt(t.oneToMany.Keys, DenseManyParentOf(t, k), c);
    case OneToOne =>
      assert DenseOneParentOf(t, k)(c) == want;
      FoundAt(t.oneToOne.Keys, DenseOneParentOf(t, k), c);
    case OneToAbstractMany =>
      assert AbstractManyParentOf(t, k, assignable)(c) == want;
      FoundAt(t.oneToAbstractMany.Keys, AbstractManyParentOf(t, k, assignable), c);
    case AbstractOneToOne =>
      assert AbstractOneParentOf(t, k, assignable)(c) == want;
      FoundAt(t.abstractOneToOne.Keys, AbstractOneParentOf(t, k, assignable), c);
  }

  /** In a partitioned table a connection sits in no container but its own kind's. */
  lemma OnlyOwnContainer(t: Tables, c: ConnectionId)
    requires Partitioned(t)
    ensures c in t.oneToMany ==> c.connectionType == OneToMany
    ensures c in t.oneToOne ==> c.connectionType == OneToOne
    ensures c in t.oneToAbstractMany ==> c.connectionType == OneToAbstractMany
    ensures c in t.abstractOneToOne ==> c.connectionType == AbstractOneToOne
  {
  }

  /** `getParentOneToOneRefsOfChild`: the same lookups, over the two one-to-one containers only. */
  ghost function ParentOneToOneRefsOfChild(t: Tables, k: ChildEntityId, assignable: (int, int) -> bool): map<ConnectionId, ParentEntityId>
  {
    Found(t.abstractOneToOne.Keys, AbstractOneParentOf(t, k, assignable))
    + Found(t.oneToOne.Keys, DenseOneParentOf(t, k))
  }

  method GetParentOneToOneRefsOfChild(t: Tables, k: ChildEntityId, assignable: (int, int) -> bool)
    returns (res: map<ConnectionId, ParentEntityId>)
    ensures res == ParentOneToOneRefsOfChild(t, k, assignable)
  {
    res := PutEachAbsent(t.oneToOne.Keys, DenseOneParentOf(t, k), map[]);
    assert res == Found(t.oneToOne.Keys, DenseOneParentOf(t, k));
    res := PutEachAbsent(t.abstractOneToOne.Keys, AbstractOneParentOf(t, k, assignable), res);
  }

  /** In a well-formed table, the one-to-one query is the general one cut down to one-to-one connections. */
  lemma ParentOneToOneRefsOfChildSpec(t: Tables, k: ChildEntityId, assignable: (int, int) -> bool, c: ConnectionId)
    requires WellFormed(t)
    ensures c in ParentOneToOneRefsOfChild(t, k, assignable) <==> c in ParentRefsOfChild(t, k, assignable) && c.IsOneToOne()
    ensures c in ParentOneToOneRefsOfChild(t, k, assignable) ==>
              ParentOneToOneRefsOfChild(t, k, assignable)[c] == ParentRefsOfChild(t, k, assignable)[c]
  {
    OnlyOwnContainer(t, c);
    ParentRefsOfChildSpec(t, k, assignable, c);
    match c.connectionType
    case OneToOne =>
      FoundAt(t.oneToOne.Keys, DenseOneParentOf(t, k), c);
    case AbstractOneToOne =>
      FoundAt(t.abstractOneToOne.Keys, AbstractOneParentOf(t, k, assignable), c);
    case OneToMany =>
    case OneToAbstractMany =>
  }

  // ---------------------------------------------------------------------------
  // Children of a parent, over all connections
  // ---------------------------------------------------------------------------

  /** The lookups of `getChildrenRefsOfParentBy`, one per container, each behind its container's class filter. */
  function DenseManyChildrenOf(t: Tables, p: ParentEntityId): ConnectionId -> Option<seq<ChildEntityId>>
  {
    (c: ConnectionId) =>
      var kids := ChildrenOf(DenseManyAt(t, c), p.id.arrayId);
      if c.parentClass == p.id.clazz && kids != [] then Some(ChildrenFromSlots(c, kids)) else None
  }

  function DenseOneChildOf(t: Tables, p: ParentEntityId): ConnectionId --> Option<ChildEntityId>
  {
    (c: ConnectionId) requires Injective(DenseOneAt(t, c)) =>
      if c.parentClass == p.id.clazz && p.id.arrayId in DenseOneAt(t, c).Values
      then Some(ChildFromSlot(c, KeyOf(DenseOneAt(t, c), p.id.arrayId)))
      else None
  }

  function AbstractManyChildrenOf(t: Tables, p: ParentEntityId, assignable: (int, int) -> bool): ConnectionId -> Option<seq<ChildEntityId>>
  {
    (c: ConnectionId) =>
      var kids := ChildrenOf(AbstractManyAt(t, c), p);
      if assignable(c.parentClass, p.id.clazz) && kids != [] then Some(kids) else None
  }

  function AbstractOneChildOf(t: Tables, p: ParentEntityId, assignable: (int, int) -> bool): ConnectionId --> Option<ChildEntityId>
  {
    (c: ConnectionId) requires Injective(AbstractOneAt(t, c)) =>
      if assignable(c.parentClass, p.id.clazz) && p in AbstractOneAt(t, c).Values
      then Some(KeyOf(AbstractOneAt(t, c), p))
      else None
  }

  /** A one-to-one lookup seen as a list of at most one child. */
  function AsList(f: ConnectionId --> Option<ChildEntityId>): ConnectionId --> Option<seq<ChildEntityId>>
  {
    (c: ConnectionId) requires f.requires(c) => match f(c) case Some(k) => Some([k]) case None => None
  }

  /** The children of `p` by connection, in the same container order as the parents' query. */
  ghost function ChildrenRefsOfParent(t: Tables, p: ParentEntityId, assignable: (int, int) -> bool): map<ConnectionId, seq<ChildEntityId>>
    requires ContainersValid(t)
  {
    Found(t.abstractOneToOne.Keys, AsList(AbstractOneChildOf(t, p, assignable)))
    + (Found(t.oneToAbstractMany.Keys, AbstractManyChildrenOf(t, p, assignable))
       + (Found(t.oneToOne.Keys, AsList(DenseOneChildOf(t, p)))
          + Found(t.oneToMany.Keys, DenseManyChildrenOf(t, p))))
  }

  /** `getChildrenRefsOfParentBy` */
  method GetChildrenRefsOfParentBy(t: Tables, p: ParentEntityId, assignable: (int, int) -> bool)
    returns (res: map<ConnectionId, seq<ChildEntityId>>)
    requires ContainersValid(t)
    ensures res == ChildrenRefsOfParent(t, p, assignable)
  {
    res := PutEachAbsent(t.oneToMany.Keys, DenseManyChildrenOf(t, p), map[]);
    assert res == Found(t.oneToMany.Keys, DenseManyChildrenOf(t, p));
    res := PutEachAbsent(t.oneToOne.Keys, AsList(DenseOneChildOf(t, p)), res);
    res := PutEachAbsent(t.oneToAbstractMany.Keys, AbstractManyChildrenOf(t, p, assignable), res);
    res := PutEachAbsent(t.abstractOneToOne.Keys, AsList(AbstractOneChildOf(t, p, assignable)), res);
  }

  /**
   * In a well-formed table, `p`'s children by connection are exactly its non-empty lists of
   * linked children under every connection the table holds whose parent class admits `p`.
   */
  lemma ChildrenRefsOfParentSpec(t: Tables, p: ParentEntityId, assignable: (int, int) -> bool, c: ConnectionId)
    requires WellFormed(t)
    ensures c in ChildrenRefsOfParent(t, p, assignable) <==>
              InTable(t, c) && SameClass(c.parentClass, p.id.clazz, c.connectionType, assignable) && LinkedChildren(t, c, p) != []
    ensures c in ChildrenRefsOfParent(t, p, assignable) ==> ChildrenRefsOfParent(t, p, assignable)[c] == LinkedChildren(t, c, p)
  {
    match c.connectionType
    case OneToMany => DenseManyChildrenAt(t, p, assignable, c);
    case OneToOne => DenseOneChildAt(t, p, assignable, c);
    case OneToAbstractMany => AbstractManyChildrenAt(t, p, assignable, c);
    case AbstractOneToOne => AbstractOneChildAt(t, p, assignable, c);
  }

  /** `ChildrenRefsOfParentSpec` for one kind of connection at a time. */
  lemma DenseManyChildrenAt(t: Tables, p: ParentEntityId, assignable: (int, int) -> bool, c: ConnectionId)
    requires WellFormed(t) && c.connectionType == OneToMany
    ensures c in ChildrenRefsOfParent(t, p, assignable) <==>
              InTable(t, c) && SameClass(c.parentClass, p.id.clazz, c.connectionType, assignable) && LinkedChildren(t, c, p) != []
    ensures c in ChildrenRefsOfParent(t, p, assignable) ==> ChildrenRefsOfParent(t, p, assignable)[c] == LinkedChildren(t, c, p)
  {
    OnlyOwnContainer(t, c);
    var kids := LinkedChildren(t, c, p);
    assert DenseManyChildrenOf(t, p)(c) == if SameClass(c.parentClass, p.id.clazz, c.connectionType, assignable) && kids != [] then Some(kids) else None;
    FoundAt(t.oneToMany.Keys, DenseManyChildrenOf(t, p), c);
  }

  lemma DenseOneChildAt(t: Tables, p: ParentEntityId, assignable: (int, int) -> bool, c: ConnectionId)
    requires WellFormed(t) && c.connectionType == OneToOne
    ensures c in ChildrenRefsOfParent(t, p, assignable) <==>
              InTable(t, c) && SameClass(c.parentClass, p.id.clazz, c.connectionType, assignable) && LinkedChildren(t, c, p) != []
    ensures c in ChildrenRefsOfParent(t, p, assignable) ==> ChildrenRefsOfParent(t, p, assignable)[c] == LinkedChildren(t, c, p)
  {
    OnlyOwnContainer(t, c);
    var kids := LinkedChildren(t, c, p);
    assert c in t.oneToOne ==> AsList(DenseOneChildOf(t, p))(c) == if SameClass(c.parentClass, p.id.clazz, c.connectionType, assignable) && kids != [] then Some(kids) else None;
    FoundAt(t.oneToOne.Keys, AsList(DenseOneChildOf(t, p)), c);
  }

  lemma AbstractManyChildrenAt(t: Tables, p: ParentEntityId, assignable: (int, int) -> bool, c: ConnectionId)
    requires WellFormed(t) && c.connectionType == OneToAbstractMany
    ensures c in ChildrenRefsOfParent(t, p, assignable) <==>
              InTable(t, c) && SameClass(c.parentClass, p.id.clazz, c.connectionType, assignable) && LinkedChildren(t, c, p) != []
    ensures c in ChildrenRefsOfParent(t, p, assignable) ==> ChildrenRefsOfParent(t, p, assignable)[c] == LinkedChildren(t, c, p)
  {
    OnlyOwnContainer(t, c);
    var kids := LinkedChildren(t, c, p);
    assert AbstractManyChildrenOf(t, p, assignable)(c) == if SameClass(c.parentClass, p.id.clazz, c.connectionType, assignable) && kids != [] then Some(kids) else None;
    FoundAt(t.oneToAbstractMany.Keys, AbstractManyChildrenOf(t, p, assignable), c);
  }

  lemma AbstractOneChildAt(t: Tables, p: ParentEntityId, assignable: (int, int) -> bool, c: ConnectionId)
    requires WellFormed(t) && c.connectionType == AbstractOneToOne
    ensures c in ChildrenRefsOfParent(t, p, assignable) <==>
              InTable(t, c) && SameClass(c.parentClass, p.id.clazz, c.connectionType, assignable) && LinkedChildren(t, c, p) != []
    ensures c in ChildrenRefsOfParent(t, p, assignable) ==> ChildrenRefsOfParent(t, p, assignable)[c] == LinkedChildren(t, c, p)
  {
    OnlyOwnContainer(t, c);
    var kids := LinkedChildren(t, c, p);
    assert c in t.abstractOneToOne ==> AsList(AbstractOneChildOf(t, p, assignable))(c) == if SameClass(c.parentClass, p.id.clazz, c.connectionType, assignable) && kids != [] then Some(kids) else None;
    FoundAt(t.abstractOneToOne.Keys, AsList(AbstractOneChildOf(t, p, assignable)), c);
  }

  /** `getChildrenOneToOneRefsOfParentBy`: the one child of `p` under each one-to-one connection. */
  ghost function ChildrenOneToOneRefsOfParent(t: Tables, p: ParentEntityId, assignable: (int, int) -> bool): map<ConnectionId, ChildEntityId>
    requires ContainersValid(t)
  {
    Found(t.abstractOneToOne.Keys, AbstractOneChildOf(t, p, assignable))
    + Found(t.oneToOne.Keys, DenseOneChildOf(t, p))
  }

  method GetChildrenOneToOneRefsOfParentBy(t: Tables, p: ParentEntityId, assignable: (int, int) -> bool)
    returns (res: map<ConnectionId, ChildEntityId>)
    requires ContainersValid(t)
    ensures res == ChildrenOneToOneRefsOfParent(t, p, assignable)
  {
    res := PutEachAbsent(t.oneToOne.Keys, DenseOneChildOf(t, p), map[]);
    assert res == Found(t.oneToOne.Keys, DenseOneChildOf(t, p));
    res := PutEachAbsent(t.abstractOneToOne.Keys, AbstractOneChildOf(t, p, assignable), res);
  }

  /** In a well-formed table, the one-to-one query is the general one cut down to one-to-one connections, where a list has one child. */
  lemma ChildrenOneToOneRefsOfParentSpec(t: Tables, p: ParentEntityId, assignable: (int, int) -> bool, c: ConnectionId)
    requires WellFormed(t)
    ensures c in ChildrenOneToOneRefsOfParent(t, p, assignable) <==> c in ChildrenRefsOfParent(t, p, assignable) && c.IsOneToOne()
    ensures c in ChildrenOneToOneRefsOfParent(t, p, assignable) ==>
              ChildrenRefsOfParent(t, p, assignable)[c] == [ChildrenOneToOneRefsOfParent(t, p, assignable)[c]]
  {
    OnlyOwnContainer(t, c);
    ChildrenRefsOfParentSpec(t, p, assignable, c);
    match c.connectionType
    case OneToOne =>
      FoundAt(t.oneToOne.Keys, DenseOneChildOf(t, p), c);
    case AbstractOneToOne =>
      FoundAt(t.abstractOneToOne.Keys, AbstractOneChildOf(t, p, assignable), c);
    case OneToMany =>
    case OneToAbstractMany =>
  }

  /**
   * The two directions agree: `k` is listed among `p`'s children under `c` exactly when `p`
   * is listed as `k`'s parent under `c`, for a connection whose classes admit both.
   */
  lemma QueriesAgree(t: Tables, c: ConnectionId, p: ParentEntityId, k: ChildEntityId, assignable: (int, int) -> bool)
    requires WellFormed(t)
    requires SameClass(c.parentClass, p.id.clazz, c.connectionType, assignable)
    requires SameClass(c.childClass, k.id.clazz, c.connectionType, assignable)
    ensures (c in ChildrenRefsOfParent(t, p, assignable) && k in ChildrenRefsOfParent(t, p, assignable)[c]) <==>
            (c in ParentRefsOfChild(t, k, assignable) && ParentRefsOfChild(t, k, assignable)[c] == p)
  {
    ChildrenRefsOfParentSpec(t, p, assignable, c);
    ParentRefsOfChildSpec(t, k, assignable, c);
    LinkedSymmetry(t, c, k, p);
  }

  // ---------------------------------------------------------------------------
  // Finding a connection between two entity classes
  // ---------------------------------------------------------------------------

  predicate DenseMatch(c: ConnectionId, parentClass: int, childClass: int)
  {
    c.parentClass == parentClass && c.childClass == childClass
  }

  predicate AbstractMatch(c: ConnectionId, parentClass: int, childClass: int, assignable: (int, int) -> bool)
  {
    assignable(c.parentClass, parentClass) && assignable(c.childClass, childClass)
  }

  /** The connections each container offers for the pair of classes, in the order they are searched. */
  ghost function Candidates(t: Tables, parentClass: int, childClass: int, assignable: (int, int) -> bool): seq<set<ConnectionId>>
  {
    [ set c | c in t.oneToMany && DenseMatch(c, parentClass, childClass),
      set c | c in t.oneToOne && DenseMatch(c, parentClass, childClass),
      set c | c in t.oneToAbstractMany && AbstractMatch(c, parentClass, childClass, assignable),
      set c | c in t.abstractOneToOne && AbstractMatch(c, parentClass, childClass, assignable) ]
  }

  /** `find` over a container's connections; which match comes first in a hash map is left open. */
  method FindKey(keys: set<ConnectionId>, matches: ConnectionId -> bool) returns (r: Option<ConnectionId>)
    ensures r.Some? ==> r.value in keys && matches(r.value)
    ensures r.None? ==> forall c :: c in keys ==> !matches(c)
  {
    var todo := keys;
    while todo != {}
      invariant todo <= keys
      invariant forall c :: c in keys - todo ==> !matches(c)
      decreases |todo|
    {
      var c :| c in todo;
      if matches(c) {
        return Some(c);
      }
      todo := todo - {c};
    }
    return None;
  }

  /**
   * `findConnectionId`: a connection between the two classes from the first container that
   * has one, dense containers by class equality, polymorphic ones by assignability.
   */
  method FindConnectionId(t: Tables, parentClass: int, childClass: int, assignable: (int, int) -> bool)
    returns (r: Option<ConnectionId>)
    ensures var cands := Candidates(t, parentClass, childClass, assignable);
      r.None? <==> forall i :: 0 <= i < 4 ==> cands[i] == {}
    ensures var cands := Candidates(t, parentClass, childClass, assignable);
      r.Some? ==> exists i :: 0 <= i < 4 && r.value in cands[i] && forall j :: 0 <= j < i ==> cands[j] == {}
  {
    ghost var cands := Candidates(t, parentClass, childClass, assignable);
    r := FindKey(t.oneToMany.Keys, (c: ConnectionId) => DenseMatch(c, parentClass, childClass));
    if r.Some? {
      assert r.value in cands[0];
      return;
    }
    assert cands[0] == {};
    r := FindKey(t.oneToOne.Keys, (c: ConnectionId) => DenseMatch(c, parentClass, childClass));
    if r.Some? {
      assert r.value in cands[1];
      return;
    }
    assert cands[1] == {};
    r := FindKey(t.oneToAbstractMany.Keys, (c: ConnectionId) => AbstractMatch(c, parentClass, childClass, assignable));
    if r.Some? {
      assert r.value in cands[2];
      return;
    }
    assert cands[2] == {};
    r := FindKey(t.abstractOneToOne.Keys, (c: ConnectionId) => AbstractMatch(c, parentClass, childClass, assignable));
    if r.Some? {
      assert r.value in cands[3];
      return;
    }
    assert cands[3] == {};
  }

  // ---------------------------------------------------------------------------
  // Narrow getters for one connection; an absent container answers null
  // ---------------------------------------------------------------------------

  /** `getOneToManyChildren`: the child slots of parent slot `p`, possibly none, when the container exists. */
  function GetOneToManyChildren(t: Tables, c: ConnectionId, p: int): Option<seq<int>>
  {
    if c in t.oneToMany then Some(ChildrenOf(t.oneToMany[c], p)) else None
  }

  /** `getOneToAbstractManyChildren`: `p`'s children, null when it has none. */
  function GetOneToAbstractManyChildren(t: Tables, c: ConnectionId, p: ParentEntityId): Option<seq<ChildEntityId>>
  {
    if c in t.oneToAbstractMany && ChildrenOf(t.oneToAbstractMany[c], p) != []
    then Some(ChildrenOf(t.oneToAbstractMany[c], p))
    else None
  }

  /** `getAbstractOneToOneChildren`: the inverse lookup of the polymorphic one-to-one map. */
  function GetAbstractOneToOneChildren(t: Tables, c: ConnectionId, p: ParentEntityId): Option<ChildEntityId>
    requires ContainersValid(t)
  {
    if c in t.abstractOneToOne && p in t.abstractOneToOne[c].Values
    then Some(KeyOf(t.abstractOneToOne[c], p))
    else None
  }

  /** `getOneToAbstractOneParent` */
  function GetOneToAbstractOneParent(t: Tables, c: ConnectionId, k: ChildEntityId): Option<ParentEntityId>
  {
    if c in t.abstractOneToOne then Lookup(t.abstractOneToOne[c], k) else None
  }

  /** `getOneToAbstractManyParent` */
  function GetOneToAbstractManyParent(t: Tables, c: ConnectionId, k: ChildEntityId): Option<ParentEntityId>
  {
    if c in t.oneToAbstractMany then ParentOf(t.oneToAbstractMany[c], k) else None
  }

  /** `getOneToOneChild`: the child slot of parent slot `p`, handed to `transformer`. */
  function GetOneToOneChild<T>(t: Tables, c: ConnectionId, p: int, transformer: int -> Option<T>): Option<T>
    requires ContainersValid(t)
  {
    if c !in t.oneToOne then None
    else if p !in t.oneToOne[c].Values then None
    else transformer(KeyOf(t.oneToOne[c], p))
  }

  /** `getOneToOneParent`: the parent slot of child slot `k`, handed to `transformer`. */
  function GetOneToOneParent<T>(t: Tables, c: ConnectionId, k: int, transformer: int -> Option<T>): Option<T>
  {
    if c !in t.oneToOne then None
    else if k !in t.oneToOne[c] then None
    else transformer(t.oneToOne[c][k])
  }

  /** `getOneToManyParent`: the parent slot of child slot `k`, handed to `transformer`. */
  function GetOneToManyParent<T>(t: Tables, c: ConnectionId, k: int, transformer: int -> Option<T>): Option<T>
  {
    if c !in t.oneToMany then None
    else match ParentOf(t.oneToMany[c], k)
      case None => None
      case Some(q) => transformer(q)
  }

  /** Turns a parent slot of connection `c` into the parent's id, the way callers build entities. */
  function ParentTransformer(c: ConnectionId): int -> Option<ParentEntityId>
  {
    (q: int) => Some(ParentFromSlot(c, q))
  }

  function ChildTransformer(c: ConnectionId): int -> Option<ChildEntityId>
  {
    (q: int) => Some(ChildFromSlot(c, q))
  }

  /** `getOneToManyParent` answers `k`'s linked parent, and null when the table holds no map for the connection. */
  lemma OneToManyParentAgrees(t: Tables, c: ConnectionId, k: ChildEntityId)
    requires ContainersValid(t) && ChildConforms(c, k) && c.connectionType == OneToMany
    ensures GetOneToManyParent(t, c, k.id.arrayId, ParentTransformer(c)) ==
            (if c in t.oneToMany then LinkedParent(t, c, k) else None)
  {
    if c in t.oneToMany {
      match ParentOf(t.oneToMany[c], k.id.arrayId)
      case None =>
      case Some(q) => assert ParentTransformer(c)(q) == Some(ParentFromSlot(c, q));
    }
  }

  /** `getOneToOneParent` answers `k`'s linked parent, and null when the table holds no map for the connection. */
  lemma OneToOneParentAgrees(t: Tables, c: ConnectionId, k: ChildEntityId)
    requires ContainersValid(t) && ChildConforms(c, k) && c.connectionType == OneToOne
    ensures GetOneToOneParent(t, c, k.id.arrayId, ParentTransformer(c)) ==
            (if c in t.oneToOne then LinkedParent(t, c, k) else None)
  {
    if c in t.oneToOne && k.id.arrayId in t.oneToOne[c] {
      assert ParentTransformer(c)(t.oneToOne[c][k.id.arrayId]) == Some(ParentFromSlot(c, t.oneToOne[c][k.id.arrayId]));
    }
  }

  /** `getOneToAbstractManyParent` answers `k`'s linked parent, and null when the table holds no map for the connection. */
  lemma AbstractManyParentAgrees(t: Tables, c: ConnectionId, k: ChildEntityId)
    requires ContainersValid(t) && ChildConforms(c, k) && c.connectionType == OneToAbstractMany
    ensures GetOneToAbstractManyParent(t, c, k) == (if c in t.oneToAbstractMany then LinkedParent(t, c, k) else None)
  {
  }

  /** `getOneToAbstractOneParent` answers `k`'s linked parent, and null when the table holds no map for the connection. */
  lemma AbstractOneParentAgrees(t: Tables, c: ConnectionId, k: ChildEntityId)
    requires ContainersValid(t) && ChildConforms(c, k) && c.connectionType == AbstractOneToOne
    ensures GetOneToAbstractOneParent(t, c, k) == (if c in t.abstractOneToOne then LinkedParent(t, c, k) else None)
  {
  }

  /** `getOneToManyChildren` is non-null exactly when the table holds the connection, and then lists `p`'s linked children in order. */
  lemma OneToManyChildrenAgree(t: Tables, c: ConnectionId, p: ParentEntityId)
    requires ContainersValid(t) && ParentConforms(c, p) && c.connectionType == OneToMany
    ensures GetOneToManyChildren(t, c, p.id.arrayId).Some? <==> c in t.oneToMany
    ensures c in t.oneToMany ==> ChildrenFromSlots(c, GetOneToManyChildren(t, c, p.id.arrayId).value) == LinkedChildren(t, c, p)
  {
  }

  /** `getOneToOneChild` answers `p`'s one linked child, and null when there is no map or no child. */
  lemma OneToOneChildAgrees(t: Tables, c: ConnectionId, p: ParentEntityId)
    requires ContainersValid(t) && ParentConforms(c, p) && c.connectionType == OneToOne
    ensures GetOneToOneChild(t, c, p.id.arrayId, ChildTransformer(c)) ==
            (if c in t.oneToOne && LinkedChildren(t, c, p) != [] then Some(LinkedChildren(t, c, p)[0]) else None)
  {
    if c in t.oneToOne && p.id.arrayId in t.oneToOne[c].Values {
      var q := KeyOf(t.oneToOne[c], p.id.arrayId);
      assert ChildTransformer(c)(q) == Some(ChildFromSlot(c, q));
    }
  }

  /** `getOneToAbstractManyChildren` lists `p`'s linked children in order, and is null when there is no map or no child. */
  lemma AbstractManyChildrenAgree(t: Tables, c: ConnectionId, p: ParentEntityId)
    requires ContainersValid(t) && ParentConforms(c, p) && c.connectionType == OneToAbstractMany
    ensures GetOneToAbstractManyChildren(t, c, p) ==
            (if c in t.oneToAbstractMany && LinkedChildren(t, c, p) != [] then Some(LinkedChildren(t, c, p)) else None)
  {
  }

  /** `getAbstractOneToOneChildren` answers `p`'s one linked child, and null when there is no map or no child. */
  lemma AbstractOneChildAgrees(t: Tables, c: ConnectionId, p: ParentEntityId)
    requires ContainersValid(t) && ParentConforms(c, p) && c.connectionType == AbstractOneToOne
    ensures GetAbstractOneToOneChildren(t, c, p) ==
            (if c in t.abstractOneToOne && LinkedChildren(t, c, p) != [] then Some(LinkedChildren(t, c, p)[0]) else None)
  {
  }
}
