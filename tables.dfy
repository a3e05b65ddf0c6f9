/**
 * A snapshot of the four relation containers of a reference table, and the
 * effect of every mutation of `MutableRefsTable` on such a snapshot.
 */
module TableSpec {
  import opened Wrappers
  import opened Ids
  import opened BiMaps

  /** Dense one-to-many: child slot to parent slot, children of a parent in order. */
  type DenseMany = seq<Link<int, int>>
  /** Dense one-to-one: child slot to parent slot, injective. */
  type DenseOne = map<int, int>
  /** Polymorphic one-to-many, keyed by full entity ids, in key insertion order. */
  type AbstractMany = seq<Link<ChildEntityId, ParentEntityId>>
  /** Polymorphic one-to-one, keyed by full entity ids, injective. */
  type AbstractOne = map<ChildEntityId, ParentEntityId>

  /** The contents of the four containers, each indexed by connection. */
  datatype Tables = Tables(
    oneToMany: map<ConnectionId, DenseMany>,
    oneToOne: map<ConnectionId, DenseOne>,
    oneToAbstractMany: map<ConnectionId, AbstractMany>,
    abstractOneToOne: map<ConnectionId, AbstractOne>)

  function EmptyTables(): Tables
  {
    Tables(map[], map[], map[], map[])
  }

  /** Every container keeps its own invariant: one parent per child, and injectivity for one-to-one. */
  predicate ContainersValid(t: Tables)
  {
    && (forall c :: c in t.oneToMany ==> Functional(t.oneToMany[c]))
    && (forall c :: c in t.oneToOne ==> Injective(t.oneToOne[c]))
    && (forall c :: c in t.oneToAbstractMany ==> Functional(t.oneToAbstractMany[c]))
    && (forall c :: c in t.abstractOneToOne ==> Injective(t.abstractOneToOne[c]))
  }

  /** Each container holds only connections of its own kind. */
  predicate Partitioned(t: Tables)
  {
    && (forall c :: c in t.oneToMany ==> c.connectionType == OneToMany)
    && (forall c :: c in t.oneToOne ==> c.connectionType == OneToOne)
    && (forall c :: c in t.oneToAbstractMany ==> c.connectionType == OneToAbstractMany)
    && (forall c :: c in t.abstractOneToOne ==> c.connectionType == AbstractOneToOne)
  }

  predicate WellFormed(t: Tables)
  {
    ContainersValid(t) && Partitioned(t)
  }

  // --- reading one connection's container; an absent container reads as empty

  function DenseManyAt(t: Tables, c: ConnectionId): DenseMany
  {
    if c in t.oneToMany then t.oneToMany[c] else []
  }

  function DenseOneAt(t: Tables, c: ConnectionId): DenseOne
  {
    if c in t.oneToOne then t.oneToOne[c] else map[]
  }

  function AbstractManyAt(t: Tables, c: ConnectionId): AbstractMany
  {
    if c in t.oneToAbstractMany then t.oneToAbstractMany[c] else []
  }

  function AbstractOneAt(t: Tables, c: ConnectionId): AbstractOne
  {
    if c in t.abstractOneToOne then t.abstractOneToOne[c] else map[]
  }

  function WithDenseMany(t: Tables, c: ConnectionId, s: DenseMany): Tables
  {
    t.(oneToMany := t.oneToMany[c := s])
  }

  function WithDenseOne(t: Tables, c: ConnectionId, m: DenseOne): Tables
  {
    t.(oneToOne := t.oneToOne[c := m])
  }

  function WithAbstractMany(t: Tables, c: ConnectionId, s: AbstractMany): Tables
  {
    t.(oneToAbstractMany := t.oneToAbstractMany[c := s])
  }

  function WithAbstractOne(t: Tables, c: ConnectionId, m: AbstractOne): Tables
  {
    t.(abstractOneToOne := t.abstractOneToOne[c := m])
  }

  /** Writing a valid container back keeps every container valid and changes nothing else. */
  lemma WithDenseManySpec(t: Tables, c: ConnectionId, s: DenseMany)
    requires ContainersValid(t) && Functional(s)
    ensures ContainersValid(WithDenseMany(t, c, s)) && ChangesOnly(t, WithDenseMany(t, c, s), c, OneToMany)
    ensures DenseManyAt(WithDenseMany(t, c, s), c) == s
  {
  }

  lemma WithDenseOneSpec(t: Tables, c: ConnectionId, m: DenseOne)
    requires ContainersValid(t) && Injective(m)
    ensures ContainersValid(WithDenseOne(t, c, m)) && ChangesOnly(t, WithDenseOne(t, c, m), c, OneToOne)
    ensures DenseOneAt(WithDenseOne(t, c, m), c) == m
  {
  }

  lemma WithAbstractManySpec(t: Tables, c: ConnectionId, s: AbstractMany)
    requires ContainersValid(t) && Functional(s)
    ensures ContainersValid(WithAbstractMany(t, c, s)) && ChangesOnly(t, WithAbstractMany(t, c, s), c, OneToAbstractMany)
    ensures AbstractManyAt(WithAbstractMany(t, c, s), c) == s
  {
  }

  lemma WithAbstractOneSpec(t: Tables, c: ConnectionId, m: AbstractOne)
    requires ContainersValid(t) && Injective(m)
    ensures ContainersValid(WithAbstractOne(t, c, m)) && ChangesOnly(t, WithAbstractOne(t, c, m), c, AbstractOneToOne)
    ensures AbstractOneAt(WithAbstractOne(t, c, m), c) == m
  {
  }

  /** `t2` differs from `t` at most in the container of `kind`, and there only at `c`, which it holds. */
  predicate ChangesOnly(t: Tables, t2: Tables, c: ConnectionId, kind: ConnectionType)
  {
    && (if kind == OneToMany then c in t2.oneToMany && t2.oneToMany - {c} == t.oneToMany - {c}
        else t2.oneToMany == t.oneToMany)
    && (if kind == OneToOne then c in t2.oneToOne && t2.oneToOne - {c} == t.oneToOne - {c}
        else t2.oneToOne == t.oneToOne)
    && (if kind == OneToAbstractMany then c in t2.oneToAbstractMany && t2.oneToAbstractMany - {c} == t.oneToAbstractMany - {c}
        else t2.oneToAbstractMany == t.oneToAbstractMany)
    && (if kind == AbstractOneToOne then c in t2.abstractOneToOne && t2.abstractOneToOne - {c} == t.abstractOneToOne - {c}
        else t2.abstractOneToOne == t.abstractOneToOne)
  }

  /** A change confined to the container of `c`'s own kind keeps the containers partitioned by kind. */
  lemma ChangesOnlyKeepsPartition(t: Tables, t2: Tables, c: ConnectionId)
    requires Partitioned(t) && ChangesOnly(t, t2, c, c.connectionType)
    ensures Partitioned(t2)
  {
    forall c2 | c2 in t2.oneToMany ensures c2.connectionType == OneToMany {
      if c2 != c { assert c2 in t2.oneToMany - {c}; }
    }
    forall c2 | c2 in t2.oneToOne ensures c2.connectionType == OneToOne {
      if c2 != c { assert c2 in t2.oneToOne - {c}; }
    }
    forall c2 | c2 in t2.oneToAbstractMany ensures c2.connectionType == OneToAbstractMany {
      if c2 != c { assert c2 in t2.oneToAbstractMany - {c}; }
    }
    forall c2 | c2 in t2.abstractOneToOne ensures c2.connectionType == AbstractOneToOne {
      if c2 != c { assert c2 in t2.abstractOneToOne - {c}; }
    }
  }

  // --- one connection seen through entity ids, whatever its kind

  predicate IsDense(c: ConnectionId)
  {
    c.connectionType == OneToMany || c.connectionType == OneToOne
  }

  /** A dense container stores slots only: the class of an id used with it must be the connection's. */
  predicate ParentConforms(c: ConnectionId, p: ParentEntityId)
  {
    IsDense(c) ==> p.id.clazz == c.parentClass
  }

  predicate ChildConforms(c: ConnectionId, k: ChildEntityId)
  {
    IsDense(c) ==> k.id.clazz == c.childClass
  }

  function ParentFromSlot(c: ConnectionId, slot: int): ParentEntityId
  {
    ParentEntityId(EntityId(c.parentClass, slot))
  }

  function ChildFromSlot(c: ConnectionId, slot: int): ChildEntityId
  {
    ChildEntityId(EntityId(c.childClass, slot))
  }

  function ChildrenFromSlots(c: ConnectionId, slots: seq<int>): (r: seq<ChildEntityId>)
    ensures |r| == |slots|
  {
    seq(|slots|, i requires 0 <= i < |slots| => ChildFromSlot(c, slots[i]))
  }

  function Slots(ks: seq<ChildEntityId>): (r: seq<int>)
    ensures |r| == |ks|
  {
    seq(|ks|, i requires 0 <= i < |ks| => ks[i].id.arrayId)
  }

  /** For ids of the connection's child class, slots carry all the information. */
  lemma SlotsOfConforming(c: ConnectionId, ks: seq<ChildEntityId>, j: ChildEntityId)
    requires IsDense(c) && ChildConforms(c, j)
    requires forall k :: k in ks ==> ChildConforms(c, k)
    ensures j in ks <==> j.id.arrayId in Slots(ks)
    ensures Distinct(ks) ==> Distinct(Slots(ks))
    ensures ChildrenFromSlots(c, Slots(ks)) == ks
  {
    if j.id.arrayId in Slots(ks) {
      var i :| 0 <= i < |ks| && Slots(ks)[i] == j.id.arrayId;
      assert ks[i] in ks;
      assert ks[i] == j;
    }
    if j in ks {
      var i :| 0 <= i < |ks| && ks[i] == j;
      assert Slots(ks)[i] == j.id.arrayId;
    }
    forall i | 0 <= i < |ks| ensures ChildrenFromSlots(c, Slots(ks))[i] == ks[i] {
      assert ks[i] in ks;
    }
    if Distinct(ks) {
      forall a, b | 0 <= a < b < |ks| ensures Slots(ks)[a] != Slots(ks)[b] {
        assert ks[a] in ks && ks[b] in ks;
      }
    }
  }

  /** An optional map lookup, so that one-to-one and one-to-many containers read alike. */
  function Lookup<K, V>(m: map<K, V>, k: K): Option<V>
  {
    if k in m then Some(m[k]) else None
  }

  /** The parent of `k` under connection `c`, if any. */
  function LinkedParent(t: Tables, c: ConnectionId, k: ChildEntityId): Option<ParentEntityId>
  {
    match c.connectionType
    case OneToMany =>
      (match ParentOf(DenseManyAt(t, c), k.id.arrayId)
       case Some(q) => Some(ParentFromSlot(c, q))
       case None => None)
    case OneToOne =>
      if k.id.arrayId in DenseOneAt(t, c) then Some(ParentFromSlot(c, DenseOneAt(t, c)[k.id.arrayId])) else None
    case OneToAbstractMany =>
      ParentOf(AbstractManyAt(t, c), k)
    case AbstractOneToOne =>
      if k in AbstractOneAt(t, c) then Some(AbstractOneAt(t, c)[k]) else None
  }

  /** The children of `p` under connection `c`, in order. */
  function LinkedChildren(t: Tables, c: ConnectionId, p: ParentEntityId): seq<ChildEntityId>
    requires ContainersValid(t)
  {
    match c.connectionType
    case OneToMany =>
      ChildrenFromSlots(c, ChildrenOf(DenseManyAt(t, c), p.id.arrayId))
    case OneToOne =>
      var m := DenseOneAt(t, c);
      if p.id.arrayId in m.Values then [ChildFromSlot(c, KeyOf(m, p.id.arrayId))] else []
    case OneToAbstractMany =>
      ChildrenOf(AbstractManyAt(t, c), p)
    case AbstractOneToOne =>
      var m := AbstractOneAt(t, c);
      if p in m.Values then [KeyOf(m, p)] else []
  }

  /** Both directions of every connection agree: `k` is among `p`'s children exactly when `p` is `k`'s parent. */
  lemma LinkedSymmetry(t: Tables, c: ConnectionId, k: ChildEntityId, p: ParentEntityId)
    requires ContainersValid(t) && ParentConforms(c, p) && ChildConforms(c, k)
    ensures k in LinkedChildren(t, c, p) <==> LinkedParent(t, c, k) == Some(p)
  {
    match c.connectionType
    case OneToMany =>
      var s := DenseManyAt(t, c);
      var kids := ChildrenOf(s, p.id.arrayId);
      ChildrenOfIffParentOf(s, k.id.arrayId, p.id.arrayId);
      if k in ChildrenFromSlots(c, kids) {
        var i :| 0 <= i < |kids| && ChildrenFromSlots(c, kids)[i] == k;
        assert kids[i] == k.id.arrayId;
      }
      if k.id.arrayId in kids {
        var i :| 0 <= i < |kids| && kids[i] == k.id.arrayId;
        assert ChildrenFromSlots(c, kids)[i] == k;
      }
    case OneToOne =>
    case OneToAbstractMany =>
      ChildrenOfIffParentOf(AbstractManyAt(t, c), k, p);
    case AbstractOneToOne =>
  }

  /** Two children of `p` under `c`, a one-to-many kind: a table `isOneToOne` rules out. */
  function TwoChildren(c: ConnectionId, p: ParentEntityId): Tables
  {
    if c.connectionType == OneToMany
    then WithDenseMany(EmptyTables(), c, [Link(0, p.id.arrayId), Link(1, p.id.arrayId)])
    else WithAbstractMany(EmptyTables(), c, [Link(ChildFromSlot(c, 0), p), Link(ChildFromSlot(c, 1), p)])
  }

  /**
   * `isOneToOne` picks out the kinds in which a parent has at most one child: under them no
   * valid table gives `p` two children, while under the other two kinds one does.
   */
  lemma IsOneToOneMeansOneChild(t: Tables, c: ConnectionId, p: ParentEntityId)
    requires ContainersValid(t)
    ensures c.IsOneToOne() ==> |LinkedChildren(t, c, p)| <= 1
    ensures !c.IsOneToOne() ==> ContainersValid(TwoChildren(c, p)) && |LinkedChildren(TwoChildren(c, p), c, p)| == 2
  {
    if !c.IsOneToOne() {
      var t2 := TwoChildren(c, p);
      if c.connectionType == OneToMany {
        var s := [Link(0, p.id.arrayId), Link(1, p.id.arrayId)];
        WithDenseManySpec(EmptyTables(), c, s);
        assert Init(s) == [s[0]] && Init([s[0]]) == [];
        assert ChildrenOf([s[0]], p.id.arrayId) == [0];
        assert ChildrenOf(s, p.id.arrayId) == [0] + [1];
      } else {
        var s := [Link(ChildFromSlot(c, 0), p), Link(ChildFromSlot(c, 1), p)];
        assert Init(s) == [s[0]] && Init([s[0]]) == [];
        WithAbstractManySpec(EmptyTables(), c, s);
        assert ChildrenOf([s[0]], p) == [ChildFromSlot(c, 0)];
        assert ChildrenOf(s, p) == [ChildFromSlot(c, 0)] + [ChildFromSlot(c, 1)];
      }
    }
  }

  /** A parent's children are listed without repetition. */
  lemma LinkedChildrenDistinct(t: Tables, c: ConnectionId, p: ParentEntityId)
    requires ContainersValid(t)
    ensures Distinct(LinkedChildren(t, c, p))
  {
    var kids := LinkedChildren(t, c, p);
    forall i, j | 0 <= i < j < |kids| ensures kids[i] != kids[j] {
      match c.connectionType
      case OneToMany =>
        var s := DenseManyAt(t, c);
        ChildrenOfDistinct(s, p.id.arrayId);
        assert ChildrenOf(s, p.id.arrayId)[i] != ChildrenOf(s, p.id.arrayId)[j];
      case OneToOne =>
      case OneToAbstractMany =>
        ChildrenOfDistinct(AbstractManyAt(t, c), p);
      case AbstractOneToOne =>
    }
  }

  lemma {:induction false} ChildrenOfDistinct<K, V>(s: seq<Link<K, V>>, v: V)
    requires Functional(s)
    ensures Distinct(ChildrenOf(s, v))
  {
    if s != [] {
      var init, x := Init(s), Last(s);
      assert s == init + [x];
      FunctionalSnoc(init, x);
      ChildrenOfDistinct(init, v);
      if x.parent == v {
        var kids := ChildrenOf(init, v);
        if x.child in kids {
          ChildrenOfIsLink(init, x.child, v);
          ParentOfNone(init, x.child);
          assert false;
        }
      }
    }
  }

  // ---------------------------------------------------------------------------
  // The effect of each mutation
  // ---------------------------------------------------------------------------

  /** Why `replaceChildrenOfParent` stopped with an error. */
  datatype Failure = DuplicateChildren | MultipleChildrenForOneToOne | ValueAlreadyPresent

  datatype Outcome = Done | Failed(failure: Failure)

  /** The tables after an operation that may fail part way, with how it ended. */
  datatype Replaced = Replaced(tables: Tables, outcome: Outcome)

  function RemoveOneToOneRefByParent(t: Tables, c: ConnectionId, p: int): Tables
  {
    WithDenseOne(t, c, RemoveValue(DenseOneAt(t, c), p))
  }

  function RemoveOneToAbstractOneRefByParent(t: Tables, c: ConnectionId, p: ParentEntityId): Tables
  {
    WithAbstractOne(t, c, RemoveValue(AbstractOneAt(t, c), p))
  }

  function RemoveOneToAbstractOneRefByChild(t: Tables, c: ConnectionId, k: ChildEntityId): Tables
  {
    WithAbstractOne(t, c, AbstractOneAt(t, c) - {k})
  }

  function RemoveOneToOneRefByChild(t: Tables, c: ConnectionId, k: int): Tables
  {
    WithDenseOne(t, c, DenseOneAt(t, c) - {k})
  }

  function RemoveOneToManyRefsByChild(t: Tables, c: ConnectionId, k: int): Tables
  {
    WithDenseMany(t, c, RemoveChild(DenseManyAt(t, c), k))
  }

  function RemoveOneToAbstractManyRefsByChild(t: Tables, c: ConnectionId, k: ChildEntityId): Tables
  {
    WithAbstractMany(t, c, RemoveChild(AbstractManyAt(t, c), k))
  }

  /** `removeRefsByParent`: unlink every child of `p` under `c`. */
  function RemoveRefsByParent(t: Tables, c: ConnectionId, p: ParentEntityId): Tables
  {
    match c.connectionType
    case OneToMany => WithDenseMany(t, c, RemoveParent(DenseManyAt(t, c), p.id.arrayId))
    case OneToOne => RemoveOneToOneRefByParent(t, c, p.id.arrayId)
    case OneToAbstractMany => WithAbstractMany(t, c, RemoveParent(AbstractManyAt(t, c), p))
    case AbstractOneToOne => RemoveOneToAbstractOneRefByParent(t, c, p)
  }

  /** `removeParentToChildRef`: unlink `k` from `p` under `c` if they are linked. */
  function RemoveParentToChildRef(t: Tables, c: ConnectionId, p: ParentEntityId, k: ChildEntityId): Tables
  {
    match c.connectionType
    case OneToMany => WithDenseMany(t, c, RemoveLink(DenseManyAt(t, c), k.id.arrayId, p.id.arrayId))
    case OneToOne => WithDenseOne(t, c, RemovePair(DenseOneAt(t, c), k.id.arrayId, p.id.arrayId))
    case OneToAbstractMany => WithAbstractMany(t, c, RemoveLink(AbstractManyAt(t, c), k, p))
    case AbstractOneToOne => WithAbstractOne(t, c, RemovePair(AbstractOneAt(t, c), k, p))
  }

  function ReplaceOneToManyChildrenOfParent(t: Tables, c: ConnectionId, p: int, ks: seq<ChildEntityId>): Tables
  {
    WithDenseMany(t, c, PutAllAppend(RemoveParent(DenseManyAt(t, c), p), Slots(ks), p))
  }

  function ReplaceOneToAbstractManyChildrenOfParent(t: Tables, c: ConnectionId, p: ParentEntityId, ks: seq<ChildEntityId>): Tables
  {
    WithAbstractMany(t, c, PutEachKeep(RemoveParent(AbstractManyAt(t, c), p), ks, p))
  }

  /** `replaceChildrenOfParent`: make `ks`, in order, the children of `p` under `c`. */
  function ReplaceChildrenOfParent(t: Tables, c: ConnectionId, p: ParentEntityId, ks: seq<ChildEntityId>): Replaced
  {
    if !Distinct(ks) then Replaced(t, Failed(DuplicateChildren))
    else match c.connectionType
      case OneToMany =>
        Replaced(ReplaceOneToManyChildrenOfParent(t, c, p.id.arrayId, ks), Done)
      case OneToOne =>
        var m := DenseOneAt(t, c);
        if |ks| == 0 then Replaced(WithDenseOne(t, c, RemoveValue(m, p.id.arrayId)), Done)
        else if |ks| == 1 then Replaced(WithDenseOne(t, c, ForcePut(m, ks[0].id.arrayId, p.id.arrayId)), Done)
        else Replaced(WithDenseOne(t, c, m), Failed(MultipleChildrenForOneToOne))
      case OneToAbstractMany =>
        var s := AbstractManyAt(t, c);
        Replaced(WithAbstractMany(t, c, PutEachKeep(RemoveEach(RemoveParent(s, p), ks), ks, p)), Done)
      case AbstractOneToOne =>
        var r := TryPutEach(RemoveValue(AbstractOneAt(t, c), p), ks, p);
        Replaced(WithAbstractOne(t, c, r.state), if r.ok then Done else Failed(ValueAlreadyPresent))
  }

  function ReplaceOneToAbstractOneParentOfChild(t: Tables, c: ConnectionId, k: ChildEntityId, p: ParentEntityId): Tables
  {
    var m := RemoveValue(AbstractOneAt(t, c) - {k}, p);
    WithAbstractOne(t, c, Put(m, k, p))
  }

  function ReplaceOneToAbstractOneChildOfParent(t: Tables, c: ConnectionId, p: ParentEntityId, k: ChildEntityId): Tables
  {
    WithAbstractOne(t, c, Put(RemoveValue(AbstractOneAt(t, c), p), k, p))
  }

  function ReplaceOneToOneChildOfParent(t: Tables, c: ConnectionId, p: int, k: ChildEntityId): Tables
  {
    WithDenseOne(t, c, Put(RemoveValue(DenseOneAt(t, c), p), k.id.arrayId, p))
  }

  function ReplaceOneToOneParentOfChild(t: Tables, c: ConnectionId, k: int, p: EntityId): Tables
  {
    WithDenseOne(t, c, ForcePut(DenseOneAt(t, c) - {k}, k, p.arrayId))
  }

  function ReplaceOneToManyParentOfChild(t: Tables, c: ConnectionId, k: int, p: ParentEntityId): Tables
  {
    WithDenseMany(t, c, PutAllAppend(RemoveChild(DenseManyAt(t, c), k), [k], p.id.arrayId))
  }

  function ReplaceOneToAbstractManyParentOfChild(t: Tables, c: ConnectionId, k: ChildEntityId, p: ParentEntityId): Tables
  {
    WithAbstractMany(t, c, PutKeep(RemoveChild(AbstractManyAt(t, c), k), k, p))
  }

  /** `replaceParentOfChild`: make `p` the one parent of `k` under `c`. */
  function ReplaceParentOfChild(t: Tables, c: ConnectionId, k: ChildEntityId, p: ParentEntityId): Tables
  {
    match c.connectionType
    case OneToMany => ReplaceOneToManyParentOfChild(t, c, k.id.arrayId, p)
    case OneToOne => ReplaceOneToOneParentOfChild(t, c, k.id.arrayId, p.id)
    case OneToAbstractMany => ReplaceOneToAbstractManyParentOfChild(t, c, k, p)
    case AbstractOneToOne =>
      WithAbstractOne(t, c, ForcePut(AbstractOneAt(t, c) - {k}, k, p))
  }
}
