/**
 * `RefsTable` and `MutableRefsTable`. A mutable table starts out sharing the
 * maps of the table it was made from; each connection's map is copied the
 * first time the mutable table writes to it, so the original never changes.
 * Dense maps are values here: the immutable ones cannot change, and the
 * mutable copy `toMutable` makes is private to the mutable table. Polymorphic
 * maps are shared objects until the mutable table copies them into fresh ones.
 */
module RefsTables {
  import opened Wrappers
  import opened Ids
  import opened BiMaps
  import opened TableSpec
  import opened Containers
  import opened MutableContainers

  /** An immutable reference table. Its polymorphic maps may be shared with mutable tables. */
  class RefsTable {
    const oneToMany: map<ConnectionId, DenseMany>
    const oneToOne: map<ConnectionId, DenseOne>
    const oneToAbstractMany: map<ConnectionId, LinkedBiMap>
    const abstractOneToOne: map<ConnectionId, HashBiMap>

    /** The contents of the four containers. */
    function View(): Tables
      reads oneToAbstractMany.Values, abstractOneToOne.Values
    {
      Tables(
        oneToMany,
        oneToOne,
        LinksOf(oneToAbstractMany),
        PairsOf(abstractOneToOne))
    }

    /** Every map keeps its own invariant. */
    ghost predicate Valid()
      reads oneToAbstractMany.Values, abstractOneToOne.Values
    {
      && (forall c :: c in oneToMany ==> Functional(oneToMany[c]))
      && (forall c :: c in oneToOne ==> Injective(oneToOne[c]))
      && (forall c :: c in oneToAbstractMany ==> Functional(oneToAbstractMany[c].links))
      && (forall c :: c in abstractOneToOne ==> Injective(abstractOneToOne[c].m))
    }

    lemma ValidContainers()
      requires Valid()
      ensures ContainersValid(View())
    {
    }

    /** The empty table. */
    constructor ()
      ensures Valid() && View() == EmptyTables()
    {
      oneToMany := map[];
      oneToOne := map[];
      oneToAbstractMany := map[];
      abstractOneToOne := map[];
    }

    constructor Of(oneToMany: map<ConnectionId, DenseMany>, oneToOne: map<ConnectionId, DenseOne>,
                   oneToAbstractMany: map<ConnectionId, LinkedBiMap>, abstractOneToOne: map<ConnectionId, HashBiMap>)
      ensures this.oneToMany == oneToMany && this.oneToOne == oneToOne
      ensures this.oneToAbstractMany == oneToAbstractMany && this.abstractOneToOne == abstractOneToOne
    {
      this.oneToMany := oneToMany;
      this.oneToOne := oneToOne;
      this.oneToAbstractMany := oneToAbstractMany;
      this.abstractOneToOne := abstractOneToOne;
    }
  }


  /** `toMutableContainer` of both polymorphic containers of `other`: fresh containers over its maps. */
  method ShareContainers(other: RefsTable) returns (a: OneToAbstractManyContainer, b: AbstractOneToOneContainer)
    requires other.Valid()
    ensures a.Valid() && b.Valid() && fresh(a) && fresh(b) && a.owned == {} && b.owned == {}
    ensures a.contents == other.View().oneToAbstractMany && b.contents == other.View().abstractOneToOne
    ensures a.maps == other.oneToAbstractMany && b.maps == other.abstractOneToOne
    ensures a.copiedToModify == {} && b.copiedToModify == {}
  {
    a := new OneToAbstractManyContainer.From(other.oneToAbstractMany);
    b := new AbstractOneToOneContainer.From(other.abstractOneToOne);
  }

  /** Every connection of `before` but `c` maps to the same object in `after`. */
  ghost predicate Keeps<M>(before: map<ConnectionId, M>, after: map<ConnectionId, M>, c: ConnectionId)
  {
    forall d :: d in before && d != c ==> d in after && after[d] == before[d]
  }

  /** A reference table under construction, copy-on-write over the table it was made from. */
  class MutableRefsTable {
    var oneToMany: map<ConnectionId, DenseMany>
    var oneToOne: map<ConnectionId, DenseOne>
    const oneToAbstractManyContainer: OneToAbstractManyContainer
    const abstractOneToOneContainer: AbstractOneToOneContainer

    /** The objects this table may write: itself, its two polymorphic containers and their copies. */
    ghost function Repr(): set<object>
      reads oneToAbstractManyContainer, abstractOneToOneContainer
    {
      {this, oneToAbstractManyContainer, abstractOneToOneContainer}
        + oneToAbstractManyContainer.owned + abstractOneToOneContainer.owned
    }

    /** The contents of the four containers. */
    ghost function View(): Tables
      reads this, oneToAbstractManyContainer, abstractOneToOneContainer
    {
      Tables(oneToMany, oneToOne, oneToAbstractManyContainer.contents, abstractOneToOneContainer.contents)
    }

    ghost predicate Valid()
      reads this, oneToAbstractManyContainer, oneToAbstractManyContainer.maps.Values
      reads abstractOneToOneContainer, abstractOneToOneContainer.maps.Values
    {
      && (forall c :: c in oneToMany ==> Functional(oneToMany[c]))
      && (forall c :: c in oneToOne ==> Injective(oneToOne[c]))
      && oneToAbstractManyContainer.Valid()
      && abstractOneToOneContainer.Valid()
    }

    /** Every connection but `c` still holds the polymorphic map object it held before. */
    twostate predicate KeepsOtherMaps(c: ConnectionId)
      reads this, oneToAbstractManyContainer, abstractOneToOneContainer
    {
      && Keeps(old(oneToAbstractManyContainer.maps), oneToAbstractManyContainer.maps, c)
      && Keeps(old(abstractOneToOneContainer.maps), abstractOneToOneContainer.maps, c)
    }

    /** `from`: a mutable table over `other`'s maps, none of them copied yet. */
    constructor From(other: RefsTable)
      requires other.Valid()
      ensures Valid() && View() == other.View()
      ensures fresh(oneToAbstractManyContainer) && fresh(abstractOneToOneContainer)
      ensures oneToAbstractManyContainer.owned == {} && abstractOneToOneContainer.owned == {}
      ensures oneToAbstractManyContainer.maps == other.oneToAbstractMany
      ensures abstractOneToOneContainer.maps == other.abstractOneToOne
      ensures oneToAbstractManyContainer.copiedToModify == {} && abstractOneToOneContainer.copiedToModify == {}
    {
      oneToMany := other.oneToMany;
      oneToOne := other.oneToOne;
      var a, b := ShareContainers(other);
      oneToAbstractManyContainer, abstractOneToOneContainer := a, b;
    }

    /** `getOneToManyMutableMap(c)` followed by its updates: `s` becomes the map of `c`. */
    method SetOneToMany(c: ConnectionId, s: DenseMany)
      requires Valid() && Functional(s)
      modifies this`oneToMany
      ensures Valid() && View() == WithDenseMany(old(View()), c, s)
    {
      oneToMany := oneToMany[c := s];
    }

    /** `getOneToOneMutableMap(c)` followed by its updates: `m` becomes the map of `c`. */
    method SetOneToOne(c: ConnectionId, m: DenseOne)
      requires Valid() && Injective(m)
      modifies this`oneToOne
      ensures Valid() && View() == WithDenseOne(old(View()), c, m)
    {
      oneToOne := oneToOne[c := m];
    }

    method RemoveOneToManyRefsByChild(c: ConnectionId, k: int)
      requires Valid()
      modifies Repr()
      ensures Valid() && View() == TableSpec.RemoveOneToManyRefsByChild(old(View()), c, k)
      ensures forall o :: o in Repr() && o !in old(Repr()) ==> fresh(o)
      ensures KeepsOtherMaps(c)
    {
      var s := if c in oneToMany then oneToMany[c] else [];
      RemoveChildSpec(s, k, k);
      SetOneToMany(c, RemoveChild(s, k));
    }

    method RemoveOneToAbstractManyRefsByChild(c: ConnectionId, k: ChildEntityId)
      requires Valid()
      modifies Repr()
      ensures Valid() && View() == TableSpec.RemoveOneToAbstractManyRefsByChild(old(View()), c, k)
      ensures forall o :: o in Repr() && o !in old(Repr()) ==> fresh(o)
      ensures KeepsOtherMaps(c)
    {
      oneToAbstractManyContainer.Remove(c, k);
    }

    method RemoveOneToOneRefByParent(c: ConnectionId, p: int)
      requires Valid()
      modifies Repr()
      ensures Valid() && View() == TableSpec.RemoveOneToOneRefByParent(old(View()), c, p)
      ensures forall o :: o in Repr() && o !in old(Repr()) ==> fresh(o)
      ensures KeepsOtherMaps(c)
    {
      var m := if c in oneToOne then oneToOne[c] else map[];
      OneToOneOpsInjective(m, p, p);
      SetOneToOne(c, RemoveValue(m, p));
    }

    method RemoveOneToAbstractOneRefByParent(c: ConnectionId, p: ParentEntityId)
      requires Valid()
      modifies Repr()
      ensures Valid() && View() == TableSpec.RemoveOneToAbstractOneRefByParent(old(View()), c, p)
      ensures forall o :: o in Repr() && o !in old(Repr()) ==> fresh(o)
      ensures KeepsOtherMaps(c)
    {
      abstractOneToOneContainer.InverseRemove(c, p);
    }

    method RemoveOneToAbstractOneRefByChild(c: ConnectionId, k: ChildEntityId)
      requires Valid()
      modifies Repr()
      ensures Valid() && View() == TableSpec.RemoveOneToAbstractOneRefByChild(old(View()), c, k)
      ensures forall o :: o in Repr() && o !in old(Repr()) ==> fresh(o)
      ensures KeepsOtherMaps(c)
    {
      abstractOneToOneContainer.Remove(c, k);
    }

    method RemoveOneToOneRefByChild(c: ConnectionId, k: int)
      requires Valid()
      modifies Repr()
      ensures Valid() && View() == TableSpec.RemoveOneToOneRefByChild(old(View()), c, k)
      ensures forall o :: o in Repr() && o !in old(Repr()) ==> fresh(o)
      ensures KeepsOtherMaps(c)
    {
      var m := if c in oneToOne then oneToOne[c] else map[];
      OneToOneOpsInjective(m, k, k);
      SetOneToOne(c, m - {k});
    }

    /** `removeRefsByParent`: unlink every child of `p` under `c`. */
    method RemoveRefsByParent(c: ConnectionId, p: ParentEntityId)
      requires Valid()
      modifies Repr()
      ensures Valid() && View() == TableSpec.RemoveRefsByParent(old(View()), c, p)
      ensures forall o :: o in Repr() && o !in old(Repr()) ==> fresh(o)
      ensures KeepsOtherMaps(c)
    {
      match c.connectionType
      case OneToMany =>
        var s := if c in oneToMany then oneToMany[c] else [];
        RemoveParentSpec(s, p.id.arrayId, 0);
        SetOneToMany(c, RemoveParent(s, p.id.arrayId));
      case OneToOne =>
        RemoveOneToOneRefByParent(c, p.id.arrayId);
      case OneToAbstractMany =>
        oneToAbstractManyContainer.RemoveValue(c, p);
      case AbstractOneToOne =>
        RemoveOneToAbstractOneRefByParent(c, p);
    }

    /** `removeParentToChildRef`: unlink `k` from `p` under `c` if they are linked. */
    method RemoveParentToChildRef(c: ConnectionId, p: ParentEntityId, k: ChildEntityId)
      requires Valid()
      modifies Repr()
      ensures Valid() && View() == TableSpec.RemoveParentToChildRef(old(View()), c, p, k)
      ensures forall o :: o in Repr() && o !in old(Repr()) ==> fresh(o)
      ensures KeepsOtherMaps(c)
    {
      match c.connectionType
      case OneToMany =>
        var s := if c in oneToMany then oneToMany[c] else [];
        RemoveLinkSpec(s, k.id.arrayId, p.id.arrayId, 0);
        SetOneToMany(c, RemoveLink(s, k.id.arrayId, p.id.arrayId));
      case OneToOne =>
        var m := if c in oneToOne then oneToOne[c] else map[];
        OneToOneOpsInjective(m, k.id.arrayId, p.id.arrayId);
        SetOneToOne(c, RemovePair(m, k.id.arrayId, p.id.arrayId));
      case OneToAbstractMany =>
        oneToAbstractManyContainer.RemoveLink(c, k, p);
      case AbstractOneToOne =>
        abstractOneToOneContainer.RemovePair(c, k, p);
    }

    method ReplaceOneToManyChildrenOfParent(c: ConnectionId, p: int, ks: seq<ChildEntityId>)
      requires Valid()
      modifies Repr()
      ensures Valid() && View() == TableSpec.ReplaceOneToManyChildrenOfParent(old(View()), c, p, ks)
      ensures forall o :: o in Repr() && o !in old(Repr()) ==> fresh(o)
      ensures KeepsOtherMaps(c)
    {
      var s := if c in oneToMany then oneToMany[c] else [];
      RemoveParentSpec(s, p, 0);
      PutAllAppendSpec(RemoveParent(s, p), Slots(ks), p, 0);
      SetOneToMany(c, PutAllAppend(RemoveParent(s, p), Slots(ks), p));
    }

    method ReplaceOneToAbstractManyChildrenOfParent(c: ConnectionId, p: ParentEntityId, ks: seq<ChildEntityId>)
      requires Valid()
      modifies Repr()
      ensures Valid() && View() == TableSpec.ReplaceOneToAbstractManyChildrenOfParent(old(View()), c, p, ks)
      ensures forall o :: o in Repr() && o !in old(Repr()) ==> fresh(o)
      ensures KeepsOtherMaps(c)
    {
      oneToAbstractManyContainer.ReplaceChildren(c, p, ks);
    }

    /**
     * `replaceChildrenOfParent`: make `ks`, in order, the children of `p` under `c`;
     * the errors the source raises come back as a `Failed` outcome.
     */
    method ReplaceChildrenOfParent(c: ConnectionId, p: ParentEntityId, ks: seq<ChildEntityId>) returns (outcome: Outcome)
      requires Valid()
      modifies Repr()
      ensures Valid() && Replaced(View(), outcome) == TableSpec.ReplaceChildrenOfParent(old(View()), c, p, ks)
      ensures forall o :: o in Repr() && o !in old(Repr()) ==> fresh(o)
      ensures KeepsOtherMaps(c)
    {
      DistinctIffSetSize(ks);
      if |Elements(ks)| != |ks| {
        return Failed(DuplicateChildren);
      }
      outcome := Done;
      match c.connectionType
      case OneToMany =>
        ReplaceOneToManyChildrenOfParent(c, p.id.arrayId, ks);
      case OneToOne =>
        outcome := ReplaceOneToOneChildren(c, p, ks);
      case OneToAbstractMany =>
        oneToAbstractManyContainer.RelinkChildren(c, p, ks);
      case AbstractOneToOne =>
        outcome := ReplaceAbstractOneToOneChildren(c, p, ks);
    }

    /** The one-to-one branch of `replaceChildrenOfParent`: at most one child fits. */
    method ReplaceOneToOneChildren(c: ConnectionId, p: ParentEntityId, ks: seq<ChildEntityId>) returns (outcome: Outcome)
      requires Valid() && Distinct(ks) && c.connectionType == OneToOne
      modifies this`oneToOne
      ensures Valid() && Replaced(View(), outcome) == TableSpec.ReplaceChildrenOfParent(old(View()), c, p, ks)
    {
      var m := if c in oneToOne then oneToOne[c] else map[];
      outcome := Done;
      if |ks| == 0 {
        OneToOneOpsInjective(m, 0, p.id.arrayId);
        SetOneToOne(c, RemoveValue(m, p.id.arrayId));
      } else if |ks| == 1 {
        OneToOneOpsInjective(m, ks[0].id.arrayId, p.id.arrayId);
        SetOneToOne(c, ForcePut(m, ks[0].id.arrayId, p.id.arrayId));
      } else {
        SetOneToOne(c, m);
        outcome := Failed(MultipleChildrenForOneToOne);
      }
    }

    /** The abstract one-to-one branch of `replaceChildrenOfParent`: Guava refuses a second child of `p`. */
    method ReplaceAbstractOneToOneChildren(c: ConnectionId, p: ParentEntityId, ks: seq<ChildEntityId>) returns (outcome: Outcome)
      requires Valid() && Distinct(ks) && c.connectionType == AbstractOneToOne
      modifies Repr()
      ensures Valid() && Replaced(View(), outcome) == TableSpec.ReplaceChildrenOfParent(old(View()), c, p, ks)
      ensures forall o :: o in Repr() && o !in old(Repr()) ==> fresh(o)
      ensures KeepsOtherMaps(c)
    {
      var ok := abstractOneToOneContainer.ReplaceChildren(c, p, ks);
      outcome := if ok then Done else Failed(ValueAlreadyPresent);
    }

    method ReplaceOneToAbstractOneParentOfChild(c: ConnectionId, k: ChildEntityId, p: ParentEntityId)
      requires Valid()
      modifies Repr()
      ensures Valid() && View() == TableSpec.ReplaceOneToAbstractOneParentOfChild(old(View()), c, k, p)
      ensures forall o :: o in Repr() && o !in old(Repr()) ==> fresh(o)
      ensures KeepsOtherMaps(c)
    {
      abstractOneToOneContainer.ReplaceParentOfChild(c, k, p);
    }

    method ReplaceOneToAbstractOneChildOfParent(c: ConnectionId, p: ParentEntityId, k: ChildEntityId)
      requires Valid()
      modifies Repr()
      ensures Valid() && View() == TableSpec.ReplaceOneToAbstractOneChildOfParent(old(View()), c, p, k)
      ensures forall o :: o in Repr() && o !in old(Repr()) ==> fresh(o)
      ensures KeepsOtherMaps(c)
    {
      abstractOneToOneContainer.ReplaceChildOfParent(c, p, k);
    }

    method ReplaceOneToOneChildOfParent(c: ConnectionId, p: int, k: ChildEntityId)
      requires Valid()
      modifies Repr()
      ensures Valid() && View() == TableSpec.ReplaceOneToOneChildOfParent(old(View()), c, p, k)
      ensures forall o :: o in Repr() && o !in old(Repr()) ==> fresh(o)
      ensures KeepsOtherMaps(c)
    {
      var m := if c in oneToOne then oneToOne[c] else map[];
      OneToOneOpsInjective(m, k.id.arrayId, p);
      var freed := RemoveValue(m, p);
      OneToOneOpsInjective(freed, k.id.arrayId, p);
      SetOneToOne(c, Put(freed, k.id.arrayId, p));
    }

    method ReplaceOneToOneParentOfChild(c: ConnectionId, k: int, p: EntityId)
      requires Valid()
      modifies Repr()
      ensures Valid() && View() == TableSpec.ReplaceOneToOneParentOfChild(old(View()), c, k, p)
      ensures forall o :: o in Repr() && o !in old(Repr()) ==> fresh(o)
      ensures KeepsOtherMaps(c)
    {
      var m := if c in oneToOne then oneToOne[c] else map[];
      OneToOneOpsInjective(m, k, p.arrayId);
      OneToOneOpsInjective(m - {k}, k, p.arrayId);
      SetOneToOne(c, ForcePut(m - {k}, k, p.arrayId));
    }

    method ReplaceOneToManyParentOfChild(c: ConnectionId, k: int, p: ParentEntityId)
      requires Valid()
      modifies Repr()
      ensures Valid() && View() == TableSpec.ReplaceOneToManyParentOfChild(old(View()), c, k, p)
      ensures forall o :: o in Repr() && o !in old(Repr()) ==> fresh(o)
      ensures KeepsOtherMaps(c)
    {
      var s := if c in oneToMany then oneToMany[c] else [];
      RemoveChildSpec(s, k, k);
      PutAllAppendSpec(RemoveChild(s, k), [k], p.id.arrayId, k);
      SetOneToMany(c, PutAllAppend(RemoveChild(s, k), [k], p.id.arrayId));
    }

    method ReplaceOneToAbstractManyParentOfChild(c: ConnectionId, k: ChildEntityId, p: ParentEntityId)
      requires Valid()
      modifies Repr()
      ensures Valid() && View() == TableSpec.ReplaceOneToAbstractManyParentOfChild(old(View()), c, k, p)
      ensures forall o :: o in Repr() && o !in old(Repr()) ==> fresh(o)
      ensures KeepsOtherMaps(c)
    {
      oneToAbstractManyContainer.Reparent(c, k, p);
    }

    /** `replaceParentOfChild`: make `p` the one parent of `k` under `c`. */
    method ReplaceParentOfChild(c: ConnectionId, k: ChildEntityId, p: ParentEntityId)
      requires Valid()
      modifies Repr()
      ensures Valid() && View() == TableSpec.ReplaceParentOfChild(old(View()), c, k, p)
      ensures forall o :: o in Repr() && o !in old(Repr()) ==> fresh(o)
      ensures KeepsOtherMaps(c)
    {
      match c.connectionType
      case OneToMany =>
        ReplaceOneToManyParentOfChild(c, k.id.arrayId, p);
      case OneToOne =>
        ReplaceOneToOneParentOfChild(c, k.id.arrayId, p.id);
      case OneToAbstractMany =>
        ReplaceOneToAbstractManyParentOfChild(c, k, p);
      case AbstractOneToOne =>
        abstractOneToOneContainer.ForceParentOfChild(c, k, p);
    }

    /** `toImmutable`: an immutable table over this table's current maps. */
    method ToImmutable() returns (t: RefsTable)
      requires Valid()
      ensures t.Valid() && t.View() == View()
      ensures t.oneToAbstractMany == oneToAbstractManyContainer.maps
      ensures t.abstractOneToOne == abstractOneToOneContainer.maps
    {
      t := new RefsTable.Of(oneToMany, oneToOne, oneToAbstractManyContainer.maps, abstractOneToOneContainer.maps);
    }
  }
  /** One of the updates `MutableRefsTable` offers, with its arguments; slots are dense ids. */
  datatype Edit =
    | UnlinkParent(c: ConnectionId, p: ParentEntityId)
    | UnlinkOneToOneParent(c: ConnectionId, pSlot: int)
    | UnlinkOneToAbstractOneParent(c: ConnectionId, p: ParentEntityId)
    | UnlinkOneToAbstractOneChild(c: ConnectionId, k: ChildEntityId)
    | UnlinkOneToOneChild(c: ConnectionId, kSlot: int)
    | UnlinkOneToManyChild(c: ConnectionId, kSlot: int)
    | UnlinkOneToAbstractManyChild(c: ConnectionId, k: ChildEntityId)
    | UnlinkPair(c: ConnectionId, p: ParentEntityId, k: ChildEntityId)
    | SetChildren(c: ConnectionId, p: ParentEntityId, ks: seq<ChildEntityId>)
    | SetOneToManyChildren(c: ConnectionId, pSlot: int, ks: seq<ChildEntityId>)
    | SetOneToAbstractManyChildren(c: ConnectionId, p: ParentEntityId, ks: seq<ChildEntityId>)
    | SetOneToAbstractOneParent(c: ConnectionId, k: ChildEntityId, p: ParentEntityId)
    | SetOneToAbstractOneChild(c: ConnectionId, p: ParentEntityId, k: ChildEntityId)
    | SetOneToOneChild(c: ConnectionId, pSlot: int, k: ChildEntityId)
    | SetOneToOneParent(c: ConnectionId, kSlot: int, parent: EntityId)
    | SetParent(c: ConnectionId, k: ChildEntityId, p: ParentEntityId)
    | SetOneToManyParent(c: ConnectionId, kSlot: int, p: ParentEntityId)
    | SetOneToAbstractManyParent(c: ConnectionId, k: ChildEntityId, p: ParentEntityId)

  function ApplyEdit(t: Tables, e: Edit): Tables
  {
    match e
    case UnlinkParent(c, p) => RemoveRefsByParent(t, c, p)
    case UnlinkOneToOneParent(c, p) => RemoveOneToOneRefByParent(t, c, p)
    case UnlinkOneToAbstractOneParent(c, p) => RemoveOneToAbstractOneRefByParent(t, c, p)
    case UnlinkOneToAbstractOneChild(c, k) => RemoveOneToAbstractOneRefByChild(t, c, k)
    case UnlinkOneToOneChild(c, k) => RemoveOneToOneRefByChild(t, c, k)
    case UnlinkOneToManyChild(c, k) => RemoveOneToManyRefsByChild(t, c, k)
    case UnlinkOneToAbstractManyChild(c, k) => RemoveOneToAbstractManyRefsByChild(t, c, k)
    case UnlinkPair(c, p, k) => RemoveParentToChildRef(t, c, p, k)
    case SetChildren(c, p, ks) => ReplaceChildrenOfParent(t, c, p, ks).tables
    case SetOneToManyChildren(c, p, ks) => ReplaceOneToManyChildrenOfParent(t, c, p, ks)
    case SetOneToAbstractManyChildren(c, p, ks) => ReplaceOneToAbstractManyChildrenOfParent(t, c, p, ks)
    case SetOneToAbstractOneParent(c, k, p) => ReplaceOneToAbstractOneParentOfChild(t, c, k, p)
    case SetOneToAbstractOneChild(c, p, k) => ReplaceOneToAbstractOneChildOfParent(t, c, p, k)
    case SetOneToOneChild(c, p, k) => ReplaceOneToOneChildOfParent(t, c, p, k)
    case SetOneToOneParent(c, k, p) => ReplaceOneToOneParentOfChild(t, c, k, p)
    case SetParent(c, k, p) => ReplaceParentOfChild(t, c, k, p)
    case SetOneToManyParent(c, k, p) => ReplaceOneToManyParentOfChild(t, c, k, p)
    case SetOneToAbstractManyParent(c, k, p) => ReplaceOneToAbstractManyParentOfChild(t, c, k, p)
  }

  /** The tables after the edits, first to last. */
  function ApplyEdits(t: Tables, es: seq<Edit>): Tables
  {
    if es == [] then t else ApplyEdit(ApplyEdits(t, Init(es)), Last(es))
  }

  /** No edit of `es` names connection `c`. */
  predicate Untouched(es: seq<Edit>, c: ConnectionId)
  {
    forall i :: 0 <= i < |es| ==> es[i].c != c
  }

  /** The call of `MutableRefsTable` that `e` stands for; part of the `EditCopy` harness. */
  method Perform(mt: MutableRefsTable, e: Edit)
    requires mt.Valid()
    modifies mt.Repr()
    ensures mt.Valid() && mt.View() == ApplyEdit(old(mt.View()), e)
    ensures forall o :: o in mt.Repr() && o !in old(mt.Repr()) ==> fresh(o)
    ensures mt.KeepsOtherMaps(e.c)
  {
    match e
    case UnlinkParent(c, p) => mt.RemoveRefsByParent(c, p);
    case UnlinkOneToOneParent(c, p) => mt.RemoveOneToOneRefByParent(c, p);
    case UnlinkOneToAbstractOneParent(c, p) => mt.RemoveOneToAbstractOneRefByParent(c, p);
    case UnlinkOneToAbstractOneChild(c, k) => mt.RemoveOneToAbstractOneRefByChild(c, k);
    case UnlinkOneToOneChild(c, k) => mt.RemoveOneToOneRefByChild(c, k);
    case UnlinkOneToManyChild(c, k) => mt.RemoveOneToManyRefsByChild(c, k);
    case UnlinkOneToAbstractManyChild(c, k) => mt.RemoveOneToAbstractManyRefsByChild(c, k);
    case UnlinkPair(c, p, k) => mt.RemoveParentToChildRef(c, p, k);
    case SetChildren(c, p, ks) => var _ := mt.ReplaceChildrenOfParent(c, p, ks);
    case SetOneToManyChildren(c, p, ks) => mt.ReplaceOneToManyChildrenOfParent(c, p, ks);
    case SetOneToAbstractManyChildren(c, p, ks) => mt.ReplaceOneToAbstractManyChildrenOfParent(c, p, ks);
    case SetOneToAbstractOneParent(c, k, p) => mt.ReplaceOneToAbstractOneParentOfChild(c, k, p);
    case SetOneToAbstractOneChild(c, p, k) => mt.ReplaceOneToAbstractOneChildOfParent(c, p, k);
    case SetOneToOneChild(c, p, k) => mt.ReplaceOneToOneChildOfParent(c, p, k);
    case SetOneToOneParent(c, k, p) => mt.ReplaceOneToOneParentOfChild(c, k, p);
    case SetParent(c, k, p) => mt.ReplaceParentOfChild(c, k, p);
    case SetOneToManyParent(c, k, p) => mt.ReplaceOneToManyParentOfChild(c, k, p);
    case SetOneToAbstractManyParent(c, k, p) => mt.ReplaceOneToAbstractManyParentOfChild(c, k, p);
  }

  /** Each connection of `base` that no edit of `es` names maps to the same object in `maps`. */
  ghost predicate Shares<M>(base: map<ConnectionId, M>, maps: map<ConnectionId, M>, es: seq<Edit>)
  {
    forall c :: c in base && Untouched(es, c) ==> c in maps && maps[c] == base[c]
  }

  /** Each connection of `t` that no edit of `es` names still has `t`'s own map object in `mt`. */
  ghost predicate SharesUntouched(t: RefsTable, mt: MutableRefsTable, es: seq<Edit>)
    reads mt.oneToAbstractManyContainer, mt.abstractOneToOneContainer
  {
    && Shares(t.oneToAbstractMany, mt.oneToAbstractManyContainer.maps, es)
    && Shares(t.abstractOneToOne, mt.abstractOneToOneContainer.maps, es)
  }

  /** A connection no edit up to the `i`-th names is untouched before it, and the `i`-th does not name it. */
  lemma UntouchedPrefix(es: seq<Edit>, i: nat, c: ConnectionId)
    requires i < |es| && Untouched(es[..i + 1], c)
    ensures Untouched(es[..i], c) && es[i].c != c
  {
    assert es[..i + 1][i] == es[i];
    forall j | 0 <= j < i ensures es[..i][j].c != c {
      assert es[..i][j] == es[..i + 1][j];
    }
  }

  /** An edit that keeps every other connection's object keeps the untouched connections shared. */
  lemma SharingKept<M>(base: map<ConnectionId, M>, before: map<ConnectionId, M>, after: map<ConnectionId, M>,
                           es: seq<Edit>, i: nat)
    requires i < |es| && Shares(base, before, es[..i]) && Keeps(before, after, es[i].c)
    ensures Shares(base, after, es[..i + 1])
  {
    forall c | c in base && Untouched(es[..i + 1], c) ensures c in after && after[c] == base[c] {
      UntouchedPrefix(es, i, c);
    }
  }

  /** The edits of `es` up to and including the `i`-th are those before it, then the `i`-th. */
  lemma ApplyEditsSnoc(t: Tables, es: seq<Edit>, i: nat)
    requires i < |es|
    ensures ApplyEdits(t, es[..i + 1]) == ApplyEdit(ApplyEdits(t, es[..i]), es[i])
  {
    assert Init(es[..i + 1]) == es[..i] && Last(es[..i + 1]) == es[i];
  }

  /**
   * One edit of `EditCopy`: the maps of the base table lie outside what the edit may write.
   * Like `EditCopy`, a proof harness with no counterpart in the Kotlin class.
   */
  method Step(t: RefsTable, mt: MutableRefsTable, es: seq<Edit>, i: nat)
    requires i < |es| && mt.Valid()
    requires forall o :: o in mt.Repr() ==> o !in t.oneToAbstractMany.Values && o !in t.abstractOneToOne.Values
    requires t.Valid() && SharesUntouched(t, mt, es[..i])
    modifies mt.Repr()
    ensures mt.Valid() && mt.View() == ApplyEdit(old(mt.View()), es[i])
    ensures forall o :: o in mt.Repr() && o !in old(mt.Repr()) ==> fresh(o)
    ensures t.Valid() && t.View() == old(t.View())
    ensures SharesUntouched(t, mt, es[..i + 1])
  {
    ghost var many := mt.oneToAbstractManyContainer.maps;
    ghost var one := mt.abstractOneToOneContainer.maps;
    Perform(mt, es[i]);
    SharingKept(t.oneToAbstractMany, many, mt.oneToAbstractManyContainer.maps, es, i);
    SharingKept(t.abstractOneToOne, one, mt.abstractOneToOneContainer.maps, es, i);
  }

  /**
   * Copy-on-write: a mutable table made `from` `t` and edited any number of times
   * holds `t`'s contents with the edits applied, while `t` itself is left as it was;
   * a connection no edit names still holds `t`'s own map object. No loop of the Kotlin class
   * corresponds to this method: it is the statement of the copy-on-write promise `from` makes,
   * for any sequence of mutator calls a client may issue.
   */
  method EditCopy(t: RefsTable, es: seq<Edit>) returns (mt: MutableRefsTable)
    requires t.Valid()
    ensures mt.Valid() && mt.View() == ApplyEdits(t.View(), es)
    ensures t.Valid() && t.View() == old(t.View())
    ensures forall c :: c in t.oneToAbstractMany && Untouched(es, c) ==>
      c in mt.oneToAbstractManyContainer.maps && mt.oneToAbstractManyContainer.maps[c] == t.oneToAbstractMany[c]
    ensures forall c :: c in t.abstractOneToOne && Untouched(es, c) ==>
      c in mt.abstractOneToOneContainer.maps && mt.abstractOneToOneContainer.maps[c] == t.abstractOneToOne[c]
  {
    mt := new MutableRefsTable.From(t);
    var i := 0;
    while i < |es|
      invariant 0 <= i <= |es|
      invariant mt.Valid() && mt.View() == ApplyEdits(t.View(), es[..i])
      invariant forall o :: o in mt.Repr() ==> fresh(o)
      invariant t.Valid() && t.View() == old(t.View())
      invariant SharesUntouched(t, mt, es[..i])
    {
      ApplyEditsSnoc(t.View(), es, i);
      Step(t, mt, es, i);
      i := i + 1;
    }
    assert es[..i] == es;
  }
}
