/**
 * What the mutations of a reference table guarantee, stated per connection
 * through `LinkedParent` and `LinkedChildren`, whatever the connection's kind.
 */
module TableProperties {
  import opened Wrappers
  import opened Ids
  import opened BiMaps
  import opened TableSpec

  lemma AtKeepValid(t: Tables, c: ConnectionId)
    requires ContainersValid(t)
    ensures Functional(DenseManyAt(t, c)) && Injective(DenseOneAt(t, c))
    ensures Functional(AbstractManyAt(t, c)) && Injective(AbstractOneAt(t, c))
  {
  }

  /** What becomes of `j`'s parent when the children of `p` are unlinked. */
  function Unlinked<V(==)>(before: Option<V>, p: V): Option<V>
  {
    if before == Some(p) then None else before
  }

  lemma DenseParentLinked(c: ConnectionId, o: Option<int>, p: ParentEntityId)
    requires ParentConforms(c, p) && IsDense(c)
    ensures (match o case Some(q) => Some(ParentFromSlot(c, q)) case None => None) == Some(p) <==> o == Some(p.id.arrayId)
  {
  }

  /**
   * `removeRefsByParent`: afterwards `p` has no children under `c`, every other child
   * keeps its parent, and no other connection or container changes.
   */
  lemma RemoveRefsByParentSpec(t: Tables, c: ConnectionId, p: ParentEntityId, j: ChildEntityId)
    requires ContainersValid(t) && ParentConforms(c, p)
    ensures ContainersValid(RemoveRefsByParent(t, c, p))
    ensures ChangesOnly(t, RemoveRefsByParent(t, c, p), c, c.connectionType)
    ensures LinkedChildren(RemoveRefsByParent(t, c, p), c, p) == []
    ensures LinkedParent(RemoveRefsByParent(t, c, p), c, j) == Unlinked(LinkedParent(t, c, j), p)
  {
    AtKeepValid(t, c);
    match c.connectionType
    case OneToMany =>
      var s := RemoveParent(DenseManyAt(t, c), p.id.arrayId);
      RemoveParentSpec(DenseManyAt(t, c), p.id.arrayId, j.id.arrayId);
      WithDenseManySpec(t, c, s);
      DenseParentLinked(c, ParentOf(DenseManyAt(t, c), j.id.arrayId), p);
    case OneToOne =>
      var m := RemoveValue(DenseOneAt(t, c), p.id.arrayId);
      OneToOneOpsInjective(DenseOneAt(t, c), 0, p.id.arrayId);
      WithDenseOneSpec(t, c, m);
    case OneToAbstractMany =>
      var s := RemoveParent(AbstractManyAt(t, c), p);
      RemoveParentSpec(AbstractManyAt(t, c), p, j);
      WithAbstractManySpec(t, c, s);
    case AbstractOneToOne =>
      var m := RemoveValue(AbstractOneAt(t, c), p);
      OneToOneOpsInjective(AbstractOneAt(t, c), j, p);
      WithAbstractOneSpec(t, c, m);
  }

  /** `removeParentToChildRef`: afterwards only the link from `k` to `p` is gone. */
  lemma RemoveParentToChildRefSpec(t: Tables, c: ConnectionId, p: ParentEntityId, k: ChildEntityId, j: ChildEntityId)
    requires ContainersValid(t) && ParentConforms(c, p) && ChildConforms(c, k) && ChildConforms(c, j)
    ensures ContainersValid(RemoveParentToChildRef(t, c, p, k))
    ensures ChangesOnly(t, RemoveParentToChildRef(t, c, p, k), c, c.connectionType)
    ensures LinkedParent(RemoveParentToChildRef(t, c, p, k), c, j) ==
      (if j == k then Unlinked(LinkedParent(t, c, j), p) else LinkedParent(t, c, j))
  {
    AtKeepValid(t, c);
    match c.connectionType
    case OneToMany =>
      var s := RemoveLink(DenseManyAt(t, c), k.id.arrayId, p.id.arrayId);
      RemoveLinkSpec(DenseManyAt(t, c), k.id.arrayId, p.id.arrayId, j.id.arrayId);
      WithDenseManySpec(t, c, s);
      DenseParentLinked(c, ParentOf(DenseManyAt(t, c), j.id.arrayId), p);
    case OneToOne =>
      var m := RemovePair(DenseOneAt(t, c), k.id.arrayId, p.id.arrayId);
      OneToOneOpsInjective(DenseOneAt(t, c), k.id.arrayId, p.id.arrayId);
      WithDenseOneSpec(t, c, m);
    case OneToAbstractMany =>
      var s := RemoveLink(AbstractManyAt(t, c), k, p);
      RemoveLinkSpec(AbstractManyAt(t, c), k, p, j);
      WithAbstractManySpec(t, c, s);
    case AbstractOneToOne =>
      var m := RemovePair(AbstractOneAt(t, c), k, p);
      OneToOneOpsInjective(AbstractOneAt(t, c), k, p);
      WithAbstractOneSpec(t, c, m);
  }

  /**
   * The removals by child of each container kind (`removeOneToOneRefByChild`,
   * `removeOneToAbstractOneRefByChild`, `removeOneToManyRefsByChild`,
   * `removeOneToAbstractManyRefsByChild`): only the child's own link goes.
   */
  lemma RemoveRefsByChildSpec(t: Tables, c: ConnectionId, k: ChildEntityId, j: ChildEntityId)
    requires ContainersValid(t)
    ensures var t2 := RemoveOneToManyRefsByChild(t, c, k.id.arrayId);
      && ContainersValid(t2) && ChangesOnly(t, t2, c, OneToMany)
      && ParentOf(DenseManyAt(t2, c), j.id.arrayId) ==
         (if j.id.arrayId == k.id.arrayId then None else ParentOf(DenseManyAt(t, c), j.id.arrayId))
    ensures var t2 := RemoveOneToOneRefByChild(t, c, k.id.arrayId);
      && ContainersValid(t2) && ChangesOnly(t, t2, c, OneToOne)
      && Lookup(DenseOneAt(t2, c), j.id.arrayId) ==
         (if j.id.arrayId == k.id.arrayId then None else Lookup(DenseOneAt(t, c), j.id.arrayId))
    ensures var t2 := RemoveOneToAbstractManyRefsByChild(t, c, k);
      && ContainersValid(t2) && ChangesOnly(t, t2, c, OneToAbstractMany)
      && ParentOf(AbstractManyAt(t2, c), j) == (if j == k then None else ParentOf(AbstractManyAt(t, c), j))
    ensures var t2 := RemoveOneToAbstractOneRefByChild(t, c, k);
      && ContainersValid(t2) && ChangesOnly(t, t2, c, AbstractOneToOne)
      && Lookup(AbstractOneAt(t2, c), j) == (if j == k then None else Lookup(AbstractOneAt(t, c), j))
  {
    AtKeepValid(t, c);
    RemoveChildSpec(DenseManyAt(t, c), k.id.arrayId, j.id.arrayId);
    WithDenseManySpec(t, c, RemoveChild(DenseManyAt(t, c), k.id.arrayId));
    OneToOneOpsInjective(DenseOneAt(t, c), k.id.arrayId, 0);
    WithDenseOneSpec(t, c, DenseOneAt(t, c) - {k.id.arrayId});
    RemoveChildSpec(AbstractManyAt(t, c), k, j);
    WithAbstractManySpec(t, c, RemoveChild(AbstractManyAt(t, c), k));
    OneToOneOpsInjective(AbstractOneAt(t, c), k, ParentEntityId(k.id));
    WithAbstractOneSpec(t, c, AbstractOneAt(t, c) - {k});
  }

  /**
   * The one-to-one removals by parent (`removeOneToOneRefByParent`,
   * `removeOneToAbstractOneRefByParent`): the parent's one child loses it, nothing else moves.
   */
  lemma RemoveOneToOneRefsByParentSpec(t: Tables, c: ConnectionId, p: ParentEntityId, j: ChildEntityId)
    requires ContainersValid(t)
    ensures var t2 := RemoveOneToOneRefByParent(t, c, p.id.arrayId);
      && ContainersValid(t2) && ChangesOnly(t, t2, c, OneToOne)
      && p.id.arrayId !in DenseOneAt(t2, c).Values
      && Lookup(DenseOneAt(t2, c), j.id.arrayId) ==
         (if Lookup(DenseOneAt(t, c), j.id.arrayId) == Some(p.id.arrayId) then None else Lookup(DenseOneAt(t, c), j.id.arrayId))
    ensures var t2 := RemoveOneToAbstractOneRefByParent(t, c, p);
      && ContainersValid(t2) && ChangesOnly(t, t2, c, AbstractOneToOne)
      && p !in AbstractOneAt(t2, c).Values
      && Lookup(AbstractOneAt(t2, c), j) == Unlinked(Lookup(AbstractOneAt(t, c), j), p)
  {
    AtKeepValid(t, c);
    OneToOneOpsInjective(DenseOneAt(t, c), 0, p.id.arrayId);
    WithDenseOneSpec(t, c, RemoveValue(DenseOneAt(t, c), p.id.arrayId));
    OneToOneOpsInjective(AbstractOneAt(t, c), j, p);
    WithAbstractOneSpec(t, c, RemoveValue(AbstractOneAt(t, c), p));
  }

  /** What becomes of `j`'s parent when `ks` become the children of `p`. */
  function Relinked(t: Tables, c: ConnectionId, p: ParentEntityId, ks: seq<ChildEntityId>, j: ChildEntityId): Option<ParentEntityId>
  {
    if j in ks then Some(p) else Unlinked(LinkedParent(t, c, j), p)
  }

  /**
   * `replaceChildrenOfParent`: it fails on duplicate children, and on two or more
   * children for a one-to-one connection; otherwise `p`'s children under `c` are
   * exactly `ks` in the given order, `p`'s former children not in `ks` are unlinked,
   * and every other child keeps its parent. Only `c`'s container changes.
   */
  lemma ReplaceChildrenOfParentSpec(t: Tables, c: ConnectionId, p: ParentEntityId, ks: seq<ChildEntityId>, j: ChildEntityId)
    requires ContainersValid(t) && ParentConforms(c, p) && ChildConforms(c, j)
    requires forall k :: k in ks ==> ChildConforms(c, k)
    ensures ReplaceChildrenOfParent(t, c, p, ks).outcome == Done <==> Distinct(ks) && (c.IsOneToOne() ==> |ks| <= 1)
    ensures !Distinct(ks) ==> ReplaceChildrenOfParent(t, c, p, ks) == Replaced(t, Failed(DuplicateChildren))
    ensures Distinct(ks) && c.connectionType == OneToOne && |ks| >= 2 ==>
      ReplaceChildrenOfParent(t, c, p, ks).outcome == Failed(MultipleChildrenForOneToOne)
    ensures ContainersValid(ReplaceChildrenOfParent(t, c, p, ks).tables)
    ensures Distinct(ks) ==> ChangesOnly(t, ReplaceChildrenOfParent(t, c, p, ks).tables, c, c.connectionType)
    ensures ReplaceChildrenOfParent(t, c, p, ks).outcome == Done ==>
      && LinkedChildren(ReplaceChildrenOfParent(t, c, p, ks).tables, c, p) == ks
      && LinkedParent(ReplaceChildrenOfParent(t, c, p, ks).tables, c, j) == Relinked(t, c, p, ks, j)
  {
    if Distinct(ks) {
      AtKeepValid(t, c);
      match c.connectionType
      case OneToMany => ReplaceDenseManyChildren(t, c, p, ks, j);
      case OneToOne => ReplaceDenseOneChildren(t, c, p, ks, j);
      case OneToAbstractMany => ReplaceAbstractManyChildren(t, c, p, ks, j);
      case AbstractOneToOne => ReplaceAbstractOneChildren(t, c, p, ks, j);
    }
  }

  lemma ReplaceDenseManyChildren(t: Tables, c: ConnectionId, p: ParentEntityId, ks: seq<ChildEntityId>, j: ChildEntityId)
    requires ContainersValid(t) && ParentConforms(c, p) && ChildConforms(c, j) && c.connectionType == OneToMany
    requires forall k :: k in ks ==> ChildConforms(c, k)
    requires Distinct(ks)
    ensures var t2 := ReplaceChildrenOfParent(t, c, p, ks).tables;
      && ContainersValid(t2) && ChangesOnly(t, t2, c, c.connectionType)
      && LinkedChildren(t2, c, p) == ks
      && LinkedParent(t2, c, j) == Relinked(t, c, p, ks, j)
  {
    var s0 := DenseManyAt(t, c);
    var slot := p.id.arrayId;
    var s1 := RemoveParent(s0, slot);
    RemoveParentSpec(s0, slot, j.id.arrayId);
    SlotsOfConforming(c, ks, j);
    PutAllAppendSpec(s1, Slots(ks), slot, j.id.arrayId);
    PutAllAppendOrder(s1, Slots(ks), slot);
    DenseParentLinked(c, ParentOf(s0, j.id.arrayId), p);
    WithDenseManySpec(t, c, PutAllAppend(s1, Slots(ks), slot));
  }

  lemma ReplaceDenseOneChildren(t: Tables, c: ConnectionId, p: ParentEntityId, ks: seq<ChildEntityId>, j: ChildEntityId)
    requires ContainersValid(t) && ParentConforms(c, p) && ChildConforms(c, j) && c.connectionType == OneToOne
    requires forall k :: k in ks ==> ChildConforms(c, k)
    requires Distinct(ks)
    ensures var r := ReplaceChildrenOfParent(t, c, p, ks);
      && ContainersValid(r.tables) && ChangesOnly(t, r.tables, c, c.connectionType)
      && (r.outcome == Done <==> |ks| <= 1)
      && (|ks| >= 2 ==> r.outcome == Failed(MultipleChildrenForOneToOne))
      && (r.outcome == Done ==> LinkedChildren(r.tables, c, p) == ks && LinkedParent(r.tables, c, j) == Relinked(t, c, p, ks, j))
  {
    var m := DenseOneAt(t, c);
    if |ks| == 1 {
      OneToOneOpsInjective(m, ks[0].id.arrayId, p.id.arrayId);
      assert ks[0] in ks;
      if j != ks[0] {
        ForcePutSpec(m, ks[0].id.arrayId, p.id.arrayId, j.id.arrayId);
      }
      WithDenseOneSpec(t, c, ForcePut(m, ks[0].id.arrayId, p.id.arrayId));
    } else if |ks| == 0 {
      OneToOneOpsInjective(m, 0, p.id.arrayId);
      WithDenseOneSpec(t, c, RemoveValue(m, p.id.arrayId));
    } else {
      WithDenseOneSpec(t, c, m);
    }
  }

  lemma ReplaceAbstractManyChildren(t: Tables, c: ConnectionId, p: ParentEntityId, ks: seq<ChildEntityId>, j: ChildEntityId)
    requires ContainersValid(t) && c.connectionType == OneToAbstractMany
    requires Distinct(ks)
    ensures var t2 := ReplaceChildrenOfParent(t, c, p, ks).tables;
      && ContainersValid(t2) && ChangesOnly(t, t2, c, c.connectionType)
      && LinkedChildren(t2, c, p) == ks
      && LinkedParent(t2, c, j) == Relinked(t, c, p, ks, j)
  {
    var s0 := AbstractManyAt(t, c);
    var s1 := RemoveParent(s0, p);
    var s2 := RemoveEach(s1, ks);
    RemoveParentSpec(s0, p, j);
    RemoveEachSpec(s1, ks, j);
    RemoveEachNoChildren(s1, ks, p);
    forall k | k in ks ensures ParentOf(s2, k).None? {
      RemoveEachSpec(s1, ks, k);
    }
    PutEachKeepSpec(s2, ks, p, j);
    PutEachKeepOrder(s2, ks, p);
    WithAbstractManySpec(t, c, PutEachKeep(s2, ks, p));
  }

  lemma ReplaceAbstractOneChildren(t: Tables, c: ConnectionId, p: ParentEntityId, ks: seq<ChildEntityId>, j: ChildEntityId)
    requires ContainersValid(t) && c.connectionType == AbstractOneToOne
    requires Distinct(ks)
    ensures var r := ReplaceChildrenOfParent(t, c, p, ks);
      && ContainersValid(r.tables) && ChangesOnly(t, r.tables, c, c.connectionType)
      && (r.outcome == Done <==> |ks| <= 1)
      && (r.outcome == Done ==> LinkedChildren(r.tables, c, p) == ks && LinkedParent(r.tables, c, j) == Relinked(t, c, p, ks, j))
  {
    var m0 := AbstractOneAt(t, c);
    var m1 := RemoveValue(m0, p);
    OneToOneOpsInjective(m0, j, p);
    if ks != [] {
      TryPutEachFreeValue(m1, ks, p);
      OneToOneOpsInjective(m1, ks[0], p);
      assert ks[0] in ks;
    }
    WithAbstractOneSpec(t, c, TryPutEach(m1, ks, p).state);
  }

  /**
   * `replaceParentOfChild`: afterwards `k`'s one parent under `c` is `p`. Other children
   * keep their parents, except that in a one-to-one connection `p`'s former child loses it.
   */
  lemma ReplaceParentOfChildSpec(t: Tables, c: ConnectionId, k: ChildEntityId, p: ParentEntityId, j: ChildEntityId)
    requires ContainersValid(t) && ParentConforms(c, p) && ChildConforms(c, k) && ChildConforms(c, j)
    ensures ContainersValid(ReplaceParentOfChild(t, c, k, p))
    ensures ChangesOnly(t, ReplaceParentOfChild(t, c, k, p), c, c.connectionType)
    ensures LinkedParent(ReplaceParentOfChild(t, c, k, p), c, k) == Some(p)
    ensures j != k ==>
              LinkedParent(ReplaceParentOfChild(t, c, k, p), c, j) ==
              (if c.IsOneToOne() then Unlinked(LinkedParent(t, c, j), p) else LinkedParent(t, c, j))
  {
    AtKeepValid(t, c);
    match c.connectionType
    case OneToMany =>
      var s0 := DenseManyAt(t, c);
      var s1 := RemoveChild(s0, k.id.arrayId);
      RemoveChildSpec(s0, k.id.arrayId, j.id.arrayId);
      PutAllAppendSpec(s1, [k.id.arrayId], p.id.arrayId, j.id.arrayId);
      PutAllAppendSpec(s1, [k.id.arrayId], p.id.arrayId, k.id.arrayId);
      WithDenseManySpec(t, c, PutAllAppend(s1, [k.id.arrayId], p.id.arrayId));
    case OneToOne =>
      var m := DenseOneAt(t, c) - {k.id.arrayId};
      OneToOneOpsInjective(DenseOneAt(t, c), k.id.arrayId, p.id.arrayId);
      OneToOneOpsInjective(m, k.id.arrayId, p.id.arrayId);
      if j != k {
        ForcePutSpec(m, k.id.arrayId, p.id.arrayId, j.id.arrayId);
      }
      WithDenseOneSpec(t, c, ForcePut(m, k.id.arrayId, p.id.arrayId));
    case OneToAbstractMany =>
      var s0 := AbstractManyAt(t, c);
      var s1 := RemoveChild(s0, k);
      RemoveChildSpec(s0, k, j);
      RemoveChildSpec(s0, k, k);
      PutKeepSpec(s1, k, p, j);
      WithAbstractManySpec(t, c, PutKeep(s1, k, p));
    case AbstractOneToOne =>
      var m := AbstractOneAt(t, c) - {k};
      OneToOneOpsInjective(AbstractOneAt(t, c), k, p);
      OneToOneOpsInjective(m, k, p);
      if j != k {
        ForcePutSpec(m, k, p, j);
      }
      WithAbstractOneSpec(t, c, ForcePut(m, k, p));
  }

  /**
   * `replaceOneToAbstractOneParentOfChild`: the polymorphic one-to-one map stays injective;
   * `k` is linked to `p`, `k`'s former parent and `p`'s former child are unlinked first,
   * and every other entry stays as it was.
   */
  lemma ReplaceOneToAbstractOneParentOfChildSpec(t: Tables, c: ConnectionId, k: ChildEntityId, p: ParentEntityId, j: ChildEntityId)
    requires ContainersValid(t)
    ensures ContainersValid(ReplaceOneToAbstractOneParentOfChild(t, c, k, p))
    ensures ChangesOnly(t, ReplaceOneToAbstractOneParentOfChild(t, c, k, p), c, AbstractOneToOne)
    ensures AbstractOneAt(ReplaceOneToAbstractOneParentOfChild(t, c, k, p), c)[k] == p
    ensures j != k ==>
      && (j in AbstractOneAt(ReplaceOneToAbstractOneParentOfChild(t, c, k, p), c) <==>
          j in AbstractOneAt(t, c) && AbstractOneAt(t, c)[j] != p)
      && (j in AbstractOneAt(ReplaceOneToAbstractOneParentOfChild(t, c, k, p), c) ==>
          AbstractOneAt(ReplaceOneToAbstractOneParentOfChild(t, c, k, p), c)[j] == AbstractOneAt(t, c)[j])
  {
    var m0 := AbstractOneAt(t, c);
    OneToOneOpsInjective(m0, k, p);
    OneToOneOpsInjective(m0 - {k}, k, p);
    OneToOneOpsInjective(RemoveValue(m0 - {k}, p), k, p);
    WithAbstractOneSpec(t, c, Put(RemoveValue(m0 - {k}, p), k, p));
  }

  /**
   * `replaceOneToAbstractManyChildrenOfParent` does not unlink the new children first:
   * every child of `ks` gets parent `p`, `p`'s former children outside `ks` are unlinked,
   * every other child keeps its parent, and only `c` changes. With no duplicates and none
   * of `ks` linked before, `p`'s children are `ks` in order.
   */
  lemma ReplaceOneToAbstractManyChildrenOfParentSpec(t: Tables, c: ConnectionId, p: ParentEntityId, ks: seq<ChildEntityId>, j: ChildEntityId)
    requires ContainersValid(t)
    ensures var t2 := ReplaceOneToAbstractManyChildrenOfParent(t, c, p, ks);
      && ContainersValid(t2) && ChangesOnly(t, t2, c, OneToAbstractMany)
      && ParentOf(AbstractManyAt(t2, c), j) ==
         (if j in ks then Some(p) else Unlinked(ParentOf(AbstractManyAt(t, c), j), p))
      && (j in ChildrenOf(AbstractManyAt(t2, c), p) <==> j in ks)
      && (Distinct(ks) && (forall k :: k in ks ==> ParentOf(AbstractManyAt(t, c), k).None?) ==>
            ChildrenOf(AbstractManyAt(t2, c), p) == ks)
  {
    var s0 := AbstractManyAt(t, c);
    AtKeepValid(t, c);
    var s1 := RemoveParent(s0, p);
    var s := PutEachKeep(s1, ks, p);
    RemoveParentSpec(s0, p, j);
    PutEachKeepSpec(s1, ks, p, j);
    ChildrenOfIffParentOf(s, j, p);
    WithAbstractManySpec(t, c, s);
    if Distinct(ks) && forall k :: k in ks ==> ParentOf(s0, k).None? {
      forall k | k in ks ensures ParentOf(s1, k).None? {
        RemoveParentSpec(s0, p, k);
      }
      PutEachKeepOrder(s1, ks, p);
    }
  }

  /**
   * `replaceOneToManyChildrenOfParent`: every id of `ks` gets parent slot `p`, `p`'s former
   * children outside `ks` are unlinked; with no duplicates, `p`'s children are exactly `ks` in order.
   */
  lemma ReplaceOneToManyChildrenOfParentSpec(t: Tables, c: ConnectionId, p: int, ks: seq<ChildEntityId>, j: int)
    requires ContainersValid(t)
    ensures var t2 := ReplaceOneToManyChildrenOfParent(t, c, p, ks);
      && ContainersValid(t2) && ChangesOnly(t, t2, c, OneToMany)
      && ParentOf(DenseManyAt(t2, c), j) ==
         (if j in Slots(ks) then Some(p) else Unlinked(ParentOf(DenseManyAt(t, c), j), p))
      && (Distinct(Slots(ks)) ==> ChildrenOf(DenseManyAt(t2, c), p) == Slots(ks))
  {
    var s0 := DenseManyAt(t, c);
    var s1 := RemoveParent(s0, p);
    AtKeepValid(t, c);
    RemoveParentSpec(s0, p, j);
    PutAllAppendSpec(s1, Slots(ks), p, j);
    if Distinct(Slots(ks)) {
      PutAllAppendOrder(s1, Slots(ks), p);
    }
    WithDenseManySpec(t, c, PutAllAppend(s1, Slots(ks), p));
  }

  /**
   * `replaceOneToOneChildOfParent` and `replaceOneToAbstractOneChildOfParent`: `k` becomes
   * `p`'s one child, `p`'s former child is unlinked, and every other entry stays.
   */
  lemma ReplaceChildOfParentSpec(t: Tables, c: ConnectionId, p: ParentEntityId, k: ChildEntityId, j: ChildEntityId)
    requires ContainersValid(t)
    ensures var t2 := ReplaceOneToOneChildOfParent(t, c, p.id.arrayId, k);
      && ContainersValid(t2) && ChangesOnly(t, t2, c, OneToOne)
      && Lookup(DenseOneAt(t2, c), k.id.arrayId) == Some(p.id.arrayId)
      && (j.id.arrayId != k.id.arrayId ==>
            Lookup(DenseOneAt(t2, c), j.id.arrayId) == Unlinked(Lookup(DenseOneAt(t, c), j.id.arrayId), p.id.arrayId))
    ensures var t2 := ReplaceOneToAbstractOneChildOfParent(t, c, p, k);
      && ContainersValid(t2) && ChangesOnly(t, t2, c, AbstractOneToOne)
      && Lookup(AbstractOneAt(t2, c), k) == Some(p)
      && (j != k ==> Lookup(AbstractOneAt(t2, c), j) == Unlinked(Lookup(AbstractOneAt(t, c), j), p))
  {
    AtKeepValid(t, c);
    var m := RemoveValue(DenseOneAt(t, c), p.id.arrayId);
    OneToOneOpsInjective(DenseOneAt(t, c), k.id.arrayId, p.id.arrayId);
    OneToOneOpsInjective(m, k.id.arrayId, p.id.arrayId);
    WithDenseOneSpec(t, c, Put(m, k.id.arrayId, p.id.arrayId));
    var a := RemoveValue(AbstractOneAt(t, c), p);
    OneToOneOpsInjective(AbstractOneAt(t, c), k, p);
    OneToOneOpsInjective(a, k, p);
    WithAbstractOneSpec(t, c, Put(a, k, p));
  }

  /**
   * `replaceOneToManyParentOfChild`, `replaceOneToOneParentOfChild` and
   * `replaceOneToAbstractManyParentOfChild`: `k`'s parent becomes `p`; in the one-to-one
   * container `p`'s former child is unlinked, elsewhere every other child keeps its parent.
   */
  lemma ReplaceOneToManyParentOfChildSpec(t: Tables, c: ConnectionId, k: int, p: ParentEntityId, j: int)
    requires ContainersValid(t)
    ensures var t2 := ReplaceOneToManyParentOfChild(t, c, k, p);
      && ContainersValid(t2) && ChangesOnly(t, t2, c, OneToMany)
      && ParentOf(DenseManyAt(t2, c), j) == (if j == k then Some(p.id.arrayId) else ParentOf(DenseManyAt(t, c), j))
  {
    AtKeepValid(t, c);
    var s0 := DenseManyAt(t, c);
    var s1 := RemoveChild(s0, k);
    RemoveChildSpec(s0, k, j);
    PutAllAppendSpec(s1, [k], p.id.arrayId, j);
    WithDenseManySpec(t, c, PutAllAppend(s1, [k], p.id.arrayId));
  }

  lemma ReplaceOneToOneParentOfChildSpec(t: Tables, c: ConnectionId, k: int, p: EntityId, j: int)
    requires ContainersValid(t)
    ensures var t2 := ReplaceOneToOneParentOfChild(t, c, k, p);
      && ContainersValid(t2) && ChangesOnly(t, t2, c, OneToOne)
      && Lookup(DenseOneAt(t2, c), j) ==
         (if j == k then Some(p.arrayId) else Unlinked(Lookup(DenseOneAt(t, c), j), p.arrayId))
  {
    AtKeepValid(t, c);
    var m := DenseOneAt(t, c) - {k};
    OneToOneOpsInjective(DenseOneAt(t, c), k, p.arrayId);
    OneToOneOpsInjective(m, k, p.arrayId);
    if j != k {
      ForcePutSpec(m, k, p.arrayId, j);
    }
    WithDenseOneSpec(t, c, ForcePut(m, k, p.arrayId));
  }

  lemma ReplaceOneToAbstractManyParentOfChildSpec(t: Tables, c: ConnectionId, k: ChildEntityId, p: ParentEntityId, j: ChildEntityId)
    requires ContainersValid(t)
    ensures var t2 := ReplaceOneToAbstractManyParentOfChild(t, c, k, p);
      && ContainersValid(t2) && ChangesOnly(t, t2, c, OneToAbstractMany)
      && ParentOf(AbstractManyAt(t2, c), j) == (if j == k then Some(p) else ParentOf(AbstractManyAt(t, c), j))
  {
    AtKeepValid(t, c);
    var a0 := AbstractManyAt(t, c);
    var a1 := RemoveChild(a0, k);
    RemoveChildSpec(a0, k, j);
    RemoveChildSpec(a0, k, k);
    PutKeepSpec(a1, k, p, j);
    WithAbstractManySpec(t, c, PutKeep(a1, k, p));
  }

  /**
   * Why `replaceChildrenOfParent` unlinks the new children before linking them: without that
   * step, children already linked elsewhere keep their old positions. Here `ks` = [3, 2]
   * both linked to parent 0 beforehand; parent 1 then lists them as [2, 3].
   */
  lemma RelistedChildrenKeepOldPositions()
    ensures ChildrenOf(PutEachKeep(RemoveParent([Link(2, 0), Link(3, 0)], 1), [3, 2], 1), 1) == [2, 3]
    ensures ChildrenOf(PutEachKeep(RemoveEach(RemoveParent([Link(2, 0), Link(3, 0)], 1), [3, 2]), [3, 2], 1), 1) == [3, 2]
  {
    var s0 := [Link(2, 0), Link(3, 0)];
    var s1 := RemoveParent(s0, 1);
    assert s1 == s0 by {
      FilterKeepsAll(s0, OtherParent(1));
    }
    assert Init([3, 2]) == [3];
    assert Init([3]) == [];
    var a := PutKeep(s0, 3, 1);
    assert ParentOf(s0, 3) == Some(0);
    assert Init(s0) == [Link(2, 0)];
    assert Relink([Link(2, 0)], 3, 1) == [Link(2, 0)] by {
      assert Init([Link(2, 0)]) == [];
    }
    assert a == [Link(2, 0), Link(3, 1)];
    assert ParentOf(a, 2) == Some(0);
    assert Init(a) == [Link(2, 0)];
    var b := PutKeep(a, 2, 1);
    assert Relink(Init(a), 2, 1) == [Link(2, 1)] by {
      assert Init([Link(2, 0)]) == [];
    }
    assert b == [Link(2, 1), Link(3, 1)];
    assert Init(b) == [Link(2, 1)];
    assert Init([Link(2, 1)]) == [];
    var r2 := RemoveEach(s1, [3, 2]);
    RemoveEachSpec(s1, [3, 2], 2);
    RemoveEachSpec(s1, [3, 2], 3);
    RemoveEachNoChildren(s1, [3, 2], 1);
    PutEachKeepOrder(r2, [3, 2], 1);
  }

  lemma {:induction false} FilterKeepsAll<K, V>(s: seq<Link<K, V>>, keep: Link<K, V> -> bool)
    requires forall l :: l in s ==> keep(l)
    ensures Filter(s, keep) == s
  {
    if s != [] {
      assert s == Init(s) + [Last(s)];
      FilterKeepsAll(Init(s), keep);
    }
  }
}
