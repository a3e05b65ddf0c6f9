# Reference table of the workspace model

This project models `RefsTable.kt` of the IntelliJ workspace-model entity store. That file holds the index of
parent↔child references between entities. The model covers:

- **Connection ids** (`ConnectionId`). A relation type is four fields: parent class id, child class id, kind and
  parent-nullable. Two ids are equal when the fields agree. `create` interns them, so equal ids are one object
  (module `Ids`).
- **The four relation containers**, each indexed by connection (modules `BiMaps` and `TableSpec`):
  - dense one-to-many, child slot → parent slot, with the children of a parent in order;
  - dense one-to-one, a bijection on slots;
  - polymorphic one-to-many, `ChildEntityId` → `ParentEntityId`, in insertion order;
  - polymorphic one-to-one, a bijection on entity ids.

  A one-to-many map is a sequence of links with at most one link per child. A one-to-one map is an injective `map`.
- **The two tables** (module `RefsTables`):
  - `RefsTable` is immutable. `MutableRefsTable` is copy-on-write over the table it was made `from`.
  - The polymorphic maps are objects (`LinkedBiMap`, `HashBiMap`, module `Containers`) that both tables may share.
  - The mutable table keeps them in two containers (module `MutableContainers`). Each container keeps its
    "copied to modify" set and copies a shared map the first time it writes to that connection.
  - Every mutator is proved to change the table exactly as a specification function in `TableSpec` says.
  - The lemmas in `TableProperties` prove what those functions promise:
    - one parent per child, and injectivity;
    - which links change and which stay;
    - children in the given order;
    - the error cases of `replaceChildrenOfParent`.
  - `EditCopy` proves that editing a copy never changes the table it was made from, and that a
    connection no edit names still shares that table's map object. `EditCopy` and its helpers `Step` and
    `Perform` are proof harnesses that state this promise. No loop in `RefsTable.kt` corresponds to them.
- **The queries of `AbstractRefsTable`** (module `Queries`):
  - `findConnectionId`;
  - the loops of `getParentRefsOfChild` and `getChildrenRefsOfParentBy` and their one-to-one variants, each a
    method proved against a function, with lemmas that tie each result to the links of the table;
  - the narrow per-connection getters;
  - `sameClass`.

The class hierarchy behind `isAssignableFrom` is a parameter `assignable(a, b)`: the class with id `a` is
assignable from the class with id `b`.

## Model

| member | source | states |
|---|---|---|
| Ids.ConnectionId.constructor | platform/workspace/storage/src/com/intellij/platform/workspace/storage/impl/RefsTable.kt:19-24 | a connection id carries the four fields it is given |
| Ids.EqualsIsFieldEquality | platform/workspace/storage/src/com/intellij/platform/workspace/storage/impl/RefsTable.kt:39-51 | `equals` holds exactly when parent class, child class, kind and nullability agree; it is reflexive, symmetric and transitive, and false against null |
| Ids.ConnectionIdInterner.constructor | platform/workspace/storage/src/com/intellij/platform/workspace/storage/impl/RefsTable.kt:100 | the interner starts with no ids |
| Ids.ConnectionIdInterner.Create | platform/workspace/storage/src/com/intellij/platform/workspace/storage/impl/RefsTable.kt:90-98 | `create` returns an id with the given fields. When an equal id is already interned, it returns that object and the pool is unchanged; otherwise it returns a fresh object and appends it. The pool never holds two equal ids |
| Ids.CreateIsIdempotent | platform/workspace/storage/src/com/intellij/platform/workspace/storage/impl/RefsTable.kt:90-98 | two `create` calls with equal arguments return the same object |
| BiMaps.DistinctIffSetSize | platform/workspace/storage/src/com/intellij/platform/workspace/storage/impl/RefsTable.kt:245 | a list has no duplicates exactly when its set is as large as the list, which is the `size != toSet().size` test |
| BiMaps.RemoveChildSpec | platform/workspace/storage/src/com/intellij/platform/workspace/storage/impl/RefsTable.kt:222-232 | `removeKey` / `remove(child)` unlink that child only; every other child keeps its parent and the map keeps one parent per child |
| BiMaps.RemoveParentSpec | platform/workspace/storage/src/com/intellij/platform/workspace/storage/impl/RefsTable.kt:200-205 | `removeValue(parent)` leaves the parent without children; children of other parents keep them |
| BiMaps.RemoveLinkSpec | platform/workspace/storage/src/com/intellij/platform/workspace/storage/impl/RefsTable.kt:234-241 | `remove(child, parent)` drops that one link if present and nothing else |
| BiMaps.PutAppendSpec | platform/workspace/storage/src/com/intellij/platform/workspace/storage/impl/RefsTable.kt:357-365 | one step of the dense `putAll` gives the child its new parent, leaves other children alone, and lists a newly linked child last |
| BiMaps.PutKeepSpec | platform/workspace/storage/src/com/intellij/platform/workspace/storage/impl/RefsTable.kt:367-375 | `LinkedBidirectionalMap.put` gives the child its new parent and leaves other children alone; a child without a parent is appended at the end |
| BiMaps.PutAllAppendSpec | platform/workspace/storage/src/com/intellij/platform/workspace/storage/impl/RefsTable.kt:281-286 | `putAll(children, parent)` links every listed child to the parent and leaves other children alone |
| BiMaps.PutAllAppendOrder | platform/workspace/storage/src/com/intellij/platform/workspace/storage/impl/RefsTable.kt:247-252 | starting from a parent with no children, `putAll` of distinct children makes its children exactly that list, in order |
| BiMaps.RemoveEachSpec | platform/workspace/storage/src/com/intellij/platform/workspace/storage/impl/RefsTable.kt:267-270 | removing each listed child unlinks exactly those children |
| BiMaps.PutEachKeepSpec | platform/workspace/storage/src/com/intellij/platform/workspace/storage/impl/RefsTable.kt:271-272 | putting each listed child under the parent links exactly those children to it |
| BiMaps.PutEachKeepOrder | platform/workspace/storage/src/com/intellij/platform/workspace/storage/impl/RefsTable.kt:263-272 | when the parent has no children and no listed child is linked, putting distinct children lists them in the given order |
| BiMaps.RemoveValue | platform/workspace/storage/src/com/intellij/platform/workspace/storage/impl/RefsTable.kt:210-216 | `removeValue` / `inverse().remove` leave no key on the value and keep every other entry as it was |
| BiMaps.KeyOf | platform/workspace/storage/src/com/intellij/platform/workspace/storage/impl/RefsTable.kt:556-562 | `getKey` of a value present in an injective map returns the one key linked to it |
| BiMaps.OneToOneOpsInjective | platform/workspace/storage/src/com/intellij/platform/workspace/storage/impl/RefsTable.kt:210-224 | every one-to-one operation keeps the map injective: remove by key, by value or by pair, `forcePut`, the dense `put` of a free value, and an accepted Guava `put` |
| BiMaps.ForcePutSpec | platform/workspace/storage/src/com/intellij/platform/workspace/storage/impl/RefsTable.kt:321-329 | after `forcePut(k, v)` any other key survives exactly when it was not linked to `v`, and keeps its value |
| BiMaps.TryPutEachFreeValue | platform/workspace/storage/src/com/intellij/platform/workspace/storage/impl/RefsTable.kt:273-277 | putting a free parent under two or more distinct children with Guava `put` is refused at the second child; only the first child ends up linked |
| BiMaps.TryPutEachStops | platform/workspace/storage/src/com/intellij/platform/workspace/storage/impl/RefsTable.kt:273-277 | once a Guava `put` is refused, the later children change nothing |
| TableSpec.WithDenseManySpec | platform/workspace/storage/src/com/intellij/platform/workspace/storage/impl/RefsTable.kt:130-145 | storing a valid one-to-many map for a connection keeps every container valid and changes nothing else |
| TableSpec.WithDenseOneSpec | platform/workspace/storage/src/com/intellij/platform/workspace/storage/impl/RefsTable.kt:183-198 | the same for a dense one-to-one map |
| TableSpec.WithAbstractManySpec | platform/workspace/storage/src/com/intellij/platform/workspace/storage/impl/RefsTable.kt:147-163 | the same for a polymorphic one-to-many map |
| TableSpec.WithAbstractOneSpec | platform/workspace/storage/src/com/intellij/platform/workspace/storage/impl/RefsTable.kt:165-181 | the same for a polymorphic one-to-one map |
| TableSpec.ChangesOnlyKeepsPartition | platform/workspace/storage/src/com/intellij/platform/workspace/storage/impl/RefsTable.kt:200-208 | an update dispatched on the connection's own kind keeps each container holding connections of its kind only |
| TableSpec.SlotsOfConforming | platform/workspace/storage/src/com/intellij/platform/workspace/storage/impl/RefsTable.kt:247-252 | for child ids of the connection's class, the slot list of `newChildrenIds.map { it.id.arrayId }` keeps membership and distinctness and maps back to the ids |
| TableSpec.LinkedSymmetry | platform/workspace/storage/src/com/intellij/platform/workspace/storage/impl/RefsTable.kt:107-109 | for every kind, a child is among a parent's children exactly when that parent is the child's parent |
| TableSpec.LinkedChildrenDistinct | platform/workspace/storage/src/com/intellij/platform/workspace/storage/impl/RefsTable.kt:503-548 | a parent's children are listed without repetition |
| TableSpec.IsOneToOneMeansOneChild | platform/workspace/storage/src/com/intellij/platform/workspace/storage/impl/RefsTable.kt:104-105 | under the kinds `isOneToOne` accepts, no valid table gives a parent more than one child. Under the two other kinds, a valid table with two children of one parent exists |
| TableProperties.RemoveRefsByParentSpec | platform/workspace/storage/src/com/intellij/platform/workspace/storage/impl/RefsTable.kt:200-208 | after `removeRefsByParent` the parent has no children under the connection; every other child keeps its parent; no other connection or container changes |
| TableProperties.RemoveParentToChildRefSpec | platform/workspace/storage/src/com/intellij/platform/workspace/storage/impl/RefsTable.kt:234-242 | after `removeParentToChildRef` only the link from the child to that parent is gone; nothing else changes |
| TableProperties.RemoveRefsByChildSpec | platform/workspace/storage/src/com/intellij/platform/workspace/storage/impl/RefsTable.kt:218-232 | each removal by child unlinks that child only, within its own container and connection |
| TableProperties.RemoveOneToOneRefsByParentSpec | platform/workspace/storage/src/com/intellij/platform/workspace/storage/impl/RefsTable.kt:210-216 | the one-to-one removals by parent leave the parent without a child; every other entry stays |
| TableProperties.ReplaceChildrenOfParentSpec | platform/workspace/storage/src/com/intellij/platform/workspace/storage/impl/RefsTable.kt:244-279 | `replaceChildrenOfParent` succeeds exactly when the children are distinct and a one-to-one kind gets at most one. Duplicates fail with the table untouched; two or more children fail for `ONE_TO_ONE`. On success the parent's children are exactly the list, in order, its former children outside the list are unlinked, and every other child keeps its parent. Only that connection changes |
| TableProperties.ReplaceDenseManyChildren | platform/workspace/storage/src/com/intellij/platform/workspace/storage/impl/RefsTable.kt:247-252 | the one-to-many branch lists exactly the new children, in order |
| TableProperties.ReplaceDenseOneChildren | platform/workspace/storage/src/com/intellij/platform/workspace/storage/impl/RefsTable.kt:253-261 | the one-to-one branch succeeds exactly for zero or one child and fails for more |
| TableProperties.ReplaceAbstractManyChildren | platform/workspace/storage/src/com/intellij/platform/workspace/storage/impl/RefsTable.kt:262-271 | the polymorphic one-to-many branch lists exactly the new children, in order, because it unlinks them first |
| TableProperties.ReplaceAbstractOneChildren | platform/workspace/storage/src/com/intellij/platform/workspace/storage/impl/RefsTable.kt:273-277 | the polymorphic one-to-one branch succeeds exactly for zero or one child; a second child is refused |
| TableProperties.ReplaceParentOfChildSpec | platform/workspace/storage/src/com/intellij/platform/workspace/storage/impl/RefsTable.kt:331-355 | after `replaceParentOfChild` the child's one parent is the given parent. Other children keep their parents, except that in a one-to-one kind the parent's former child loses it. Only that connection changes |
| TableProperties.ReplaceOneToAbstractOneParentOfChildSpec | platform/workspace/storage/src/com/intellij/platform/workspace/storage/impl/RefsTable.kt:296-305 | `replaceOneToAbstractOneParentOfChild` keeps the map injective. It links the child to the parent after unlinking both from their former partners; every other entry stays |
| TableProperties.ReplaceOneToAbstractManyChildrenOfParentSpec | platform/workspace/storage/src/com/intellij/platform/workspace/storage/impl/RefsTable.kt:288-294 | this operation does not unlink the new children first. Every listed child gets the parent. A former child outside the list is unlinked; every other child keeps its parent. Only that connection changes, and the containers stay valid. When the list has no duplicates and none of it was linked before, the children are exactly the list, in order |
| TableProperties.ReplaceOneToManyChildrenOfParentSpec | platform/workspace/storage/src/com/intellij/platform/workspace/storage/impl/RefsTable.kt:281-286 | every listed child gets the parent slot and the parent's other former children are unlinked; for distinct ids the children are exactly the list, in order |
| TableProperties.ReplaceChildOfParentSpec | platform/workspace/storage/src/com/intellij/platform/workspace/storage/impl/RefsTable.kt:307-319 | the child becomes the parent's one child, the parent's former child is unlinked, and every other entry stays |
| TableProperties.ReplaceOneToManyParentOfChildSpec | platform/workspace/storage/src/com/intellij/platform/workspace/storage/impl/RefsTable.kt:357-365 | the child's parent becomes the given one; every other child keeps its parent |
| TableProperties.ReplaceOneToOneParentOfChildSpec | platform/workspace/storage/src/com/intellij/platform/workspace/storage/impl/RefsTable.kt:321-329 | the child's parent becomes the given one; the parent's former child is unlinked; every other entry stays |
| TableProperties.ReplaceOneToAbstractManyParentOfChildSpec | platform/workspace/storage/src/com/intellij/platform/workspace/storage/impl/RefsTable.kt:367-375 | the child's parent becomes the given one; every other child keeps its parent |
| TableProperties.RelistedChildrenKeepOldPositions | platform/workspace/storage/src/com/intellij/platform/workspace/storage/impl/RefsTable.kt:267-269 | a concrete case for why the children are removed first: without it, re-listed children keep their old positions and the order is wrong |
| Containers.LinkedBiMap.constructor | platform/workspace/storage/src/com/intellij/platform/workspace/storage/impl/RefsTable.kt:149 | a new `LinkedBidirectionalMap` is empty |
| Containers.LinkedBiMap.RemoveValue | platform/workspace/storage/src/com/intellij/platform/workspace/storage/impl/RefsTable.kt:200-205 | `removeValue` turns the links into those of `RemoveParent` |
| Containers.LinkedBiMap.Remove | platform/workspace/storage/src/com/intellij/platform/workspace/storage/impl/RefsTable.kt:230-232 | `remove(child)` turns the links into those of `RemoveChild` |
| Containers.LinkedBiMap.RemoveLink | platform/workspace/storage/src/com/intellij/platform/workspace/storage/impl/RefsTable.kt:234-241 | `remove(child, parent)` turns the links into those of `RemoveLink` |
| Containers.LinkedBiMap.Put | platform/workspace/storage/src/com/intellij/platform/workspace/storage/impl/RefsTable.kt:367-375 | `put` turns the links into those of `PutKeep` |
| Containers.HashBiMap.constructor | platform/workspace/storage/src/com/intellij/platform/workspace/storage/impl/RefsTable.kt:167 | `HashBiMap.create()` is empty |
| Containers.HashBiMap.InverseRemove | platform/workspace/storage/src/com/intellij/platform/workspace/storage/impl/RefsTable.kt:214-216 | `inverse().remove(parent)` drops the parent's entry |
| Containers.HashBiMap.Remove | platform/workspace/storage/src/com/intellij/platform/workspace/storage/impl/RefsTable.kt:218-220 | `remove(child)` drops the child's entry |
| Containers.HashBiMap.RemovePair | platform/workspace/storage/src/com/intellij/platform/workspace/storage/impl/RefsTable.kt:234-241 | `remove(child, parent)` drops that entry if present |
| Containers.HashBiMap.Put | platform/workspace/storage/src/com/intellij/platform/workspace/storage/impl/RefsTable.kt:273-277 | Guava `put` is refused exactly when the parent is linked to another child; otherwise it links them |
| Containers.HashBiMap.ForcePut | platform/workspace/storage/src/com/intellij/platform/workspace/storage/impl/RefsTable.kt:331-355 | `forcePut` links the pair after dropping the parent's former entry |
| MutableContainers.CopyLinkedBiMap | platform/workspace/storage/src/com/intellij/platform/workspace/storage/impl/RefsTable.kt:156-158 | copying entry by entry gives a fresh map with the same links in the same order |
| MutableContainers.CopyHashBiMap | platform/workspace/storage/src/com/intellij/platform/workspace/storage/impl/RefsTable.kt:174-176 | copying entry by entry gives a fresh map with the same entries |
| MutableContainers.RemoveAll | platform/workspace/storage/src/com/intellij/platform/workspace/storage/impl/RefsTable.kt:267-270 | the loop removing each listed child computes `RemoveEach` |
| MutableContainers.PutAll | platform/workspace/storage/src/com/intellij/platform/workspace/storage/impl/RefsTable.kt:271-272 | the loop putting each listed child computes `PutEachKeep` |
| MutableContainers.TryPutAll | platform/workspace/storage/src/com/intellij/platform/workspace/storage/impl/RefsTable.kt:273-277 | the loop of Guava puts stops at the first refusal with the state and verdict of `TryPutEach` |
| MutableContainers.OneToAbstractManyContainer.From | platform/workspace/storage/src/com/intellij/platform/workspace/storage/impl/RefsTable.kt:385-389 | `toMutableContainer` shares every map of the immutable table, with none copied yet |
| MutableContainers.OneToAbstractManyContainer.GetMutableMap | platform/workspace/storage/src/com/intellij/platform/workspace/storage/impl/RefsTable.kt:147-163 | `getOneToAbstractManyMutableMap` adds an empty map for a new connection. It returns the connection's own copy: the same object once copied, or a fresh copy with the same contents the first time. The connection joins the copied set. Only its entry in the container changes; every other connection keeps its map object, and no other connection holds the returned one |
| MutableContainers.OneToAbstractManyContainer.RemoveValue | platform/workspace/storage/src/com/intellij/platform/workspace/storage/impl/RefsTable.kt:200-205 | the connection's contents become `RemoveParent` of the old ones; other connections keep theirs |
| MutableContainers.OneToAbstractManyContainer.Remove | platform/workspace/storage/src/com/intellij/platform/workspace/storage/impl/RefsTable.kt:230-232 | the connection's contents become `RemoveChild` of the old ones |
| MutableContainers.OneToAbstractManyContainer.RemoveLink | platform/workspace/storage/src/com/intellij/platform/workspace/storage/impl/RefsTable.kt:234-241 | the connection's contents become `RemoveLink` of the old ones |
| MutableContainers.OneToAbstractManyContainer.Reparent | platform/workspace/storage/src/com/intellij/platform/workspace/storage/impl/RefsTable.kt:367-375 | remove then put: the contents become `PutKeep(RemoveChild(..))` |
| MutableContainers.OneToAbstractManyContainer.RelinkChildren | platform/workspace/storage/src/com/intellij/platform/workspace/storage/impl/RefsTable.kt:262-271 | remove the parent's children, remove each new child, then put each |
| MutableContainers.OneToAbstractManyContainer.ReplaceChildren | platform/workspace/storage/src/com/intellij/platform/workspace/storage/impl/RefsTable.kt:288-294 | remove the parent's children, then put each new child |
| MutableContainers.AbstractOneToOneContainer.From | platform/workspace/storage/src/com/intellij/platform/workspace/storage/impl/RefsTable.kt:385-389 | `toMutableContainer` shares every map, with none copied yet |
| MutableContainers.AbstractOneToOneContainer.GetMutableMap | platform/workspace/storage/src/com/intellij/platform/workspace/storage/impl/RefsTable.kt:165-181 | `getAbstractOneToOneMutableMap`: the same copy-on-write contract as the one-to-many container, including that every other connection keeps its map object |
| MutableContainers.AbstractOneToOneContainer.InverseRemove | platform/workspace/storage/src/com/intellij/platform/workspace/storage/impl/RefsTable.kt:214-216 | the connection's contents become `RemoveValue` of the old ones |
| MutableContainers.AbstractOneToOneContainer.Remove | platform/workspace/storage/src/com/intellij/platform/workspace/storage/impl/RefsTable.kt:218-220 | the child's entry goes |
| MutableContainers.AbstractOneToOneContainer.RemovePair | platform/workspace/storage/src/com/intellij/platform/workspace/storage/impl/RefsTable.kt:234-241 | the entry goes if it links that pair |
| MutableContainers.AbstractOneToOneContainer.ReplaceChildren | platform/workspace/storage/src/com/intellij/platform/workspace/storage/impl/RefsTable.kt:273-277 | `inverse().remove`, then a Guava `put` per child, stopping at the first refusal, which is reported |
| MutableContainers.AbstractOneToOneContainer.ReplaceChildOfParent | platform/workspace/storage/src/com/intellij/platform/workspace/storage/impl/RefsTable.kt:307-313 | `inverse().remove(parent)`, then `put(child, parent)`, which cannot be refused there |
| MutableContainers.AbstractOneToOneContainer.ReplaceParentOfChild | platform/workspace/storage/src/com/intellij/platform/workspace/storage/impl/RefsTable.kt:296-305 | remove the child, `inverse().remove(parent)`, then `put` |
| MutableContainers.AbstractOneToOneContainer.ForceParentOfChild | platform/workspace/storage/src/com/intellij/platform/workspace/storage/impl/RefsTable.kt:349-353 | remove the child, then `forcePut` |
| MutableContainers.AccessTwice | platform/workspace/storage/src/com/intellij/platform/workspace/storage/impl/RefsTable.kt:152-161 | a second access to a connection's map returns the copy the first access made, which is fresh when the connection had not been copied before |
| RefsTables.RefsTable.constructor | platform/workspace/storage/src/com/intellij/platform/workspace/storage/impl/RefsTable.kt:116-117 | the no-argument table has four empty containers |
| RefsTables.RefsTable.ValidContainers | platform/workspace/storage/src/com/intellij/platform/workspace/storage/impl/RefsTable.kt:110-115 | a table whose maps keep their invariants has valid containers |
| RefsTables.MutableRefsTable.From | platform/workspace/storage/src/com/intellij/platform/workspace/storage/impl/RefsTable.kt:385-389 | `from` gives a mutable table with the same contents over fresh containers. The containers hold the base table's own map objects, with nothing copied yet |
| RefsTables.MutableRefsTable.RemoveRefsByParent | platform/workspace/storage/src/com/intellij/platform/workspace/storage/impl/RefsTable.kt:200-208 | the new contents are `TableSpec.RemoveRefsByParent` of the old ones |
| RefsTables.MutableRefsTable.RemoveOneToOneRefByParent | platform/workspace/storage/src/com/intellij/platform/workspace/storage/impl/RefsTable.kt:210-212 | likewise for `removeOneToOneRefByParent` |
| RefsTables.MutableRefsTable.RemoveOneToAbstractOneRefByParent | platform/workspace/storage/src/com/intellij/platform/workspace/storage/impl/RefsTable.kt:214-216 | likewise for `removeOneToAbstractOneRefByParent` |
| RefsTables.MutableRefsTable.RemoveOneToAbstractOneRefByChild | platform/workspace/storage/src/com/intellij/platform/workspace/storage/impl/RefsTable.kt:218-220 | likewise for `removeOneToAbstractOneRefByChild` |
| RefsTables.MutableRefsTable.RemoveOneToOneRefByChild | platform/workspace/storage/src/com/intellij/platform/workspace/storage/impl/RefsTable.kt:222-224 | likewise for `removeOneToOneRefByChild` |
| RefsTables.MutableRefsTable.RemoveOneToManyRefsByChild | platform/workspace/storage/src/com/intellij/platform/workspace/storage/impl/RefsTable.kt:226-228 | likewise for `removeOneToManyRefsByChild` |
| RefsTables.MutableRefsTable.RemoveOneToAbstractManyRefsByChild | platform/workspace/storage/src/com/intellij/platform/workspace/storage/impl/RefsTable.kt:230-232 | likewise for `removeOneToAbstractManyRefsByChild` |
| RefsTables.MutableRefsTable.RemoveParentToChildRef | platform/workspace/storage/src/com/intellij/platform/workspace/storage/impl/RefsTable.kt:234-242 | likewise for `removeParentToChildRef` |
| RefsTables.MutableRefsTable.ReplaceChildrenOfParent | platform/workspace/storage/src/com/intellij/platform/workspace/storage/impl/RefsTable.kt:244-279 | contents and outcome are `TableSpec.ReplaceChildrenOfParent` of the old contents: errors come back as a failure outcome, with the changes made before the error |
| RefsTables.MutableRefsTable.ReplaceOneToManyChildrenOfParent | platform/workspace/storage/src/com/intellij/platform/workspace/storage/impl/RefsTable.kt:281-286 | likewise for `replaceOneToManyChildrenOfParent` |
| RefsTables.MutableRefsTable.ReplaceOneToAbstractManyChildrenOfParent | platform/workspace/storage/src/com/intellij/platform/workspace/storage/impl/RefsTable.kt:288-294 | likewise for `replaceOneToAbstractManyChildrenOfParent` |
| RefsTables.MutableRefsTable.ReplaceOneToAbstractOneParentOfChild | platform/workspace/storage/src/com/intellij/platform/workspace/storage/impl/RefsTable.kt:296-305 | likewise for `replaceOneToAbstractOneParentOfChild` |
| RefsTables.MutableRefsTable.ReplaceOneToAbstractOneChildOfParent | platform/workspace/storage/src/com/intellij/platform/workspace/storage/impl/RefsTable.kt:307-313 | likewise for `replaceOneToAbstractOneChildOfParent` |
| RefsTables.MutableRefsTable.ReplaceOneToOneChildOfParent | platform/workspace/storage/src/com/intellij/platform/workspace/storage/impl/RefsTable.kt:315-319 | likewise for `replaceOneToOneChildOfParent` |
| RefsTables.MutableRefsTable.ReplaceOneToOneParentOfChild | platform/workspace/storage/src/com/intellij/platform/workspace/storage/impl/RefsTable.kt:321-329 | likewise for `replaceOneToOneParentOfChild` |
| RefsTables.MutableRefsTable.ReplaceParentOfChild | platform/workspace/storage/src/com/intellij/platform/workspace/storage/impl/RefsTable.kt:331-355 | likewise for `replaceParentOfChild` |
| RefsTables.MutableRefsTable.ReplaceOneToManyParentOfChild | platform/workspace/storage/src/com/intellij/platform/workspace/storage/impl/RefsTable.kt:357-365 | likewise for `replaceOneToManyParentOfChild` |
| RefsTables.MutableRefsTable.ReplaceOneToAbstractManyParentOfChild | platform/workspace/storage/src/com/intellij/platform/workspace/storage/impl/RefsTable.kt:367-375 | likewise for `replaceOneToAbstractManyParentOfChild` |
| RefsTables.MutableRefsTable.ToImmutable | platform/workspace/storage/src/com/intellij/platform/workspace/storage/impl/RefsTable.kt:377-382 | `toImmutable` gives an immutable table with the same contents over the mutable table's maps |
| RefsTables.EditCopy | platform/workspace/storage/src/com/intellij/platform/workspace/storage/impl/RefsTable.kt:385-389 | copy-on-write. A table made `from` `t` and edited any number of times by any of the eighteen updates holds `t`'s contents with those edits applied, and `t` keeps its contents. Every connection that no edit names still holds `t`'s own map object |
| RefsTables.Perform | platform/workspace/storage/src/com/intellij/platform/workspace/storage/impl/RefsTable.kt:200-375 | each edit runs the matching update of the mutable table. The new contents are that edit applied to the old ones, and every connection the edit does not name keeps its map object |
| Queries.GetParentRefsOfChild | platform/workspace/storage/src/com/intellij/platform/workspace/storage/impl/RefsTable.kt:432-474 | the four filtered loops with `putIfAbsent` compute `ParentRefsOfChild`, so the first container to answer for a connection wins |
| Queries.ParentRefsOfChildSpec | platform/workspace/storage/src/com/intellij/platform/workspace/storage/impl/RefsTable.kt:432-474 | in a well-formed table, the result maps exactly the connections the table holds whose child class admits the child (by `sameClass`) and under which the child is linked, each to its linked parent |
| Queries.GetParentOneToOneRefsOfChild | platform/workspace/storage/src/com/intellij/platform/workspace/storage/impl/RefsTable.kt:476-501 | the two one-to-one loops compute `ParentOneToOneRefsOfChild` |
| Queries.ParentOneToOneRefsOfChildSpec | platform/workspace/storage/src/com/intellij/platform/workspace/storage/impl/RefsTable.kt:476-501 | the one-to-one result is the general result restricted to the connections that `isOneToOne` accepts |
| Queries.GetChildrenRefsOfParentBy | platform/workspace/storage/src/com/intellij/platform/workspace/storage/impl/RefsTable.kt:503-548 | the four loops compute `ChildrenRefsOfParent` |
| Queries.ChildrenRefsOfParentSpec | platform/workspace/storage/src/com/intellij/platform/workspace/storage/impl/RefsTable.kt:503-548 | in a well-formed table, the result maps exactly the connections whose parent class admits the parent and under which it has children, each to its linked children in order |
| Queries.GetChildrenOneToOneRefsOfParentBy | platform/workspace/storage/src/com/intellij/platform/workspace/storage/impl/RefsTable.kt:550-575 | the two one-to-one loops compute `ChildrenOneToOneRefsOfParent` |
| Queries.ChildrenOneToOneRefsOfParentSpec | platform/workspace/storage/src/com/intellij/platform/workspace/storage/impl/RefsTable.kt:550-575 | the one-to-one result is the general one restricted to one-to-one connections, each list holding its one child |
| Queries.QueriesAgree | platform/workspace/storage/src/com/intellij/platform/workspace/storage/impl/RefsTable.kt:432-548 | a child is listed among a parent's children under a connection exactly when that parent is listed as the child's parent there |
| Queries.FindKey | platform/workspace/storage/src/com/intellij/platform/workspace/storage/impl/RefsTable.kt:420-429 | `find` returns a matching key when there is one, and null only when no key matches |
| Queries.FindConnectionId | platform/workspace/storage/src/com/intellij/platform/workspace/storage/impl/RefsTable.kt:417-430 | `findConnectionId` is null exactly when no container has a matching connection; otherwise it is a match from the first container in search order that has one |
| Queries.SameClassConforms | platform/workspace/storage/src/com/intellij/platform/workspace/storage/impl/RefsTable.kt:643-650 | for a dense connection, `sameClass` is exactly the class test its ids must pass. For every kind, an id of the connection's own class passes when each class is assignable from itself |
| Queries.OneToManyChildrenAgree | platform/workspace/storage/src/com/intellij/platform/workspace/storage/impl/RefsTable.kt:577-579 | `getOneToManyChildren` is non-null exactly when the table holds the connection, and then lists the linked children in order |
| Queries.AbstractManyChildrenAgree | platform/workspace/storage/src/com/intellij/platform/workspace/storage/impl/RefsTable.kt:581-584 | `getOneToAbstractManyChildren` returns the linked children in order, and null when there is no map or no child |
| Queries.AbstractOneChildAgrees | platform/workspace/storage/src/com/intellij/platform/workspace/storage/impl/RefsTable.kt:586-589 | `getAbstractOneToOneChildren` returns the parent's one linked child, and null when there is no map or no child |
| Queries.AbstractOneParentAgrees | platform/workspace/storage/src/com/intellij/platform/workspace/storage/impl/RefsTable.kt:591-593 | `getOneToAbstractOneParent` returns the child's linked parent under a connection the table holds, and null when the table has no map for the connection |
| Queries.AbstractManyParentAgrees | platform/workspace/storage/src/com/intellij/platform/workspace/storage/impl/RefsTable.kt:595-598 | `getOneToAbstractManyParent` returns the child's linked parent, and null when the table has no map for the connection |
| Queries.OneToOneChildAgrees | platform/workspace/storage/src/com/intellij/platform/workspace/storage/impl/RefsTable.kt:604-609 | `getOneToOneChild` hands the one linked child's slot to the transformer, and returns null when there is no map or no child |
| Queries.OneToOneParentAgrees | platform/workspace/storage/src/com/intellij/platform/workspace/storage/impl/RefsTable.kt:611-616 | `getOneToOneParent` hands the linked parent's slot to the transformer, and returns null when there is no map or no parent |
| Queries.OneToManyParentAgrees | platform/workspace/storage/src/com/intellij/platform/workspace/storage/impl/RefsTable.kt:618-623 | `getOneToManyParent` hands the linked parent's slot to the transformer, and returns null when there is no map or no parent |

## Left out

- The `@Synchronized` locking of `create` and the thread safety of `HashSetInterner` are not modelled. The interner is a
  single-threaded pool searched in order; its hashing is not part of this model.
- `create(Class, Class, ...)` maps classes to ids through `ClassToIntConverter` before doing what the
  `Int` overload does. Only the `Int` overload is modelled.
- `findWorkspaceEntity().isAssignableFrom` is the parameter `assignable`; reflection is not modelled.
- `hashCode`, `toString`, `debugStr` and `canRemoveParent` are diagnostics or a plain field read, and are not modelled.
- `thisLogger().error` on a clash in the queries is a no-op; only the first-wins result is kept.
- The container classes (`NonNegativeIntIntBiMap`, `IntIntUniqueBiMap`, `LinkedBidirectionalMap`, Guava's
  `HashBiMap`, `ReferenceContainer`) are not part of this model. They are modelled by what they hold:
  - the dense `putAll` unlinks each child and appends it;
  - `LinkedBidirectionalMap.put` keeps an existing child in place;
  - Guava's `put` refuses a parent linked to another child;
  - `putForce` and `forcePut` drop the parent's former child.
- The dense maps are values in the mutable table. The immutable dense maps cannot change, and `toMutable` makes a
  private copy. So the test for an immutable map in `getOneToManyMutableMap` and `getOneToOneMutableMap` has no
  observable effect and is not modelled; the mutable table stores the new contents instead.
- MutableRefsTable.ToImmutable shares the maps as they are. Whether a later write through the mutable table shows
  in the immutable one depends on `ReferenceContainer.toImmutable`, which is not part of this model. The
  contract states the contents at the moment of conversion only.
- The private `mapToIntArray` helpers are the function `Slots`.
- `getOneToManyChildren` returns an `IntSequence`, modelled as a sequence of slots.
- `getOneToOneChild` without a transformer is not modelled. Unlike the transformer overload, it skips the
  `containsValue` test, so for a parent without a child its answer is whatever `getKey` returns for an absent
  value, and the one-to-one container is not part of this model.
- The `IntFunction` transformers are parameters of type `int -> Option<T>`.
- Iteration order of hash maps is not modelled: `find` may return any match of a container, and the query
  results are maps.
- `replaceChildrenOfParent` skips its duplicate check when the collection is a `Set`. A set has no duplicates, so
  the model checks `Distinct` on every list.
- Exceptions are outcomes:
  - `error(...)` in `replaceChildrenOfParent` is `Failed(DuplicateChildren)` or `Failed(MultipleChildrenForOneToOne)`;
  - Guava's refusal of a second child in the abstract one-to-one branch is `Failed(ValueAlreadyPresent)`, with
    the changes made before the refusal kept.
- Entity ids and slots are unbounded integers. The source only compares and stores them and never does
  arithmetic on them, so 32-bit width plays no part.
- Connection ids are map keys by object identity. The private constructor and interning in `create` make equal ids one
  object, so this agrees with keying by `equals`. The model's tables do not themselves forbid two distinct ids with
  equal fields.
- Queries.GetOneToAbstractManyChildren: returns null for a parent without children. This assumes that
  `LinkedBidirectionalMap.getKeysByValue` answers null rather than an empty list then; that class is not part of this model.
