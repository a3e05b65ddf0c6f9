/**
 * Identities of the reference index: entity ids and their role-tagged wrappers,
 * relation-type descriptors (connection ids) and the registry that interns them.
 */
module Ids {

  /** An entity within a snapshot: the id of its class and its slot in that class's storage. */
  datatype EntityId = EntityId(clazz: int, arrayId: int) {
    function AsChild(): ChildEntityId { ChildEntityId(this) }
    function AsParent(): ParentEntityId { ParentEntityId(this) }
  }

  /** The same identity, tagged with the role it plays in a relation. */
  datatype ChildEntityId = ChildEntityId(id: EntityId)
  datatype ParentEntityId = ParentEntityId(id: EntityId)

  /** The four kinds of relation. The two abstract kinds match classes by subtype. */
  datatype ConnectionType = OneToOne | OneToMany | OneToAbstractMany | AbstractOneToOne

  /** The four fields that make up a connection's identity, as one value. */
  datatype ConnectionKey = ConnectionKey(parentClass: int, childClass: int, connectionType: ConnectionType, isParentNullable: bool)

  /** A relation-type descriptor. Instances are handed out by a `ConnectionIdInterner`. */
  class ConnectionId {
    const parentClass: int
    const childClass: int
    const connectionType: ConnectionType
    const isParentNullable: bool

    constructor (parentClass: int, childClass: int, connectionType: ConnectionType, isParentNullable: bool)
      ensures Key() == ConnectionKey(parentClass, childClass, connectionType, isParentNullable)
    {
      this.parentClass := parentClass;
      this.childClass := childClass;
      this.connectionType := connectionType;
      this.isParentNullable := isParentNullable;
    }

    function Key(): ConnectionKey
    {
      ConnectionKey(parentClass, childClass, connectionType, isParentNullable)
    }

    /** Structural equality: the same object, or another one with equal fields. */
    predicate Equals(other: ConnectionId?)
    {
      if this == other then true
      else if other == null then false
      else (parentClass == other.parentClass && childClass == other.childClass
            && connectionType == other.connectionType && isParentNullable == other.isParentNullable)
    }

    /** True for the two kinds in which a parent has at most one child. */
    predicate IsOneToOne()
    {
      connectionType == OneToOne || connectionType == AbstractOneToOne
    }
  }

  /** `Equals` is an equivalence relation that holds exactly when the four fields agree. */
  lemma EqualsIsFieldEquality(a: ConnectionId, b: ConnectionId, c: ConnectionId)
    ensures a.Equals(b) <==> a.Key() == b.Key()
    ensures a.Equals(a)
    ensures a.Equals(b) ==> b.Equals(a)
    ensures a.Equals(b) && b.Equals(c) ==> a.Equals(c)
    ensures !a.Equals(null)
  {
  }

  /**
   * The process-wide registry of connection ids: it keeps at most one object per
   * field tuple, so that equal connection ids are the same object.
   */
  class ConnectionIdInterner {
    var pool: seq<ConnectionId>

    ghost predicate Valid()
      reads this
    {
      forall i, j :: 0 <= i < j < |pool| ==> !pool[i].Equals(pool[j])
    }

    constructor ()
      ensures Valid() && pool == []
    {
      pool := [];
    }

    /** The interned connection id with the given fields: the pooled one when there is one, else a new one that is pooled. */
    method Create(parentClass: int, childClass: int, connectionType: ConnectionType, isParentNullable: bool)
      returns (id: ConnectionId)
      requires Valid()
      modifies this
      ensures Valid()
      ensures id.Key() == ConnectionKey(parentClass, childClass, connectionType, isParentNullable)
      ensures id in pool
      ensures id in old(pool) ==> pool == old(pool)
      ensures id !in old(pool) ==> fresh(id) && pool == old(pool) + [id]
      ensures forall j :: 0 <= j < |old(pool)| && old(pool)[j].Key() == id.Key() ==> old(pool)[j] == id
    {
      var candidate := new ConnectionId(parentClass, childClass, connectionType, isParentNullable);
      var i := 0;
      while i < |pool|
        invariant 0 <= i <= |pool|
        invariant forall j :: 0 <= j < i ==> !pool[j].Equals(candidate)
      {
        if pool[i].Equals(candidate) {
          id := pool[i];
          return;
        }
        i := i + 1;
      }
      id := candidate;
      pool := pool + [candidate];
    }
  }

  /** Two `Create` calls with equal arguments return the same object. */
  method CreateIsIdempotent(interner: ConnectionIdInterner, parentClass: int, childClass: int,
                            connectionType: ConnectionType, isParentNullable: bool)
    returns (first: ConnectionId, second: ConnectionId)
    requires interner.Valid()
    modifies interner
    ensures interner.Valid()
    ensures first == second
    ensures first.Key() == ConnectionKey(parentClass, childClass, connectionType, isParentNullable)
  {
    first := interner.Create(parentClass, childClass, connectionType, isParentNullable);
    second := interner.Create(parentClass, childClass, connectionType, isParentNullable);
  }
}
