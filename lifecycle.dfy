/**
 * The row-lifecycle functions generated for an entity: how rows are
 * created and removed, chosen from whether it is a relationship, whether it
 * has a primary key and its storage type.
 */
module Lifecycle {
  import opened Schema
  import opened Resolution
  import opened ResolutionProperties

  /** The row-lifecycle functions generated for an entity. */
  datatype LifecycleOp = PopBackDelete | SimpleCreate | Delete | RelationCreate

  /** The selection table (lines 1392-1419), in the order the functions are written. */
  function Lifecycle(isRelationship: bool, hasPrimaryKey: bool, store: StorageType): seq<LifecycleOp>
  {
    if !isRelationship then
      if store == Contiguous || store == Compactable then
        [PopBackDelete, SimpleCreate] + (if store == Compactable then [Delete] else [])
      else [Delete, SimpleCreate]
    else if hasPrimaryKey then [Delete, RelationCreate]
    else if store == Contiguous || store == Compactable then
      [PopBackDelete, RelationCreate] + (if store == Compactable then [Delete] else [])
    else [Delete, RelationCreate]
  }

  /** The table as independent facts: plain entities are created without arguments and
      relationships from their links; only a relationship with a primary key gets no
      pop-back; a delete function exists exactly for erasable or compactable storage or a
      primary key; and no function is written twice. */
  lemma LifecycleTable(isRelationship: bool, hasPrimaryKey: bool, store: StorageType)
    ensures var ops := Lifecycle(isRelationship, hasPrimaryKey, store);
      && (SimpleCreate in ops <==> !isRelationship)
      && (RelationCreate in ops <==> isRelationship)
      && (PopBackDelete in ops <==> store != Erasable && !(isRelationship && hasPrimaryKey))
      && (Delete in ops <==> store != Contiguous || (isRelationship && hasPrimaryKey))
      && (forall i, j :: 0 <= i < j < |ops| ==> ops[i] != ops[j])
  {
  }

  /** After resolution, every relationship can be created from its links and deleted by
      identifier, and a keyed relationship has no pop-back. */
  lemma ResolvedRelationshipsDeletable(s: seq<Entity>)
    requires Indexed(s) && ResolveAll(s, 0).Ok?
    ensures var f := ResolveAll(s, 0).value;
      forall k :: 0 <= k < |f| && f[k].isRelationship ==>
        var ops := Lifecycle(true, f[k].primaryKey.pointsTo.Some?, f[k].storeType);
        Delete in ops && RelationCreate in ops && SimpleCreate !in ops
        && (f[k].primaryKey.pointsTo.Some? ==> PopBackDelete !in ops)
  {
    ResolvedSchema(s);
    var f := ResolveAll(s, 0).value;
    forall k | 0 <= k < |f| && f[k].isRelationship
      ensures var ops := Lifecycle(true, f[k].primaryKey.pointsTo.Some?, f[k].storeType);
        Delete in ops && RelationCreate in ops && SimpleCreate !in ops
        && (f[k].primaryKey.pointsTo.Some? ==> PopBackDelete !in ops)
    {
      assert HasKeyOrDeletePath(f[k]);
      LifecycleTable(true, f[k].primaryKey.pointsTo.Some?, f[k].storeType);
    }
  }
}
