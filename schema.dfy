/**
 * The parsed schema as the generator sees it: entities (plain tables and
 * relationships), their properties, links and composite keys, and the
 * fatal errors the generator can report while patching the schema up.
 *
 * Pointers of the original program (a link's target, a primary key's
 * target, a reverse link's relationship) are indices into the sequence
 * of entities.
 */
module Schema {

  datatype Option<T> = None | Some(value: T)

  datatype Result<T, E> = Ok(value: T) | Err(error: E)

  /** How an entity's rows are stored. */
  datatype StorageType = Contiguous | Erasable | Compactable

  /** The index discipline of a link. */
  datatype IndexType = Unindexed | AtMostOne | Many

  /** How the "many" side of a link is represented. */
  datatype ListType = List | Array | StdVector

  /** The shape of a property. */
  datatype PropertyType =
    | Other | Vectorizable | Bitfield | Object
    | ArrayOther | ArrayVectorizable | ArrayBitfield
    | SpecialVector

  datatype Property = Property(
    name: string,
    dataType: string,
    ptype: PropertyType,
    arrayIndexType: string,
    isDerived: bool,
    hookGet: bool)

  /** A link of a relationship to another entity (related_object). */
  datatype Link = Link(
    propertyName: string,
    typeName: string,
    multiplicity: int,
    index: IndexType,
    ltype: ListType,
    isOptional: bool,
    relatedTo: Option<nat>,
    isPrimaryKey: bool,
    isCoveredByCompositeKey: bool,
    isDistinct: bool)

  /** A reverse link, attached to the target of a link (in_relation_information):
      the relationship's name, the relationship's index and the link's index in it. */
  datatype InRelation = InRelation(relationName: string, relation: nat, linkedAs: nat)

  datatype PrimaryKey = PrimaryKey(pointsTo: Option<nat>, propertyName: string)

  datatype KeyComponent = KeyComponent(
    propertyName: string,
    objectType: string,
    multiplicity: int,
    bitPosition: int,
    numberOfBits: int)

  datatype CompositeIndex = CompositeIndex(
    name: string,
    components: seq<KeyComponent>,
    involvesPrimaryKey: bool,
    totalBytes: int)

  /** An entity of the schema (relationship_object_def). */
  datatype Entity = Entity(
    name: string,
    isRelationship: bool,
    storeType: StorageType,
    size: nat,
    isExpandable: bool,
    properties: seq<Property>,
    links: seq<Link>,
    forcePk: string,
    primaryKey: PrimaryKey,
    relationshipsInvolvedIn: seq<InRelation>,
    compositeIndexes: seq<CompositeIndex>)

  /** The fatal conditions of the patch-up passes, with the names the diagnostic mentions. */
  datatype SchemaError =
    | UnknownLinkTarget(typeName: string, relationship: string)
    | ListWithMultiplicity(link: string, relationship: string)
    | TooFewObjects(relationship: string)
    | UnusableForcedKey(key: string, relationship: string)
    | NoDeletePath(relationship: string)
    | DanglingKeyComponent(component: string, index: string, relationship: string)
  {
    /** The diagnostic number the generator reports. */
    function Code(): int
    {
      match this
      case UnknownLinkTarget(_, _) => 1001
      case ListWithMultiplicity(_, _) => 1002
      case TooFewObjects(_) => 1003
      case UnusableForcedKey(_, _) => 1004
      case NoDeletePath(_) => 1005
      case DanglingKeyComponent(_, _, _) => 1006
    }
  }

  /** The candidate test shared by primary-key selection and forced keys. */
  predicate KeyEligible(l: Link)
  {
    l.index == AtMostOne && !l.isOptional && l.multiplicity == 1
  }

  /** Equality of a primary key with a link (declared next to the parser; modelled as
      the same target and the same property name). */
  predicate KeyIsLink(pk: PrimaryKey, l: Link)
  {
    pk.pointsTo == l.relatedTo && pk.propertyName == l.propertyName
  }
}
