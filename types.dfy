/**
 * Type normalisation: how a schema type name maps onto the storage type,
 * the export-call type and the Lua type, and how a declared type becomes
 * an argument of a call descriptor.
 *
 * The process-wide set of registered identifier type names is the
 * parameter `made` everywhere.
 */
module Types {

  /** The coarse class of a normalised type (lua_type_match). */
  datatype TypeClass =
    | FatFloat | Integer | FloatingPoint | Boolean | LuaObject | HandleToInteger | Opaque

  /** A normalised type: its class and its C, API and Lua spellings (combotype). */
  datatype Combo = Combo(normalized: TypeClass, cType: string, apiType: string, luaType: string)

  /** How an argument crosses the export boundary (meta_information). */
  datatype Meta = Id | Value | ValuePointer | Empty

  datatype Arg = Arg(meta: Meta, ty: Combo, name: string)

  /** The primitive spellings that normalise to a plain number. "bool" is among them. */
  const NumericSpellings: set<string> := {
    "char", "unsigned char", "bool", "int8_t", "uint8_t", "signed char",
    "short", "int16_t", "uint16_t", "unsigned short", "int", "long",
    "unsigned int", "unsigned long", "int32_t", "uint32_t", "size_t",
    "unsigned long long", "int64_t", "uint64_t", "long long", "float", "double"
  }

  /** The name, or the name with "_id" appended, is a registered identifier type. */
  predicate Registered(name: string, made: set<string>)
  {
    name in made || name + "_id" in made
  }

  /** The identifier type a name stands for: the bare name if registered, else name + "_id"
      if that is registered, else the bare name. */
  function ConvertToId(name: string, made: set<string>): (r: string)
    ensures r == name || r == name + "_id"
    ensures r in made <==> Registered(name, made)
    ensures name in made ==> r == name
    ensures r != name ==> name !in made && r in made
  {
    if name in made then name
    else if name + "_id" in made then name + "_id"
    else name
  }

  /** Sorts a type name into its class, in priority order: primitive, "bitfield",
      "lua_reference_type", registered identifier, opaque. */
  function NormalizeType(name: string, made: set<string>): (r: Combo)
    ensures r.cType == name
    ensures r.normalized != Integer && r.normalized != FloatingPoint
    ensures r.normalized == FatFloat <==> name in NumericSpellings
    ensures r.normalized == FatFloat ==> r.apiType == name && r.luaType == "number"
    ensures r.normalized == Boolean <==> name == "bitfield"
    ensures r.normalized == Boolean ==> r.apiType == "bool" && r.luaType == "boolean"
    ensures r.normalized == LuaObject <==> name == "lua_reference_type"
    ensures r.normalized == LuaObject ==> r.apiType == "int32_t" && r.luaType == "number"
    ensures r.normalized == HandleToInteger <==>
              name !in NumericSpellings && name != "bitfield" && name != "lua_reference_type"
              && Registered(name, made)
    ensures r.normalized == HandleToInteger ==>
              r.apiType == "int32_t" && r.luaType == ConvertToId(name, made)
    ensures r.normalized == Opaque <==>
              name !in NumericSpellings && name != "bitfield" && name != "lua_reference_type"
              && !Registered(name, made)
    ensures r.normalized == Opaque ==> r.apiType == name && r.luaType == "table"
  {
    if name in NumericSpellings then
      Combo(FatFloat, name, name, "number")
    else if name == "bitfield" then
      Combo(Boolean, name, "bool", "boolean")
    else if name == "lua_reference_type" then
      Combo(LuaObject, name, "int32_t", "number")
    else if name in made || name + "_id" in made then
      var luaType := if name in made then name else name + "_id";
      Combo(HandleToInteger, name, "int32_t", luaType)
    else
      Combo(Opaque, name, name, "table")
  }

  /** Normalisation reads the registry only through the two names it asks about. */
  lemma NormalizeTypeReadsTwoNames(name: string, m1: set<string>, m2: set<string>)
    requires (name in m1 <==> name in m2) && (name + "_id" in m1 <==> name + "_id" in m2)
    ensures NormalizeType(name, m1) == NormalizeType(name, m2)
  {
  }

  /** A boolean primitive is classed as a number, not as a boolean. */
  lemma BoolIsNumber(made: set<string>)
    ensures NormalizeType("bool", made) == Combo(FatFloat, "bool", "bool", "number")
  {
  }

  /** The combotype a bit-flag property's value is overridden with. */
  const BoolCombo := Combo(Boolean, "bool", "bool", "boolean")

  /** Turns a declared type into an argument: an identifier handle when the type is a
      registered identifier type, otherwise a value, or a value passed by pointer when the
      (possibly boolean-overridden) type is opaque. */
  function NormalizeArgument(name: string, isBool: bool, declared: string, made: set<string>): (a: Arg)
    ensures a.name == name
    ensures a.meta != Empty
    ensures a.meta == Id <==> Registered(declared, made)
    ensures a.meta == Id ==> a.ty == NormalizeType(declared, made)
    ensures a.meta == ValuePointer <==>
              !Registered(declared, made) && !isBool && NormalizeType(declared, made).normalized == Opaque
    ensures a.meta == ValuePointer ==> a.ty == Combo(Opaque, declared, declared, "table")
    ensures !Registered(declared, made) && isBool ==> a == Arg(Value, BoolCombo, name)
    ensures !Registered(declared, made) && !isBool ==> a.ty == NormalizeType(declared, made)
  {
    if declared in made || declared + "_id" in made then
      Arg(Id, NormalizeType(declared, made), name)
    else
      var ty := if isBool then BoolCombo else NormalizeType(declared, made);
      Arg(if ty.normalized == Opaque then ValuePointer else Value, ty, name)
  }

  /** The tag of a meta kind used in generated argument names (to_string(meta_information)). */
  function MetaName(m: Meta): (r: string)
    ensures r == "id" <==> m == Id
    ensures r == "value" <==> m == Value
    ensures r == "value_ptr" <==> m == ValuePointer
    ensures r == "void" <==> m == Empty
  {
    match m
    case Id => "id"
    case Value => "value"
    case ValuePointer => "value_ptr"
    case Empty => "void"
  }

  /** The export-call spelling of an argument's type (to_string(arg_information)). */
  function ExportType(a: Arg): string
  {
    match a.meta
    case Id => "int32_t"
    case Value => a.ty.apiType
    case ValuePointer => a.ty.cType + "*"
    case Empty => "void"
  }

  /** The spelling of the container-side variable holding an argument (intermediate_type). */
  function IntermediateType(a: Arg): string
  {
    match a.meta
    case Id => "dcon::" + a.ty.cType
    case Value => a.ty.cType
    case ValuePointer => a.ty.cType + "*"
    case Empty => "void"
  }

  /** For a normalised argument of a non-sentinel type, the export signature uses exactly the
      API spelling of its type unless it is passed by pointer, when it uses the declared name
      with a "*"; the container side sees the declared type, qualified for identifiers. */
  lemma {:induction false} ArgumentSpellingsAgree(name: string, isBool: bool, declared: string, made: set<string>)
    requires declared !in NumericSpellings && declared != "bitfield" && declared != "lua_reference_type"
    ensures var a := NormalizeArgument(name, isBool, declared, made);
      && (a.meta != ValuePointer ==> ExportType(a) == a.ty.apiType)
      && (a.meta == ValuePointer ==> ExportType(a) == declared + "*" && IntermediateType(a) == ExportType(a))
      && (a.meta == Id ==> IntermediateType(a) == "dcon::" + declared)
  {
    var a := NormalizeArgument(name, isBool, declared, made);
    if a.meta == Id {
      assert a.ty.normalized == HandleToInteger;
    }
  }

  /** The identifier types registered before any type is normalised: one per entity
      ('name' + "_id") and every auxiliary identifier type. */
  ghost function RegisteredNames(entityNames: seq<string>, extraIds: seq<string>): set<string>
  {
    (set k | 0 <= k < |entityNames| :: entityNames[k] + "_id") + (set k | 0 <= k < |extraIds| :: extraIds[k])
  }

  /** The registration pass that fills made_types (which starts empty). */
  method RegisterIdTypes(entityNames: seq<string>, extraIds: seq<string>) returns (made: set<string>)
    ensures made == RegisteredNames(entityNames, extraIds)
    ensures forall k :: 0 <= k < |entityNames| ==> Registered(entityNames[k], made)
  {
    made := {};
    for i := 0 to |entityNames|
      invariant made == set k | 0 <= k < i :: entityNames[k] + "_id"
    {
      made := made + {entityNames[i] + "_id"};
    }
    ghost var fromEntities := made;
    for i := 0 to |extraIds|
      invariant made == fromEntities + set k | 0 <= k < i :: extraIds[k]
    {
      made := made + {extraIds[i]};
    }
    forall k | 0 <= k < |entityNames|
      ensures Registered(entityNames[k], made)
    {
      assert entityNames[k] + "_id" in fromEntities;
    }
  }

  /** The 'id' argument every entity's accessors take: an identifier handle exported as
      int32_t, annotated in Lua with the entity's identifier type. */
  lemma {:induction false} EntityIdArgument(entity: string, made: set<string>)
    requires entity + "_id" in made && entity !in made
    requires entity + "_id" !in NumericSpellings && entity + "_id" != "bitfield"
    requires entity + "_id" != "lua_reference_type"
    ensures var ty := NormalizeType(ConvertToId(entity, made), made);
      ty == Combo(HandleToInteger, entity + "_id", "int32_t", entity + "_id")
  {
    assert ConvertToId(entity, made) == entity + "_id";
  }
}
