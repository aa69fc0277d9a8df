/**
 * Call descriptors (function_call_information): the exported function name,
 * the signature head written into both the C header and the Lua cdef, the
 * rule that keeps pointer-passing calls off the Lua surface, and the set of
 * descriptors the generator builds for one entity.
 */
module Descriptors {
  import opened Schema
  import opened Types
  import opened Text

  /** How a call reaches the property (array_access): a plain function, or one of the
      element operations of a special vector. */
  datatype ArrayAccess = FunctionCall | GetCall | SetCall | ResizeCall | SizeCall

  datatype Call = Call(
    access: ArrayAccess,
    prefix: string,
    objectName: string,
    property: string,
    inputs: seq<Arg>,
    out: Arg)

  // ---------------------------------------------------------------------
  // Names

  /** The exported name of a call (access_property_name). A resize call is named with
      "size_" and a size call with "resize_", as the generator does. */
  function AccessPropertyName(d: Call): string
  {
    var property :=
      if d.access == GetCall then "get_" + d.property
      else if d.access == SetCall then "set_" + d.property
      else if d.access == ResizeCall then "size_" + d.property
      else if d.access == SizeCall then "resize_" + d.property
      else d.property;
    d.prefix + d.objectName + "_" + property
  }

  /** The name of the Lua wrapper function inside the entity's namespace table, computed
      separately by the Lua binding with its own copy of the same mapping. */
  function LuaPropertyName(d: Call): string
  {
    if d.access == GetCall then "get_" + d.property
    else if d.access == SetCall then "set_" + d.property
    else if d.access == ResizeCall then "size_" + d.property
    else if d.access == SizeCall then "resize_" + d.property
    else d.property
  }

  /** The Lua wrapper and the exported function it forwards to agree: the export name is
      the prefix, the object and "_" in front of the wrapper's name. */
  lemma ExportNameExtendsLuaName(d: Call)
    ensures AccessPropertyName(d) == d.prefix + d.objectName + "_" + LuaPropertyName(d)
    ensures var p := AccessPropertyName(d)[|d.prefix + d.objectName + "_"|..]; p == LuaPropertyName(d)
  {
    var front := d.prefix + d.objectName + "_";
    assert (front + LuaPropertyName(d))[|front|..] == LuaPropertyName(d);
  }

  /** The element operations of a special vector are named like the plain functions of
      the prefixed property; a size call carries "resize_" and a resize call "size_". */
  lemma VectorOperationNames(d: Call)
    ensures d.access == GetCall ==> AccessPropertyName(d) == AccessPropertyName(d.(access := FunctionCall, property := "get_" + d.property))
    ensures d.access == SetCall ==> AccessPropertyName(d) == AccessPropertyName(d.(access := FunctionCall, property := "set_" + d.property))
    ensures d.access == SizeCall ==> AccessPropertyName(d) == AccessPropertyName(d.(access := FunctionCall, property := "resize_" + d.property))
    ensures d.access == ResizeCall ==> AccessPropertyName(d) == AccessPropertyName(d.(access := FunctionCall, property := "size_" + d.property))
  {
  }

  /** Within one access kind, prefix and object, the name determines the property. */
  lemma AccessNameInjective(d: Call, e: Call)
    requires d.access == e.access && d.prefix == e.prefix && d.objectName == e.objectName
    ensures AccessPropertyName(d) == AccessPropertyName(e) <==> d.property == e.property
  {
    if AccessPropertyName(d) == AccessPropertyName(e) {
      var front := d.prefix + d.objectName + "_";
      var tag := LuaPropertyName(d)[..|LuaPropertyName(d)| - |d.property|];
      ExportNameExtendsLuaName(d);
      ExportNameExtendsLuaName(e);
      assert LuaPropertyName(d) == LuaPropertyName(e) by {
        assert LuaPropertyName(d) == AccessPropertyName(d)[|front|..];
      }
      assert LuaPropertyName(d) == tag + d.property;
      assert LuaPropertyName(e) == tag + e.property;
      assert d.property == LuaPropertyName(d)[|tag|..];
      assert e.property == LuaPropertyName(e)[|tag|..];
    }
  }

  /** For one property, the five access kinds give five different names. */
  lemma AccessKindsDistinct(d: Call, e: Call)
    requires d.prefix == e.prefix && d.objectName == e.objectName && d.property == e.property
    requires d.access != e.access
    ensures AccessPropertyName(d) != AccessPropertyName(e)
  {
    ExportNameExtendsLuaName(d);
    ExportNameExtendsLuaName(e);
    var x, y := LuaPropertyName(d), LuaPropertyName(e);
    if |x| == |y| {
      assert {d.access, e.access} == {GetCall, SetCall};
      assert x[0] != y[0];
    }
  }

  // ---------------------------------------------------------------------
  // Signature heads (generate_head)

  /** The name of the `k`-th parameter of an exported function (api_arg_string). */
  function ParamName(a: Arg, k: nat): string
  {
    "api_arg_" + NatToString(k) + "_" + MetaName(a.meta)
  }

  /** The parameter declarations of a head: the API spelling of each input's type, then
      its name. */
  function ParamItems(ins: seq<Arg>): (r: seq<string>)
    ensures |r| == |ins|
  {
    seq(|ins|, k requires 0 <= k < |ins| => ins[k].ty.apiType + " " + ParamName(ins[k], k))
  }

  /** The head of an exported function: result type, name and the parameter list. */
  function HeadSpec(d: Call): string
  {
    ExportType(d.out) + " " + AccessPropertyName(d) + "(" + Join(ParamItems(d.inputs)) + ")"
  }

  /** Builds the head as the generator does: every parameter is followed by ", " and the
      last separator is dropped afterwards when there was a parameter. */
  method GenerateHead(d: Call) returns (head: string)
    ensures head == HeadSpec(d)
  {
    head := ExportType(d.out) + " " + AccessPropertyName(d) + "(";
    ghost var start := head;
    ghost var items := ParamItems(d.inputs);
    var counter := 0;
    while counter < |d.inputs|
      invariant counter <= |d.inputs|
      invariant head == start + Terminated(items[..counter])
    {
      var item := d.inputs[counter];
      var entry := item.ty.apiType + " " + ParamName(item, counter);
      assert entry == items[counter];
      TerminatedStep(start, items, counter);
      head := head + (entry + ", ");
      counter := counter + 1;
    }
    assert items[..counter] == items;
    if counter > 0 {
      TrimSeparator(start, items);
      head := head[..|head| - 2];
    }
    head := head + ")";
  }

  /** No two parameters of a head have the same name. */
  lemma ParamNamesDistinct(ins: seq<Arg>, i: nat, j: nat)
    requires i < |ins| && j < |ins| && i != j
    ensures ParamName(ins[i], i) != ParamName(ins[j], j)
  {
    var p := "api_arg_";
    var x := NatToString(i) + "_" + MetaName(ins[i].meta);
    var y := NatToString(j) + "_" + MetaName(ins[j].meta);
    assert ParamName(ins[i], i) == p + x && ParamName(ins[j], j) == p + y;
    NumberedTagInjective(i, MetaName(ins[i].meta), j, MetaName(ins[j].meta));
    PrefixCancels(p, x, y);
  }

  // ---------------------------------------------------------------------
  // The Lua suppression rule (append)

  /** A call gets a Lua binding unless its result or one of its inputs is passed by
      pointer. The export function is emitted either way. */
  predicate ReachesLua(d: Call)
  {
    d.out.meta != ValuePointer && forall k :: 0 <= k < |d.inputs| ==> d.inputs[k].meta != ValuePointer
  }

  /** The scan `append` performs before the Lua binding, as a loop with early exits. */
  method ShouldBindLua(d: Call) returns (bind: bool)
    ensures bind <==> ReachesLua(d)
  {
    if d.out.meta == ValuePointer {
      return false;
    }
    for k := 0 to |d.inputs|
      invariant forall m :: 0 <= m < k ==> d.inputs[m].meta != ValuePointer
    {
      if d.inputs[k].meta == ValuePointer {
        return false;
      }
    }
    return true;
  }

  // ---------------------------------------------------------------------
  // The descriptors of one entity

  /** The 'id' argument of the entity's accessors. */
  function IdIn(entity: string, made: set<string>): Arg
  {
    Arg(Id, NormalizeType(ConvertToId(entity, made), made), "id")
  }

  /** A value argument of a fixed declared type (gen_value). */
  function GenValue(name: string, base: string, made: set<string>): Arg
  {
    Arg(Value, NormalizeType(base, made), name)
  }

  /** The result of a call that returns nothing; its type is the zero-initialised one. */
  const VoidArg := Arg(Empty, Combo(FatFloat, "", "", ""), "???")

  function SizeArg(made: set<string>): Arg { GenValue("value", "uint32_t", made) }
  function IntArg(made: set<string>): Arg { GenValue("value", "int32_t", made) }
  function BoolArg(made: set<string>): Arg { GenValue("value", "bool", made) }

  function Fn(prefix: string, ob: string, property: string, ins: seq<Arg>, out: Arg): Call
  {
    Call(FunctionCall, prefix, ob, property, ins, out)
  }

  /** is_valid, size and resize (lines 1031-1033). */
  function BaseCalls(prefix: string, ob: string, made: set<string>): seq<Call>
  {
    [ Fn(prefix, ob, "is_valid", [IdIn(ob, made)], BoolArg(made)),
      Fn(prefix, ob, "size", [], SizeArg(made)),
      Fn(prefix, ob, "resize", [SizeArg(made)], VoidArg) ]
  }

  predicate IsArrayProperty(t: PropertyType)
  {
    t == ArrayBitfield || t == ArrayVectorizable || t == ArrayOther
  }

  /** The value argument of a property's accessors; bit flags are overridden as booleans. */
  function PropertyValue(p: Property, made: set<string>): Arg
  {
    NormalizeArgument("value", p.ptype == ArrayBitfield || p.ptype == Bitfield, p.dataType, made)
  }

  function PropertyIndex(p: Property, made: set<string>): Arg
  {
    NormalizeArgument("index", false, p.arrayIndexType, made)
  }

  /** A property is read through the API when it is stored or has a get hook, and does not
      hold a Lua reference. */
  predicate Readable(p: Property, made: set<string>)
  {
    (p.hookGet || !p.isDerived) && PropertyValue(p, made).ty.normalized != LuaObject
  }

  /** The accessors of one property (lines 1035-1142). */
  function PropertyCalls(prefix: string, ob: string, p: Property, made: set<string>): seq<Call>
  {
    var value := PropertyValue(p, made);
    var index := PropertyIndex(p, made);
    var id := IdIn(ob, made);
    var size := SizeArg(made);
    var settable := value.ty.normalized != Opaque;
    if IsArrayProperty(p.ptype) then
      (if Readable(p, made) && index.meta != ValuePointer then
         [Fn(prefix, ob, "get_" + p.name, [id, index], value)]
         + (if settable then [Fn(prefix, ob, "set_" + p.name, [id, index, value], VoidArg)] else [])
       else [])
      + (if !p.isDerived then
           [ Fn(prefix, ob, "get_" + p.name + "_size", [], size),
             Fn(prefix, ob, "resize_" + p.name, [size], VoidArg) ]
         else [])
    else if p.ptype == SpecialVector then
      if Readable(p, made) && index.meta != ValuePointer then
        [ Call(GetCall, prefix, ob, p.name, [id, size], value),
          Call(SizeCall, prefix, ob, p.name, [id], size),
          Call(ResizeCall, prefix, ob, p.name, [id, size], VoidArg) ]
        + (if settable then [Call(SetCall, prefix, ob, p.name, [id, size, value], VoidArg)] else [])
      else []
    else if Readable(p, made) then
      [Fn(prefix, ob, "get_" + p.name, [id], value)]
      + (if settable then [Fn(prefix, ob, "set_" + p.name, [id, value], VoidArg)] else [])
    else []
  }

  /** The accessors of one link (lines 1144-1210): a link that is the primary key, or has
      multiplicity one, is read and written without a slot index; any other link takes an
      int32_t slot index first. */
  function LinkCalls(prefix: string, ob: string, pk: PrimaryKey, l: Link, made: set<string>): seq<Call>
  {
    var value := Arg(Id, NormalizeType(ConvertToId(l.typeName, made), made), "linked_id");
    var id := IdIn(ob, made);
    var single := (l.index == AtMostOne && KeyIsLink(pk, l)) || l.multiplicity == 1;
    var ins := if single then [id] else [id, IntArg(made)];
    [ Fn(prefix, ob, "get_" + l.propertyName, ins, value),
      Fn(prefix, ob, "set_" + l.propertyName, ins + [value], VoidArg),
      Fn(prefix, ob, "try_set_" + l.propertyName, ins + [value], VoidArg) ]
  }

  /** No other link of the relationship points at an entity named `ob` (is_only_of_type). */
  predicate OnlyOfType(relLinks: seq<Link>, ob: string, property: string)
  {
    forall k :: 0 <= k < |relLinks| ==> !(relLinks[k].typeName == ob && relLinks[k].propertyName != property)
  }

  /** The scan for is_only_of_type, a flag cleared inside a loop. */
  method IsOnlyOfType(relLinks: seq<Link>, ob: string, property: string) returns (only: bool)
    ensures only <==> OnlyOfType(relLinks, ob, property)
  {
    only := true;
    for k := 0 to |relLinks|
      invariant only <==> OnlyOfType(relLinks[..k], ob, property)
    {
      assert relLinks[..k + 1][..k] == relLinks[..k];
      if relLinks[k].typeName == ob && relLinks[k].propertyName != property {
        only := false;
      }
    }
    assert relLinks[..|relLinks|] == relLinks;
  }

  /** The accessors for a reverse link (lines 1212-1291) of entity `ob` as link `linkedAs` of
      relationship `rel`, whose links are `relLinks`. A reverse link of a many-link gets
      hand-written range helpers instead, which are not call descriptors. */
  function ReverseCalls(prefix: string, ob: string, rel: string, linkedAs: Link, relLinks: seq<Link>,
                        made: set<string>): seq<Call>
  {
    var relation := Arg(Id, NormalizeType(ConvertToId(rel, made), made), "relation");
    var id := IdIn(ob, made);
    if linkedAs.index == AtMostOne then
      [Fn(prefix, ob, "get_" + rel + "_as_" + linkedAs.propertyName, [id], relation)]
      + (if OnlyOfType(relLinks, ob, linkedAs.propertyName) then [Fn(prefix, ob, "get_" + rel, [id], relation)] else [])
    else []
  }

  // ---------------------------------------------------------------------
  // What reaches Lua

  /** Every call of the sequence gets a Lua binding. */
  predicate AllReachLua(cs: seq<Call>)
  {
    forall k :: 0 <= k < |cs| ==> ReachesLua(cs[k])
  }

  /** The base calls always get a Lua binding. */
  lemma BaseCallsReachLua(prefix: string, ob: string, made: set<string>)
    ensures AllReachLua(BaseCalls(prefix, ob, made))
  {
  }

  /** The accessors of a link always get a Lua binding: they pass identifiers and integers. */
  lemma LinkCallsReachLua(prefix: string, ob: string, pk: PrimaryKey, l: Link, made: set<string>)
    ensures AllReachLua(LinkCalls(prefix, ob, pk, l, made))
  {
  }

  /** The accessors of a reverse link always get a Lua binding. */
  lemma ReverseCallsReachLua(prefix: string, ob: string, rel: string, linkedAs: Link, relLinks: seq<Link>,
                             made: set<string>)
    ensures AllReachLua(ReverseCalls(prefix, ob, rel, linkedAs, relLinks, made))
  {
  }

  lemma AllReachLuaConcat(a: seq<Call>, b: seq<Call>)
    requires AllReachLua(a) && AllReachLua(b)
    ensures AllReachLua(a + b)
  {
    forall k | 0 <= k < |a + b|
      ensures ReachesLua((a + b)[k])
    {
      if k >= |a| {
        assert (a + b)[k] == b[k - |a|];
      }
    }
  }

  /** The only property accessor kept off the Lua surface is the getter of a value that is
      passed by pointer; a setter is never generated for such a value. */
  lemma SuppressedPropertyCalls(prefix: string, ob: string, p: Property, made: set<string>)
    ensures var cs := PropertyCalls(prefix, ob, p, made);
      forall k :: 0 <= k < |cs| && !ReachesLua(cs[k]) ==>
        PropertyValue(p, made).meta == ValuePointer && cs[k].out == PropertyValue(p, made)
        && cs[k].access != SetCall && |cs[k].inputs| <= 2
  {
    var cs := PropertyCalls(prefix, ob, p, made);
    forall k | 0 <= k < |cs| && !ReachesLua(cs[k])
      ensures PropertyValue(p, made).meta == ValuePointer && cs[k].out == PropertyValue(p, made)
              && cs[k].access != SetCall && |cs[k].inputs| <= 2
    {
      HiddenPropertyCall(prefix, ob, p, made, k);
    }
  }

  /** One hidden property accessor is the first one, the getter. */
  lemma HiddenPropertyCall(prefix: string, ob: string, p: Property, made: set<string>, k: nat)
    requires k < |PropertyCalls(prefix, ob, p, made)| && !ReachesLua(PropertyCalls(prefix, ob, p, made)[k])
    ensures var value, c := PropertyValue(p, made), PropertyCalls(prefix, ob, p, made)[k];
      k == 0 && value.meta == ValuePointer && c.out == value && c.access != SetCall && |c.inputs| <= 2
  {
    var value := PropertyValue(p, made);
    assert value.meta == ValuePointer ==> value.ty.normalized == Opaque;
    assert IdIn(ob, made).meta == Id && SizeArg(made).meta == Value;
    if IsArrayProperty(p.ptype) {
      assert PropertyCalls(prefix, ob, p, made)[k].out == value;
    }
  }

  /** Conversely, a readable property whose value is passed by pointer has a getter that is
      exported and kept off the Lua surface, unless an array index passed by pointer stops
      the getter from being generated at all. */
  lemma PointerValueGetterHidden(prefix: string, ob: string, p: Property, made: set<string>)
    requires PropertyValue(p, made).meta == ValuePointer && Readable(p, made)
    requires IsArrayProperty(p.ptype) || p.ptype == SpecialVector ==> PropertyIndex(p, made).meta != ValuePointer
    ensures exists d :: d in PropertyCalls(prefix, ob, p, made) && !ReachesLua(d) && d.out == PropertyValue(p, made)
  {
    var cs := PropertyCalls(prefix, ob, p, made);
    assert cs[0].out == PropertyValue(p, made);
  }

  /** A setter is generated exactly when the getter is and the value is not opaque. */
  lemma SetterIffSettable(prefix: string, ob: string, p: Property, made: set<string>)
    requires !IsArrayProperty(p.ptype) && p.ptype != SpecialVector
    ensures var cs := PropertyCalls(prefix, ob, p, made);
      && (|cs| > 0 <==> Readable(p, made))
      && (|cs| == 2 <==> Readable(p, made) && PropertyValue(p, made).ty.normalized != Opaque)
      && (|cs| > 0 ==> AccessPropertyName(cs[0]) == prefix + ob + "_get_" + p.name)
      && (|cs| == 2 ==> AccessPropertyName(cs[1]) == prefix + ob + "_set_" + p.name)
  {
  }

  // ---------------------------------------------------------------------
  // All descriptors of one entity, in the order they are appended

  function PropsCalls(prefix: string, ob: string, ps: seq<Property>, made: set<string>): seq<Call>
  {
    if |ps| == 0 then []
    else PropsCalls(prefix, ob, ps[..|ps| - 1], made) + PropertyCalls(prefix, ob, ps[|ps| - 1], made)
  }

  function LinksCalls(prefix: string, ob: string, pk: PrimaryKey, ls: seq<Link>, made: set<string>): seq<Call>
  {
    if |ls| == 0 then []
    else LinksCalls(prefix, ob, pk, ls[..|ls| - 1], made) + LinkCalls(prefix, ob, pk, ls[|ls| - 1], made)
  }

  /** Every reverse link of `rs` names a relationship of `s` and one of its links. */
  predicate InRelationsIn(s: seq<Entity>, rs: seq<InRelation>)
  {
    forall r :: 0 <= r < |rs| ==> rs[r].relation < |s| && rs[r].linkedAs < |s[rs[r].relation].links|
  }

  predicate ReverseLinksIn(s: seq<Entity>, e: Entity)
  {
    InRelationsIn(s, e.relationshipsInvolvedIn)
  }

  /** The accessors for the reverse link `r` of entity `ob`. */
  function InRelationCalls(prefix: string, s: seq<Entity>, ob: string, r: InRelation, made: set<string>): seq<Call>
    requires r.relation < |s| && r.linkedAs < |s[r.relation].links|
  {
    var rel := s[r.relation];
    ReverseCalls(prefix, ob, r.relationName, rel.links[r.linkedAs], rel.links, made)
  }

  function ReversesCalls(prefix: string, s: seq<Entity>, ob: string, rs: seq<InRelation>, made: set<string>): seq<Call>
    requires InRelationsIn(s, rs)
  {
    if |rs| == 0 then []
    else ReversesCalls(prefix, s, ob, rs[..|rs| - 1], made) + InRelationCalls(prefix, s, ob, rs[|rs| - 1], made)
  }

  /** The descriptors of entity `e` of schema `s`: the base calls, then the accessors of every
      property, of every link and of every reverse link. */
  function EntityCalls(prefix: string, s: seq<Entity>, e: Entity, made: set<string>): seq<Call>
    requires ReverseLinksIn(s, e)
  {
    BaseCalls(prefix, e.name, made)
    + PropsCalls(prefix, e.name, e.properties, made)
    + LinksCalls(prefix, e.name, e.primaryKey, e.links, made)
    + ReversesCalls(prefix, s, e.name, e.relationshipsInvolvedIn, made)
  }

  /** A call kept off Lua is the getter of a pointer-passed property value. */
  predicate PointerGetter(d: Call, ps: seq<Property>, made: set<string>)
  {
    exists m :: 0 <= m < |ps| && PropertyValue(ps[m], made).meta == ValuePointer && d.out == PropertyValue(ps[m], made)
      && d.access != SetCall
  }

  /** Every call of `cs` without a Lua binding is such a getter for one of `ps`. */
  predicate HiddenArePointerGetters(cs: seq<Call>, ps: seq<Property>, made: set<string>)
  {
    forall k :: 0 <= k < |cs| && !ReachesLua(cs[k]) ==> PointerGetter(cs[k], ps, made)
  }

  lemma HiddenConcat(a: seq<Call>, b: seq<Call>, ps: seq<Property>, made: set<string>)
    requires HiddenArePointerGetters(a, ps, made) && HiddenArePointerGetters(b, ps, made)
    ensures HiddenArePointerGetters(a + b, ps, made)
  {
    forall k | 0 <= k < |a + b| && !ReachesLua((a + b)[k])
      ensures PointerGetter((a + b)[k], ps, made)
    {
      if k >= |a| {
        assert (a + b)[k] == b[k - |a|];
      }
    }
  }

  lemma HiddenExtend(cs: seq<Call>, ps: seq<Property>, qs: seq<Property>, made: set<string>)
    requires HiddenArePointerGetters(cs, ps, made) && ps <= qs
    ensures HiddenArePointerGetters(cs, qs, made)
  {
    forall k | 0 <= k < |cs| && !ReachesLua(cs[k])
      ensures PointerGetter(cs[k], qs, made)
    {
      var m :| 0 <= m < |ps| && PropertyValue(ps[m], made).meta == ValuePointer
               && cs[k].out == PropertyValue(ps[m], made) && cs[k].access != SetCall;
      assert qs[m] == ps[m];
    }
  }

  lemma AllReachLuaHidden(cs: seq<Call>, ps: seq<Property>, made: set<string>)
    requires AllReachLua(cs)
    ensures HiddenArePointerGetters(cs, ps, made)
  {
  }

  /** The accessors of the last property of `ps`. */
  lemma LastPropertyHidden(prefix: string, ob: string, ps: seq<Property>, made: set<string>)
    requires |ps| > 0
    ensures HiddenArePointerGetters(PropertyCalls(prefix, ob, ps[|ps| - 1], made), ps, made)
  {
    var m := |ps| - 1;
    var cs := PropertyCalls(prefix, ob, ps[m], made);
    SuppressedPropertyCalls(prefix, ob, ps[m], made);
    forall k | 0 <= k < |cs| && !ReachesLua(cs[k])
      ensures PointerGetter(cs[k], ps, made)
    {
      assert PropertyValue(ps[m], made).meta == ValuePointer && cs[k].out == PropertyValue(ps[m], made);
    }
  }

  lemma {:induction false} PropsCallsHidden(prefix: string, ob: string, ps: seq<Property>, made: set<string>)
    ensures HiddenArePointerGetters(PropsCalls(prefix, ob, ps, made), ps, made)
  {
    if |ps| > 0 {
      var init := ps[..|ps| - 1];
      PropsCallsHidden(prefix, ob, init, made);
      HiddenExtend(PropsCalls(prefix, ob, init, made), init, ps, made);
      LastPropertyHidden(prefix, ob, ps, made);
      HiddenConcat(PropsCalls(prefix, ob, init, made), PropertyCalls(prefix, ob, ps[|ps| - 1], made), ps, made);
    }
  }

  lemma {:induction false} LinksCallsReachLua(prefix: string, ob: string, pk: PrimaryKey, ls: seq<Link>, made: set<string>)
    ensures AllReachLua(LinksCalls(prefix, ob, pk, ls, made))
  {
    if |ls| > 0 {
      LinksCallsReachLua(prefix, ob, pk, ls[..|ls| - 1], made);
      LinkCallsReachLua(prefix, ob, pk, ls[|ls| - 1], made);
      AllReachLuaConcat(LinksCalls(prefix, ob, pk, ls[..|ls| - 1], made), LinkCalls(prefix, ob, pk, ls[|ls| - 1], made));
    }
  }

  lemma {:induction false} ReversesCallsReachLua(prefix: string, s: seq<Entity>, ob: string, rs: seq<InRelation>,
                                                 made: set<string>)
    requires InRelationsIn(s, rs)
    ensures AllReachLua(ReversesCalls(prefix, s, ob, rs, made))
  {
    if |rs| > 0 {
      var r := rs[|rs| - 1];
      ReversesCallsReachLua(prefix, s, ob, rs[..|rs| - 1], made);
      var rel := s[r.relation];
      ReverseCallsReachLua(prefix, ob, r.relationName, rel.links[r.linkedAs], rel.links, made);
      AllReachLuaConcat(ReversesCalls(prefix, s, ob, rs[..|rs| - 1], made), InRelationCalls(prefix, s, ob, r, made));
    }
  }

  /** Of all the descriptors of an entity, the only ones without a Lua binding are getters
      of property values that are passed by pointer. */
  lemma EntitySuppressedCalls(prefix: string, s: seq<Entity>, e: Entity, made: set<string>)
    requires ReverseLinksIn(s, e)
    ensures HiddenArePointerGetters(EntityCalls(prefix, s, e, made), e.properties, made)
  {
    var base := BaseCalls(prefix, e.name, made);
    var props := PropsCalls(prefix, e.name, e.properties, made);
    var links := LinksCalls(prefix, e.name, e.primaryKey, e.links, made);
    var revs := ReversesCalls(prefix, s, e.name, e.relationshipsInvolvedIn, made);
    BaseCallsReachLua(prefix, e.name, made);
    PropsCallsHidden(prefix, e.name, e.properties, made);
    LinksCallsReachLua(prefix, e.name, e.primaryKey, e.links, made);
    ReversesCallsReachLua(prefix, s, e.name, e.relationshipsInvolvedIn, made);
    AllReachLuaHidden(base, e.properties, made);
    AllReachLuaHidden(links, e.properties, made);
    AllReachLuaHidden(revs, e.properties, made);
    HiddenConcat(base, props, e.properties, made);
    HiddenConcat(base + props, links, e.properties, made);
    HiddenConcat(base + props + links, revs, e.properties, made);
  }

  /** When no property value of the entity is passed by pointer, every exported function
      of the entity also gets a Lua binding. */
  lemma EntityFullyBound(prefix: string, s: seq<Entity>, e: Entity, made: set<string>)
    requires ReverseLinksIn(s, e)
    requires forall m :: 0 <= m < |e.properties| ==> PropertyValue(e.properties[m], made).meta != ValuePointer
    ensures AllReachLua(EntityCalls(prefix, s, e, made))
  {
    EntitySuppressedCalls(prefix, s, e, made);
  }
}
