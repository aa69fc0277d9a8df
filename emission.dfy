/**
 * Emission of one entity's bindings: the upper-cased Lua namespace, the
 * per-call appends to the C header, the Lua cdef block and the Lua wrapper
 * table, and the identifier parameters of the relationship constructors and
 * composite-key lookups.
 */
module Emission {
  import opened Schema
  import opened Types
  import opened Text
  import opened Descriptors
  import opened Seqs

  /** The Lua table the entity's wrappers live in: the entity name upper-cased in place. */
  method LuaNamespace(name: string) returns (ns: string)
    ensures |ns| == |name|
    ensures forall i :: 0 <= i < |ns| ==> ns[i] == UpperChar(name[i])
    ensures forall i :: 0 <= i < |ns| ==> !('a' <= ns[i] <= 'z')
  {
    ns := name;
    for i := 0 to |ns|
      invariant |ns| == |name|
      invariant forall k :: 0 <= k < i ==> ns[k] == UpperChar(name[k])
      invariant forall k :: i <= k < |ns| ==> ns[k] == name[k]
    {
      ns := ns[i := UpperChar(ns[i])];
    }
  }

  // ---------------------------------------------------------------------
  // The text one call contributes. Each output is modelled as the sequence of fragments
  // appended to it, in order; the text is their concatenation.

  /** The declaration of the exported function in the C header. */
  function HeaderLine(d: Call): string
  {
    "DCON_LUADLL_API " + HeadSpec(d) + ";\n"
  }

  /** The declaration inside the Lua cdef block. */
  function CdefLine(d: Call): string
  {
    HeadSpec(d) + ";\n"
  }

  /** The annotation of one wrapper parameter: an identifier parameter is annotated with
      its identifier type, a value with its Lua type. */
  function ParamAnnotation(a: Arg): string
  {
    "---@param " + a.name + " "
    + (if a.meta == Id then a.ty.cType else if a.meta == Value then a.ty.luaType else "") + "\n"
  }

  function ParamAnnotations(ins: seq<Arg>): (r: seq<string>)
    ensures |r| == |ins|
  {
    if |ins| == 0 then [] else ParamAnnotations(ins[..|ins| - 1]) + [ParamAnnotation(ins[|ins| - 1])]
  }

  lemma AnnotationStep(ins: seq<Arg>, k: nat)
    requires k < |ins|
    ensures ParamAnnotations(ins[..k + 1]) == ParamAnnotations(ins[..k]) + [ParamAnnotation(ins[k])]
  {
    assert ins[..k + 1][..k] == ins[..k];
  }

  function ReturnAnnotation(out: Arg): seq<string>
  {
    if out.meta == Empty then []
    else if out.meta == Id then ["---@return " + out.ty.cType + "\n"]
    else ["---@return " + out.ty.luaType + "\n"]
  }

  function ArgNames(ins: seq<Arg>): (r: seq<string>)
    ensures |r| == |ins|
  {
    seq(|ins|, k requires 0 <= k < |ins| => ins[k].name)
  }

  /** The Lua wrapper of a call: annotations, then a function of the namespace table that
      forwards its arguments, in order, to the exported function. */
  function WrapperText(ns: string, d: Call): seq<string>
  {
    var args := Join(ArgNames(d.inputs));
    ParamAnnotations(d.inputs) + ReturnAnnotation(d.out)
    + [ "function " + ns + "." + LuaPropertyName(d) + "(" + args + ")\n",
        "\treturn ffi.C." + AccessPropertyName(d) + "(" + args + ")\n",
        "end\n" ]
  }

  function HeaderOf(d: Call): seq<string> { [HeaderLine(d)] }
  function CdefOf(d: Call): seq<string> { [CdefLine(d)] }
  function WrapperOf(ns: string): Call -> seq<string> { d => WrapperText(ns, d) }

  /** The fragments `f` gives for every call of `ds`. */
  function Lines(f: Call -> seq<string>, ds: seq<Call>): seq<string>
  {
    if |ds| == 0 then [] else Lines(f, ds[..|ds| - 1]) + f(ds[|ds| - 1])
  }

  /** The fragments `f` gives for the calls of `ds` that reach Lua. */
  function BoundLines(f: Call -> seq<string>, ds: seq<Call>): seq<string>
  {
    if |ds| == 0 then []
    else BoundLines(f, ds[..|ds| - 1]) + (if ReachesLua(ds[|ds| - 1]) then f(ds[|ds| - 1]) else [])
  }

  lemma {:induction false} LinesConcat(f: Call -> seq<string>, a: seq<Call>, b: seq<Call>)
    decreases |b|
    ensures Lines(f, a + b) == Lines(f, a) + Lines(f, b)
  {
    if |b| == 0 {
      ConcatEmpty(a, b);
      ConcatEmpty(Lines(f, a), Lines(f, b));
    } else {
      var b' := b[..|b| - 1];
      ConcatSnoc(a, b);
      assert (a + b)[..|a + b| - 1] == a + b';
      LinesConcat(f, a, b');
      ConcatAssoc(Lines(f, a), Lines(f, b'), f(b[|b| - 1]));
    }
  }

  lemma {:induction false} BoundLinesConcat(f: Call -> seq<string>, a: seq<Call>, b: seq<Call>)
    decreases |b|
    ensures BoundLines(f, a + b) == BoundLines(f, a) + BoundLines(f, b)
  {
    if |b| == 0 {
      ConcatEmpty(a, b);
      ConcatEmpty(BoundLines(f, a), BoundLines(f, b));
    } else {
      var b' := b[..|b| - 1];
      var last := if ReachesLua(b[|b| - 1]) then f(b[|b| - 1]) else [];
      ConcatSnoc(a, b);
      assert (a + b)[..|a + b| - 1] == a + b';
      BoundLinesConcat(f, a, b');
      ConcatAssoc(BoundLines(f, a), BoundLines(f, b'), last);
    }
  }

  /** When every call reaches Lua, the Lua side gets the fragments of every call. */
  lemma {:induction false} BoundLinesAll(f: Call -> seq<string>, ds: seq<Call>)
    requires AllReachLua(ds)
    ensures BoundLines(f, ds) == Lines(f, ds)
  {
    if |ds| > 0 {
      var init := ds[..|ds| - 1];
      assert AllReachLua(init) by {
        forall k | 0 <= k < |init| ensures ReachesLua(init[k]) { assert init[k] == ds[k]; }
      }
      BoundLinesAll(f, init);
      assert ReachesLua(ds[|ds| - 1]);
    }
  }

  /** The calls kept off Lua contribute nothing to the Lua side. */
  lemma {:induction false} BoundLinesSkip(f: Call -> seq<string>, ds: seq<Call>)
    requires forall k :: 0 <= k < |ds| ==> !ReachesLua(ds[k])
    ensures BoundLines(f, ds) == []
  {
    if |ds| > 0 {
      var init := ds[..|ds| - 1];
      assert forall k :: 0 <= k < |init| ==> !ReachesLua(init[k]) by {
        forall k | 0 <= k < |init| ensures !ReachesLua(init[k]) { assert init[k] == ds[k]; }
      }
      BoundLinesSkip(f, init);
    }
  }

  /** Of an entity whose property values are never passed by pointer, the cdef block
      declares every function the header exports, in the same order. */
  lemma EntityCdefMatchesHeader(prefix: string, s: seq<Entity>, e: Entity, made: set<string>)
    requires ReverseLinksIn(s, e)
    requires forall m :: 0 <= m < |e.properties| ==> PropertyValue(e.properties[m], made).meta != ValuePointer
    ensures var ds := EntityCalls(prefix, s, e, made);
      BoundLines(CdefOf, ds) == Lines(CdefOf, ds) && |Lines(CdefOf, ds)| == |Lines(HeaderOf, ds)|
      && forall k :: 0 <= k < |Lines(HeaderOf, ds)| ==> Lines(HeaderOf, ds)[k] == "DCON_LUADLL_API " + Lines(CdefOf, ds)[k]
  {
    var ds := EntityCalls(prefix, s, e, made);
    EntityFullyBound(prefix, s, e, made);
    BoundLinesAll(CdefOf, ds);
    HeaderMatchesCdef(ds);
  }

  lemma {:induction false} HeaderMatchesCdef(ds: seq<Call>)
    ensures |Lines(CdefOf, ds)| == |Lines(HeaderOf, ds)| == |ds|
    ensures forall k :: 0 <= k < |ds| ==> Lines(HeaderOf, ds)[k] == "DCON_LUADLL_API " + Lines(CdefOf, ds)[k]
  {
    if |ds| > 0 {
      HeaderMatchesCdef(ds[..|ds| - 1]);
    }
  }

  /** The loop of append_lua over the inputs: one annotation per parameter, and the Lua
      argument list, every name followed by ", " and the last separator trimmed. */
  method LuaParams(ins: seq<Arg>) returns (notes: seq<string>, luaArgs: string)
    ensures notes == ParamAnnotations(ins)
    ensures luaArgs == Join(ArgNames(ins))
  {
    ghost var names := ArgNames(ins);
    notes, luaArgs := [], "";
    for k := 0 to |ins|
      invariant notes == ParamAnnotations(ins[..k])
      invariant luaArgs == "" + Terminated(names[..k])
    {
      var item := ins[k];
      TerminatedStep("", names, k);
      luaArgs := luaArgs + (item.name + ", ");
      var annotation := "---@param " + item.name + " "
        + (if item.meta == Id then item.ty.cType else if item.meta == Value then item.ty.luaType else "") + "\n";
      AnnotationStep(ins, k);
      notes := notes + [annotation];
    }
    assert ins[..|ins|] == ins && names[..|ins|] == names;
    if |luaArgs| > 0 {
      TrimSeparator("", names);
      luaArgs := luaArgs[..|luaArgs| - 2];
    }
  }

  // ---------------------------------------------------------------------
  // The emitter of one entity

  /** Outputs `h`, `c`, `w` are `h0`, `c0`, `w0` followed by what the calls `ds` add: a
      header line for every call, and cdef and wrapper text for those that reach Lua. */
  ghost predicate Extends(ns: string, h: seq<string>, c: seq<string>, w: seq<string>,
                          h0: seq<string>, c0: seq<string>, w0: seq<string>, ds: seq<Call>)
  {
    h == h0 + Lines(HeaderOf, ds) && c == c0 + BoundLines(CdefOf, ds) && w == w0 + BoundLines(WrapperOf(ns), ds)
  }

  /** No calls add nothing. */
  lemma ExtendsNothing(ns: string, h: seq<string>, c: seq<string>, w: seq<string>)
    ensures Extends(ns, h, c, w, h, c, w, [])
  {
    ConcatEmpty(h, []);
    ConcatEmpty(c, []);
    ConcatEmpty(w, []);
  }

  /** One call adds its header line, and its cdef line and wrapper when it reaches Lua. */
  lemma ExtendsOne(ns: string, h0: seq<string>, c0: seq<string>, w0: seq<string>, d: Call)
    ensures ReachesLua(d) ==>
      Extends(ns, h0 + [HeaderLine(d)], c0 + [CdefLine(d)], w0 + WrapperText(ns, d), h0, c0, w0, [d])
    ensures !ReachesLua(d) ==> Extends(ns, h0 + [HeaderLine(d)], c0, w0, h0, c0, w0, [d])
  {
    assert [d][..0] == [];
    ConcatEmpty(c0, []);
    ConcatEmpty(w0, []);
  }

  /** Emitting `a` and then `b` is emitting `a + b`. */
  lemma ExtendsConcat(ns: string, h0: seq<string>, c0: seq<string>, w0: seq<string>,
                      h1: seq<string>, c1: seq<string>, w1: seq<string>,
                      h2: seq<string>, c2: seq<string>, w2: seq<string>, a: seq<Call>, b: seq<Call>)
    requires Extends(ns, h1, c1, w1, h0, c0, w0, a) && Extends(ns, h2, c2, w2, h1, c1, w1, b)
    ensures Extends(ns, h2, c2, w2, h0, c0, w0, a + b)
  {
    Chain(HeaderOf, h0, h1, h2, a, b);
    Chain(CdefOf, c0, c1, c2, a, b);
    Chain(WrapperOf(ns), w0, w1, w2, a, b);
  }

  /** One output extended by the fragments of `a` and then of `b`. */
  lemma Chain(f: Call -> seq<string>, x0: seq<string>, x1: seq<string>, x2: seq<string>, a: seq<Call>, b: seq<Call>)
    ensures x1 == x0 + Lines(f, a) && x2 == x1 + Lines(f, b) ==> x2 == x0 + Lines(f, a + b)
    ensures x1 == x0 + BoundLines(f, a) && x2 == x1 + BoundLines(f, b) ==> x2 == x0 + BoundLines(f, a + b)
  {
    LinesConcat(f, a, b);
    BoundLinesConcat(f, a, b);
  }

  /** The three outputs an entity's calls are appended to: the shared C header, and the
      entity's own Lua cdef block and Lua wrapper table. The generated C bodies are not
      modelled. */
  class Emitter {
    var header: seq<string>
    var cdef: seq<string>
    var wrapper: seq<string>
    const ns: string

    /** A fresh emitter for an entity whose namespace is `ns`; the wrapper text starts by
        creating the namespace table. */
    constructor (header0: seq<string>, cdef0: seq<string>, ns: string)
      ensures this.header == header0 && this.cdef == cdef0 && this.ns == ns
      ensures this.wrapper == [ns + " = {}\n"]
    {
      this.header := header0;
      this.cdef := cdef0;
      this.ns := ns;
      this.wrapper := [ns + " = {}\n"];
    }

    /** The outputs hold `h0`, `c0`, `w0` followed by what the calls `ds` add. */
    ghost predicate Emitted(h0: seq<string>, c0: seq<string>, w0: seq<string>, ds: seq<Call>)
      reads this
    {
      Extends(ns, header, cdef, wrapper, h0, c0, w0, ds)
    }

    /** append_call: declares the exported function in the header. */
    method AppendCall(d: Call)
      modifies this
      ensures header == old(header) + [HeaderLine(d)]
      ensures cdef == old(cdef) && wrapper == old(wrapper)
    {
      var head := GenerateHead(d);
      header := header + ["DCON_LUADLL_API " + head + ";\n"];
    }

    /** append_lua: declares the function in the cdef block and writes its wrapper, with
        one annotation per parameter and the argument list built with trailing separators
        that are trimmed at the end. */
    method AppendLua(d: Call)
      modifies this
      ensures header == old(header)
      ensures cdef == old(cdef) + [CdefLine(d)]
      ensures wrapper == old(wrapper) + WrapperText(ns, d)
    {
      var head := GenerateHead(d);
      cdef := cdef + [head + ";\n"];
      AppendWrapper(d);
    }

    /** The Lua wrapper of call `d`. */
    method AppendWrapper(d: Call)
      modifies this
      ensures header == old(header) && cdef == old(cdef)
      ensures wrapper == old(wrapper) + WrapperText(ns, d)
    {
      var notes, luaArgs := LuaParams(d.inputs);
      ghost var w0 := wrapper;
      wrapper := wrapper + notes;
      if d.out.meta != Empty {
        if d.out.meta == Id {
          wrapper := wrapper + ["---@return " + d.out.ty.cType + "\n"];
        } else {
          wrapper := wrapper + ["---@return " + d.out.ty.luaType + "\n"];
        }
      }
      assert wrapper == w0 + notes + ReturnAnnotation(d.out);
      var property := LuaPropertyName(d);
      wrapper := wrapper + ["function " + ns + "." + property + "(" + luaArgs + ")\n",
                            "\treturn ffi.C." + AccessPropertyName(d) + "(" + luaArgs + ")\n",
                            "end\n"];
    }

    /** append: always the export declaration; the Lua side only for a call that passes
        nothing by pointer. */
    method Append(d: Call)
      modifies this
      ensures Emitted(old(header), old(cdef), old(wrapper), [d])
    {
      ghost var h0, c0, w0 := header, cdef, wrapper;
      AppendCall(d);
      var bind := ShouldBindLua(d);
      if bind {
        AppendLua(d);
      }
      ExtendsOne(ns, h0, c0, w0, d);
    }

    /** Appends the calls `ds` after the calls `done`. */
    method AppendMore(ghost h0: seq<string>, ghost c0: seq<string>, ghost w0: seq<string>, ghost done: seq<Call>,
                      ds: seq<Call>)
      requires Emitted(h0, c0, w0, done)
      modifies this
      ensures Emitted(h0, c0, w0, done + ds)
      decreases |ds|
    {
      if |ds| == 0 {
        ConcatEmpty(done, ds);
      } else {
        var init := ds[..|ds| - 1];
        AppendMore(h0, c0, w0, done, init);
        ghost var h1, c1, w1 := header, cdef, wrapper;
        Append(ds[|ds| - 1]);
        ExtendsConcat(ns, h0, c0, w0, h1, c1, w1, header, cdef, wrapper, done + init, [ds[|ds| - 1]]);
        ConcatSnoc(done, ds);
      }
    }

    /** The accessors of entity `ob` as link `linkedAs` of relationship `rel`, whose links
        are `relLinks`: for a link with at most one relationship per entity, the getter of
        the relationship as that link, then the plain getter when no other link of it has
        the entity's type. */
    method AppendReverse(ghost h0: seq<string>, ghost c0: seq<string>, ghost w0: seq<string>,
                         ghost done: seq<Call>,
                         prefix: string, ob: string, rel: string, linkedAs: Link, relLinks: seq<Link>,
                         made: set<string>)
      requires Emitted(h0, c0, w0, done)
      modifies this
      ensures Emitted(h0, c0, w0, done + ReverseCalls(prefix, ob, rel, linkedAs, relLinks, made))
    {
      if linkedAs.index == AtMostOne {
        var relation := Arg(Id, NormalizeType(ConvertToId(rel, made), made), "relation");
        var asCall := Fn(prefix, ob, "get_" + rel + "_as_" + linkedAs.propertyName, [IdIn(ob, made)], relation);
        AppendMore(h0, c0, w0, done, [asCall]);
        AppendIfOnly(h0, c0, w0, done + [asCall], prefix, ob, rel, relation, linkedAs.propertyName, relLinks, made);
        ConcatAssoc(done, [asCall],
                    if OnlyOfType(relLinks, ob, linkedAs.propertyName)
                    then [Fn(prefix, ob, "get_" + rel, [IdIn(ob, made)], relation)] else []);
      } else {
        ConcatEmpty(done, []);
      }
    }

    /** The is_only_of_type scan, then the plain relationship getter when it succeeds. */
    method AppendIfOnly(ghost h0: seq<string>, ghost c0: seq<string>, ghost w0: seq<string>,
                        ghost done: seq<Call>,
                        prefix: string, ob: string, rel: string, relation: Arg, property: string,
                        relLinks: seq<Link>, made: set<string>)
      requires Emitted(h0, c0, w0, done)
      modifies this
      ensures Emitted(h0, c0, w0, done + if OnlyOfType(relLinks, ob, property)
                                        then [Fn(prefix, ob, "get_" + rel, [IdIn(ob, made)], relation)] else [])
    {
      var only := IsOnlyOfType(relLinks, ob, property);
      if only {
        AppendMore(h0, c0, w0, done, [Fn(prefix, ob, "get_" + rel, [IdIn(ob, made)], relation)]);
      } else {
        ConcatEmpty(done, []);
      }
    }

    /** The property accessors, one property after the other. */
    method AppendProperties(ghost h0: seq<string>, ghost c0: seq<string>, ghost w0: seq<string>,
                            ghost done: seq<Call>, prefix: string, ob: string, ps: seq<Property>, made: set<string>)
      requires Emitted(h0, c0, w0, done)
      modifies this
      ensures Emitted(h0, c0, w0, done + PropsCalls(prefix, ob, ps, made))
    {
      assert ps[..0] == [];
      ConcatEmpty(done, []);
      for k := 0 to |ps|
        invariant Emitted(h0, c0, w0, done + PropsCalls(prefix, ob, ps[..k], made))
      {
        PropsCallsStep(prefix, ob, ps, k, made, done);
        AppendMore(h0, c0, w0, done + PropsCalls(prefix, ob, ps[..k], made), PropertyCalls(prefix, ob, ps[k], made));
      }
      TakeAll(ps);
    }

    /** The link accessors, one link after the other. */
    method AppendLinks(ghost h0: seq<string>, ghost c0: seq<string>, ghost w0: seq<string>,
                       ghost done: seq<Call>, prefix: string, ob: string, pk: PrimaryKey, ls: seq<Link>,
                       made: set<string>)
      requires Emitted(h0, c0, w0, done)
      modifies this
      ensures Emitted(h0, c0, w0, done + LinksCalls(prefix, ob, pk, ls, made))
    {
      assert ls[..0] == [];
      ConcatEmpty(done, []);
      for k := 0 to |ls|
        invariant Emitted(h0, c0, w0, done + LinksCalls(prefix, ob, pk, ls[..k], made))
      {
        LinksCallsStep(prefix, ob, pk, ls, k, made, done);
        AppendMore(h0, c0, w0, done + LinksCalls(prefix, ob, pk, ls[..k], made), LinkCalls(prefix, ob, pk, ls[k], made));
      }
      TakeAll(ls);
    }

    /** The reverse-link accessors, one reverse link after the other. */
    method AppendReverses(ghost h0: seq<string>, ghost c0: seq<string>, ghost w0: seq<string>,
                          ghost done: seq<Call>, prefix: string, s: seq<Entity>, ob: string, rs: seq<InRelation>,
                          made: set<string>)
      requires InRelationsIn(s, rs)
      requires Emitted(h0, c0, w0, done)
      modifies this
      ensures Emitted(h0, c0, w0, done + ReversesCalls(prefix, s, ob, rs, made))
    {
      assert rs[..0] == [];
      ConcatEmpty(done, []);
      for k := 0 to |rs|
        invariant InRelationsIn(s, rs[..k])
        invariant Emitted(h0, c0, w0, done + ReversesCalls(prefix, s, ob, rs[..k], made))
      {
        ReversesCallsStep(prefix, s, ob, rs, k, made, done);
        var r := rs[k];
        var linked := s[r.relation].links;
        AppendReverse(h0, c0, w0, done + ReversesCalls(prefix, s, ob, rs[..k], made),
                      prefix, ob, r.relationName, linked[r.linkedAs], linked, made);
      }
      TakeAll(rs);
    }

    /** All the calls of entity `e`: base calls, then property, link and reverse-link
        accessors. */
    method AppendEntity(prefix: string, s: seq<Entity>, e: Entity, made: set<string>)
      requires ReverseLinksIn(s, e)
      modifies this
      ensures Emitted(old(header), old(cdef), old(wrapper), EntityCalls(prefix, s, e, made))
    {
      ghost var h0, c0, w0 := header, cdef, wrapper;
      ghost var base := BaseCalls(prefix, e.name, made);
      ghost var props := PropsCalls(prefix, e.name, e.properties, made);
      ghost var links := LinksCalls(prefix, e.name, e.primaryKey, e.links, made);
      ExtendsNothing(ns, h0, c0, w0);
      AppendMore(h0, c0, w0, [], BaseCalls(prefix, e.name, made));
      EmptyConcat(base);
      AppendProperties(h0, c0, w0, base, prefix, e.name, e.properties, made);
      AppendLinks(h0, c0, w0, base + props, prefix, e.name, e.primaryKey, e.links, made);
      AppendReverses(h0, c0, w0, base + props + links, prefix, s, e.name, e.relationshipsInvolvedIn, made);
    }
  }

  lemma PropsCallsStep(prefix: string, ob: string, ps: seq<Property>, k: nat, made: set<string>, done: seq<Call>)
    requires k < |ps|
    ensures done + PropsCalls(prefix, ob, ps[..k + 1], made)
         == (done + PropsCalls(prefix, ob, ps[..k], made)) + PropertyCalls(prefix, ob, ps[k], made)
  {
    assert ps[..k + 1][..k] == ps[..k];
  }

  lemma LinksCallsStep(prefix: string, ob: string, pk: PrimaryKey, ls: seq<Link>, k: nat, made: set<string>,
                       done: seq<Call>)
    requires k < |ls|
    ensures done + LinksCalls(prefix, ob, pk, ls[..k + 1], made)
         == (done + LinksCalls(prefix, ob, pk, ls[..k], made)) + LinkCalls(prefix, ob, pk, ls[k], made)
  {
    assert ls[..k + 1][..k] == ls[..k];
  }

  lemma ReversesCallsStep(prefix: string, s: seq<Entity>, ob: string, rs: seq<InRelation>, k: nat,
                          made: set<string>, done: seq<Call>)
    requires k < |rs|
    requires InRelationsIn(s, rs)
    ensures InRelationsIn(s, rs[..k + 1])
    ensures done + ReversesCalls(prefix, s, ob, rs[..k + 1], made)
         == (done + ReversesCalls(prefix, s, ob, rs[..k], made)) + InRelationCalls(prefix, s, ob, rs[k], made)
  {
    assert rs[..k + 1][..k] == rs[..k];
  }

  // ---------------------------------------------------------------------
  // Identifier parameters of relation constructors and composite-key lookups

  /** The number of parameters one link (or key component) takes: its multiplicity, but
      at least one. */
  function SlotCount(m: int): (c: nat)
    ensures c >= 1 && (m >= 1 ==> c == m)
  {
    if m <= 1 then 1 else m
  }

  /** The entity type of every parameter, in order. */
  function Slots(types: seq<string>, mults: seq<int>): seq<string>
    requires |types| == |mults|
  {
    if |types| == 0 then []
    else Slots(types[..|types| - 1], mults[..|mults| - 1]) + Copies(types[|types| - 1], SlotCount(mults[|mults| - 1]))
  }

  function TotalSlots(mults: seq<int>): nat
  {
    if |mults| == 0 then 0 else TotalSlots(mults[..|mults| - 1]) + SlotCount(mults[|mults| - 1])
  }

  function Sum(mults: seq<int>): int
  {
    if |mults| == 0 then 0 else Sum(mults[..|mults| - 1]) + mults[|mults| - 1]
  }

  /** The conversion of raw parameter `k` into an identifier of entity `t`. */
  function Conversion(ns: string, t: string, k: nat): string
  {
    ns + "::" + t + "_id{" + ns + "::" + t + "_id::value_base_t(p" + NatToString(k) + ")}"
  }

  /** The conversions of the parameters p1 .. pn, parameter k into the type of slot k. */
  function Conversions(ns: string, slots: seq<string>): (r: seq<string>)
    ensures |r| == |slots|
  {
    if |slots| == 0 then []
    else Conversions(ns, slots[..|slots| - 1]) + [Conversion(ns, slots[|slots| - 1], |slots|)]
  }

  /** The raw parameters p1 .. pn. */
  function RawParams(n: nat): (r: seq<string>)
    ensures |r| == n
  {
    if n == 0 then [] else RawParams(n - 1) + ["int32_t p" + NatToString(n)]
  }

  lemma SnocParam(ns: string, slots: seq<string>, t: string)
    ensures Conversions(ns, slots + [t]) == Conversions(ns, slots) + [Conversion(ns, t, |slots| + 1)]
  {
    assert (slots + [t])[..|slots|] == slots;
  }

  lemma JoinSnoc(xs: seq<string>, x: string)
    ensures |xs| == 0 ==> Join(xs + [x]) == x
    ensures |xs| > 0 ==> Join(xs + [x]) == Join(xs) + ", " + x
  {
    assert (xs + [x])[..|xs|] == xs;
  }

  lemma JoinEndsWithLast(xs: seq<string>)
    requires |xs| > 0
    ensures |Join(xs)| >= |xs[|xs| - 1]|
  {
  }

  /** Adds the next parameter slot of entity `t` to both lists. */
  method AddSlot(ns: string, t: string, params: string, pargs: string, pcount: int, ghost slots: seq<string>)
    returns (params': string, pargs': string, pcount': int)
    requires params == Join(Conversions(ns, slots)) && pargs == Join(RawParams(|slots|))
    requires pcount == |slots| + 1
    ensures params' == Join(Conversions(ns, slots + [t])) && pargs' == Join(RawParams(|slots| + 1))
    ensures pcount' == pcount + 1
  {
    SnocParam(ns, slots, t);
    JoinSnoc(Conversions(ns, slots), Conversion(ns, t, pcount));
    JoinSnoc(RawParams(|slots|), "int32_t p" + NatToString(pcount));
    if |slots| > 0 {
      JoinEndsWithLast(Conversions(ns, slots));
    }
    params', pargs' := params, pargs;
    if |params| != 0 {
      params' := params' + ", ";
      pargs' := pargs' + ", ";
    }
    params' := params' + Conversion(ns, t, pcount);
    pargs' := pargs' + ("int32_t p" + NatToString(pcount));
    pcount' := pcount + 1;
  }

  /** The arguments of try_create / force_create (lines 1353-1377) and of a composite-key
      lookup (lines 1422-1446): for each link, or key component, of entity type `types[i]`
      and multiplicity `mults[i]`, one raw int32_t parameter per slot, numbered from 1,
      and the conversion of each into an identifier of that type. */
  method ExpandParams(ns: string, types: seq<string>, mults: seq<int>) returns (params: string, pargs: string)
    requires |types| == |mults|
    ensures params == Join(Conversions(ns, Slots(types, mults)))
    ensures pargs == Join(RawParams(|Slots(types, mults)|))
  {
    params, pargs := "", "";
    var pcount := 1;
    ghost var slots: seq<string> := [];
    for i := 0 to |types|
      invariant slots == Slots(types[..i], mults[..i])
      invariant params == Join(Conversions(ns, slots)) && pargs == Join(RawParams(|slots|))
      invariant pcount == |slots| + 1
    {
      SlotsStep(types, mults, i);
      params, pargs, pcount := AddLinkSlots(ns, types[i], mults[i], params, pargs, pcount, slots);
      slots := slots + Copies(types[i], SlotCount(mults[i]));
    }
    TakeAll(types);
    TakeAll(mults);
  }

  /** The slots of one more link. */
  lemma SlotsStep(types: seq<string>, mults: seq<int>, i: nat)
    requires |types| == |mults| && i < |types|
    ensures Slots(types[..i + 1], mults[..i + 1]) == Slots(types[..i], mults[..i]) + Copies(types[i], SlotCount(mults[i]))
  {
    TakeSnoc(types, i);
    TakeSnoc(mults, i);
  }

  /** The slots of one link of type `t` and multiplicity `m`: the first one, then, when
      the multiplicity is not one, the further ones up to the multiplicity. */
  method AddLinkSlots(ns: string, t: string, m: int, params: string, pargs: string, pcount: int,
                      ghost slots: seq<string>)
    returns (params': string, pargs': string, pcount': int)
    requires params == Join(Conversions(ns, slots)) && pargs == Join(RawParams(|slots|))
    requires pcount == |slots| + 1
    ensures params' == Join(Conversions(ns, slots + Copies(t, SlotCount(m))))
    ensures pargs' == Join(RawParams(|slots| + SlotCount(m)))
    ensures pcount' == pcount + SlotCount(m)
  {
    params', pargs', pcount' := AddSlot(ns, t, params, pargs, pcount, slots);
    ghost var done := slots + [t];
    RepeatStep(slots, t, 0);
    var j := 1;
    if m != 1 {
      while j < m
        invariant 1 <= j <= SlotCount(m)
        invariant done == slots + Copies(t, j)
        invariant params' == Join(Conversions(ns, done)) && pargs' == Join(RawParams(|done|))
        invariant pcount' == |done| + 1
      {
        params', pargs', pcount' := AddSlot(ns, t, params', pargs', pcount', done);
        RepeatStep(slots, t, j);
        done := done + [t];
        j := j + 1;
      }
    }
    assert j == SlotCount(m);
    assert |done| == |slots| + j;
  }


  /** There is one parameter per slot, so as many as the multiplicities add up to when
      every multiplicity is at least one. */
  lemma {:induction false} SlotsCount(types: seq<string>, mults: seq<int>)
    requires |types| == |mults|
    ensures |Slots(types, mults)| == TotalSlots(mults)
    ensures (forall k :: 0 <= k < |mults| ==> mults[k] >= 1) ==> TotalSlots(mults) == Sum(mults)
  {
    if |types| > 0 {
      SlotsCount(types[..|types| - 1], mults[..|mults| - 1]);
      if forall k :: 0 <= k < |mults| ==> mults[k] >= 1 {
        var init := mults[..|mults| - 1];
        forall k | 0 <= k < |init|
          ensures init[k] >= 1
        {
          assert init[k] == mults[k];
        }
      }
    }
  }

  /** The parameters of link `i` are the consecutive ones after those of the links before
      it, and each converts into an identifier of that link's entity type. */
  lemma {:induction false} SlotsOfLink(types: seq<string>, mults: seq<int>, i: nat, r: nat)
    requires |types| == |mults| && i < |types| && r < SlotCount(mults[i])
    ensures var n := TotalSlots(mults[..i]) + r;
      n < |Slots(types, mults)| && Slots(types, mults)[n] == types[i]
  {
    var last := |types| - 1;
    var n := TotalSlots(mults[..i]) + r;
    var init := Slots(types[..last], mults[..last]);
    SlotsCount(types[..last], mults[..last]);
    if i == last {
      assert mults[..last][..i] == mults[..i];
      assert Slots(types, mults)[n] == Copies(types[last], SlotCount(mults[last]))[r];
    } else {
      assert mults[..last][..i] == mults[..i];
      SlotsOfLink(types[..last], mults[..last], i, r);
      assert Slots(types, mults)[n] == init[n];
    }
  }
}
