/**
 * Composite keys: for every composite index of every entity, find each
 * component's link, lay the components out bit by bit, size the packed
 * key in bytes, and collect the key sizes too wide for a 64-bit integer
 * (lines 766-813).
 *
 * The loops are methods over sequences of records, each proved equal to a
 * tail-recursive specification function that follows the same steps; the
 * lemmas state the resulting layout in closed form.
 */
module CompositeKeys {
  import opened Schema

  // ---------------------------------------------------------------------
  // Bits and bytes

  /** The number of halvings that take `n` to zero: the bit length of `n`. */
  function BitLength(n: nat): (r: nat)
    ensures n == 0 <==> r == 0
  {
    if n == 0 then 0 else 1 + BitLength(n / 2)
  }

  function Pow2(k: nat): (r: nat)
    ensures r >= 1
  {
    if k == 0 then 1 else 2 * Pow2(k - 1)
  }

  /** `BitLength(n)` bits hold every value up to `n`, and no fewer bits hold `n`. */
  lemma {:induction false} BitLengthBounds(n: nat)
    ensures n < Pow2(BitLength(n))
    ensures n > 0 ==> Pow2(BitLength(n) - 1) <= n
  {
    if n > 0 {
      BitLengthBounds(n / 2);
    }
  }

  /** Integer division truncating toward zero, as C does. */
  function CDiv(a: int, b: int): (q: int)
    requires b > 0
    ensures a >= 0 ==> q * b <= a < q * b + b
    ensures a < 0 ==> q * b - b < a <= q * b
  {
    if a >= 0 then a / b else -((-a) / b)
  }

  /** The whole bytes a packed key of `bits` bits occupies. */
  function TotalBytes(bits: int): int
  {
    CDiv(bits + 7, 8)
  }

  /** For a non-negative bit count, TotalBytes rounds up to whole bytes. */
  lemma TotalBytesRoundsUp(bits: int)
    requires bits >= 0
    ensures TotalBytes(bits) * 8 >= bits
    ensures TotalBytes(bits) * 8 < bits + 8
    ensures bits <= 64 <==> TotalBytes(bits) <= 8
  {
  }

  // ---------------------------------------------------------------------
  // Finding a component's link

  /** The last of the first `n` links whose property name is `name`. */
  function LastNamed(links: seq<Link>, name: string, n: nat): (r: Option<nat>)
    requires n <= |links|
    ensures r.Some? ==> r.value < n && links[r.value].propertyName == name
    ensures r.Some? ==> forall x :: r.value < x < n ==> links[x].propertyName != name
    ensures r.None? <==> forall x :: 0 <= x < n ==> links[x].propertyName != name
  {
    if n == 0 then None
    else if links[n - 1].propertyName == name then Some(n - 1)
    else LastNamed(links, name, n - 1)
  }

  /** A component after scanning the first `n` links: the type and multiplicity of the
      last link with its name, or unchanged when there is none. */
  function MatchedIn(c: KeyComponent, links: seq<Link>, n: nat): KeyComponent
    requires n <= |links|
  {
    match LastNamed(links, c.propertyName, n)
    case Some(m) => c.(objectType := links[m].typeName, multiplicity := links[m].multiplicity)
    case None => c
  }

  function Matched(c: KeyComponent, links: seq<Link>): KeyComponent
  {
    MatchedIn(c, links, |links|)
  }

  /** A link after a component named `name` has looked at it. */
  function CoverOne(l: Link, name: string): Link
  {
    if l.propertyName == name then l.(isCoveredByCompositeKey := true) else l
  }

  function CoverLinks(links: seq<Link>, name: string): (r: seq<Link>)
    ensures |r| == |links| && forall x :: 0 <= x < |links| ==> r[x] == CoverOne(links[x], name)
  {
    seq(|links|, x requires 0 <= x < |links| => CoverOne(links[x], name))
  }

  /** Scans the links for component `c` (lines 775-781). */
  method MatchComponent(links0: seq<Link>, c: KeyComponent) returns (links: seq<Link>, k: KeyComponent)
    ensures links == CoverLinks(links0, c.propertyName)
    ensures k == Matched(c, links0)
  {
    links, k := links0, c;
    for m := 0 to |links0|
      invariant |links| == |links0|
      invariant forall x :: 0 <= x < m ==> links[x] == CoverOne(links0[x], c.propertyName)
      invariant forall x :: m <= x < |links| ==> links[x] == links0[x]
      invariant k == MatchedIn(c, links0, m)
    {
      if links[m].propertyName == k.propertyName {
        k := k.(objectType := links[m].typeName, multiplicity := links[m].multiplicity);
        links := links[m := links[m].(isCoveredByCompositeKey := true)];
      }
    }
  }

  // ---------------------------------------------------------------------
  // Laying out one composite index

  /** The bits a matched component takes in entity `e`'s packed key: 32 when `e` is
      expandable, else its multiplicity times the bit length of `e`'s size. */
  function Width(e: Entity, k: KeyComponent): int
  {
    if e.isExpandable then 32 else k.multiplicity * BitLength(e.size)
  }

  /** A matched component placed at bit `bits`. */
  function Placed(e: Entity, k: KeyComponent, bits: int): KeyComponent
  {
    k.(bitPosition := bits, numberOfBits := if e.isExpandable then 32 else BitLength(e.size))
  }

  datatype PackOut = PackOut(links: seq<Link>, comps: seq<KeyComponent>, bits: int, involves: bool)

  /** The component loop of index `ccName` of entity `e` from component `j` on. */
  function PackFrom(e: Entity, ccName: string, links: seq<Link>, comps: seq<KeyComponent>,
                    j: nat, bits: int, involves: bool): Result<PackOut, SchemaError>
    requires j <= |comps|
    decreases |comps| - j
  {
    if j == |comps| then Ok(PackOut(links, comps, bits, involves))
    else
      var k := Matched(comps[j], links);
      if |k.objectType| == 0 then Err(DanglingKeyComponent(k.propertyName, ccName, e.name))
      else
        PackFrom(e, ccName, CoverLinks(links, k.propertyName), comps[j := Placed(e, k, bits)], j + 1,
                 bits + Width(e, k), involves || k.propertyName == e.primaryKey.propertyName)
  }

  /** Places matched component `k` at bit `bits`: 32 bits for an expandable entity,
      otherwise one bit per halving of the entity's size, each bit counted once per slot. */
  method PlaceComponent(e: Entity, k0: KeyComponent, bits0: int) returns (k: KeyComponent, bits: int)
    ensures k == Placed(e, k0, bits0) && bits == bits0 + Width(e, k0)
  {
    k, bits := k0.(bitPosition := bits0), bits0;
    if e.isExpandable {
      k := k.(numberOfBits := 32);
      bits := bits + 32;
    } else {
      k := k.(numberOfBits := 0);
      var sz := e.size;
      while sz != 0
        invariant k == k0.(bitPosition := bits0, numberOfBits := k.numberOfBits)
        invariant 0 <= k.numberOfBits && k.numberOfBits + BitLength(sz) == BitLength(e.size)
        invariant bits == bits0 + k.multiplicity * k.numberOfBits
        decreases sz
      {
        k := k.(numberOfBits := k.numberOfBits + 1);
        bits := bits + k.multiplicity;
        sz := sz / 2;
      }
    }
  }

  /** Lays out the components of one composite index (lines 772-803). */
  method PackComponents(e: Entity, ccName: string, links0: seq<Link>, comps0: seq<KeyComponent>, involves0: bool)
    returns (res: Result<PackOut, SchemaError>)
    ensures res == PackFrom(e, ccName, links0, comps0, 0, 0, involves0)
  {
    var links, comps, bits, involves := links0, comps0, 0, involves0;
    var j := 0;
    while j < |comps|
      invariant j <= |comps| == |comps0|
      invariant PackFrom(e, ccName, links, comps, j, bits, involves) == PackFrom(e, ccName, links0, comps0, 0, 0, involves0)
    {
      var k;
      links, k := MatchComponent(links, comps[j]);
      if |k.objectType| == 0 {
        return Err(DanglingKeyComponent(k.propertyName, ccName, e.name));
      }
      if k.propertyName == e.primaryKey.propertyName {
        involves := true;
      }
      k, bits := PlaceComponent(e, k, bits);
      comps := comps[j := k];
      j := j + 1;
    }
    return Ok(PackOut(links, comps, bits, involves));
  }

  // ---------------------------------------------------------------------
  // All composite indexes of all entities

  /** The key sizes that need a hash function, after one more index of `b` bytes. */
  function AddHashSize(sizes: seq<int>, b: int): seq<int>
  {
    if b > 8 && b !in sizes then sizes + [b] else sizes
  }

  /** The index after its components are laid out. */
  function Finished(cc: CompositeIndex, o: PackOut): CompositeIndex
  {
    cc.(components := o.comps, involvesPrimaryKey := o.involves, totalBytes := TotalBytes(o.bits))
  }

  /** The index loop of entity `e` from index `c` on. */
  function PackIndexes(e: Entity, c: nat, sizes: seq<int>): Result<(Entity, seq<int>), SchemaError>
    requires c <= |e.compositeIndexes|
    decreases |e.compositeIndexes| - c
  {
    if c == |e.compositeIndexes| then Ok((e, sizes))
    else
      var cc := e.compositeIndexes[c];
      match PackFrom(e, cc.name, e.links, cc.components, 0, 0, cc.involvesPrimaryKey)
      case Err(x) => Err(x)
      case Ok(o) =>
        var cc' := Finished(cc, o);
        PackIndexes(e.(links := o.links, compositeIndexes := e.compositeIndexes[c := cc']), c + 1,
                    AddHashSize(sizes, cc'.totalBytes))
  }

  /** The entity loop from entity `i` on. */
  function PackAll(s: seq<Entity>, i: nat, sizes: seq<int>): Result<(seq<Entity>, seq<int>), SchemaError>
    requires i <= |s|
    decreases |s| - i
  {
    if i == |s| then Ok((s, sizes))
    else
      match PackIndexes(s[i], 0, sizes)
      case Err(x) => Err(x)
      case Ok(r) => PackAll(s[i := r.0], i + 1, r.1)
  }

  /** The composite-key pass over all entities (lines 766-813), returning the patched
      entities and the byte sizes that need a hash function, in first-seen order. */
  method PackCompositeKeys(s0: seq<Entity>) returns (res: Result<(seq<Entity>, seq<int>), SchemaError>)
    ensures res == PackAll(s0, 0, [])
  {
    var s, sizes := s0, [];
    for i := 0 to |s0|
      invariant |s| == |s0|
      invariant PackAll(s, i, sizes) == PackAll(s0, 0, [])
    {
      var ob := s[i];
      ghost var sizesBefore := sizes;
      for c := 0 to |ob.compositeIndexes|
        invariant |ob.compositeIndexes| == |s[i].compositeIndexes|
        invariant PackIndexes(ob, c, sizes) == PackIndexes(s[i], 0, sizesBefore)
      {
        var cc := ob.compositeIndexes[c];
        var r := PackComponents(ob, cc.name, ob.links, cc.components, cc.involvesPrimaryKey);
        if r.Err? {
          return Err(r.error);
        }
        cc := Finished(cc, r.value);
        if cc.totalBytes > 8 && cc.totalBytes !in sizes {
          sizes := sizes + [cc.totalBytes];
        }
        ob := ob.(links := r.value.links, compositeIndexes := ob.compositeIndexes[c := cc]);
      }
      s := s[i := ob];
    }
    return Ok((s, sizes));
  }

  // ---------------------------------------------------------------------
  // The layout in closed form

  /** Links that agree on everything component matching reads. */
  predicate SameNames(a: seq<Link>, b: seq<Link>)
  {
    |a| == |b| &&
    forall x :: 0 <= x < |a| ==>
      a[x].propertyName == b[x].propertyName && a[x].typeName == b[x].typeName
      && a[x].multiplicity == b[x].multiplicity
  }

  lemma {:induction false} LastNamedSame(a: seq<Link>, b: seq<Link>, name: string, n: nat)
    requires SameNames(a, b) && n <= |a|
    ensures LastNamed(a, name, n) == LastNamed(b, name, n)
  {
    if n > 0 {
      LastNamedSame(a, b, name, n - 1);
    }
  }

  lemma MatchedSame(c: KeyComponent, a: seq<Link>, b: seq<Link>)
    requires SameNames(a, b)
    ensures Matched(c, a) == Matched(c, b)
  {
    LastNamedSame(a, b, c.propertyName, |a|);
  }

  /** The bits the first `n` components take once matched against `links`. */
  function Offset(e: Entity, comps: seq<KeyComponent>, links: seq<Link>, n: nat): int
    requires n <= |comps|
  {
    if n == 0 then 0 else Offset(e, comps, links, n - 1) + Width(e, Matched(comps[n - 1], links))
  }

  /** Some component before `j` has property name `name`. */
  predicate NamedBefore(comps: seq<KeyComponent>, j: nat, name: string)
  {
    exists x :: 0 <= x < j && x < |comps| && comps[x].propertyName == name
  }

  /** The state of the component loop after the first `j` components of `comps0`. */
  predicate PackedUpTo(e: Entity, links0: seq<Link>, comps0: seq<KeyComponent>, involves0: bool, j: nat,
                       links: seq<Link>, comps: seq<KeyComponent>, bits: int, involves: bool)
  {
    && j <= |comps0| == |comps| && |links| == |links0|
    && (forall x {:trigger comps[x]} :: 0 <= x < j ==> comps[x] == Placed(e, Matched(comps0[x], links0), Offset(e, comps0, links0, x)))
    && (forall x {:trigger comps[x]} :: j <= x < |comps| ==> comps[x] == comps0[x])
    && bits == Offset(e, comps0, links0, j)
    && involves == (involves0 || NamedBefore(comps0, j, e.primaryKey.propertyName))
    && (forall m {:trigger links[m]} :: 0 <= m < |links| ==>
          links[m] == links0[m].(isCoveredByCompositeKey := links0[m].isCoveredByCompositeKey
                                                            || NamedBefore(comps0, j, links0[m].propertyName)))
  }

  lemma PackedUpToSameNames(e: Entity, links0: seq<Link>, comps0: seq<KeyComponent>, involves0: bool, j: nat,
                            links: seq<Link>, comps: seq<KeyComponent>, bits: int, involves: bool)
    requires PackedUpTo(e, links0, comps0, involves0, j, links, comps, bits, involves)
    ensures SameNames(links, links0)
  {
  }

  lemma NamedBeforeStep(comps: seq<KeyComponent>, j: nat, name: string)
    requires j < |comps|
    ensures NamedBefore(comps, j + 1, name) == (NamedBefore(comps, j, name) || comps[j].propertyName == name)
  {
    if NamedBefore(comps, j + 1, name) && comps[j].propertyName != name {
      var x :| 0 <= x < j + 1 && x < |comps| && comps[x].propertyName == name;
      assert x < j;
    }
  }

  /** One accepted component takes the loop state from `j` to `j + 1`. */
  lemma PackStep(e: Entity, links0: seq<Link>, comps0: seq<KeyComponent>, involves0: bool, j: nat,
                 links: seq<Link>, comps: seq<KeyComponent>, bits: int, involves: bool)
    requires PackedUpTo(e, links0, comps0, involves0, j, links, comps, bits, involves) && j < |comps|
    ensures var k := Matched(comps[j], links);
      && k == Matched(comps0[j], links0)
      && PackedUpTo(e, links0, comps0, involves0, j + 1,
                    CoverLinks(links, k.propertyName), comps[j := Placed(e, k, bits)], bits + Width(e, k),
                    involves || k.propertyName == e.primaryKey.propertyName)
  {
    var k := Matched(comps[j], links);
    PackedUpToSameNames(e, links0, comps0, involves0, j, links, comps, bits, involves);
    assert comps[j] == comps0[j];
    MatchedSame(comps0[j], links, links0);
    var name := comps0[j].propertyName;
    assert k.propertyName == name;
    var links' := CoverLinks(links, name);
    forall m | 0 <= m < |links'|
      ensures links'[m] == links0[m].(isCoveredByCompositeKey := links0[m].isCoveredByCompositeKey
                                                               || NamedBefore(comps0, j + 1, links0[m].propertyName))
    {
      NamedBeforeStep(comps0, j, links0[m].propertyName);
    }
    NamedBeforeStep(comps0, j, e.primaryKey.propertyName);
    var comps' := comps[j := Placed(e, k, bits)];
    forall x | 0 <= x < j + 1
      ensures comps'[x] == Placed(e, Matched(comps0[x], links0), Offset(e, comps0, links0, x))
    {
    }
  }

  /** Component `x` has a non-empty object type once matched: that of the last link of
      its name, or its own when no link has its name. */
  predicate Accepted(comps0: seq<KeyComponent>, links0: seq<Link>, x: nat)
    requires x < |comps0|
  {
    |Matched(comps0[x], links0).objectType| > 0
  }

  /** For a component as parsed, with no object type of its own, and links that all name
      their target type, a component is accepted exactly when some link has its name. */
  lemma AcceptedIffNamed(comps0: seq<KeyComponent>, links0: seq<Link>, x: nat)
    requires x < |comps0| && comps0[x].objectType == ""
    requires forall m :: 0 <= m < |links0| ==> links0[m].typeName != ""
    ensures Accepted(comps0, links0, x) <==>
              exists m :: 0 <= m < |links0| && links0[m].propertyName == comps0[x].propertyName
  {
    var n := LastNamed(links0, comps0[x].propertyName, |links0|);
    if n.Some? {
      assert links0[n.value].propertyName == comps0[x].propertyName;
    }
  }

  /** What the loop state after `j` components keeps of its start, as far as the later
      components' matches go: the later components as they were, and links that differ
      only in their coverage flags. */
  predicate Pending(links0: seq<Link>, comps0: seq<KeyComponent>, j: nat, links: seq<Link>, comps: seq<KeyComponent>)
  {
    && j <= |comps0| == |comps| && SameNames(links, links0)
    && (forall x {:trigger comps[x]} :: j <= x < |comps| ==> comps[x] == comps0[x])
  }

  lemma PendingStep(links0: seq<Link>, comps0: seq<KeyComponent>, j: nat, links: seq<Link>, comps: seq<KeyComponent>,
                    placed: KeyComponent)
    requires Pending(links0, comps0, j, links, comps) && j < |comps|
    ensures var k := Matched(comps[j], links);
      && k == Matched(comps0[j], links0) && k.propertyName == comps0[j].propertyName
      && Pending(links0, comps0, j + 1, CoverLinks(links, k.propertyName), comps[j := placed])
  {
    assert comps[j] == comps0[j];
    MatchedSame(comps0[j], links, links0);
  }

  lemma PackedIsPending(e: Entity, links0: seq<Link>, comps0: seq<KeyComponent>, involves0: bool, j: nat,
                        links: seq<Link>, comps: seq<KeyComponent>, bits: int, involves: bool)
    requires PackedUpTo(e, links0, comps0, involves0, j, links, comps, bits, involves)
    ensures Pending(links0, comps0, j, links, comps)
  {
    PackedUpToSameNames(e, links0, comps0, involves0, j, links, comps, bits, involves);
  }

  /** From a loop state after `j` components, the loop succeeds exactly when each later
      component is accepted. */
  lemma {:induction false} PackFromOkIff(e: Entity, ccName: string, links0: seq<Link>, comps0: seq<KeyComponent>,
                                         j: nat, links: seq<Link>, comps: seq<KeyComponent>, bits: int, involves: bool)
    requires Pending(links0, comps0, j, links, comps)
    decreases |comps| - j
    ensures PackFrom(e, ccName, links, comps, j, bits, involves).Ok? <==>
              forall x :: j <= x < |comps0| ==> Accepted(comps0, links0, x)
  {
    if j < |comps| {
      var k := Matched(comps[j], links);
      var placed := Placed(e, k, bits);
      PendingStep(links0, comps0, j, links, comps, placed);
      assert Accepted(comps0, links0, j) <==> |k.objectType| > 0;
      if |k.objectType| > 0 {
        PackFromOkIff(e, ccName, links0, comps0, j + 1, CoverLinks(links, k.propertyName), comps[j := placed],
                      bits + Width(e, k), involves || k.propertyName == e.primaryKey.propertyName);
      }
    }
  }

  /** A successful loop ends in the state after all components. */
  lemma {:induction false} PackFromDone(e: Entity, ccName: string, links0: seq<Link>, comps0: seq<KeyComponent>,
                                        involves0: bool, j: nat,
                                        links: seq<Link>, comps: seq<KeyComponent>, bits: int, involves: bool)
    requires PackedUpTo(e, links0, comps0, involves0, j, links, comps, bits, involves)
    requires PackFrom(e, ccName, links, comps, j, bits, involves).Ok?
    decreases |comps| - j
    ensures var o := PackFrom(e, ccName, links, comps, j, bits, involves).value;
      PackedUpTo(e, links0, comps0, involves0, |comps0|, o.links, o.comps, o.bits, o.involves)
  {
    var r := PackFrom(e, ccName, links, comps, j, bits, involves);
    if j < |comps| {
      var k := Matched(comps[j], links);
      PackStep(e, links0, comps0, involves0, j, links, comps, bits, involves);
      var links', comps' := CoverLinks(links, k.propertyName), comps[j := Placed(e, k, bits)];
      var bits', involves' := bits + Width(e, k), involves || k.propertyName == e.primaryKey.propertyName;
      assert r == PackFrom(e, ccName, links', comps', j + 1, bits', involves');
      PackFromDone(e, ccName, links0, comps0, involves0, j + 1, links', comps', bits', involves');
    } else {
      assert r.value == PackOut(links, comps, bits, involves);
    }
  }

  /** The first component from `j` on left with an empty object type after matching, or
      `|comps0|` when there is none. */
  function FirstRejected(comps0: seq<KeyComponent>, links0: seq<Link>, j: nat): (x: nat)
    requires j <= |comps0|
    decreases |comps0| - j
    ensures j <= x <= |comps0|
    ensures forall y :: j <= y < x ==> Accepted(comps0, links0, y)
    ensures x < |comps0| ==> !Accepted(comps0, links0, x)
  {
    if j == |comps0| || !Accepted(comps0, links0, j) then j else FirstRejected(comps0, links0, j + 1)
  }

  /** A failing loop reports the first component that is not accepted. */
  lemma {:induction false} PackFromError(e: Entity, ccName: string, links0: seq<Link>, comps0: seq<KeyComponent>,
                                         j: nat, links: seq<Link>, comps: seq<KeyComponent>, bits: int, involves: bool)
    requires Pending(links0, comps0, j, links, comps)
    requires PackFrom(e, ccName, links, comps, j, bits, involves).Err?
    decreases |comps| - j
    ensures var x := FirstRejected(comps0, links0, j);
      x < |comps0| && PackFrom(e, ccName, links, comps, j, bits, involves).error
                      == DanglingKeyComponent(comps0[x].propertyName, ccName, e.name)
  {
    var k := Matched(comps[j], links);
    var placed := Placed(e, k, bits);
    PendingStep(links0, comps0, j, links, comps, placed);
    var r := PackFrom(e, ccName, links, comps, j, bits, involves);
    if |k.objectType| > 0 {
      var links', comps' := CoverLinks(links, k.propertyName), comps[j := placed];
      var bits', involves' := bits + Width(e, k), involves || k.propertyName == e.primaryKey.propertyName;
      assert r == PackFrom(e, ccName, links', comps', j + 1, bits', involves');
      PackFromError(e, ccName, links0, comps0, j + 1, links', comps', bits', involves');
      assert Accepted(comps0, links0, j);
    } else {
      assert r.error == DanglingKeyComponent(comps0[j].propertyName, ccName, e.name);
      assert !Accepted(comps0, links0, j);
    }
  }




  /** The layout of one composite index: component `x` keeps its name, takes the type and
      multiplicity of the last link with its name, starts where the components before it
      end, and is 32 bits wide for an expandable entity or as many bits as the entity's
      size is long otherwise; the key's bits are those of all components; the index
      involves the primary key exactly when it did or a component is named like it; and
      a link is covered exactly when it was or a component is named like it. The first
      component left with an empty object type after matching is reported. */
  lemma PackIndexLayout(e: Entity, ccName: string, links0: seq<Link>, comps0: seq<KeyComponent>, involves0: bool)
    ensures var r := PackFrom(e, ccName, links0, comps0, 0, 0, involves0);
      && (r.Ok? <==> forall x :: 0 <= x < |comps0| ==> Accepted(comps0, links0, x))
      && (r.Err? ==> var x := FirstRejected(comps0, links0, 0);
                       x < |comps0| && r.error == DanglingKeyComponent(comps0[x].propertyName, ccName, e.name))
      && (r.Ok? ==>
           && |r.value.comps| == |comps0| && |r.value.links| == |links0|
           && (forall x :: 0 <= x < |comps0| ==>
                 var k := r.value.comps[x];
                 && k.propertyName == comps0[x].propertyName
                 && k.objectType == Matched(comps0[x], links0).objectType
                 && k.multiplicity == Matched(comps0[x], links0).multiplicity
                 && k.bitPosition == Offset(e, comps0, links0, x)
                 && k.numberOfBits == (if e.isExpandable then 32 else BitLength(e.size)))
           && r.value.bits == Offset(e, comps0, links0, |comps0|)
           && r.value.involves == (involves0 || NamedBefore(comps0, |comps0|, e.primaryKey.propertyName))
           && (forall m :: 0 <= m < |links0| ==>
                 r.value.links[m] == links0[m].(isCoveredByCompositeKey := links0[m].isCoveredByCompositeKey
                                                  || NamedBefore(comps0, |comps0|, links0[m].propertyName))))
  {
    forall m | 0 <= m < |links0|
      ensures links0[m] == links0[m].(isCoveredByCompositeKey := links0[m].isCoveredByCompositeKey
                                                                || NamedBefore(comps0, 0, links0[m].propertyName))
    {
    }
    assert PackedUpTo(e, links0, comps0, involves0, 0, links0, comps0, 0, involves0);
    PackedIsPending(e, links0, comps0, involves0, 0, links0, comps0, 0, involves0);
    PackFromOkIff(e, ccName, links0, comps0, 0, links0, comps0, 0, involves0);
    if PackFrom(e, ccName, links0, comps0, 0, 0, involves0).Ok? {
      PackFromDone(e, ccName, links0, comps0, involves0, 0, links0, comps0, 0, involves0);
    } else {
      PackFromError(e, ccName, links0, comps0, 0, links0, comps0, 0, involves0);
    }
  }

  /** Each component ends where the next one starts. */
  lemma OffsetsAreContiguous(e: Entity, comps: seq<KeyComponent>, links: seq<Link>, x: nat)
    requires x < |comps|
    ensures Offset(e, comps, links, x + 1) == Offset(e, comps, links, x) + Width(e, Matched(comps[x], links))
  {
  }

  /** Components of multiplicity one sit at multiples of their common width: 32 bits for
      an expandable entity, the bit length of its size otherwise. */
  lemma {:induction false} UniformOffsets(e: Entity, comps: seq<KeyComponent>, links: seq<Link>, n: nat)
    requires n <= |comps|
    requires forall x :: 0 <= x < |comps| ==> Matched(comps[x], links).multiplicity == 1
    ensures Offset(e, comps, links, n) == n * (if e.isExpandable then 32 else BitLength(e.size))
  {
    if n > 0 {
      UniformOffsets(e, comps, links, n - 1);
    }
  }

  /** Links that agree on names, types and multiplicities, in entities that agree on
      expandability and size, give the same layout. */
  lemma {:induction false} OffsetSame(e: Entity, e': Entity, comps: seq<KeyComponent>, a: seq<Link>, b: seq<Link>, n: nat)
    requires n <= |comps| && SameNames(a, b)
    requires e.isExpandable == e'.isExpandable && e.size == e'.size
    ensures Offset(e, comps, a, n) == Offset(e', comps, b, n)
  {
    if n > 0 {
      OffsetSame(e, e', comps, a, b, n - 1);
      MatchedSame(comps[n - 1], a, b);
    }
  }

  /** Worked example: a fixed-size relationship of 300 rows keyed by two single links packs into 18 bits,
      that is three bytes, and so needs no hash function. */
  lemma ThreeHundredRowsExample()
    ensures BitLength(300) == 9
    ensures TotalBytes(2 * BitLength(300)) == 3
  {
    assert BitLength(1) == 1;
    assert BitLength(2) == 2;
    assert BitLength(4) == 3;
    assert BitLength(9) == 4;
    assert BitLength(18) == 5;
    assert BitLength(37) == 6;
    assert BitLength(75) == 7;
    assert BitLength(150) == 8;
  }

  // ---------------------------------------------------------------------
  // The sizes that need a hash function

  /** No size twice, and every size wider than 8 bytes. */
  predicate HashSizesOk(sizes: seq<int>)
  {
    (forall x :: 0 <= x < |sizes| ==> sizes[x] > 8) &&
    (forall x, y :: 0 <= x < y < |sizes| ==> sizes[x] != sizes[y])
  }

  /** Adding an index's size keeps the list duplicate-free and wider than 8 bytes, extends
      it, and adds exactly that size when it is wider than 8 bytes. */
  lemma AddHashSizeFacts(sizes: seq<int>, b: int)
    ensures HashSizesOk(sizes) ==> HashSizesOk(AddHashSize(sizes, b))
    ensures sizes <= AddHashSize(sizes, b)
    ensures forall v :: v in AddHashSize(sizes, b) <==> v in sizes || (v == b && b > 8)
  {
  }

  /** The index loop of an entity keeps the list of sizes well formed and extends it. */
  lemma {:induction false} PackIndexesSizes(e: Entity, c: nat, sizes: seq<int>)
    requires c <= |e.compositeIndexes| && PackIndexes(e, c, sizes).Ok?
    decreases |e.compositeIndexes| - c
    ensures var r := PackIndexes(e, c, sizes).value;
      && (HashSizesOk(sizes) ==> HashSizesOk(r.1))
      && sizes <= r.1
  {
    if c < |e.compositeIndexes| {
      var cc := e.compositeIndexes[c];
      var o := PackFrom(e, cc.name, e.links, cc.components, 0, 0, cc.involvesPrimaryKey).value;
      var cc' := Finished(cc, o);
      AddHashSizeFacts(sizes, cc'.totalBytes);
      PackIndexesSizes(e.(links := o.links, compositeIndexes := e.compositeIndexes[c := cc']), c + 1,
                       AddHashSize(sizes, cc'.totalBytes));
    }
  }

  /** The entity loop keeps the list of sizes well formed and extends it. */
  lemma {:induction false} PackAllSizes(s: seq<Entity>, i: nat, sizes: seq<int>)
    requires i <= |s| && PackAll(s, i, sizes).Ok?
    decreases |s| - i
    ensures var r := PackAll(s, i, sizes).value;
      && (HashSizesOk(sizes) ==> HashSizesOk(r.1))
      && sizes <= r.1
  {
    if i < |s| {
      var r := PackIndexes(s[i], 0, sizes).value;
      PackIndexesSizes(s[i], 0, sizes);
      PackAllSizes(s[i := r.0], i + 1, r.1);
    }
  }

  /** Laying out an index changes only the covered flags of the links. */
  lemma PackFromKeepsNames(e: Entity, ccName: string, links0: seq<Link>, comps0: seq<KeyComponent>, involves0: bool)
    requires PackFrom(e, ccName, links0, comps0, 0, 0, involves0).Ok?
    ensures SameNames(PackFrom(e, ccName, links0, comps0, 0, 0, involves0).value.links, links0)
  {
    PackIndexLayout(e, ccName, links0, comps0, involves0);
  }

  /** The index loop of an entity from index `c` on changes only the entity's links (and
      only their covered flags) and its indexes from `c` on. */
  lemma {:induction false} PackIndexesFrame(e: Entity, c: nat, sizes: seq<int>)
    requires c <= |e.compositeIndexes| && PackIndexes(e, c, sizes).Ok?
    decreases |e.compositeIndexes| - c
    ensures var r := PackIndexes(e, c, sizes).value;
      && r.0 == e.(links := r.0.links, compositeIndexes := r.0.compositeIndexes)
      && SameNames(r.0.links, e.links)
      && |r.0.compositeIndexes| == |e.compositeIndexes|
      && (forall x :: 0 <= x < c ==> r.0.compositeIndexes[x] == e.compositeIndexes[x])
  {
    if c < |e.compositeIndexes| {
      var cc := e.compositeIndexes[c];
      var o := PackFrom(e, cc.name, e.links, cc.components, 0, 0, cc.involvesPrimaryKey).value;
      var e' := e.(links := o.links, compositeIndexes := e.compositeIndexes[c := Finished(cc, o)]);
      PackFromKeepsNames(e, cc.name, e.links, cc.components, cc.involvesPrimaryKey);
      PackIndexesFrame(e', c + 1, AddHashSize(sizes, Finished(cc, o).totalBytes));
    }
  }

  /** Every index the loop from index `c` on leaves wider than 8 bytes has its size in the
      list. */
  lemma {:induction false} PackIndexesListed(e: Entity, c: nat, sizes: seq<int>)
    requires c <= |e.compositeIndexes| && PackIndexes(e, c, sizes).Ok?
    decreases |e.compositeIndexes| - c
    ensures var r := PackIndexes(e, c, sizes).value;
      forall x :: c <= x < |r.0.compositeIndexes| && r.0.compositeIndexes[x].totalBytes > 8 ==>
        r.0.compositeIndexes[x].totalBytes in r.1
  {
    if c == |e.compositeIndexes| {
      PackIndexesFrame(e, c, sizes);
      return;
    }
    var cc := e.compositeIndexes[c];
    var o := PackFrom(e, cc.name, e.links, cc.components, 0, 0, cc.involvesPrimaryKey).value;
    var cc' := Finished(cc, o);
    var e' := e.(links := o.links, compositeIndexes := e.compositeIndexes[c := cc']);
    var sizes' := AddHashSize(sizes, cc'.totalBytes);
    var r := PackIndexes(e', c + 1, sizes').value;
    assert PackIndexes(e, c, sizes).value == r;
    AddHashSizeFacts(sizes, cc'.totalBytes);
    PackIndexesSizes(e', c + 1, sizes');
    PackIndexesFrame(e', c + 1, sizes');
    PackIndexesListed(e', c + 1, sizes');
    assert r.0.compositeIndexes[c] == cc';
  }

  /** Every size the loop from index `c` on adds to the list is that of one of the indexes
      from `c` on. */
  lemma {:induction false} PackIndexesAdds(e: Entity, c: nat, sizes: seq<int>)
    requires c <= |e.compositeIndexes| && PackIndexes(e, c, sizes).Ok?
    decreases |e.compositeIndexes| - c
    ensures var r := PackIndexes(e, c, sizes).value;
      forall v :: v in r.1 ==>
        v in sizes || exists x :: c <= x < |r.0.compositeIndexes| && r.0.compositeIndexes[x].totalBytes == v
  {
    if c == |e.compositeIndexes| {
      return;
    }
    var cc := e.compositeIndexes[c];
    var o := PackFrom(e, cc.name, e.links, cc.components, 0, 0, cc.involvesPrimaryKey).value;
    var cc' := Finished(cc, o);
    var e' := e.(links := o.links, compositeIndexes := e.compositeIndexes[c := cc']);
    var sizes' := AddHashSize(sizes, cc'.totalBytes);
    var r := PackIndexes(e', c + 1, sizes').value;
    assert PackIndexes(e, c, sizes).value == r;
    AddHashSizeFacts(sizes, cc'.totalBytes);
    PackIndexesFrame(e', c + 1, sizes');
    PackIndexesAdds(e', c + 1, sizes');
    assert r.0.compositeIndexes[c] == cc';
    forall v | v in r.1
      ensures v in sizes || exists x :: c <= x < |r.0.compositeIndexes| && r.0.compositeIndexes[x].totalBytes == v
    {
      if v !in sizes && v in sizes' {
        assert r.0.compositeIndexes[c].totalBytes == v;
      }
    }
  }

  /** The entity loop from entity `i` on changes only the links and indexes of entities
      from `i` on; every index of those wider than 8 bytes has its size in the list, and
      every size it adds is such an index's. */
  lemma {:induction false} PackAllEffect(s: seq<Entity>, i: nat, sizes: seq<int>)
    requires i <= |s| && PackAll(s, i, sizes).Ok?
    decreases |s| - i
    ensures var r := PackAll(s, i, sizes).value;
      && |r.0| == |s|
      && (forall k :: 0 <= k < |s| ==> r.0[k] == s[k].(links := r.0[k].links, compositeIndexes := r.0[k].compositeIndexes))
      && (forall k :: 0 <= k < |s| ==> |r.0[k].compositeIndexes| == |s[k].compositeIndexes| && SameNames(r.0[k].links, s[k].links))
      && (forall k :: 0 <= k < i ==> r.0[k] == s[k])
      && (forall k, x :: i <= k < |s| && 0 <= x < |r.0[k].compositeIndexes| && r.0[k].compositeIndexes[x].totalBytes > 8 ==>
            r.0[k].compositeIndexes[x].totalBytes in r.1)
      && (forall v :: v in r.1 ==>
            v in sizes || exists k, x :: i <= k < |s| && 0 <= x < |r.0[k].compositeIndexes| && r.0[k].compositeIndexes[x].totalBytes == v)
  {
    if i == |s| {
      return;
    }
    var p := PackIndexes(s[i], 0, sizes).value;
    var s' := s[i := p.0];
    var r := PackAll(s', i + 1, p.1).value;
    assert PackAll(s, i, sizes).value == r;
    PackIndexesFrame(s[i], 0, sizes);
    PackIndexesListed(s[i], 0, sizes);
    PackIndexesAdds(s[i], 0, sizes);
    PackAllSizes(s', i + 1, p.1);
    PackAllEffect(s', i + 1, p.1);
    assert r.0[i] == p.0;
    forall v | v in r.1
      ensures v in sizes || exists k, x :: i <= k < |s| && 0 <= x < |r.0[k].compositeIndexes| && r.0[k].compositeIndexes[x].totalBytes == v
    {
      if v !in sizes && v in p.1 {
        var x :| 0 <= x < |s[i].compositeIndexes| && p.0.compositeIndexes[x].totalBytes == v;
        assert r.0[i].compositeIndexes[x].totalBytes == v;
      }
    }
  }

  /** After the whole pass, the list of sizes that need a hash function has no size twice,
      and holds exactly the byte sizes wider than 8 of the composite indexes; the pass
      changes nothing but links' covered flags and composite indexes. */
  lemma HashSizesOfPass(s: seq<Entity>)
    requires PackAll(s, 0, []).Ok?
    ensures var r := PackAll(s, 0, []).value;
      && |r.0| == |s|
      && (forall k :: 0 <= k < |s| ==> r.0[k] == s[k].(links := r.0[k].links, compositeIndexes := r.0[k].compositeIndexes))
      && HashSizesOk(r.1)
      && (forall v :: v in r.1 <==>
            v > 8 && exists k, x :: 0 <= k < |s| && 0 <= x < |r.0[k].compositeIndexes| && r.0[k].compositeIndexes[x].totalBytes == v)
  {
    PackAllSizes(s, 0, []);
    PackAllEffect(s, 0, []);
  }
}
