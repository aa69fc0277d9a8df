/**
 * The layout each composite index ends with after the whole composite-key
 * pass (lines 766-813): every index is laid out against its entity's links
 * as they were before the pass, whatever the indexes before it covered.
 */
module CompositeLayout {
  import opened Schema
  import opened CompositeKeys

  /** The components of an index as a successful layout leaves them: each matched against
      the links and placed at the sum of the earlier components' widths. */
  function LaidOutComps(e: Entity, comps0: seq<KeyComponent>, links0: seq<Link>): (r: seq<KeyComponent>)
    ensures |r| == |comps0|
  {
    seq(|comps0|, x requires 0 <= x < |comps0| =>
      Matched(comps0[x], links0).(bitPosition := Offset(e, comps0, links0, x),
                                  numberOfBits := if e.isExpandable then 32 else BitLength(e.size)))
  }

  /** PackIndexLayout restated with LaidOutComps: the layout succeeds exactly when every
      component is accepted, and then it has the laid-out components, the bits of all of
      them and the primary-key flag. */
  lemma PackFromLaidOut(e: Entity, ccName: string, links0: seq<Link>, comps0: seq<KeyComponent>, involves0: bool)
    ensures var r := PackFrom(e, ccName, links0, comps0, 0, 0, involves0);
      && (r.Ok? <==> forall x :: 0 <= x < |comps0| ==> Accepted(comps0, links0, x))
      && (r.Ok? ==>
            && r.value.comps == LaidOutComps(e, comps0, links0)
            && r.value.bits == Offset(e, comps0, links0, |comps0|)
            && r.value.involves == (involves0 || NamedBefore(comps0, |comps0|, e.primaryKey.propertyName))
            && SameNames(r.value.links, links0))
  {
    PackIndexLayout(e, ccName, links0, comps0, involves0);
  }

  /** Links that agree on names, types and multiplicities, in entities that agree on
      expandability and size, accept the same components and lay them out alike. */
  lemma LaidOutSame(e: Entity, e': Entity, comps0: seq<KeyComponent>, a: seq<Link>, b: seq<Link>)
    requires e.isExpandable == e'.isExpandable && e.size == e'.size && SameNames(a, b)
    ensures LaidOutComps(e, comps0, a) == LaidOutComps(e', comps0, b)
    ensures Offset(e, comps0, a, |comps0|) == Offset(e', comps0, b, |comps0|)
    ensures forall x :: 0 <= x < |comps0| ==> Accepted(comps0, a, x) == Accepted(comps0, b, x)
  {
    forall x | 0 <= x < |comps0|
      ensures LaidOutComps(e, comps0, a)[x] == LaidOutComps(e', comps0, b)[x]
      ensures Accepted(comps0, a, x) == Accepted(comps0, b, x)
    {
      MatchedSame(comps0[x], a, b);
      OffsetSame(e, e', comps0, a, b, x);
    }
    OffsetSame(e, e', comps0, a, b, |comps0|);
  }

  /** An index is finished alike in an entity and in the same entity after earlier
      indexes changed its links' coverage flags. */
  lemma FinishedSame(e: Entity, e': Entity, cc: CompositeIndex)
    requires e'.name == e.name && e'.isExpandable == e.isExpandable && e'.size == e.size
    requires e'.primaryKey == e.primaryKey && SameNames(e.links, e'.links)
    requires PackFrom(e', cc.name, e'.links, cc.components, 0, 0, cc.involvesPrimaryKey).Ok?
    ensures PackFrom(e, cc.name, e.links, cc.components, 0, 0, cc.involvesPrimaryKey).Ok?
    ensures Finished(cc, PackFrom(e, cc.name, e.links, cc.components, 0, 0, cc.involvesPrimaryKey).value)
         == Finished(cc, PackFrom(e', cc.name, e'.links, cc.components, 0, 0, cc.involvesPrimaryKey).value)
  {
    PackFromLaidOut(e, cc.name, e.links, cc.components, cc.involvesPrimaryKey);
    PackFromLaidOut(e', cc.name, e'.links, cc.components, cc.involvesPrimaryKey);
    LaidOutSame(e, e', cc.components, e.links, e'.links);
  }

  /** The index loop of an entity from index `c` on finishes index `c` with its layout. */
  lemma PackIndexesFirst(e: Entity, c: nat, sizes: seq<int>)
    requires c < |e.compositeIndexes| && PackIndexes(e, c, sizes).Ok?
    ensures var r := PackIndexes(e, c, sizes).value;
      var cc := e.compositeIndexes[c];
      var o := PackFrom(e, cc.name, e.links, cc.components, 0, 0, cc.involvesPrimaryKey);
      o.Ok? && c < |r.0.compositeIndexes| && r.0.compositeIndexes[c] == Finished(cc, o.value)
  {
    var cc := e.compositeIndexes[c];
    var o := PackFrom(e, cc.name, e.links, cc.components, 0, 0, cc.involvesPrimaryKey).value;
    var cc' := Finished(cc, o);
    var e' := e.(links := o.links, compositeIndexes := e.compositeIndexes[c := cc']);
    var sizes' := AddHashSize(sizes, cc'.totalBytes);
    var r := PackIndexes(e', c + 1, sizes').value;
    assert PackIndexes(e, c, sizes).value == r;
    PackIndexesFrame(e', c + 1, sizes');
    assert r.0.compositeIndexes[c] == cc';
  }

  /** The index loop of an entity from index `c` on lays out each of those indexes, `x`
      among them, as if it were the only one, against the entity's links as they were. */
  lemma {:induction false} PackIndexesLayout(e: Entity, c: nat, sizes: seq<int>, x: nat)
    requires c <= x < |e.compositeIndexes| && PackIndexes(e, c, sizes).Ok?
    decreases |e.compositeIndexes| - c
    ensures var r := PackIndexes(e, c, sizes).value;
      var cc := e.compositeIndexes[x];
      var o := PackFrom(e, cc.name, e.links, cc.components, 0, 0, cc.involvesPrimaryKey);
      o.Ok? && x < |r.0.compositeIndexes| && r.0.compositeIndexes[x] == Finished(cc, o.value)
  {
    var cc := e.compositeIndexes[c];
    var o := PackFrom(e, cc.name, e.links, cc.components, 0, 0, cc.involvesPrimaryKey).value;
    var cc' := Finished(cc, o);
    var e' := e.(links := o.links, compositeIndexes := e.compositeIndexes[c := cc']);
    var sizes' := AddHashSize(sizes, cc'.totalBytes);
    assert PackIndexes(e, c, sizes) == PackIndexes(e', c + 1, sizes');
    if x == c {
      PackIndexesFirst(e, c, sizes);
    } else {
      PackFromKeepsNames(e, cc.name, e.links, cc.components, cc.involvesPrimaryKey);
      PackIndexesLayout(e', c + 1, sizes', x);
      assert e'.compositeIndexes[x] == e.compositeIndexes[x];
      FinishedSame(e, e', e.compositeIndexes[x]);
    }
  }

  /** The entity loop from entity `i` on leaves entity `i` as its index loop does. */
  lemma PackAllFirst(s: seq<Entity>, i: nat, sizes: seq<int>)
    requires i < |s| && PackAll(s, i, sizes).Ok?
    ensures PackIndexes(s[i], 0, sizes).Ok?
    ensures var r := PackAll(s, i, sizes).value;
      i < |r.0| && r.0[i] == PackIndexes(s[i], 0, sizes).value.0
  {
    var p := PackIndexes(s[i], 0, sizes).value;
    var s' := s[i := p.0];
    var r := PackAll(s', i + 1, p.1).value;
    assert PackAll(s, i, sizes).value == r;
    PackAllKeepsEarlier(s', i + 1, p.1);
    assert r.0[i] == p.0;
  }

  /** The entity loop from entity `i` on keeps the number of entities and the entities
      before `i`. */
  lemma {:induction false} PackAllKeepsEarlier(s: seq<Entity>, i: nat, sizes: seq<int>)
    requires i <= |s| && PackAll(s, i, sizes).Ok?
    decreases |s| - i
    ensures var r := PackAll(s, i, sizes).value;
      |r.0| == |s| && forall k :: 0 <= k < i ==> r.0[k] == s[k]
  {
    if i < |s| {
      var p := PackIndexes(s[i], 0, sizes).value;
      var s' := s[i := p.0];
      var r := PackAll(s', i + 1, p.1).value;
      assert PackAll(s, i, sizes).value == r;
      PackAllKeepsEarlier(s', i + 1, p.1);
    }
  }

  /** The entity loop from entity `i` on lays out each index of those entities, index `x`
      of entity `k` among them, as if it were the only one, against its entity's links as
      they were. */
  lemma {:induction false} PackAllLayout(s: seq<Entity>, i: nat, sizes: seq<int>, k: nat, x: nat)
    requires i <= k < |s| && x < |s[k].compositeIndexes| && PackAll(s, i, sizes).Ok?
    decreases |s| - i
    ensures var r := PackAll(s, i, sizes).value;
      var cc := s[k].compositeIndexes[x];
      var o := PackFrom(s[k], cc.name, s[k].links, cc.components, 0, 0, cc.involvesPrimaryKey);
      o.Ok? && k < |r.0| && x < |r.0[k].compositeIndexes| && r.0[k].compositeIndexes[x] == Finished(cc, o.value)
  {
    var p := PackIndexes(s[i], 0, sizes).value;
    var s' := s[i := p.0];
    if k == i {
      PackAllFirst(s, i, sizes);
      PackIndexesLayout(s[i], 0, sizes, x);
    } else {
      var r := PackAll(s', i + 1, p.1).value;
      assert PackAll(s, i, sizes).value == r;
      PackAllLayout(s', i + 1, p.1, k, x);
    }
  }

  /** A laid-out index of entity `e`: its components laid out back to back, the byte size
      rounded up from their bits, and the primary-key flag set when it was or a component
      is named like the key. */
  predicate IndexLaidOut(e: Entity, cc: CompositeIndex, out: CompositeIndex)
  {
    var comps := cc.components;
    && out.name == cc.name
    && out.components == LaidOutComps(e, comps, e.links)
    && out.totalBytes == TotalBytes(Offset(e, comps, e.links, |comps|))
    && out.involvesPrimaryKey == (cc.involvesPrimaryKey || NamedBefore(comps, |comps|, e.primaryKey.propertyName))
  }

  /** Finishing an index with its successful layout lays it out. */
  lemma FinishedLaidOut(e: Entity, cc: CompositeIndex)
    requires PackFrom(e, cc.name, e.links, cc.components, 0, 0, cc.involvesPrimaryKey).Ok?
    ensures IndexLaidOut(e, cc, Finished(cc, PackFrom(e, cc.name, e.links, cc.components, 0, 0, cc.involvesPrimaryKey).value))
  {
    PackFromLaidOut(e, cc.name, e.links, cc.components, cc.involvesPrimaryKey);
  }

  /** After the whole pass, every composite index of every entity is laid out against
      its entity's links as they were before the pass. */
  lemma PassLaysOutIndexes(s: seq<Entity>)
    requires PackAll(s, 0, []).Ok?
    ensures var r := PackAll(s, 0, []).value;
      && |r.0| == |s|
      && forall k :: 0 <= k < |s| ==>
           && |r.0[k].compositeIndexes| == |s[k].compositeIndexes|
           && forall x :: 0 <= x < |s[k].compositeIndexes| ==>
                IndexLaidOut(s[k], s[k].compositeIndexes[x], r.0[k].compositeIndexes[x])
  {
    var r := PackAll(s, 0, []).value;
    PackAllEffect(s, 0, []);
    forall k, x | 0 <= k < |s| && 0 <= x < |s[k].compositeIndexes|
      ensures IndexLaidOut(s[k], s[k].compositeIndexes[x], r.0[k].compositeIndexes[x])
    {
      PackAllLayout(s, 0, [], k, x);
      FinishedLaidOut(s[k], s[k].compositeIndexes[x]);
    }
  }
}
