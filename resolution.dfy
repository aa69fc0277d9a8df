/**
 * The relationship patch-up pass: for every relationship, resolve each
 * link's target, choose the primary key, apply a forced key, register
 * reverse links on the targets, and propagate the key's capacity onto the
 * relationship or demand a storage type with a delete function.
 *
 * Each loop of the pass is a method over sequences of records proved equal
 * to a tail-recursive specification function that follows the same steps;
 * the lemmas at the end state what the pass guarantees.
 */
module Resolution {
  import opened Schema
  import opened PrimaryKeys

  // ---------------------------------------------------------------------
  // Well-formedness of pointers

  predicate PkIn(n: nat, pk: PrimaryKey)
  {
    pk.pointsTo.Some? ==> pk.pointsTo.value < n
  }

  predicate LinkIn(n: nat, l: Link)
  {
    l.relatedTo.Some? ==> l.relatedTo.value < n
  }

  /** A link whose target has been found among `n` entities. */
  predicate Resolved(n: nat, l: Link)
  {
    l.relatedTo.Some? && l.relatedTo.value < n
  }

  predicate EntityIndexed(n: nat, e: Entity)
  {
    PkIn(n, e.primaryKey) && forall m :: 0 <= m < |e.links| ==> LinkIn(n, e.links[m])
  }

  /** Every primary key and every link of the schema points into it. */
  predicate Indexed(s: seq<Entity>)
  {
    forall k :: 0 <= k < |s| ==> EntityIndexed(|s|, s[k])
  }

  // ---------------------------------------------------------------------
  // Target lookup (find_by_name, declared next to the parser): the first entity
  // with the given name.

  function FindFrom(s: seq<Entity>, name: string, k: nat): (r: Option<nat>)
    requires k <= |s|
    decreases |s| - k
    ensures r.Some? ==> k <= r.value < |s| && s[r.value].name == name
    ensures r.Some? ==> forall m :: k <= m < r.value ==> s[m].name != name
    ensures r.None? <==> forall m :: k <= m < |s| ==> s[m].name != name
  {
    if k == |s| then None
    else if s[k].name == name then Some(k)
    else FindFrom(s, name, k + 1)
  }

  function FindByName(s: seq<Entity>, name: string): (r: Option<nat>)
    ensures r.Some? ==> r.value < |s| && s[r.value].name == name
    ensures r.Some? ==> forall m :: 0 <= m < r.value ==> s[m].name != name
    ensures r.None? <==> forall m :: 0 <= m < |s| ==> s[m].name != name
  {
    FindFrom(s, name, 0)
  }

  // ---------------------------------------------------------------------
  // The link loop (one relationship)

  datatype LinkPassOut = LinkPassOut(links: seq<Link>, pk: PrimaryKey)

  /** One candidate step of primary-key selection: fold the link's target into the key,
      and take the link's property name whenever the chosen target is the link's target. */
  function PkStep(s: seq<Entity>, pk: PrimaryKey, l: Link): (r: PrimaryKey)
    requires PkIn(|s|, pk) && Resolved(|s|, l)
    ensures PkIn(|s|, r)
  {
    if KeyEligible(l) then
      var p := BetterPrimaryKey(s, pk.pointsTo, l.relatedTo.value);
      PrimaryKey(Some(p), if Some(p) == l.relatedTo then l.propertyName else pk.propertyName)
    else pk
  }

  /** The multiplicity / index / list combination that has no supported layout. */
  predicate UnsupportedShape(l: Link)
  {
    l.multiplicity > 1 && l.index == Many && l.ltype == List
  }

  /** The link loop from link `j` on, with the links before `j` already updated in place. */
  function LinkPass(s: seq<Entity>, rel: string, links: seq<Link>, j: nat, pk: PrimaryKey)
    : (r: Result<LinkPassOut, SchemaError>)
    requires j <= |links| && PkIn(|s|, pk)
    decreases |links| - j
    ensures r.Ok? ==> |r.value.links| == |links| && PkIn(|s|, r.value.pk)
    ensures r.Ok? ==> forall k :: 0 <= k < j ==> r.value.links[k] == links[k]
    ensures r.Ok? ==> forall k :: j <= k < |links| ==> Resolved(|s|, r.value.links[k])
  {
    if j == |links| then Ok(LinkPassOut(links, pk))
    else
      var l := links[j];
      match FindByName(s, l.typeName)
      case None => Err(UnknownLinkTarget(l.typeName, rel))
      case Some(t) =>
        var l1 := l.(relatedTo := Some(t));
        var pk1 := PkStep(s, pk, l1);
        if UnsupportedShape(l1) then Err(ListWithMultiplicity(l1.propertyName, rel))
        else
          var l2 := if l1.multiplicity > 1 && l1.index == AtMostOne then l1.(isDistinct := true) else l1;
          LinkPass(s, rel, links[j := l2], j + 1, pk1)
  }

  /** Resolves the links of relationship `rel` against the entities `s` (lines 646-673).
      The key under construction lives in the relationship record in the original; the
      method keeps it in a local, which nothing else reads during the loop. */
  method ResolveLinks(s: seq<Entity>, rel: string, links0: seq<Link>, pk0: PrimaryKey)
    returns (res: Result<LinkPassOut, SchemaError>)
    requires PkIn(|s|, pk0)
    ensures res == LinkPass(s, rel, links0, 0, pk0)
  {
    var links, pk := links0, pk0;
    var j := 0;
    while j < |links|
      invariant j <= |links| == |links0| && PkIn(|s|, pk)
      invariant LinkPass(s, rel, links, j, pk) == LinkPass(s, rel, links0, 0, pk0)
    {
      var relobj := links[j];
      var linked := FindByName(s, relobj.typeName);
      if linked.None? {
        return Err(UnknownLinkTarget(relobj.typeName, rel));
      }
      relobj := relobj.(relatedTo := linked);
      if relobj.index == AtMostOne && !relobj.isOptional && relobj.multiplicity == 1 {
        pk := pk.(pointsTo := Some(BetterPrimaryKey(s, pk.pointsTo, linked.value)));
        if pk.pointsTo == relobj.relatedTo {
          pk := pk.(propertyName := relobj.propertyName);
        }
      }
      if relobj.multiplicity > 1 && relobj.index == Many && relobj.ltype == List {
        return Err(ListWithMultiplicity(relobj.propertyName, rel));
      }
      if relobj.multiplicity > 1 && relobj.index == AtMostOne {
        relobj := relobj.(isDistinct := true);
      }
      links := links[j := relobj];
      j := j + 1;
    }
    return Ok(LinkPassOut(links, pk));
  }

  // ---------------------------------------------------------------------
  // Forced primary key

  datatype ForceOut = ForceOut(pk: PrimaryKey, forced: bool)

  /** The forced-key loop from link `j` on: every eligible link with the forced name
      replaces the key, so the last one wins. */
  function ForcePass(links: seq<Link>, force: string, j: nat, pk: PrimaryKey, forced: bool): (r: ForceOut)
    requires j <= |links|
    decreases |links| - j
  {
    if j == |links| then ForceOut(pk, forced)
    else
      var l := links[j];
      if l.propertyName == force && KeyEligible(l) then
        ForcePass(links, force, j + 1, PrimaryKey(l.relatedTo, l.propertyName), true)
      else
        ForcePass(links, force, j + 1, pk, forced)
  }

  /** Applies a forced primary key (lines 686-694). */
  method ForceKey(links: seq<Link>, force: string, pk0: PrimaryKey) returns (pk: PrimaryKey, forced: bool)
    ensures ForceOut(pk, forced) == ForcePass(links, force, 0, pk0, false)
  {
    pk, forced := pk0, false;
    for j := 0 to |links|
      invariant ForcePass(links, force, j, pk, forced) == ForcePass(links, force, 0, pk0, false)
    {
      var link := links[j];
      if link.propertyName == force && link.index == AtMostOne && !link.isOptional && link.multiplicity == 1 {
        pk := PrimaryKey(link.relatedTo, link.propertyName);
        forced := true;
      }
    }
  }

  // ---------------------------------------------------------------------
  // Reverse links

  /** The reverse link of link `j` of relationship `rel`, pushed onto its target. */
  function Push(s: seq<Entity>, t: nat, name: string, rel: nat, j: nat): (r: seq<Entity>)
    requires t < |s|
    ensures |r| == |s|
  {
    s[t := s[t].(relationshipsInvolvedIn := s[t].relationshipsInvolvedIn + [InRelation(name, rel, j)])]
  }

  /** The reverse-link loop from link `j` on. */
  function Register(s: seq<Entity>, rel: nat, name: string, links: seq<Link>, j: nat): (r: seq<Entity>)
    requires j <= |links| && forall k :: 0 <= k < |links| ==> Resolved(|s|, links[k])
    decreases |links| - j
    ensures |r| == |s|
    ensures forall k :: 0 <= k < |s| ==>
              r[k] == s[k].(relationshipsInvolvedIn := r[k].relationshipsInvolvedIn)
  {
    if j == |links| then s
    else if links[j].index != Unindexed then
      assert Resolved(|s|, links[j]);
      Register(Push(s, links[j].relatedTo.value, name, rel, j), rel, name, links, j + 1)
    else
      Register(s, rel, name, links, j + 1)
  }

  /** Registers a reverse link on the target of every indexed link (lines 703-706). */
  method RegisterReverseLinks(s: seq<Entity>, rel: nat, name: string, links: seq<Link>)
    returns (objs: seq<Entity>)
    requires forall k :: 0 <= k < |links| ==> Resolved(|s|, links[k])
    ensures objs == Register(s, rel, name, links, 0)
  {
    objs := s;
    for j := 0 to |links|
      invariant |objs| == |s|
      invariant Register(objs, rel, name, links, j) == Register(s, rel, name, links, 0)
    {
      var link := links[j];
      if link.index != Unindexed {
        var t := link.relatedTo.value;
        objs := objs[t := objs[t].(relationshipsInvolvedIn := objs[t].relationshipsInvolvedIn + [InRelation(name, rel, j)])];
      }
    }
  }

  // ---------------------------------------------------------------------
  // Marking the primary-key link

  function MarkPass(links: seq<Link>, pk: PrimaryKey, j: nat): (r: seq<Link>)
    requires j <= |links|
    decreases |links| - j
    ensures |r| == |links|
  {
    if j == |links| then links
    else if KeyIsLink(pk, links[j]) then MarkPass(links[j := links[j].(isPrimaryKey := true)], pk, j + 1)
    else MarkPass(links, pk, j + 1)
  }

  /** Marks every link equal to the primary key (lines 713-717). */
  method MarkKeyLinks(links0: seq<Link>, pk: PrimaryKey) returns (links: seq<Link>)
    ensures links == MarkPass(links0, pk, 0)
  {
    links := links0;
    for j := 0 to |links0|
      invariant |links| == |links0|
      invariant MarkPass(links, pk, j) == MarkPass(links0, pk, 0)
    {
      if KeyIsLink(pk, links[j]) {
        links := links[j := links[j].(isPrimaryKey := true)];
      }
    }
  }

  // ---------------------------------------------------------------------
  // One relationship, and the whole pass

  function ForceStep(links: seq<Link>, force: string, pk: PrimaryKey): ForceOut
  {
    if |force| > 0 then ForcePass(links, force, 0, pk, false) else ForceOut(pk, true)
  }

  /** The entities after relationship `i` has been patched up (lines 646-726). */
  function ResolveOne(s: seq<Entity>, i: nat): (res: Result<seq<Entity>, SchemaError>)
    requires i < |s| && Indexed(s)
    ensures res.Ok? ==> |res.value| == |s| && Indexed(res.value)
  {
    var r := s[i];
    match LinkPass(s, r.name, r.links, 0, r.primaryKey)
    case Err(e) => Err(e)
    case Ok(lp) =>
      if |lp.links| == 0 then Err(TooFewObjects(r.name))
      else
        var fo := ForceStep(lp.links, r.forcePk, lp.pk);
        if !fo.forced then Err(UnusableForcedKey(r.forcePk, r.name))
        else
          ForcedKeyIn(lp.links, r.forcePk, lp.pk, |s|);
          Attach(s, i, lp.links, fo.pk)
  }

  /** The rest of the patch-up of relationship `i` once its links are resolved and its key
      is chosen: store both, register the reverse links, and either take the key target's
      capacity and mark the key links or demand a storage type with a delete function
      (lines 703-726). */
  function Attach(s: seq<Entity>, i: nat, links: seq<Link>, pk: PrimaryKey): (res: Result<seq<Entity>, SchemaError>)
    requires i < |s| && Indexed(s) && PkIn(|s|, pk)
    requires forall k :: 0 <= k < |links| ==> Resolved(|s|, links[k])
    ensures res.Ok? ==> |res.value| == |s| && Indexed(res.value)
  {
    var r := s[i];
    var s1 := s[i := r.(links := links, primaryKey := pk)];
    var s2 := Register(s1, i, r.name, links, 0);
    match pk.pointsTo
    case Some(t) =>
      var r2 := s2[i];
      var marked := MarkPass(r2.links, pk, 0);
      MarkPassKeeps(r2.links, pk, 0);
      var s3 := s2[i := r2.(size := s2[t].size, storeType := Contiguous,
                            isExpandable := s2[t].isExpandable, links := marked)];
      assert EntityIndexed(|s3|, s3[i]) by {
        assert forall m :: 0 <= m < |marked| ==> marked[m].relatedTo == links[m].relatedTo;
      }
      Ok(s3)
    case None =>
      if s2[i].storeType != Erasable && s2[i].storeType != Compactable then Err(NoDeletePath(r.name))
      else Ok(s2)
  }

  lemma {:induction false} ForcedKeyIn(links: seq<Link>, force: string, pk: PrimaryKey, n: nat)
    requires PkIn(n, pk) && forall k :: 0 <= k < |links| ==> LinkIn(n, links[k])
    ensures PkIn(n, ForceStep(links, force, pk).pk)
  {
    if |force| > 0 {
      ForcePassIn(links, force, 0, pk, false, n);
    }
  }

  lemma {:induction false} ForcePassIn(links: seq<Link>, force: string, j: nat, pk: PrimaryKey, forced: bool, n: nat)
    requires j <= |links| && PkIn(n, pk) && forall k :: 0 <= k < |links| ==> LinkIn(n, links[k])
    decreases |links| - j
    ensures PkIn(n, ForcePass(links, force, j, pk, forced).pk)
  {
    if j < |links| {
      var l := links[j];
      if l.propertyName == force && KeyEligible(l) {
        ForcePassIn(links, force, j + 1, PrimaryKey(l.relatedTo, l.propertyName), true, n);
      } else {
        ForcePassIn(links, force, j + 1, pk, forced, n);
      }
    }
  }

  /** Marking changes no link's identity or target: only is-primary-key flags. */
  lemma {:induction false} MarkPassKeeps(links: seq<Link>, pk: PrimaryKey, j: nat)
    requires j <= |links|
    decreases |links| - j
    ensures var r := MarkPass(links, pk, j);
      forall k :: 0 <= k < |links| ==>
        r[k] == links[k].(isPrimaryKey := links[k].isPrimaryKey || (j <= k && KeyIsLink(pk, links[k])))
  {
    if j < |links| {
      if KeyIsLink(pk, links[j]) {
        MarkPassKeeps(links[j := links[j].(isPrimaryKey := true)], pk, j + 1);
      } else {
        MarkPassKeeps(links, pk, j + 1);
      }
    }
  }

  /** The patch-up pass over entities `i` onwards (the loop of lines 644-729). */
  function ResolveAll(s: seq<Entity>, i: nat): (res: Result<seq<Entity>, SchemaError>)
    requires i <= |s| && Indexed(s)
    decreases |s| - i
    ensures res.Ok? ==> |res.value| == |s| && Indexed(res.value)
  {
    if i == |s| then Ok(s)
    else if !s[i].isRelationship then ResolveAll(s, i + 1)
    else
      match ResolveOne(s, i)
      case Err(e) => Err(e)
      case Ok(s') => ResolveAll(s', i + 1)
  }

  /** Patches up relationship `i` of `s`. */
  method ResolveRelationship(s: seq<Entity>, i: nat) returns (res: Result<seq<Entity>, SchemaError>)
    requires i < |s| && Indexed(s)
    ensures res == ResolveOne(s, i)
  {
    var r := s[i];
    var lp := ResolveLinks(s, r.name, r.links, r.primaryKey);
    if lp.Err? {
      return Err(lp.error);
    }
    var links, pk := lp.value.links, lp.value.pk;
    if |links| == 0 {
      return Err(TooFewObjects(r.name));
    }
    if |r.forcePk| > 0 {
      var forced;
      pk, forced := ForceKey(links, r.forcePk, pk);
      if !forced {
        return Err(UnusableForcedKey(r.forcePk, r.name));
      }
    }
    ForcedKeyIn(links, r.forcePk, lp.value.pk, |s|);
    var objs := s[i := r.(links := links, primaryKey := pk)];
    objs := RegisterReverseLinks(objs, i, r.name, links);
    if pk.pointsTo.Some? {
      var t := pk.pointsTo.value;
      var marked := MarkKeyLinks(objs[i].links, pk);
      objs := objs[i := objs[i].(size := objs[t].size, storeType := Contiguous,
                                 isExpandable := objs[t].isExpandable, links := marked)];
    } else if objs[i].storeType != Erasable && objs[i].storeType != Compactable {
      return Err(NoDeletePath(r.name));
    }
    return Ok(objs);
  }

  /** The whole patch-up pass over the parsed entities. */
  method ResolveRelationships(s: seq<Entity>) returns (res: Result<seq<Entity>, SchemaError>)
    requires Indexed(s)
    ensures res == ResolveAll(s, 0)
  {
    var objs := s;
    var i := 0;
    while i < |objs|
      invariant i <= |objs| == |s| && Indexed(objs)
      invariant ResolveAll(objs, i) == ResolveAll(s, 0)
    {
      if objs[i].isRelationship {
        var step := ResolveRelationship(objs, i);
        if step.Err? {
          return step;
        }
        objs := step.value;
      }
      i := i + 1;
    }
    return Ok(objs);
  }
}
