/**
 * What the relationship patch-up pass guarantees.
 */
module ResolutionProperties {
  import opened Schema
  import opened PrimaryKeys
  import opened Resolution
  import opened Seqs

  // ---------------------------------------------------------------------
  // The link loop

  /** A link the loop accepts: its target exists and its shape is supported. */
  predicate LinkAccepted(s: seq<Entity>, l: Link)
  {
    FindByName(s, l.typeName).Some? && !UnsupportedShape(l)
  }

  /** The diagnostic for the first link the loop rejects. */
  function LinkError(s: seq<Entity>, rel: string, l: Link): SchemaError
  {
    if FindByName(s, l.typeName).None? then UnknownLinkTarget(l.typeName, rel)
    else ListWithMultiplicity(l.propertyName, rel)
  }

  /** What the loop makes of an accepted link: its target is filled in, and it is
      distinct when it has multiplicity above one under the at-most-one discipline. */
  function ResolvedLink(s: seq<Entity>, l: Link): Link
  {
    l.(relatedTo := FindByName(s, l.typeName),
       isDistinct := l.isDistinct || (l.multiplicity > 1 && l.index == AtMostOne))
  }

  /** The loop's step at link `j` when that link is accepted: it continues on the
      resolved link with the key folded. */
  lemma LinkPassStep(s: seq<Entity>, rel: string, links: seq<Link>, j: nat, pk: PrimaryKey)
    requires j < |links| && PkIn(|s|, pk) && LinkAccepted(s, links[j])
    ensures var l1 := links[j].(relatedTo := FindByName(s, links[j].typeName));
      LinkPass(s, rel, links, j, pk)
        == LinkPass(s, rel, links[j := ResolvedLink(s, links[j])], j + 1, PkStep(s, pk, l1))
  {
  }

  /** The link loop succeeds exactly when every link from `j` on is accepted. */
  lemma {:induction false} LinkPassOkIff(s: seq<Entity>, rel: string, links: seq<Link>, j: nat, pk: PrimaryKey)
    requires j <= |links| && PkIn(|s|, pk)
    decreases |links| - j
    ensures LinkPass(s, rel, links, j, pk).Ok? <==> forall k :: j <= k < |links| ==> LinkAccepted(s, links[k])
  {
    if j < |links| && LinkAccepted(s, links[j]) {
      var l1 := links[j].(relatedTo := FindByName(s, links[j].typeName));
      var links' := links[j := ResolvedLink(s, links[j])];
      LinkPassStep(s, rel, links, j, pk);
      LinkPassOkIff(s, rel, links', j + 1, PkStep(s, pk, l1));
      assert forall k :: j < k < |links| ==> links'[k] == links[k];
    }
  }

  /** On success every link from `j` on is resolved as ResolvedLink says. */
  lemma {:induction false} LinkPassLinks(s: seq<Entity>, rel: string, links: seq<Link>, j: nat, pk: PrimaryKey)
    requires j <= |links| && PkIn(|s|, pk) && LinkPass(s, rel, links, j, pk).Ok?
    decreases |links| - j
    ensures forall k :: j <= k < |links| ==> LinkPass(s, rel, links, j, pk).value.links[k] == ResolvedLink(s, links[k])
  {
    if j < |links| {
      var l1 := links[j].(relatedTo := FindByName(s, links[j].typeName));
      var links' := links[j := ResolvedLink(s, links[j])];
      LinkPassStep(s, rel, links, j, pk);
      LinkPassLinks(s, rel, links', j + 1, PkStep(s, pk, l1));
      assert forall k :: j < k < |links| ==> links'[k] == links[k];
    }
  }

  /** On failure the loop reports the first link it rejects. */
  lemma {:induction false} LinkPassError(s: seq<Entity>, rel: string, links: seq<Link>, j: nat, pk: PrimaryKey)
    requires j <= |links| && PkIn(|s|, pk) && LinkPass(s, rel, links, j, pk).Err?
    decreases |links| - j
    ensures exists k :: j <= k < |links| && !LinkAccepted(s, links[k])
              && (forall m :: j <= m < k ==> LinkAccepted(s, links[m]))
              && LinkPass(s, rel, links, j, pk).error == LinkError(s, rel, links[k])
  {
    if LinkAccepted(s, links[j]) {
      var l1 := links[j].(relatedTo := FindByName(s, links[j].typeName));
      var links' := links[j := ResolvedLink(s, links[j])];
      LinkPassStep(s, rel, links, j, pk);
      LinkPassError(s, rel, links', j + 1, PkStep(s, pk, l1));
      var k :| j + 1 <= k < |links'| && !LinkAccepted(s, links'[k])
               && (forall m :: j + 1 <= m < k ==> LinkAccepted(s, links'[m]))
               && LinkPass(s, rel, links', j + 1, PkStep(s, pk, l1)).error == LinkError(s, rel, links'[k]);
      assert forall m :: j < m < |links| ==> links'[m] == links[m];
      assert links'[k] == links[k];
    }
  }

  // ---------------------------------------------------------------------
  // Primary-key selection in the link loop

  /** Link `l` is a primary-key candidate whose target is entity `u`. */
  predicate CandidateTo(s: seq<Entity>, l: Link, u: nat)
  {
    KeyEligible(l) && FindByName(s, l.typeName) == Some(u) && u < |s|
  }

  /** The last candidate link, from `j` on, whose target is `t`. */
  function LastCandidateTo(s: seq<Entity>, links: seq<Link>, j: nat, t: nat): (r: Option<nat>)
    requires j <= |links|
    decreases |links| - j
    ensures r.Some? ==> j <= r.value < |links| && CandidateTo(s, links[r.value], t)
    ensures r.Some? ==> forall k :: r.value < k < |links| ==> !CandidateTo(s, links[k], t)
    ensures r.None? <==> forall k :: j <= k < |links| ==> !CandidateTo(s, links[k], t)
  {
    if j == |links| then None
    else
      match LastCandidateTo(s, links, j + 1, t)
      case Some(m) => Some(m)
      case None => if CandidateTo(s, links[j], t) then Some(j) else None
  }

  /** The key fold of the link loop on its own, over the links as given. */
  function KeyFold(s: seq<Entity>, links: seq<Link>, j: nat, pk: PrimaryKey): (r: PrimaryKey)
    requires j <= |links| && PkIn(|s|, pk)
    decreases |links| - j
    ensures PkIn(|s|, r)
  {
    if j == |links| then pk
    else
      match FindByName(s, links[j].typeName)
      case None => pk
      case Some(u) => KeyFold(s, links, j + 1, PkStep(s, pk, links[j].(relatedTo := Some(u))))
  }

  /** The key the link loop ends with is the key fold of its links. */
  lemma {:induction false} LinkPassKeyFold(s: seq<Entity>, rel: string, links: seq<Link>, j: nat, pk: PrimaryKey)
    requires j <= |links| && PkIn(|s|, pk) && LinkPass(s, rel, links, j, pk).Ok?
    decreases |links| - j
    ensures LinkPass(s, rel, links, j, pk).value.pk == KeyFold(s, links, j, pk)
  {
    if j < |links| {
      var l1 := links[j].(relatedTo := FindByName(s, links[j].typeName));
      var links' := links[j := ResolvedLink(s, links[j])];
      LinkPassStep(s, rel, links, j, pk);
      LinkPassKeyFold(s, rel, links', j + 1, PkStep(s, pk, l1));
      KeyFoldFrame(s, links, links', j + 1, PkStep(s, pk, l1));
    }
  }

  lemma {:induction false} KeyFoldFrame(s: seq<Entity>, a: seq<Link>, b: seq<Link>, j: nat, pk: PrimaryKey)
    requires j <= |a| == |b| && PkIn(|s|, pk) && forall k :: j <= k < |a| ==> a[k] == b[k]
    decreases |a| - j
    ensures KeyFold(s, a, j, pk) == KeyFold(s, b, j, pk)
  {
    if j < |a| {
      assert a[j] == b[j];
      match FindByName(s, a[j].typeName)
      case None =>
      case Some(u) => KeyFoldFrame(s, a, b, j + 1, PkStep(s, pk, a[j].(relatedTo := Some(u))));
    }
  }

  /** One candidate step: the chosen target is at least as good as the candidate and as
      the current target, it is the candidate unless it is the unchanged current target,
      and it is strictly better than a current target it replaces. */
  lemma PkStepFacts(s: seq<Entity>, pk: PrimaryKey, l: Link, u: nat)
    requires PkIn(|s|, pk) && u < |s| && l.relatedTo == Some(u) && KeyEligible(l)
    ensures var r := PkStep(s, pk, l);
      && r.pointsTo.Some? && r.pointsTo.value < |s|
      && KeyLe(s[r.pointsTo.value], s[u])
      && (r.pointsTo.value == u ==> r.propertyName == l.propertyName)
      && (r.pointsTo.value != u ==> r == pk)
      && (pk.pointsTo.Some? ==> KeyLe(s[r.pointsTo.value], s[pk.pointsTo.value]))
      && (pk.pointsTo.Some? && r.pointsTo != pk.pointsTo ==> !KeyLe(s[pk.pointsTo.value], s[r.pointsTo.value]))
  {
    var p := PkStep(s, pk, l).pointsTo.value;
    KeyLeIsTotalPreorder(s[p], s[u], s[p]);
    if pk.pointsTo.Some? {
      KeyLeIsTotalPreorder(s[pk.pointsTo.value], s[u], s[p]);
    }
  }

  /** All links from `j` on have a target. */
  predicate AllFound(s: seq<Entity>, links: seq<Link>, j: nat)
  {
    forall k :: j <= k < |links| ==> FindByName(s, links[k].typeName).Some?
  }

  /** The fold ends with no key exactly when it starts with none and no link is eligible. */
  lemma {:induction false} KeyFoldNone(s: seq<Entity>, links: seq<Link>, j: nat, pk: PrimaryKey)
    requires j <= |links| && PkIn(|s|, pk) && AllFound(s, links, j)
    decreases |links| - j
    ensures KeyFold(s, links, j, pk).pointsTo.None? <==>
              pk.pointsTo.None? && forall k :: j <= k < |links| ==> !KeyEligible(links[k])
  {
    if j < |links| {
      var u := FindByName(s, links[j].typeName).value;
      var l1 := links[j].(relatedTo := Some(u));
      KeyFoldNone(s, links, j + 1, PkStep(s, pk, l1));
    }
  }

  /** The fold's target is at least as good as the starting target and every candidate's,
      and strictly better than a starting target it replaces. */
  lemma {:induction false} KeyFoldBest(s: seq<Entity>, links: seq<Link>, j: nat, pk: PrimaryKey)
    requires j <= |links| && PkIn(|s|, pk) && AllFound(s, links, j)
    requires KeyFold(s, links, j, pk).pointsTo.Some?
    decreases |links| - j
    ensures var t := KeyFold(s, links, j, pk).pointsTo.value;
      && (forall k, u: nat :: j <= k < |links| && CandidateTo(s, links[k], u) ==> KeyLe(s[t], s[u]))
      && (pk.pointsTo.Some? ==> KeyLe(s[t], s[pk.pointsTo.value]))
      && (pk.pointsTo.Some? && t != pk.pointsTo.value ==> !KeyLe(s[pk.pointsTo.value], s[t]))
  {
    if j == |links| {
      KeyLeIsTotalPreorder(s[pk.pointsTo.value], s[pk.pointsTo.value], s[pk.pointsTo.value]);
      return;
    }
    var t := KeyFold(s, links, j, pk).pointsTo.value;
    var u := FindByName(s, links[j].typeName).value;
    var l1 := links[j].(relatedTo := Some(u));
    var pk1 := PkStep(s, pk, l1);
    KeyFoldBest(s, links, j + 1, pk1);
    if KeyEligible(links[j]) {
      PkStepFacts(s, pk, l1, u);
      var p := pk1.pointsTo.value;
      KeyLeIsTotalPreorder(s[t], s[p], s[u]);
      if pk.pointsTo.Some? {
        var c := pk.pointsTo.value;
        KeyLeIsTotalPreorder(s[t], s[p], s[c]);
        KeyLeIsTotalPreorder(s[c], s[p], s[t]);
      }
    }
  }

  /** The fold's property name is that of the last candidate link to the chosen target;
      when there is none, the target and the name are the starting key's. */
  lemma {:induction false} KeyFoldName(s: seq<Entity>, links: seq<Link>, j: nat, pk: PrimaryKey)
    requires j <= |links| && PkIn(|s|, pk) && AllFound(s, links, j)
    requires KeyFold(s, links, j, pk).pointsTo.Some?
    decreases |links| - j
    ensures var out := KeyFold(s, links, j, pk);
      var m := LastCandidateTo(s, links, j, out.pointsTo.value);
      && (m.None? ==> pk == out)
      && (m.Some? ==> out.propertyName == links[m.value].propertyName)
  {
    if j == |links| {
      return;
    }
    var out := KeyFold(s, links, j, pk);
    var t := out.pointsTo.value;
    var u := FindByName(s, links[j].typeName).value;
    var l1 := links[j].(relatedTo := Some(u));
    var pk1 := PkStep(s, pk, l1);
    KeyFoldName(s, links, j + 1, pk1);
    if KeyEligible(links[j]) {
      PkStepFacts(s, pk, l1, u);
      if LastCandidateTo(s, links, j + 1, t).None? {
        if u == t {
          assert CandidateTo(s, links[j], t);
        } else {
          assert !CandidateTo(s, links[j], t);
        }
      }
    } else {
      assert !CandidateTo(s, links[j], t);
    }
  }

  /** Starting from no key (as parsed), the loop chooses a key exactly when some link is
      eligible; the chosen target is at least as good as every candidate's, and the key
      is the last candidate link to that target. */
  lemma {:induction false} SelectedPrimaryKey(s: seq<Entity>, rel: string, links: seq<Link>, name: string)
    requires LinkPass(s, rel, links, 0, PrimaryKey(None, name)).Ok?
    ensures var out := LinkPass(s, rel, links, 0, PrimaryKey(None, name)).value;
      && (out.pk.pointsTo.None? <==> forall k :: 0 <= k < |links| ==> !KeyEligible(links[k]))
      && (out.pk.pointsTo.Some? ==>
           && (forall k, u: nat :: 0 <= k < |links| && CandidateTo(s, links[k], u) ==> KeyLe(s[out.pk.pointsTo.value], s[u]))
           && exists m :: 0 <= m < |links| && KeyEligible(links[m]) && KeyIsLink(out.pk, out.links[m]))
  {
    var pk := PrimaryKey(None, name);
    var out := LinkPass(s, rel, links, 0, pk).value;
    LinkPassOkIff(s, rel, links, 0, pk);
    LinkPassLinks(s, rel, links, 0, pk);
    LinkPassKeyFold(s, rel, links, 0, pk);
    KeyFoldNone(s, links, 0, pk);
    if out.pk.pointsTo.Some? {
      KeyFoldBest(s, links, 0, pk);
      KeyFoldName(s, links, 0, pk);
      var t := out.pk.pointsTo.value;
      var m := LastCandidateTo(s, links, 0, t).value;
      assert out.links[m] == ResolvedLink(s, links[m]);
      assert KeyIsLink(out.pk, out.links[m]);
    }
  }

  /** The first candidate link before `n` whose target is `t`. */
  function FirstCandidateTo(s: seq<Entity>, links: seq<Link>, n: nat, t: nat): (r: Option<nat>)
    requires n <= |links|
    ensures r.Some? ==> r.value < n && CandidateTo(s, links[r.value], t)
    ensures r.Some? ==> forall k :: 0 <= k < r.value ==> !CandidateTo(s, links[k], t)
    ensures r.None? <==> forall k :: 0 <= k < n ==> !CandidateTo(s, links[k], t)
  {
    if n == 0 then None
    else
      match FirstCandidateTo(s, links, n - 1, t)
      case Some(m) => Some(m)
      case None => if CandidateTo(s, links[n - 1], t) then Some(n - 1) else None
  }

  /** What the key fold keeps of the links before `n`: no key while no link was eligible;
      otherwise a target at least as good as every candidate's, first reached no later
      than any candidate of equal rank. */
  ghost predicate EarliestBest(s: seq<Entity>, links: seq<Link>, n: nat, pk: PrimaryKey)
    requires n <= |links| && PkIn(|s|, pk)
  {
    && (pk.pointsTo.None? ==> forall k :: 0 <= k < n ==> !KeyEligible(links[k]))
    && (pk.pointsTo.Some? ==>
          var t := pk.pointsTo.value;
          var f := FirstCandidateTo(s, links, n, t);
          && f.Some?
          && forall k, u: nat :: 0 <= k < n && CandidateTo(s, links[k], u) ==>
               KeyLe(s[t], s[u]) && (KeyLe(s[u], s[t]) ==> f.value <= k))
  }

  /** One more link keeps EarliestBest. */
  lemma EarliestBestStep(s: seq<Entity>, links: seq<Link>, j: nat, pk: PrimaryKey)
    requires j < |links| && PkIn(|s|, pk) && AllFound(s, links, j)
    requires EarliestBest(s, links, j, pk)
    ensures var u := FindByName(s, links[j].typeName).value;
      EarliestBest(s, links, j + 1, PkStep(s, pk, links[j].(relatedTo := Some(u))))
  {
    var u := FindByName(s, links[j].typeName).value;
    var l1 := links[j].(relatedTo := Some(u));
    var pk1 := PkStep(s, pk, l1);
    if !KeyEligible(links[j]) {
      assert pk1 == pk;
      if pk.pointsTo.Some? {
        var t := pk.pointsTo.value;
        assert !CandidateTo(s, links[j], t);
        assert FirstCandidateTo(s, links, j + 1, t) == FirstCandidateTo(s, links, j, t);
      }
      return;
    }
    PkStepFacts(s, pk, l1, u);
    var p := pk1.pointsTo.value;
    assert CandidateTo(s, links[j], u);
    KeyLeIsTotalPreorder(s[u], s[u], s[u]);
    if pk.pointsTo.None? {
      assert FirstCandidateTo(s, links, j + 1, p) == Some(j);
    } else if p == pk.pointsTo.value {
      assert FirstCandidateTo(s, links, j + 1, p) == FirstCandidateTo(s, links, j, p);
    } else {
      EarliestBestReplaced(s, links, j, pk.pointsTo.value, u);
    }
  }

  /** A link whose target is strictly better than the current one's makes that link the
      first to reach the best target so far. */
  lemma EarliestBestReplaced(s: seq<Entity>, links: seq<Link>, j: nat, t: nat, u: nat)
    requires j < |links| && t < |s| && CandidateTo(s, links[j], u)
    requires KeyLe(s[u], s[t]) && !KeyLe(s[t], s[u])
    requires forall k, v: nat :: 0 <= k < j && CandidateTo(s, links[k], v) ==> KeyLe(s[t], s[v])
    ensures FirstCandidateTo(s, links, j + 1, u) == Some(j)
    ensures forall k, v: nat :: 0 <= k < j + 1 && CandidateTo(s, links[k], v) ==>
              KeyLe(s[u], s[v]) && (KeyLe(s[v], s[u]) ==> j <= k)
  {
    forall k, v: nat | 0 <= k < j && CandidateTo(s, links[k], v)
      ensures KeyLe(s[u], s[v]) && !KeyLe(s[v], s[u])
    {
      KeyLeIsTotalPreorder(s[u], s[t], s[v]);
      KeyLeIsTotalPreorder(s[t], s[v], s[u]);
    }
    KeyLeIsTotalPreorder(s[u], s[u], s[u]);
    assert FirstCandidateTo(s, links, j, u).None?;
  }

  /** The key fold from `j` on keeps EarliestBest to the end of the links. */
  lemma {:induction false} KeyFoldEarliest(s: seq<Entity>, links: seq<Link>, j: nat, pk: PrimaryKey)
    requires j <= |links| && PkIn(|s|, pk) && AllFound(s, links, j)
    requires EarliestBest(s, links, j, pk)
    decreases |links| - j
    ensures EarliestBest(s, links, |links|, KeyFold(s, links, j, pk))
  {
    if j < |links| {
      var u := FindByName(s, links[j].typeName).value;
      EarliestBestStep(s, links, j, pk);
      KeyFoldEarliest(s, links, j + 1, PkStep(s, pk, links[j].(relatedTo := Some(u))));
    }
  }

  /** Ties go to the earliest link: starting from no key, the chosen target is that of the
      first candidate link whose target ranks best, so every candidate link before it has
      a strictly worse target. */
  lemma EarliestBestKeyWins(s: seq<Entity>, rel: string, links: seq<Link>, name: string)
    requires LinkPass(s, rel, links, 0, PrimaryKey(None, name)).Ok?
    ensures var out := LinkPass(s, rel, links, 0, PrimaryKey(None, name)).value;
      out.pk.pointsTo.Some? ==>
        var t := out.pk.pointsTo.value;
        var f := FirstCandidateTo(s, links, |links|, t);
        && f.Some?
        && (forall k, u: nat :: 0 <= k < f.value && CandidateTo(s, links[k], u) ==> !KeyLe(s[u], s[t]))
        && (forall k, u: nat :: 0 <= k < |links| && CandidateTo(s, links[k], u) && KeyLe(s[u], s[t]) ==> f.value <= k)
  {
    var pk := PrimaryKey(None, name);
    LinkPassOkIff(s, rel, links, 0, pk);
    LinkPassKeyFold(s, rel, links, 0, pk);
    KeyFoldEarliest(s, links, 0, pk);
  }

  // ---------------------------------------------------------------------
  // Forced keys

  /** A forced key is found exactly when some eligible link has the forced name, and then
      the key is the last such link. */
  lemma {:induction false} ForcePassFinds(links: seq<Link>, force: string, j: nat, pk: PrimaryKey)
    requires j <= |links|
    decreases |links| - j
    ensures var r := ForcePass(links, force, j, pk, false);
      && (r.forced <==> exists k :: j <= k < |links| && links[k].propertyName == force && KeyEligible(links[k]))
      && (r.forced ==> exists k :: j <= k < |links| && KeyEligible(links[k]) && KeyIsLink(r.pk, links[k]))
      && (!r.forced ==> r.pk == pk)
  {
    if j < |links| {
      var l := links[j];
      if l.propertyName == force && KeyEligible(l) {
        var pk1 := PrimaryKey(l.relatedTo, l.propertyName);
        ForcePassFinds(links, force, j + 1, pk1);
        ForcePassStaysForced(links, force, j + 1, pk1);
        var r := ForcePass(links, force, j + 1, pk1, true);
        if ForcePass(links, force, j + 1, pk1, false).forced {
          assert r == ForcePass(links, force, j + 1, pk1, false);
        } else {
          assert r.pk == pk1 && KeyIsLink(r.pk, links[j]);
        }
      } else {
        ForcePassFinds(links, force, j + 1, pk);
      }
    }
  }

  /** Once a key has been forced, the rest of the loop behaves as if from an unforced
      start whenever it finds another match, and keeps the key otherwise. */
  lemma {:induction false} ForcePassStaysForced(links: seq<Link>, force: string, j: nat, pk: PrimaryKey)
    requires j <= |links|
    decreases |links| - j
    ensures ForcePass(links, force, j, pk, true).forced
    ensures ForcePass(links, force, j, pk, false).forced ==>
              ForcePass(links, force, j, pk, true) == ForcePass(links, force, j, pk, false)
    ensures !ForcePass(links, force, j, pk, false).forced ==> ForcePass(links, force, j, pk, true).pk == pk
  {
    if j < |links| {
      var l := links[j];
      if l.propertyName == force && KeyEligible(l) {
        ForcePassStaysForced(links, force, j + 1, PrimaryKey(l.relatedTo, l.propertyName));
      } else {
        ForcePassStaysForced(links, force, j + 1, pk);
      }
    }
  }

  // ---------------------------------------------------------------------
  // Reverse links

  /** The reverse links that links `j` onwards of relationship `rel` register on entity `t`. */
  function ReverseEntries(s: seq<Entity>, name: string, rel: nat, links: seq<Link>, j: nat, t: nat): seq<InRelation>
    requires j <= |links|
    decreases |links| - j
  {
    if j == |links| then []
    else
      (if links[j].index != Unindexed && FindByName(s, links[j].typeName) == Some(t)
       then [InRelation(name, rel, j)] else [])
      + ReverseEntries(s, name, rel, links, j + 1, t)
  }

  /** The links `links` are `orig` resolved against `s0`, as far as reverse links go. */
  predicate ResolvedFrom(s0: seq<Entity>, orig: seq<Link>, links: seq<Link>)
  {
    |links| == |orig| &&
    forall k :: 0 <= k < |links| ==>
      links[k].index == orig[k].index && links[k].relatedTo == FindByName(s0, orig[k].typeName)
  }

  lemma PushAt(s: seq<Entity>, t0: nat, name: string, rel: nat, j: nat, t: nat)
    requires t0 < |s| && t < |s|
    ensures Push(s, t0, name, rel, j)[t].relationshipsInvolvedIn
              == s[t].relationshipsInvolvedIn + (if t0 == t then [InRelation(name, rel, j)] else [])
  {
  }

  lemma {:induction false} RegisterAppendsAt(s0: seq<Entity>, s: seq<Entity>, rel: nat, name: string,
                                             orig: seq<Link>, links: seq<Link>, j: nat, t: nat)
    requires j <= |links| && t < |s| && forall k :: 0 <= k < |links| ==> Resolved(|s|, links[k])
    requires ResolvedFrom(s0, orig, links)
    decreases |links| - j
    ensures Register(s, rel, name, links, j)[t].relationshipsInvolvedIn
              == s[t].relationshipsInvolvedIn + ReverseEntries(s0, name, rel, orig, j, t)
  {
    if j < |links| {
      var here := if orig[j].index != Unindexed && FindByName(s0, orig[j].typeName) == Some(t)
                  then [InRelation(name, rel, j)] else [];
      var rest := ReverseEntries(s0, name, rel, orig, j + 1, t);
      assert Resolved(|s|, links[j]);
      var s' := if links[j].index != Unindexed then Push(s, links[j].relatedTo.value, name, rel, j) else s;
      assert s'[t].relationshipsInvolvedIn == s[t].relationshipsInvolvedIn + here by {
        assert links[j].index == orig[j].index && links[j].relatedTo == FindByName(s0, orig[j].typeName);
        if links[j].index != Unindexed {
          PushAt(s, links[j].relatedTo.value, name, rel, j, t);
        }
      }
      assert Register(s, rel, name, links, j) == Register(s', rel, name, links, j + 1);
      RegisterAppendsAt(s0, s', rel, name, orig, links, j + 1, t);
      assert ReverseEntries(s0, name, rel, orig, j, t) == here + rest;
      ConcatAssoc(s[t].relationshipsInvolvedIn, here, rest);
    }
  }

  /** Registering appends to every target exactly its reverse links, in link order. */
  lemma RegisterAppends(s0: seq<Entity>, s: seq<Entity>, rel: nat, name: string, orig: seq<Link>, links: seq<Link>)
    requires forall k :: 0 <= k < |links| ==> Resolved(|s|, links[k])
    requires ResolvedFrom(s0, orig, links)
    ensures forall t :: 0 <= t < |s| ==>
              Register(s, rel, name, links, 0)[t].relationshipsInvolvedIn
                == s[t].relationshipsInvolvedIn + ReverseEntries(s0, name, rel, orig, 0, t)
  {
    forall t | 0 <= t < |s|
      ensures Register(s, rel, name, links, 0)[t].relationshipsInvolvedIn
                == s[t].relationshipsInvolvedIn + ReverseEntries(s0, name, rel, orig, 0, t)
    {
      RegisterAppendsAt(s0, s, rel, name, orig, links, 0, t);
    }
  }

  // ---------------------------------------------------------------------
  // One relationship

  /** The fields this pass reads as a key source, and the key itself. */
  function KeyFields(e: Entity): (string, bool, StorageType, nat, bool, PrimaryKey)
  {
    (e.name, e.isRelationship, e.storeType, e.size, e.isExpandable, e.primaryKey)
  }

  /** A relationship that, after the pass, has what its lifecycle needs: either a key with
      contiguous storage, or no key and a storage type that can delete. */
  predicate HasKeyOrDeletePath(e: Entity)
  {
    if e.primaryKey.pointsTo.Some? then e.storeType == Contiguous
    else e.storeType == Erasable || e.storeType == Compactable
  }

  /** The key of relationship `i` after the link loop and the forced key. */
  function ChosenKey(s: seq<Entity>, i: nat): PrimaryKey
    requires i < |s| && Indexed(s) && LinkPass(s, s[i].name, s[i].links, 0, s[i].primaryKey).Ok?
  {
    var lp := LinkPass(s, s[i].name, s[i].links, 0, s[i].primaryKey).value;
    ForceStep(lp.links, s[i].forcePk, lp.pk).pk
  }

  /** Attaching resolved links and a key to relationship `i` leaves every other entity as
      it was except for the reverse links it gains, gives every entity exactly the reverse
      links of the indexed links that target it, keeps `i`'s name and role, stores the key,
      marks the links equal to it, and leaves `i` either keyed with contiguous storage and
      the key target's size and expandability, or unkeyed with its own delete-capable
      storage. */
  lemma {:induction false} AttachEffect(s: seq<Entity>, i: nat, links: seq<Link>, pk: PrimaryKey)
    requires i < |s| && Indexed(s) && PkIn(|s|, pk) && s[i].isRelationship
    requires forall k :: 0 <= k < |links| ==> Resolved(|s|, links[k])
    requires ResolvedFrom(s, s[i].links, links)
    requires Attach(s, i, links, pk).Ok?
    ensures var s' := Attach(s, i, links, pk).value;
      && (forall k :: 0 <= k < |s| && k != i ==>
            s'[k] == s[k].(relationshipsInvolvedIn := s'[k].relationshipsInvolvedIn))
      && (forall t :: 0 <= t < |s| ==>
            s'[t].relationshipsInvolvedIn == s[t].relationshipsInvolvedIn + ReverseEntries(s, s[i].name, i, s[i].links, 0, t))
      && s'[i].name == s[i].name && s'[i].isRelationship && s'[i].primaryKey == pk
      && |s'[i].links| == |links|
      && (forall m :: 0 <= m < |links| ==>
            s'[i].links[m] == links[m].(isPrimaryKey := links[m].isPrimaryKey || KeyIsLink(pk, links[m])))
      && HasKeyOrDeletePath(s'[i])
      && (pk.pointsTo.Some? ==>
            s'[i].size == s[pk.pointsTo.value].size && s'[i].isExpandable == s[pk.pointsTo.value].isExpandable)
      && (pk.pointsTo.None? ==> s'[i].storeType == s[i].storeType && s'[i].size == s[i].size)
  {
    var r := s[i];
    var s1 := s[i := r.(links := links, primaryKey := pk)];
    var s2 := Register(s1, i, r.name, links, 0);
    RegisterAppends(s, s1, i, r.name, r.links, links);
    assert s2[i].links == links && s2[i].primaryKey == pk;
    if pk.pointsTo.Some? {
      MarkPassKeeps(links, pk, 0);
    }
  }

  /** Patching up relationship `i` is attaching its resolved links and its chosen key. */
  lemma {:induction false} ResolveOneAttaches(s: seq<Entity>, i: nat)
    requires i < |s| && Indexed(s) && s[i].isRelationship
    requires ResolveOne(s, i).Ok?
    ensures LinkPass(s, s[i].name, s[i].links, 0, s[i].primaryKey).Ok?
    ensures var lp := LinkPass(s, s[i].name, s[i].links, 0, s[i].primaryKey).value;
      && |lp.links| == |s[i].links| > 0
      && (forall m :: 0 <= m < |lp.links| ==> lp.links[m] == ResolvedLink(s, s[i].links[m]))
      && ResolvedFrom(s, s[i].links, lp.links)
      && PkIn(|s|, ChosenKey(s, i))
      && ForceStep(lp.links, s[i].forcePk, lp.pk).forced
      && ResolveOne(s, i) == Attach(s, i, lp.links, ChosenKey(s, i))
  {
    var r := s[i];
    LinkPassLinks(s, r.name, r.links, 0, r.primaryKey);
    var lp := LinkPass(s, r.name, r.links, 0, r.primaryKey).value;
    ForcedKeyIn(lp.links, r.forcePk, lp.pk, |s|);
  }

  /** Patching up relationship `i`, as a whole: AttachEffect applied to the resolved links
      and the chosen key. */
  lemma {:induction false} ResolveOneEffect(s: seq<Entity>, i: nat)
    requires i < |s| && Indexed(s) && s[i].isRelationship
    requires ResolveOne(s, i).Ok?
    ensures var s' := ResolveOne(s, i).value;
      && (forall k :: 0 <= k < |s| && k != i ==>
            s'[k] == s[k].(relationshipsInvolvedIn := s'[k].relationshipsInvolvedIn))
      && s'[i].name == s[i].name && s'[i].isRelationship
      && (forall t :: 0 <= t < |s| ==>
            s'[t].relationshipsInvolvedIn == s[t].relationshipsInvolvedIn + ReverseEntries(s, s[i].name, i, s[i].links, 0, t))
      && |s'[i].links| == |s[i].links| > 0
      && s'[i].primaryKey == ChosenKey(s, i)
      && (forall m :: 0 <= m < |s[i].links| ==>
            s'[i].links[m] == ResolvedLink(s, s[i].links[m]).(isPrimaryKey :=
              s[i].links[m].isPrimaryKey || KeyIsLink(s'[i].primaryKey, ResolvedLink(s, s[i].links[m]))))
      && HasKeyOrDeletePath(s'[i])
      && (s'[i].primaryKey.pointsTo.Some? ==>
            var t := s'[i].primaryKey.pointsTo.value;
            s'[i].size == s[t].size && s'[i].isExpandable == s[t].isExpandable)
      && (s'[i].primaryKey.pointsTo.None? ==> s'[i].storeType == s[i].storeType && s'[i].size == s[i].size)
  {
    ResolveOneAttaches(s, i);
    var lp := LinkPass(s, s[i].name, s[i].links, 0, s[i].primaryKey).value;
    AttachEffect(s, i, lp.links, ChosenKey(s, i));
  }

  /** Starting from the parsed state (no key yet), a chosen key is one of the eligible
      links, resolved: the forced one when a key is forced, else the selected one. */
  lemma {:induction false} ChosenKeyIsALink(s: seq<Entity>, i: nat)
    requires i < |s| && Indexed(s) && s[i].primaryKey.pointsTo.None?
    requires LinkPass(s, s[i].name, s[i].links, 0, s[i].primaryKey).Ok?
    requires var lp := LinkPass(s, s[i].name, s[i].links, 0, s[i].primaryKey).value;
      ForceStep(lp.links, s[i].forcePk, lp.pk).forced
    requires ChosenKey(s, i).pointsTo.Some?
    ensures exists m :: 0 <= m < |s[i].links| && KeyEligible(s[i].links[m])
                        && KeyIsLink(ChosenKey(s, i), ResolvedLink(s, s[i].links[m]))
  {
    var r := s[i];
    var lp := LinkPass(s, r.name, r.links, 0, r.primaryKey).value;
    LinkPassLinks(s, r.name, r.links, 0, r.primaryKey);
    if |r.forcePk| > 0 {
      ForcePassFinds(lp.links, r.forcePk, 0, lp.pk);
      var k :| 0 <= k < |lp.links| && KeyEligible(lp.links[k]) && KeyIsLink(ChosenKey(s, i), lp.links[k]);
      assert lp.links[k] == ResolvedLink(s, r.links[k]);
    } else {
      assert r.primaryKey == PrimaryKey(None, r.primaryKey.propertyName);
      SelectedPrimaryKey(s, r.name, r.links, r.primaryKey.propertyName);
      var k :| 0 <= k < |r.links| && KeyEligible(r.links[k]) && KeyIsLink(lp.pk, lp.links[k]);
      assert lp.links[k] == ResolvedLink(s, r.links[k]);
    }
  }

  /** Starting from the parsed state (no key yet), a relationship that gets a key has a
      link that is that key, and that link is marked as the primary key. */
  lemma {:induction false} KeyLinkIsMarked(s: seq<Entity>, i: nat)
    requires i < |s| && Indexed(s) && s[i].isRelationship && s[i].primaryKey.pointsTo.None?
    requires ResolveOne(s, i).Ok? && ResolveOne(s, i).value[i].primaryKey.pointsTo.Some?
    ensures var e := ResolveOne(s, i).value[i];
      exists m :: 0 <= m < |e.links| && KeyEligible(e.links[m]) && e.links[m].isPrimaryKey && KeyIsLink(e.primaryKey, e.links[m])
  {
    var e := ResolveOne(s, i).value[i];
    ResolveOneAttaches(s, i);
    ResolveOneEffect(s, i);
    ChosenKeyIsALink(s, i);
    var m :| 0 <= m < |s[i].links| && KeyEligible(s[i].links[m])
             && KeyIsLink(ChosenKey(s, i), ResolvedLink(s, s[i].links[m]));
    assert e.links[m].isPrimaryKey && KeyIsLink(e.primaryKey, e.links[m]);
  }

  /** A relationship with no links is rejected as between too few objects. */
  lemma EmptyRelationshipRejected(s: seq<Entity>, i: nat)
    requires i < |s| && Indexed(s) && s[i].isRelationship && s[i].links == []
    ensures ResolveOne(s, i) == Err(TooFewObjects(s[i].name))
  {
  }

  /** A forced key that names no eligible link is rejected. */
  lemma {:induction false} UnusableForcedKeyRejected(s: seq<Entity>, i: nat)
    requires i < |s| && Indexed(s) && s[i].isRelationship && |s[i].links| > 0
    requires forall k :: 0 <= k < |s[i].links| ==> LinkAccepted(s, s[i].links[k])
    requires |s[i].forcePk| > 0
    requires forall k :: 0 <= k < |s[i].links| ==> !(s[i].links[k].propertyName == s[i].forcePk && KeyEligible(s[i].links[k]))
    ensures ResolveOne(s, i) == Err(UnusableForcedKey(s[i].forcePk, s[i].name))
  {
    var r := s[i];
    LinkPassOkIff(s, r.name, r.links, 0, r.primaryKey);
    LinkPassLinks(s, r.name, r.links, 0, r.primaryKey);
    var lp := LinkPass(s, r.name, r.links, 0, r.primaryKey).value;
    ForcePassFinds(lp.links, r.forcePk, 0, lp.pk);
    forall k | 0 <= k < |lp.links|
      ensures !(lp.links[k].propertyName == r.forcePk && KeyEligible(lp.links[k]))
    {
      assert lp.links[k] == ResolvedLink(s, r.links[k]);
    }
  }

  /** A relationship with no eligible link, no forced key and contiguous storage has no
      delete function and is rejected. */
  lemma {:induction false} MissingDeletePathRejected(s: seq<Entity>, i: nat)
    requires i < |s| && Indexed(s) && s[i].isRelationship && |s[i].links| > 0
    requires s[i].primaryKey.pointsTo.None? && s[i].forcePk == "" && s[i].storeType == Contiguous
    requires forall k :: 0 <= k < |s[i].links| ==> LinkAccepted(s, s[i].links[k]) && !KeyEligible(s[i].links[k])
    ensures ResolveOne(s, i) == Err(NoDeletePath(s[i].name))
  {
    var r := s[i];
    LinkPassOkIff(s, r.name, r.links, 0, r.primaryKey);
    LinkPassLinks(s, r.name, r.links, 0, r.primaryKey);
    LinkPassKeyFold(s, r.name, r.links, 0, r.primaryKey);
    KeyFoldNone(s, r.links, 0, r.primaryKey);
    var lp := LinkPass(s, r.name, r.links, 0, r.primaryKey).value;
    var s1 := s[i := r.(links := lp.links, primaryKey := lp.pk)];
    assert Register(s1, i, r.name, lp.links, 0)[i].storeType == Contiguous;
  }

  // ---------------------------------------------------------------------
  // The whole pass

  /** What the whole pass needs of one patch-up step, in terms of key fields. */
  lemma ResolveOneKeyFields(s: seq<Entity>, i: nat)
    requires i < |s| && Indexed(s) && s[i].isRelationship && ResolveOne(s, i).Ok?
    ensures var s' := ResolveOne(s, i).value;
      && (forall k :: 0 <= k < |s| && k != i ==> KeyFields(s'[k]) == KeyFields(s[k]))
      && s'[i].name == s[i].name && s'[i].isRelationship
      && HasKeyOrDeletePath(s'[i])
      && (s'[i].primaryKey.pointsTo.Some? ==>
            s'[i].size == s[s'[i].primaryKey.pointsTo.value].size
            && s'[i].isExpandable == s[s'[i].primaryKey.pointsTo.value].isExpandable)
  {
    ResolveOneEffect(s, i);
  }

  /** The whole pass from entity `i` on changes no name and no role. */
  lemma {:induction false} ResolveAllKeepsNames(s: seq<Entity>, i: nat)
    requires i <= |s| && Indexed(s) && ResolveAll(s, i).Ok?
    decreases |s| - i
    ensures var f := ResolveAll(s, i).value;
      forall k :: 0 <= k < |s| ==> f[k].name == s[k].name && f[k].isRelationship == s[k].isRelationship
  {
    if i < |s| {
      if !s[i].isRelationship {
        assert ResolveAll(s, i) == ResolveAll(s, i + 1);
        ResolveAllKeepsNames(s, i + 1);
      } else {
        var s' := ResolveOne(s, i).value;
        assert ResolveAll(s, i) == ResolveAll(s', i + 1);
        ResolveOneKeyFields(s, i);
        ResolveAllKeepsNames(s', i + 1);
      }
    }
  }

  /** The whole pass from entity `i` on changes no key field of an entity before `i` or of
      a plain entity. */
  lemma {:induction false} ResolveAllFrame(s: seq<Entity>, i: nat)
    requires i <= |s| && Indexed(s) && ResolveAll(s, i).Ok?
    decreases |s| - i
    ensures var f := ResolveAll(s, i).value;
      forall k :: 0 <= k < |s| && (k < i || !s[k].isRelationship) ==> KeyFields(f[k]) == KeyFields(s[k])
  {
    if i < |s| {
      if !s[i].isRelationship {
        assert ResolveAll(s, i) == ResolveAll(s, i + 1);
        ResolveAllFrame(s, i + 1);
      } else {
        var s' := ResolveOne(s, i).value;
        assert ResolveAll(s, i) == ResolveAll(s', i + 1);
        ResolveOneKeyFields(s, i);
        ResolveAllFrame(s', i + 1);
      }
    }
  }

  /** After the pass from entity `i` on, every relationship from `i` on has a key with
      contiguous storage or a delete-capable storage type, and one keyed by a plain entity
      has that entity's size and expandability. */
  lemma {:induction false} ResolveAllEffect(s: seq<Entity>, i: nat)
    requires i <= |s| && Indexed(s) && ResolveAll(s, i).Ok?
    decreases |s| - i
    ensures var f := ResolveAll(s, i).value;
      && (forall k :: i <= k < |s| && s[k].isRelationship ==> HasKeyOrDeletePath(f[k]))
      && (forall k, t :: (i <= k < |s| && s[k].isRelationship && f[k].primaryKey.pointsTo == Some(t)
                          && t < |s| && !f[t].isRelationship) ==>
              f[k].size == f[t].size && f[k].isExpandable == f[t].isExpandable)
  {
    if i == |s| {
      return;
    }
    if !s[i].isRelationship {
      ResolveAllEffect(s, i + 1);
      return;
    }
    var s' := ResolveOne(s, i).value;
    var f := ResolveAll(s', i + 1).value;
    assert ResolveAll(s, i).value == f;
    ResolveOneKeyFields(s, i);
    ResolveAllFrame(s', i + 1);
    ResolveAllKeepsNames(s', i + 1);
    ResolveAllEffect(s', i + 1);
    assert KeyFields(f[i]) == KeyFields(s'[i]);
    forall t | t < |s| && f[i].primaryKey.pointsTo == Some(t) && !f[t].isRelationship
      ensures f[i].size == f[t].size && f[i].isExpandable == f[t].isExpandable
    {
      assert KeyFields(f[t]) == KeyFields(s'[t]);
      assert KeyFields(s'[t]) == KeyFields(s[t]);
    }
  }

  /** The guarantees of the whole pass over a parsed schema. */
  lemma ResolvedSchema(s: seq<Entity>)
    requires Indexed(s) && ResolveAll(s, 0).Ok?
    ensures var f := ResolveAll(s, 0).value;
      && |f| == |s|
      && (forall k :: 0 <= k < |s| ==> f[k].name == s[k].name && f[k].isRelationship == s[k].isRelationship)
      && (forall k :: 0 <= k < |s| && f[k].isRelationship ==> HasKeyOrDeletePath(f[k]))
      && (forall k, t :: (0 <= k < |s| && f[k].isRelationship && f[k].primaryKey.pointsTo == Some(t)
                          && t < |s| && !f[t].isRelationship) ==>
              f[k].size == f[t].size && f[k].isExpandable == f[t].isExpandable)
  {
    ResolveAllKeepsNames(s, 0);
    ResolveAllEffect(s, 0);
  }
}
