/**
 * The preference between two candidate sources of a relationship's primary
 * key (better_primary_key), and the lexicographic order it implements.
 */
module PrimaryKeys {
  import opened Schema

  /** How much a storage type is preferred as a key source: smaller is better. */
  function StoreRank(t: StorageType): (r: nat)
    ensures r < 3
    ensures t == Contiguous <==> r == 0
    ensures t == Erasable <==> r == 1
  {
    match t
    case Contiguous => 0
    case Erasable => 1
    case Compactable => 2
  }

  /** The reference order: `a` is at least as good a key source as `b` when it is
      bounded and `b` is not, or, with equal expandability, when its storage type ranks
      better, or, with the same rank too, when its size is not larger. */
  predicate KeyLe(a: Entity, b: Entity)
  {
    || (!a.isExpandable && b.isExpandable)
    || (a.isExpandable == b.isExpandable &&
        (|| StoreRank(a.storeType) < StoreRank(b.storeType)
         || (StoreRank(a.storeType) == StoreRank(b.storeType) && a.size <= b.size)))
  }

  lemma KeyLeIsTotalPreorder(a: Entity, b: Entity, c: Entity)
    ensures KeyLe(a, a)
    ensures KeyLe(a, b) || KeyLe(b, a)
    ensures KeyLe(a, b) && KeyLe(b, c) ==> KeyLe(a, c)
  {
  }

  /** The better of the current key target `oldr` (None for no key yet) and a new
      candidate `newr`, both indices into `s`. */
  function BetterPrimaryKey(s: seq<Entity>, oldr: Option<nat>, newr: nat): (r: nat)
    requires newr < |s| && (oldr.Some? ==> oldr.value < |s|)
    ensures oldr.None? ==> r == newr
    ensures r == newr || oldr == Some(r)
    ensures oldr.Some? ==> r == if KeyLe(s[oldr.value], s[newr]) then oldr.value else newr
  {
    if oldr.None? then newr
    else
      var o, n := s[oldr.value], s[newr];
      if o.isExpandable && !n.isExpandable then newr
      else if !o.isExpandable && n.isExpandable then oldr.value
      else
        match o.storeType
        case Contiguous =>
          (match n.storeType
           case Contiguous => if o.size <= n.size then oldr.value else newr
           case Compactable => oldr.value
           case Erasable => oldr.value)
        case Erasable =>
          (match n.storeType
           case Contiguous => newr
           case Erasable => if o.size <= n.size then oldr.value else newr
           case Compactable => oldr.value)
        case Compactable =>
          (match n.storeType
           case Contiguous => newr
           case Erasable => newr
           case Compactable => if o.size <= n.size then oldr.value else newr)
  }

  /** A bounded candidate beats an expandable one, whichever comes first. */
  lemma BoundedBeatsExpandable(s: seq<Entity>, o: nat, n: nat)
    requires o < |s| && n < |s| && s[o].isExpandable != s[n].isExpandable
    ensures BetterPrimaryKey(s, Some(o), n) == (if s[o].isExpandable then n else o)
  {
  }

  /** With equal expandability, contiguous beats erasable, which beats compactable. */
  lemma StorageDecides(s: seq<Entity>, o: nat, n: nat)
    requires o < |s| && n < |s| && s[o].isExpandable == s[n].isExpandable
    requires s[o].storeType != s[n].storeType
    ensures BetterPrimaryKey(s, Some(o), n) ==
              (if StoreRank(s[o].storeType) < StoreRank(s[n].storeType) then o else n)
  {
  }

  /** With the same expandability and storage type the smaller size wins; a tie keeps
      the current key. */
  lemma SizeDecides(s: seq<Entity>, o: nat, n: nat)
    requires o < |s| && n < |s| && s[o].isExpandable == s[n].isExpandable
    requires s[o].storeType == s[n].storeType
    ensures BetterPrimaryKey(s, Some(o), n) == (if s[o].size <= s[n].size then o else n)
  {
  }
}
