// The tag registry and the outfit list of src/modules/wardrobe/outfits.ts.
// Both are arrays the operations change in place; the outfits in the list
// are objects, which deleteOutfit finds by identity and unregisterTag and
// addTagToOutfit update in place.

module Outfits {
  import opened Results
  import opened Schema
  import Utf8

  /** A registered tag: its label (name) and whether the query selects it. */
  datatype QueryTag = QueryTag(name: string, checked: bool)

  datatype RegisterTagError = TooLong | AlreadyExists | LimitExceeded

  datatype AddTagError = TagLimitExceeded | TagAlreadyExists | RegistryError(error: RegisterTagError)

  datatype UnregisterTagError = DoesntExist

  datatype SortType = DateCreated | LastModified | LastUsed | Alphabetical

  datatype SortOrder = Ascending | Descending

  datatype TagQueryMode = And | Or

  /** The part of an asset sent to the avatar API: its id only. */
  datatype AccessoryAsset = AccessoryAsset(id: int)

  /** An outfit object of the list. Its thumbnail URL is not modelled. */
  class LoadedOutfit {
    var data: Outfit

    constructor (data: Outfit)
      ensures this.data == data
    {
      this.data := data;
    }
  }

  /** The tag registry, the QueryTag[] array; a tag id is an index into
      it. */
  class Registry {
    var tags: seq<QueryTag>

    constructor (tags: seq<QueryTag>)
      ensures this.tags == tags
    {
      this.tags := tags;
    }
  }

  /** The outfit list, the LoadedOutfit[] array. */
  class OutfitList {
    var items: seq<LoadedOutfit>

    constructor (items: seq<LoadedOutfit>)
      ensures this.items == items
    {
      this.items := items;
    }

    /** No object is in the list twice: every operation that adds one adds
        a new object. */
    ghost predicate Valid()
      reads this
    {
      Distinct(items)
    }
  }

  ghost predicate Distinct<T>(s: seq<T>)
  {
    forall i, j :: 0 <= i < j < |s| ==> s[i] != s[j]
  }

  // ---- Array helpers ----

  /** Array.prototype.indexOf: the first index holding x, or -1. */
  function IndexOf<T(==)>(s: seq<T>, x: T): (r: int)
    ensures r == -1 <==> x !in s
    ensures r != -1 ==> 0 <= r < |s| && s[r] == x && x !in s[..r]
    decreases |s|
  {
    if s == [] then -1
    else if s[0] == x then 0
    else
      var r := IndexOf(s[1..], x);
      assert s[1..][..(if r == -1 then 0 else r)] == s[1..(if r == -1 then 1 else r + 1)];
      if r == -1 then -1 else r + 1
  }

  /** splice(i, 1): the element at index i removed. */
  function RemoveAt<T>(s: seq<T>, i: nat): (r: seq<T>)
    requires i < |s|
    ensures |r| == |s| - 1
    ensures forall k :: 0 <= k < i ==> r[k] == s[k]
    ensures forall k :: i <= k < |r| ==> r[k] == s[k + 1]
  {
    s[..i] + s[i + 1..]
  }

  /** tags.findIndex(t => t.label === tagName): the first tag with that
      label, or -1. */
  function FindLabel(tags: seq<QueryTag>, tagName: string): (r: int)
    ensures r == -1 <==> forall k :: 0 <= k < |tags| ==> tags[k].name != tagName
    ensures r != -1 ==> 0 <= r < |tags| && tags[r].name == tagName
                        && forall k :: 0 <= k < r ==> tags[k].name != tagName
    decreases |tags|
  {
    if tags == [] then -1
    else if tags[0].name == tagName then 0
    else
      var r := FindLabel(tags[1..], tagName);
      if r == -1 then -1 else r + 1
  }

  /** Removing the first occurrence of an element from a list without
      repeats leaves none. */
  lemma {:induction false} RemoveDistinct<T>(s: seq<T>, x: T)
    requires Distinct(s) && x in s
    ensures x !in RemoveAt(s, IndexOf(s, x)) && Distinct(RemoveAt(s, IndexOf(s, x)))
  {
    var i := IndexOf(s, x);
    var r := RemoveAt(s, i);
    forall k | 0 <= k < |r|
      ensures r[k] != x
    {
      if k >= i {
        assert r[k] == s[k + 1];
      }
    }
    forall p, q | 0 <= p < q < |r|
      ensures r[p] != r[q]
    {
      var p', q' := if p < i then p else p + 1, if q < i then q else q + 1;
      assert r[p] == s[p'] && r[q] == s[q'];
    }
  }

  // ---- Tags ----

  /** registerTag: TooLong for more than 255 UTF-16 code units, checked
      first; LimitExceeded when 255 tags are registered; otherwise the tag,
      unchecked, appended at id = the old length. Labels may repeat. */
  method RegisterTag(registry: Registry, name: string) returns (r: Outcome<nat, RegisterTagError>)
    modifies registry
    ensures Utf8.Utf16Length(name) > 255 ==> r == Failure(TooLong) && registry.tags == old(registry.tags)
    ensures Utf8.Utf16Length(name) <= 255 && |old(registry.tags)| >= 255
            ==> r == Failure(LimitExceeded) && registry.tags == old(registry.tags)
    ensures Utf8.Utf16Length(name) <= 255 && |old(registry.tags)| < 255
            ==> r == Success(|old(registry.tags)|)
                && registry.tags == old(registry.tags) + [QueryTag(name, false)]
    ensures r.Success? ==> r.value < |registry.tags| && registry.tags[r.value] == QueryTag(name, false)
  {
    if Utf8.Utf16Length(name) > 255 {
      return Failure(TooLong);
    }
    var id := |registry.tags|;
    if id >= 255 {
      return Failure(LimitExceeded);
    }
    registry.tags := registry.tags + [QueryTag(name, false)];
    return Success(id);
  }

  /** An outfit after unregisterTag: the first occurrence of the id taken
      out of its tags and modified set to now, when it has the id. */
  function Unassociate(o: Outfit, tagId: int, now: int): (r: Outfit)
    ensures multiset(r.tags) == multiset(o.tags) - multiset{tagId}
    ensures r.modified == (if tagId in o.tags then now else o.modified)
    ensures r.(tags := o.tags, modified := o.modified) == o
  {
    var i := IndexOf(o.tags, tagId);
    if i == -1 then o
    else
      assert o.tags == o.tags[..i] + [tagId] + o.tags[i + 1..];
      o.(tags := RemoveAt(o.tags, i), modified := now)
  }

  /** The loop body of unregisterTag for one outfit. */
  method Dissociate(outfit: LoadedOutfit, tagId: int, now: int)
    modifies outfit
    ensures outfit.data == Unassociate(old(outfit.data), tagId, now)
  {
    var index := IndexOf(outfit.data.tags, tagId);
    if index != -1 {
      outfit.data := outfit.data.(tags := RemoveAt(outfit.data.tags, index), modified := now);
    }
  }

  /** The loop of unregisterTag over the outfit list. */
  method DissociateAll(items: seq<LoadedOutfit>, tagId: int, now: int)
    requires Distinct(items)
    modifies items
    ensures forall k :: 0 <= k < |items| ==> items[k].data == Unassociate(old(items[k].data), tagId, now)
  {
    for i := 0 to |items|
      invariant forall k :: 0 <= k < |items| ==>
                  items[k].data == if k < i then Unassociate(old(items[k].data), tagId, now) else old(items[k].data)
    {
      Dissociate(items[i], tagId, now);
      assert forall k :: 0 <= k < |items| && k != i ==> items[k] != items[i];
    }
  }

  /** unregisterTag: DoesntExist when there is no tag with that id;
      otherwise the tag is taken out of every outfit that has it and out
      of the registry. The other ids are not renumbered. */
  method UnregisterTag(list: OutfitList, registry: Registry, tagId: int, now: int)
    returns (r: Outcome<(), UnregisterTagError>)
    requires list.Valid()
    modifies registry, list.items
    ensures !(0 <= tagId < |old(registry.tags)|) ==> r == Failure(DoesntExist)
    ensures !(0 <= tagId < |old(registry.tags)|)
            ==> registry.tags == old(registry.tags)
                && forall k :: 0 <= k < |list.items| ==> list.items[k].data == old(list.items[k].data)
    ensures 0 <= tagId < |old(registry.tags)|
            ==> r == Success(()) && registry.tags == RemoveAt(old(registry.tags), tagId)
    ensures 0 <= tagId < |old(registry.tags)|
            ==> forall k :: 0 <= k < |list.items| ==> list.items[k].data == Unassociate(old(list.items[k].data), tagId, now)
  {
    if !(0 <= tagId < |registry.tags|) {
      return Failure(DoesntExist);
    }
    DissociateAll(list.items, tagId, now);
    registry.tags := RemoveAt(registry.tags, tagId);
    return Success(());
  }

  /** The ids of an outfit after a corrected unregisterTag: the ids above
      the removed one move down with the registry entries they name. */
  function Renumbered(ids: seq<int>, tagId: int): (r: seq<int>)
    ensures |r| == |ids|
  {
    seq(|ids|, k requires 0 <= k < |ids| => if ids[k] > tagId then ids[k] - 1 else ids[k])
  }

  /** With the renumbering, every id left on an outfit names the same tag
      in the shortened registry as it named before. */
  lemma {:induction false} RenumberKeepsLabels(tags: seq<QueryTag>, ids: seq<int>, tagId: nat)
    requires tagId < |tags|
    requires forall k :: 0 <= k < |ids| ==> 0 <= ids[k] < |tags| && ids[k] != tagId
    ensures forall k :: 0 <= k < |ids| ==>
              0 <= Renumbered(ids, tagId)[k] < |tags| - 1
              && RemoveAt(tags, tagId)[Renumbered(ids, tagId)[k]] == tags[ids[k]]
  {
    var r, after := Renumbered(ids, tagId), RemoveAt(tags, tagId);
    forall k | 0 <= k < |ids|
      ensures 0 <= r[k] < |tags| - 1 && after[r[k]] == tags[ids[k]]
    {
      if ids[k] > tagId {
        assert after[ids[k] - 1] == tags[ids[k] - 1 + 1];
      }
    }
  }

  /** As written, unregisterTag leaves the ids above the removed one alone:
      with tags a, b, c and an outfit tagged 1 (b), unregistering 0 leaves
      the outfit tagged 1, which now names c. The renumbering keeps b. */
  lemma {:induction false} UnregisterRelabels(o: Outfit, now: int)
    requires o.tags == [1]
    ensures var tags := [QueryTag("a", false), QueryTag("b", false), QueryTag("c", false)];
      && Unassociate(o, 0, now).tags == [1]
      && tags[1].name == "b" && RemoveAt(tags, 0)[1].name == "c"
      && Renumbered([1], 0) == [0] && RemoveAt(tags, 0)[0].name == "b"
  {
    assert IndexOf([1], 0) == -1;
  }

  /** addTagToOutfit: LimitExceeded for an outfit with 255 tags, before
      anything else; a registered label is associated unless the outfit
      already has it (AlreadyExists); an unknown label is registered and
      its new id associated, or the registry's error is passed on. */
  method AddTagToOutfit(outfit: LoadedOutfit, registry: Registry, name: string) returns (r: Outcome<(), AddTagError>)
    modifies outfit, registry
    ensures |old(outfit.data.tags)| >= 255
            ==> r == Failure(TagLimitExceeded) && outfit.data == old(outfit.data) && registry.tags == old(registry.tags)
    ensures |old(outfit.data.tags)| < 255 && FindLabel(old(registry.tags), name) != -1
            ==> registry.tags == old(registry.tags)
                && (if FindLabel(old(registry.tags), name) in old(outfit.data.tags)
                    then r == Failure(TagAlreadyExists) && outfit.data == old(outfit.data)
                    else r == Success(())
                         && outfit.data == old(outfit.data).(tags := old(outfit.data.tags) + [FindLabel(old(registry.tags), name)]))
    ensures |old(outfit.data.tags)| < 255 && FindLabel(old(registry.tags), name) == -1
            ==> if Utf8.Utf16Length(name) > 255 || |old(registry.tags)| >= 255
                then r == Failure(RegistryError(if Utf8.Utf16Length(name) > 255 then TooLong else LimitExceeded))
                     && outfit.data == old(outfit.data) && registry.tags == old(registry.tags)
                else r == Success(())
                     && registry.tags == old(registry.tags) + [QueryTag(name, false)]
                     && outfit.data == old(outfit.data).(tags := old(outfit.data.tags) + [|old(registry.tags)|])
  {
    if |outfit.data.tags| >= 255 {
      return Failure(TagLimitExceeded);
    }
    var tagId := FindLabel(registry.tags, name);
    if tagId != -1 {
      if IndexOf(outfit.data.tags, tagId) == -1 {
        outfit.data := outfit.data.(tags := outfit.data.tags + [tagId]);
        return Success(());
      }
      return Failure(TagAlreadyExists);
    }
    var result := RegisterTag(registry, name);
    if result.Success? {
      outfit.data := outfit.data.(tags := outfit.data.tags + [result.value]);
      return Success(());
    }
    return Failure(RegistryError(result.error));
  }

  // ---- The outfit list ----

  /** The copy duplicateOutfit makes: created now, never modified or
      used, everything else the same. */
  function Duplicate(o: Outfit, now: int): (d: Outfit)
    ensures d.created == now && d.modified == 0 && d.lastUsed == 0 && d.useCount == 0
    ensures d.(created := o.created, modified := o.modified, lastUsed := o.lastUsed, useCount := o.useCount) == o
  {
    o.(created := now, modified := 0, lastUsed := 0, useCount := 0)
  }

  /** duplicateOutfit: a new object holding the copy, in front of the
      list. */
  method DuplicateOutfit(list: OutfitList, target: LoadedOutfit, now: int)
    modifies list
    ensures |list.items| == |old(list.items)| + 1 && list.items[1..] == old(list.items)
    ensures fresh(list.items[0]) && list.items[0].data == Duplicate(target.data, now)
    ensures old(list.Valid()) ==> list.Valid()
  {
    var duplicate := new LoadedOutfit(Duplicate(target.data, now));
    list.items := [duplicate] + list.items;
  }

  /** deleteOutfit: the first element that is the target object taken
      out, or nothing when the target is not in the list. */
  method DeleteOutfit(list: OutfitList, target: LoadedOutfit)
    modifies list
    ensures target !in old(list.items) ==> list.items == old(list.items)
    ensures target in old(list.items) ==> list.items == RemoveAt(old(list.items), IndexOf(old(list.items), target))
    ensures old(list.Valid()) ==> list.Valid() && target !in list.items
  {
    var index := IndexOf(list.items, target);
    if index != -1 {
      if list.Valid() {
        RemoveDistinct(list.items, target);
      }
      list.items := RemoveAt(list.items, index);
    }
  }

  // ---- Sorting ----

  /** The field a sort type compares; the names compare through rank,
      the collation key localeCompare orders them by. */
  function SortKey(o: LoadedOutfit, sortType: SortType, rank: string -> int): int
    reads o
  {
    match sortType
    case DateCreated => o.data.created
    case LastModified => o.data.modified
    case LastUsed => o.data.lastUsed
    case Alphabetical => rank(o.data.name)
  }

  /** Whether larger keys come first: "Ascending" names go a to z, but
      "Ascending" timestamps put the larger (newer) one first, because
      their comparators are b - a. */
  predicate LargerFirst(sortType: SortType, sortOrder: SortOrder)
  {
    (sortType == Alphabetical) == (sortOrder == Descending)
  }

  /** The key the comparator orders ascending. */
  function Rank(o: LoadedOutfit, sortType: SortType, sortOrder: SortOrder, rank: string -> int): int
    reads o
  {
    if LargerFirst(sortType, sortOrder) then -SortKey(o, sortType, rank) else SortKey(o, sortType, rank)
  }

  /** Every outfit comes no later than the ones after it. */
  ghost predicate Ordered(items: seq<LoadedOutfit>, sortType: SortType, sortOrder: SortOrder, rank: string -> int)
    reads items
  {
    forall i, j :: 0 <= i < j < |items| ==> Rank(items[i], sortType, sortOrder, rank) <= Rank(items[j], sortType, sortOrder, rank)
  }

  /** sortOutfits: the list sorted in place by the comparator the sort
      type and order choose, and returned. Array.prototype.sort is stable
      and is modelled by an insertion sort; perm says where each outfit
      came from, and outfits with equal keys keep their relative order. */
  method SortOutfits(list: OutfitList, sortType: SortType, sortOrder: SortOrder, rank: string -> int)
    returns (sorted: OutfitList, ghost perm: seq<nat>)
    modifies list
    ensures sorted == list
    ensures multiset(list.items) == multiset(old(list.items))
    ensures Ordered(list.items, sortType, sortOrder, rank)
    ensures |perm| == |list.items|
    ensures forall k :: 0 <= k < |perm| ==> perm[k] < |old(list.items)| && list.items[k] == old(list.items)[perm[k]]
    ensures forall p, q :: 0 <= p < q < |perm| ==> perm[p] != perm[q]
    ensures forall p, q :: 0 <= p < q < |perm| && SameRank(list.items[p], list.items[q], sortType, sortOrder, rank)
              ==> perm[p] < perm[q]
  {
    var a;
    a, perm := InsertionSort(list.items, sortType, sortOrder, rank);
    list.items := a;
    return list, perm;
  }

  /** The insertion sort itself, on the sequence of outfits. */
  method InsertionSort(original: seq<LoadedOutfit>, sortType: SortType, sortOrder: SortOrder, rank: string -> int)
    returns (a: seq<LoadedOutfit>, ghost perm: seq<nat>)
    ensures multiset(a) == multiset(original)
    ensures Ordered(a, sortType, sortOrder, rank)
    ensures |perm| == |a|
    ensures forall k :: 0 <= k < |perm| ==> perm[k] < |original| && a[k] == original[perm[k]]
    ensures forall p, q :: 0 <= p < q < |perm| ==> perm[p] != perm[q]
    ensures forall p, q :: 0 <= p < q < |perm| && SameRank(a[p], a[q], sortType, sortOrder, rank)
              ==> perm[p] < perm[q]
  {
    a := original;
    var keys := Keys(a, sortType, sortOrder, rank);
    perm := seq(|a|, k requires 0 <= k < |a| => k);
    for i := 0 to |a|
      invariant |a| == |original| && multiset(a) == multiset(original)
      invariant |keys| == |a| && forall k :: 0 <= k < |a| ==> keys[k] == Rank(a[k], sortType, sortOrder, rank)
      invariant forall p, q :: 0 <= p < q < i ==> keys[p] <= keys[q]
      invariant |perm| == |a| && forall k :: 0 <= k < |a| ==> perm[k] < |original| && a[k] == original[perm[k]]
      invariant Tracked(keys, perm, i)
    {
      a, keys, perm := Insert(a, keys, i, sortType, sortOrder, rank, original, perm);
    }
    SortedByKeys(a, keys, perm, sortType, sortOrder, rank);
  }

  /** Sorted keys and the bookkeeping of a finished sort give the order and
      the stability of the outfits themselves. */
  lemma {:induction false} SortedByKeys(a: seq<LoadedOutfit>, keys: seq<int>, perm: seq<nat>, sortType: SortType,
                                        sortOrder: SortOrder, rank: string -> int)
    requires |keys| == |a| && forall k :: 0 <= k < |a| ==> keys[k] == Rank(a[k], sortType, sortOrder, rank)
    requires forall p, q :: 0 <= p < q < |a| ==> keys[p] <= keys[q]
    requires Tracked(keys, perm, |a|)
    ensures Ordered(a, sortType, sortOrder, rank)
    ensures forall p, q :: 0 <= p < q < |perm| && SameRank(a[p], a[q], sortType, sortOrder, rank) ==> perm[p] < perm[q]
  {
  }

  /** The comparator puts a and b level. */
  predicate SameRank(a: LoadedOutfit, b: LoadedOutfit, sortType: SortType, sortOrder: SortOrder, rank: string -> int)
    reads a, b
  {
    Rank(a, sortType, sortOrder, rank) == Rank(b, sortType, sortOrder, rank)
  }

  /** The index bookkeeping of an insertion sort after i passes: the first
      i places hold the first i indices, the rest are untouched, no index
      repeats, and equal keys among the first i keep their index order. */
  ghost predicate Tracked(keys: seq<int>, perm: seq<nat>, i: nat)
  {
    && i <= |perm| == |keys|
    && (forall k :: 0 <= k < i ==> perm[k] < i)
    && (forall k :: i <= k < |perm| ==> perm[k] == k)
    && (forall p, q :: 0 <= p < q < |perm| ==> perm[p] != perm[q])
    && (forall p, q :: 0 <= p < q < i && keys[p] == keys[q] ==> perm[p] < perm[q])
  }

  /** The comparator's key of every outfit. */
  function Keys(items: seq<LoadedOutfit>, sortType: SortType, sortOrder: SortOrder, rank: string -> int): (keys: seq<int>)
    reads items
    ensures |keys| == |items| && forall k :: 0 <= k < |items| ==> keys[k] == Rank(items[k], sortType, sortOrder, rank)
    decreases |items|
  {
    if items == [] then []
    else Keys(items[..|items| - 1], sortType, sortOrder, rank) + [Rank(items[|items| - 1], sortType, sortOrder, rank)]
  }

  /** One pass of the insertion sort: a[i] moved down past the keys
      before it that are larger, its key and its original index along
      with it. */
  method Insert(a: seq<LoadedOutfit>, keys: seq<int>, i: nat, ghost sortType: SortType, ghost sortOrder: SortOrder,
                ghost rank: string -> int, ghost original: seq<LoadedOutfit>, ghost perm: seq<nat>)
    returns (b: seq<LoadedOutfit>, moved: seq<int>, ghost perm': seq<nat>)
    requires i < |a| && |keys| == |a|
    requires forall k :: 0 <= k < |a| ==> keys[k] == Rank(a[k], sortType, sortOrder, rank)
    requires forall p, q :: 0 <= p < q < i ==> keys[p] <= keys[q]
    requires |perm| == |a| && forall k :: 0 <= k < |a| ==> perm[k] < |original| && a[k] == original[perm[k]]
    requires Tracked(keys, perm, i)
    ensures |b| == |a| && multiset(b) == multiset(a)
    ensures |moved| == |b| && forall k :: 0 <= k < |b| ==> moved[k] == Rank(b[k], sortType, sortOrder, rank)
    ensures forall p, q :: 0 <= p < q <= i ==> moved[p] <= moved[q]
    ensures |perm'| == |b| && forall k :: 0 <= k < |b| ==> perm'[k] < |original| && b[k] == original[perm'[k]]
    ensures Tracked(moved, perm', i + 1)
  {
    var x := keys[i];
    var j := i;
    while j > 0 && keys[j - 1] > x
      invariant 0 <= j <= i
      invariant forall p :: j <= p < i ==> keys[p] > x
    {
      j := j - 1;
    }
    b := Moved(a, i, j);
    moved := Moved(keys, i, j);
    perm' := Moved(perm, i, j);
    MovedPermutes(a, i, j);
    forall k | 0 <= k < |b|
      ensures moved[k] == Rank(b[k], sortType, sortOrder, rank)
      ensures perm'[k] < |original| && b[k] == original[perm'[k]]
    {
      MovedAt(a, i, j, k);
      MovedAt(keys, i, j, k);
      MovedAt(perm, i, j, k);
    }
    InsertSorted(keys, i, j, moved);
    InsertTracked(keys, perm, i, j);
  }

  /** Moving index i down to j past larger keys keeps the bookkeeping:
      an equal key before j came from an earlier index, and the keys it
      passes are larger, so no pair with equal keys changes order. */
  lemma {:induction false} InsertTracked(keys: seq<int>, perm: seq<nat>, i: nat, j: nat)
    requires j <= i < |keys| && Tracked(keys, perm, i)
    requires forall p :: j <= p < i ==> keys[p] > keys[i]
    ensures Tracked(Moved(keys, i, j), Moved(perm, i, j), i + 1)
  {
    var mk, mp := Moved(keys, i, j), Moved(perm, i, j);
    forall k | 0 <= k < |mp|
      ensures k <= i ==> mp[k] < i + 1
      ensures i < k ==> mp[k] == k
    {
      InsertPlace(keys, perm, i, j, k);
    }
    forall p, q | 0 <= p < q < |mp|
      ensures mp[p] != mp[q]
    {
      InsertPair(keys, perm, i, j, p, q);
    }
    forall p, q | 0 <= p < q < i + 1 && mk[p] == mk[q]
      ensures mp[p] < mp[q]
    {
      InsertPair(keys, perm, i, j, p, q);
    }
  }

  /** InsertTracked for one place k. */
  lemma {:induction false} InsertPlace(keys: seq<int>, perm: seq<nat>, i: nat, j: nat, k: nat)
    requires j <= i < |keys| && Tracked(keys, perm, i) && k < |keys|
    ensures k <= i ==> Moved(perm, i, j)[k] < i + 1
    ensures i < k ==> Moved(perm, i, j)[k] == k
  {
    MovedAt(perm, i, j, k);
  }

  /** InsertTracked for one pair of places p < q. */
  lemma {:induction false} InsertPair(keys: seq<int>, perm: seq<nat>, i: nat, j: nat, p: nat, q: nat)
    requires j <= i < |keys| && Tracked(keys, perm, i)
    requires forall k :: j <= k < i ==> keys[k] > keys[i]
    requires p < q < |keys|
    ensures Moved(perm, i, j)[p] != Moved(perm, i, j)[q]
    ensures q <= i && Moved(keys, i, j)[p] == Moved(keys, i, j)[q] ==> Moved(perm, i, j)[p] < Moved(perm, i, j)[q]
  {
    MovedAt(perm, i, j, p);
    MovedAt(perm, i, j, q);
    MovedAt(keys, i, j, p);
    MovedAt(keys, i, j, q);
    var p', q' := MovedFrom(i, j, p), MovedFrom(i, j, q);
    assert p' != q';
    if q <= i && keys[p'] == keys[q'] {
      if q == j {
        assert perm[p'] < i == perm[q'];
      } else {
        assert p != j;
        assert p' < q' < i;
      }
    }
  }

  /** s with s[i] moved down to index j. */
  function Moved<T>(s: seq<T>, i: nat, j: nat): (r: seq<T>)
    requires j <= i < |s|
    ensures |r| == |s|
  {
    s[..j] + [s[i]] + s[j..i] + s[i + 1..]
  }

  /** The index of s that lands at k when s[i] moves down to j. */
  function MovedFrom(i: nat, j: nat, k: nat): nat
  {
    if k < j || i < k then k else if k == j then i else k - 1
  }

  lemma {:induction false} MovedAt<T>(s: seq<T>, i: nat, j: nat, k: nat)
    requires j <= i < |s| && k < |s|
    ensures MovedFrom(i, j, k) < |s| && Moved(s, i, j)[k] == s[MovedFrom(i, j, k)]
  {
    var r := Moved(s, i, j);
    if k < j {
      assert r[k] == s[..j][k];
    } else if k == j {
      assert r[k] == [s[i]][0];
    } else if k <= i {
      assert r[k] == s[j..i][k - j - 1];
    } else {
      assert r[k] == s[i + 1..][k - i - 1];
    }
  }

  lemma {:induction false} MovedPermutes<T>(s: seq<T>, i: nat, j: nat)
    requires j <= i < |s|
    ensures multiset(Moved(s, i, j)) == multiset(s)
  {
    assert s == s[..j] + s[j..i] + [s[i]] + s[i + 1..];
  }

  /** Moving keys[i] to index j, after the keys no larger and before the
      larger ones, sorts keys[..i + 1]. */
  lemma {:induction false} InsertSorted(keys: seq<int>, i: nat, j: nat, moved: seq<int>)
    requires j <= i < |keys| && moved == Moved(keys, i, j)
    requires forall p, q :: 0 <= p < q < i ==> keys[p] <= keys[q]
    requires forall p :: j <= p < i ==> keys[p] > keys[i]
    requires j > 0 ==> keys[j - 1] <= keys[i]
    ensures forall p, q :: 0 <= p < q <= i ==> moved[p] <= moved[q]
  {
    forall p, q | 0 <= p < q <= i
      ensures moved[p] <= moved[q]
    {
      MovedAt(keys, i, j, p);
      MovedAt(keys, i, j, q);
      if p < j && j <= q {
        assert p == j - 1 || keys[p] <= keys[j - 1];
      }
    }
  }

  // ---- Queries ----

  /** The query filters: the search text as typed, the registry whose
      checked tags select, the tag mode and whether unused outfits are
      hidden. */
  datatype Query = Query(text: string, tags: seq<QueryTag>, mode: TagQueryMode, hideUnused: bool)

  /** The characters String.prototype.trim removes: ECMAScript's white
      space (tab, vertical tab, form feed, space, no-break space, U+FEFF
      and the other space separators) and its line terminators. */
  predicate IsTrimmed(c: char)
  {
    c in {'\t', '\n', '\U{B}', '\U{C}', '\r', ' ', '\U{A0}', '\U{1680}', '\U{2028}', '\U{2029}',
          '\U{202F}', '\U{205F}', '\U{3000}', '\U{FEFF}'}
    || '\U{2000}' <= c <= '\U{200A}'
  }

  /** s without its leading white space. */
  function TrimStart(s: string): (r: string)
    ensures |r| <= |s| && r == s[|s| - |r|..]
    ensures forall k :: 0 <= k < |s| - |r| ==> IsTrimmed(s[k])
    ensures r != [] ==> !IsTrimmed(r[0])
    decreases |s|
  {
    if s != [] && IsTrimmed(s[0]) then TrimStart(s[1..]) else s
  }

  /** s without its trailing white space. */
  function TrimEnd(s: string): (r: string)
    ensures |r| <= |s| && r == s[..|r|]
    ensures forall k :: |r| <= k < |s| ==> IsTrimmed(s[k])
    ensures r != [] ==> !IsTrimmed(r[|r| - 1])
    decreases |s|
  {
    if s != [] && IsTrimmed(s[|s| - 1]) then TrimEnd(s[..|s| - 1]) else s
  }

  /** String.prototype.trim: neither end of the result is white space, and
      it is empty exactly when s is all white space. */
  function Trim(s: string): (r: string)
    ensures r != [] ==> !IsTrimmed(r[0]) && !IsTrimmed(r[|r| - 1])
    ensures r == [] <==> forall k :: 0 <= k < |s| ==> IsTrimmed(s[k])
  {
    TrimBoth(s);
    TrimEnd(TrimStart(s))
  }

  lemma {:induction false} TrimBoth(s: string)
    ensures var t := TrimStart(s); var r := TrimEnd(t);
      && (r != [] ==> !IsTrimmed(r[0]))
      && (r == [] <==> forall k :: 0 <= k < |s| ==> IsTrimmed(s[k]))
  {
    var t := TrimStart(s);
    var r := TrimEnd(t);
    if r != [] {
      assert r[0] == t[0];
    }
  }

  /** normalizedQuery: the search text trimmed and lower-cased. */
  function Needle(q: Query, lower: string -> string): string
  {
    lower(Trim(q.text))
  }

  /** String.prototype.includes. */
  predicate Contains(s: string, part: string)
    decreases |s|
  {
    (|part| <= |s| && s[..|part|] == part) || (|s| > 0 && Contains(s[1..], part))
  }

  /** Some tag of the registry is checked. */
  predicate AnyChecked(tags: seq<QueryTag>)
  {
    exists k :: 0 <= k < |tags| && tags[k].checked
  }

  /** The tag filter: "and" wants a tagged outfit with every checked tag,
      "or" an outfit with some tag that is checked. */
  predicate TagsMatch(ids: seq<int>, tags: seq<QueryTag>, mode: TagQueryMode)
  {
    match mode
    case And => |ids| > 0 && forall k :: 0 <= k < |tags| && tags[k].checked ==> k in ids
    case Or => exists t :: t in ids && 0 <= t < |tags| && tags[t].checked
  }

  /** An outfit passes all three filters; lower stands for
      toLocaleLowerCase, applied to the query and to the name. */
  predicate Passes(o: Outfit, q: Query, lower: string -> string)
    ensures AnyChecked(q.tags) && q.mode == And && o.tags == [] ==> !Passes(o, q, lower)
    ensures (&& (forall k :: 0 <= k < |q.text| ==> IsTrimmed(q.text[k]))
             && lower("") == "" && !AnyChecked(q.tags) && !q.hideUnused)
            ==> Passes(o, q, lower)
  {
    && (q.hideUnused ==> o.useCount != 0)
    && (Needle(q, lower) != "" ==> Contains(lower(o.name), Needle(q, lower)))
    && (AnyChecked(q.tags) ==> TagsMatch(o.tags, q.tags, q.mode))
  }

  /** r is s with some elements left out, in the same order. */
  predicate Subsequence<T(==)>(r: seq<T>, s: seq<T>)
    decreases |s|
  {
    if r == [] then true
    else if s == [] then false
    else if r[|r| - 1] == s[|s| - 1] then Subsequence(r[..|r| - 1], s[..|s| - 1])
    else Subsequence(r, s[..|s| - 1])
  }

  /** queryOutfits: the outfits that pass the filters, in list order. The
      three filters run one after the other in the source; since each
      keeps or drops an outfit on its own, their composition keeps the
      outfits that pass all three. */
  function QueryOutfits(outfits: seq<LoadedOutfit>, q: Query, lower: string -> string): (r: seq<LoadedOutfit>)
    reads outfits
    ensures Subsequence(r, outfits)
    ensures forall i :: 0 <= i < |r| ==> r[i] in outfits && Passes(r[i].data, q, lower)
    ensures forall i :: 0 <= i < |outfits| && Passes(outfits[i].data, q, lower) ==> outfits[i] in r
    ensures !q.hideUnused && Needle(q, lower) == "" && !AnyChecked(q.tags) ==> r == outfits
    decreases |outfits|
  {
    if outfits == [] then []
    else
      var init, last := outfits[..|outfits| - 1], outfits[|outfits| - 1];
      assert outfits == init + [last];
      var rest := QueryOutfits(init, q, lower);
      if Passes(last.data, q, lower) then
        assert (rest + [last])[..|rest|] == rest;
        rest + [last]
      else rest
  }

  /** assetsToRbxFormat: every asset, in order, reduced to its id. */
  function AssetsToRbxFormat(assets: seq<Asset>): (r: seq<AccessoryAsset>)
    ensures |r| == |assets|
    ensures forall i :: 0 <= i < |assets| ==> r[i] == AccessoryAsset(assets[i].id)
  {
    seq(|assets|, i requires 0 <= i < |assets| => AccessoryAsset(assets[i].id))
  }
}
