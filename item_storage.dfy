/**
 * The in-memory item store: a dictionary from id to Item with sequential ids,
 * full and partial updates, soft deletion and a filtered, windowed listing.
 */
module Items {
  import opened Wrappers
  import opened Paging

  /** A catalog item. `deleted` is the soft-delete flag. */
  datatype Item = Item(id: int, name: string, price: real, deleted: bool)

  /** Python truthiness of an optional price bound: `None` and `0` are false. */
  predicate Truthy(bound: Option<real>)
    ensures Truthy(bound) ==> bound.Some?
    ensures bound == Some(0.0) ==> !Truthy(bound)
    ensures bound.Some? && bound.value != 0.0 ==> Truthy(bound)
  {
    bound.Some? && bound.value != 0.0
  }

  /** The listing's `filter_item`. A price bound is applied only when it is truthy. */
  predicate ItemMatches(item: Item, minPrice: Option<real>, maxPrice: Option<real>, showDeleted: bool)
    ensures ItemMatches(item, minPrice, maxPrice, showDeleted) <==>
      && (showDeleted || !item.deleted)
      && (Truthy(minPrice) ==> item.price >= minPrice.value)
      && (Truthy(maxPrice) ==> item.price <= maxPrice.value)
  {
    if !showDeleted && item.deleted then false
    else if Truthy(minPrice) && item.price < minPrice.value then false
    else if Truthy(maxPrice) && item.price > maxPrice.value then false
    else true
  }

  /** `filter_item` as the function value handed to `filter`. */
  function MatchFilter(minPrice: Option<real>, maxPrice: Option<real>, showDeleted: bool): (p: Item -> bool)
  {
    (item: Item) => ItemMatches(item, minPrice, maxPrice, showDeleted)
  }

  /** A bound of zero imposes nothing, exactly like an absent one. */
  lemma ZeroBoundIsNoBound(item: Item, bound: Option<real>, showDeleted: bool)
    ensures ItemMatches(item, Some(0.0), bound, showDeleted) == ItemMatches(item, None, bound, showDeleted)
    ensures ItemMatches(item, bound, Some(0.0), showDeleted) == ItemMatches(item, bound, None, showDeleted)
  {
  }

  /**
   * The partial update of `update_item`: every field that is supplied is
   * overwritten, every other field, the id and the deleted flag are kept.
   */
  function Merge(item: Item, name: Option<string>, price: Option<real>): (r: Item)
    ensures r.id == item.id && r.deleted == item.deleted
    ensures r.name == (if name.Some? then name.value else item.name)
    ensures r.price == (if price.Some? then price.value else item.price)
    ensures name.None? && price.None? ==> r == item
  {
    var named := if name.Some? then item.(name := name.value) else item;
    if price.Some? then named.(price := price.value) else named
  }

  class ItemStorage {
    /** The dictionary `self.items`. */
    var items: map<int, Item>

    /**
     * Nothing is ever removed and every new key is `len(items) + 1`, so the
     * keys are exactly 1..n, and each item carries its own key as its id.
     */
    ghost predicate Valid()
      reads this
    {
      && (forall id :: id in items <==> 1 <= id <= |items|)
      && (forall id :: id in items ==> items[id].id == id)
    }

    constructor ()
      ensures Valid() && items == map[]
    {
      items := map[];
    }

    /** `list(self.items.values())`: the items in id order. */
    function Values(): (vs: seq<Item>)
      reads this
      requires Valid()
      ensures |vs| == |items|
      ensures forall j :: 0 <= j < |vs| ==> vs[j].id == j + 1 && vs[j] == items[j + 1]
    {
      InOrder(items, |items|)
    }

    method AddNewItem(name: string, price: real) returns (item: Item)
      requires Valid()
      modifies this
      ensures Valid()
      ensures item.id == old(|items|) + 1 && item.id !in old(items)
      ensures item.name == name && item.price == price && !item.deleted
      ensures items == old(items)[item.id := item]
    {
      item := Item(|items| + 1, name, price, false);
      items := items[item.id := item];
    }

    /** `self.items.get(item_id)`. */
    function GetItem(id: int): (r: Option<Item>)
      reads this
      requires Valid()
      ensures r.Some? <==> 1 <= id <= |items|
      ensures r.Some? ==> r.value.id == id && r.value == items[id]
    {
      if id in items then Some(items[id]) else None
    }

    /**
     * Overwrites name and price and clears the deleted flag, so a soft-deleted
     * item comes back; an unknown id raises ValueError and changes nothing.
     */
    method ReplaceItem(id: int, name: string, price: real) returns (r: Result<Item>)
      requires Valid()
      modifies this
      ensures Valid()
      ensures id in old(items) ==>
        && r.Ok? && r.value == Item(id, name, price, false)
        && items == old(items)[id := r.value]
      ensures id !in old(items) ==> r == Err(ValueError("Item not found")) && items == old(items)
    {
      if id in items {
        var item := Item(id, name, price, false);
        items := items[id := item];
        r := Ok(item);
      } else {
        r := Err(ValueError("Item not found"));
      }
    }

    /**
     * Overwrites only the fields that are supplied; never touches the id or
     * the deleted flag. An unknown id raises ValueError and changes nothing.
     */
    method UpdateItem(id: int, name: Option<string> := None, price: Option<real> := None) returns (r: Result<Item>)
      requires Valid()
      modifies this
      ensures Valid()
      ensures id in old(items) ==>
        && r.Ok? && r.value == Merge(old(items)[id], name, price)
        && items == old(items)[id := r.value]
      ensures id !in old(items) ==> r == Err(ValueError("Item not found")) && items == old(items)
    {
      if id in items {
        var item := items[id];
        if name.Some? {
          item := item.(name := name.value);
          items := items[id := item];
        }
        if price.Some? {
          item := item.(price := price.value);
          items := items[id := item];
        }
        r := Ok(items[id]);
      } else {
        r := Err(ValueError("Item not found"));
      }
    }

    /**
     * Sets the deleted flag of that one item. Deleting an item that is
     * already deleted succeeds and changes nothing. An unknown id raises
     * ValueError and changes nothing.
     */
    method DeleteItem(id: int) returns (r: Result<()>)
      requires Valid()
      modifies this
      ensures Valid()
      ensures id in old(items) ==> r == Ok(()) && items == old(items)[id := old(items)[id].(deleted := true)]
      ensures id in old(items) && old(items)[id].deleted ==> items == old(items)
      ensures id !in old(items) ==> r == Err(ValueError("Item not found")) && items == old(items)
    {
      if id in items {
        items := items[id := items[id].(deleted := true)];
        r := Ok(());
      } else {
        r := Err(ValueError("Item not found"));
      }
    }

    /**
     * `islice(filter(filter_item, values), offset, limit)`: the items that
     * pass the filter, in id order, from position `offset` up to but not
     * including position `limit` (not `offset + limit`).
     */
    function PaginateItemsFiltered(offset: nat := 0, limit: nat := 10, minPrice: Option<real> := None,
                                   maxPrice: Option<real> := None, showDeleted: bool := false): (r: seq<Item>)
      reads this
      requires Valid()
      ensures |r| <= if offset < limit then limit - offset else 0
      ensures forall j :: 0 <= j < |r| ==> r[j].id in items && items[r[j].id] == r[j]
      ensures forall i, j :: 0 <= i < j < |r| ==> r[i].id < r[j].id
      ensures forall j :: 0 <= j < |r| ==> ItemMatches(r[j], minPrice, maxPrice, showDeleted)
      ensures var total := |MatchingBelow(items, MatchFilter(minPrice, maxPrice, showDeleted), |items| + 1)|;
        |r| == if offset < Min(limit, total) then Min(limit, total) - offset else 0
      ensures forall id :: id in items ==>
        (items[id] in r <==>
         (&& ItemMatches(items[id], minPrice, maxPrice, showDeleted)
          && offset <= |MatchingBelow(items, MatchFilter(minPrice, maxPrice, showDeleted), id)| < limit))
    {
      var p := MatchFilter(minPrice, maxPrice, showDeleted);
      var r := Islice(Filter(p, Values()), offset, limit);
      PageFacts(r, p, offset, limit);
      r
    }

    /** What the window over the filtered values holds, for any filter `p`. */
    lemma PageFacts(r: seq<Item>, p: Item -> bool, offset: nat, limit: nat)
      requires Valid()
      requires r == Islice(Filter(p, Values()), offset, limit)
      ensures |r| <= if offset < limit then limit - offset else 0
      ensures forall j :: 0 <= j < |r| ==> r[j].id in items && items[r[j].id] == r[j] && p(r[j])
      ensures forall i, j :: 0 <= i < j < |r| ==> r[i].id < r[j].id
      ensures var total := |MatchingBelow(items, p, |items| + 1)|;
        |r| == if offset < Min(limit, total) then Min(limit, total) - offset else 0
      ensures forall id :: id in items ==>
        (items[id] in r <==> (p(items[id]) && offset <= |MatchingBelow(items, p, id)| < limit))
    {
      var vs := Values();
      var key := (item: Item) => item.id;
      FilterIncreasing(p, vs, key);
      WindowExact(items, |items|, p, key, offset, limit);
      IsliceAtMost(Filter(p, vs), offset, limit);
    }

    /**
     * With every item shown and no bounds, the page holds `min(limit, n) - offset`
     * items: 20 items with offset 5 and limit 10 give 5 items, not 10.
     */
    lemma WindowEndsAtLimit(offset: nat, limit: nat)
      requires Valid()
      ensures |PaginateItemsFiltered(offset, limit, None, None, true)|
           == if offset < Min(limit, |items|) then Min(limit, |items|) - offset else 0
    {
      var p := MatchFilter(None, None, true);
      FilterKeepsAll(p, Values());
      FilterInOrderLength(items, p, |items|);
    }

    /**
     * A window that starts at 0 and reaches past the end lists every item
     * that passes the filter.
     */
    lemma FullWindowListsEveryMatch(limit: nat, minPrice: Option<real>, maxPrice: Option<real>, showDeleted: bool)
      requires Valid()
      requires limit >= |items|
      ensures forall id :: id in items && ItemMatches(items[id], minPrice, maxPrice, showDeleted) ==>
        items[id] in PaginateItemsFiltered(0, limit, minPrice, maxPrice, showDeleted)
    {
      var vs := Values();
      var p := MatchFilter(minPrice, maxPrice, showDeleted);
      var f := Filter(p, vs);
      assert Islice(f, 0, limit) == f;
      forall id | id in items && ItemMatches(items[id], minPrice, maxPrice, showDeleted)
        ensures items[id] in f
      {
        assert vs[id - 1] == items[id];
      }
    }

    /** A zero price bound gives the same page as no bound at all. */
    lemma ZeroBoundListsTheSame(offset: nat, limit: nat, bound: Option<real>, showDeleted: bool)
      requires Valid()
      ensures PaginateItemsFiltered(offset, limit, Some(0.0), bound, showDeleted)
           == PaginateItemsFiltered(offset, limit, None, bound, showDeleted)
      ensures PaginateItemsFiltered(offset, limit, bound, Some(0.0), showDeleted)
           == PaginateItemsFiltered(offset, limit, bound, None, showDeleted)
    {
      var vs := Values();
      FilterCongruent(MatchFilter(Some(0.0), bound, showDeleted), MatchFilter(None, bound, showDeleted), vs);
      FilterCongruent(MatchFilter(bound, Some(0.0), showDeleted), MatchFilter(bound, None, showDeleted), vs);
    }
  }
}
