/**
 * The in-memory cart store: a dictionary from id to Cart with sequential ids,
 * adding an item to a cart, and a filtered, windowed listing.
 */
module Carts {
  import opened Wrappers
  import opened Paging
  import opened Items

  /** One line of a cart: a snapshot of the item taken when it was first added. */
  datatype CartItem = CartItem(id: int, name: string, quantity: int, available: bool)

  /** A cart: its lines keyed by item id, and the running price. */
  datatype Cart = Cart(id: int, items: map<int, CartItem>, price: real)

  /** Every finite, non-empty set of ids has a least element. */
  lemma {:induction false} LeastExists(ids: set<int>)
    requires ids != {}
    ensures exists k :: k in ids && forall j :: j in ids ==> k <= j
  {
    var x := PickId(ids);
    if ids != {x} {
      LeastExists(ids - {x});
      var m :| m in ids - {x} && forall j :: j in ids - {x} ==> m <= j;
      var least := if x < m then x else m;
      forall j | j in ids
        ensures least <= j
      {
        if j != x {
          assert j in ids - {x};
        }
      }
    }
  }

  lemma PickId(ids: set<int>) returns (x: int)
    requires ids != {}
    ensures x in ids
  {
    if forall y :: y !in ids {
      assert false;
    }
    x :| x in ids;
  }

  function Least(ids: set<int>): (k: int)
    requires ids != {}
    ensures k in ids && forall j :: j in ids ==> k <= j
  {
    LeastExists(ids);
    var k :| k in ids && forall j :: j in ids ==> k <= j;
    k
  }

  /**
   * `sum(item.quantity for item in cart.items.values())`, summed in
   * increasing key order; `QuantityWithout` shows the order does not matter.
   */
  function TotalQuantity(items: map<int, CartItem>): (total: int)
    ensures items == map[] ==> total == 0
    decreases items.Keys
  {
    if items == map[] then 0
    else
      var k := Least(items.Keys);
      assert (items - {k}).Keys < items.Keys;
      items[k].quantity + TotalQuantity(items - {k})
  }

  /** The total can be computed by taking out any line first. */
  lemma {:induction false} QuantityWithout(items: map<int, CartItem>, k: int)
    requires k in items
    ensures TotalQuantity(items) == items[k].quantity + TotalQuantity(items - {k})
    decreases items.Keys
  {
    var least := Least(items.Keys);
    if k != least {
      var rest := items - {least};
      assert (items - {k}).Keys < items.Keys;
      QuantityWithout(rest, k);
      assert least in items - {k};
      assert Least((items - {k}).Keys) == least;
      assert (items - {k}) - {least} == rest - {k};
    }
  }

  /** With every quantity at least 1, the total is at least the number of lines, and positive unless the cart is empty. */
  lemma {:induction false} QuantityAtLeastLines(items: map<int, CartItem>)
    requires forall k :: k in items ==> items[k].quantity >= 1
    ensures TotalQuantity(items) >= |items|
    ensures TotalQuantity(items) == 0 <==> items == map[]
    decreases items.Keys
  {
    if items != map[] {
      var k := Least(items.Keys);
      var rest := items - {k};
      assert rest.Keys == items.Keys - {k};
      assert |rest.Keys| == |items.Keys| - 1;
      QuantityAtLeastLines(rest);
    }
  }

  /** The sum of the prices of a sequence of items. */
  function PriceSum(h: seq<Item>): (sum: real)
  {
    if h == [] then 0.0 else PriceSum(h[..|h| - 1]) + h[|h| - 1].price
  }

  /** How many items of `h` have id `k`. */
  function Occurrences(h: seq<Item>, k: int): (count: nat)
  {
    if h == [] then 0
    else Occurrences(h[..|h| - 1], k) + (if h[|h| - 1].id == k then 1 else 0)
  }

  /** The first item of `h` with id `k`, if there is one. */
  function FirstWithId(h: seq<Item>, k: int): (r: Option<Item>)
    ensures r.Some? <==> Occurrences(h, k) > 0
    ensures r.Some? ==> r.value.id == k
  {
    if h == [] then None
    else
      var earlier := FirstWithId(h[..|h| - 1], k);
      if earlier.None? && h[|h| - 1].id == k then Some(h[|h| - 1]) else earlier
  }

  /**
   * The body of `add_item_to_cart` on one cart: bump the quantity of the line
   * for `item.id`, or insert a fresh snapshot line; either way add the item's
   * price to the cart's price.
   */
  function AddToCart(cart: Cart, item: Item): (r: Cart)
    ensures r.id == cart.id
    ensures r.price == cart.price + item.price
    ensures r.items.Keys == cart.items.Keys + {item.id}
    ensures forall k :: k in cart.items && k != item.id ==> r.items[k] == cart.items[k]
    ensures item.id in cart.items ==>
      r.items[item.id] == cart.items[item.id].(quantity := cart.items[item.id].quantity + 1)
    ensures item.id !in cart.items ==> r.items[item.id] == CartItem(item.id, item.name, 1, !item.deleted)
    ensures TotalQuantity(r.items) == TotalQuantity(cart.items) + 1
  {
    var line :=
      if item.id in cart.items then cart.items[item.id].(quantity := cart.items[item.id].quantity + 1)
      else CartItem(item.id, item.name, 1, !item.deleted);
    var items := cart.items[item.id := line];
    QuantityWithout(items, item.id);
    assert items - {item.id} == cart.items - {item.id};
    if item.id in cart.items then
      QuantityWithout(cart.items, item.id);
      Cart(cart.id, items, cart.price + item.price)
    else
      assert cart.items - {item.id} == cart.items;
      Cart(cart.id, items, cart.price + item.price)
  }

  /** The line for item `k` is what the additions `h` made it. */
  ghost predicate LineAgrees(line: CartItem, k: int, h: seq<Item>)
  {
    var first := FirstWithId(h, k);
    && line.id == k
    && line.quantity == Occurrences(h, k)
    && first.Some?
    && line.name == first.value.name
    && line.available == !first.value.deleted
  }

  /**
   * A cart with id `id` is the result of adding the items `h`, in that order,
   * to an empty cart: its price is their price sum, its total quantity is
   * their number, it has a line exactly for the ids among them, each line
   * counts the additions of that id and holds the snapshot of the first one.
   */
  ghost predicate Consistent(cart: Cart, id: int, h: seq<Item>)
  {
    && cart.id == id
    && cart.price == PriceSum(h)
    && TotalQuantity(cart.items) == |h|
    && (forall k :: k in cart.items <==> Occurrences(h, k) > 0)
    && (forall k :: k in cart.items ==> LineAgrees(cart.items[k], k, h))
  }

  lemma NewCartConsistent(id: int)
    ensures Consistent(Cart(id, map[], 0.0), id, [])
  {
  }

  /** Adding an item keeps a cart consistent with its history extended by that item. */
  lemma {:induction false} AddKeepsConsistent(cart: Cart, id: int, h: seq<Item>, item: Item)
    requires Consistent(cart, id, h)
    ensures Consistent(AddToCart(cart, item), id, h + [item])
  {
    var h' := h + [item];
    assert h'[..|h'| - 1] == h;
    var r := AddToCart(cart, item);
    forall k | k in r.items
      ensures LineAgrees(r.items[k], k, h')
    {
      if k == item.id && item.id !in cart.items {
        assert FirstWithId(h, k).None?;
      }
    }
  }

  /**
   * The listing's `filter_cart`. Each bound applies whenever it is given,
   * so a bound of 0 is a real bound here.
   */
  predicate CartMatches(cart: Cart, minPrice: Option<real>, maxPrice: Option<real>,
                        minQuantity: Option<int>, maxQuantity: Option<int>)
    ensures CartMatches(cart, minPrice, maxPrice, minQuantity, maxQuantity) <==>
      && (minPrice.Some? ==> cart.price >= minPrice.value)
      && (maxPrice.Some? ==> cart.price <= maxPrice.value)
      && (minQuantity.Some? ==> TotalQuantity(cart.items) >= minQuantity.value)
      && (maxQuantity.Some? ==> TotalQuantity(cart.items) <= maxQuantity.value)
  {
    if minPrice.Some? && cart.price < minPrice.value then false
    else if maxPrice.Some? && cart.price > maxPrice.value then false
    else
      var quantity := TotalQuantity(cart.items);
      if minQuantity.Some? && quantity < minQuantity.value then false
      else if maxQuantity.Some? && quantity > maxQuantity.value then false
      else true
  }

  /** `filter_cart` as the function value handed to `filter`. */
  function CartFilter(minPrice: Option<real>, maxPrice: Option<real>,
                      minQuantity: Option<int>, maxQuantity: Option<int>): (p: Cart -> bool)
  {
    (cart: Cart) => CartMatches(cart, minPrice, maxPrice, minQuantity, maxQuantity)
  }

  /** The keys are exactly 1..n and each cart carries its key as its id. */
  ghost predicate KeyedByOwnId(carts: map<int, Cart>)
  {
    && (forall id :: id in carts <==> 1 <= id <= |carts|)
    && (forall id :: id in carts ==> carts[id].id == id)
  }

  /**
   * The keys are exactly 1..n, there is a history for each cart, and each
   * cart agrees with its history.
   */
  ghost predicate StoreValid(carts: map<int, Cart>, added: map<int, seq<Item>>)
  {
    && KeyedByOwnId(carts)
    && (forall id :: id in carts <==> id in added)
    && (forall id :: id in carts ==> Consistent(carts[id], id, added[id]))
  }

  /** Replacing one cart by a cart consistent with a new history keeps the store valid. */
  lemma StoreUpdateValid(carts: map<int, Cart>, added: map<int, seq<Item>>, id: int, cart: Cart, h: seq<Item>)
    requires StoreValid(carts, added) && id in carts
    requires Consistent(cart, id, h)
    ensures StoreValid(carts[id := cart], added[id := h])
  {
    assert |carts[id := cart]| == |carts|;
  }

  class CartStorage {
    /** The dictionary `self.carts`. */
    var carts: map<int, Cart>
    /** For each cart, the items passed to `add_item_to_cart` on it, in call order. */
    ghost var added: map<int, seq<Item>>

    /**
     * Carts are never removed and every new key is `len(carts) + 1`, so the
     * keys are exactly 1..n; each cart agrees with its history of additions.
     */
    ghost predicate Valid()
      reads this
    {
      StoreValid(carts, added)
    }

    constructor ()
      ensures Valid() && carts == map[] && added == map[]
    {
      carts := map[];
      added := map[];
    }

    /** `list(self.carts.values())`: the carts in id order. */
    function Values(): (vs: seq<Cart>)
      reads this
      requires KeyedByOwnId(carts)
      ensures |vs| == |carts|
      ensures forall j :: 0 <= j < |vs| ==> vs[j].id == j + 1 && vs[j] == carts[j + 1]
    {
      InOrder(carts, |carts|)
    }

    method CreateCart() returns (id: int)
      requires Valid()
      modifies this
      ensures Valid()
      ensures id == old(|carts|) + 1 && id !in old(carts)
      ensures carts == old(carts)[id := Cart(id, map[], 0.0)]
      ensures added == old(added)[id := []]
    {
      id := |carts| + 1;
      NewCartConsistent(id);
      carts := carts[id := Cart(id, map[], 0.0)];
      added := added[id := []];
    }

    /** `self.carts.get(cart_id)`. */
    function GetCart(id: int): (r: Option<Cart>)
      reads this
      requires Valid()
      ensures r.Some? <==> 1 <= id <= |carts|
      ensures r.Some? ==> r.value.id == id && r.value == carts[id]
      ensures r.Some? ==> r.value.price == PriceSum(added[id]) && TotalQuantity(r.value.items) == |added[id]|
      ensures r.Some? ==> forall k :: k in r.value.items ==>
        r.value.items[k].id == k && r.value.items[k].quantity >= 1
    {
      if id in carts then Some(carts[id]) else None
    }

    /**
     * `add_item_to_cart`: an unknown cart raises KeyError and changes
     * nothing; otherwise the cart becomes `AddToCart` of it and the returned
     * line is the cart's line for `item.id`.
     */
    method AddItemToCart(cartId: int, item: Item) returns (r: Result<CartItem>)
      requires Valid()
      modifies this
      ensures Valid()
      ensures cartId in old(carts) ==>
        && carts == old(carts)[cartId := AddToCart(old(carts)[cartId], item)]
        && added == old(added)[cartId := old(added)[cartId] + [item]]
        && r == Ok(carts[cartId].items[item.id])
      ensures cartId !in old(carts) ==> r == Err(KeyError(cartId)) && carts == old(carts) && added == old(added)
    {
      if cartId !in carts {
        return Err(KeyError(cartId));
      }
      var cart := carts[cartId];
      ghost var h := added[cartId] + [item];
      AddKeepsConsistent(cart, cartId, added[cartId], item);
      ghost var expected := AddToCart(cart, item);
      var lines := cart.items;
      if item.id in lines {
        lines := lines[item.id := lines[item.id].(quantity := lines[item.id].quantity + 1)];
      } else {
        lines := lines[item.id := CartItem(item.id, item.name, 1, !item.deleted)];
      }
      cart := cart.(items := lines, price := cart.price + item.price);
      assert cart == expected;
      StoreUpdateValid(carts, added, cartId, cart, h);
      carts := carts[cartId := cart];
      added := added[cartId := added[cartId] + [item]];
      r := Ok(cart.items[item.id]);
    }

    /**
     * `islice(filter(filter_cart, values), offset, limit)`: the carts that
     * pass the filter, in id order, from position `offset` up to but not
     * including position `limit`.
     */
    function PaginateFiltered(offset: nat := 0, limit: nat := 10, minPrice: Option<real> := None,
                              maxPrice: Option<real> := None, minQuantity: Option<int> := None,
                              maxQuantity: Option<int> := None): (r: seq<Cart>)
      reads this
      requires KeyedByOwnId(carts)
      ensures |r| <= if offset < limit then limit - offset else 0
      ensures forall j :: 0 <= j < |r| ==> r[j].id in carts && carts[r[j].id] == r[j]
      ensures forall i, j :: 0 <= i < j < |r| ==> r[i].id < r[j].id
      ensures forall j :: 0 <= j < |r| ==> CartMatches(r[j], minPrice, maxPrice, minQuantity, maxQuantity)
      ensures var total := |MatchingBelow(carts, CartFilter(minPrice, maxPrice, minQuantity, maxQuantity), |carts| + 1)|;
        |r| == if offset < Min(limit, total) then Min(limit, total) - offset else 0
      ensures forall id :: id in carts ==>
        (carts[id] in r <==>
         (&& CartMatches(carts[id], minPrice, maxPrice, minQuantity, maxQuantity)
          && offset <= |MatchingBelow(carts, CartFilter(minPrice, maxPrice, minQuantity, maxQuantity), id)| < limit))
    {
      var p := CartFilter(minPrice, maxPrice, minQuantity, maxQuantity);
      var r := Islice(Filter(p, Values()), offset, limit);
      PageFacts(r, p, offset, limit);
      r
    }

    /** What the window over the filtered values holds, for any filter `p`. */
    lemma PageFacts(r: seq<Cart>, p: Cart -> bool, offset: nat, limit: nat)
      requires KeyedByOwnId(carts)
      requires r == Islice(Filter(p, Values()), offset, limit)
      ensures |r| <= if offset < limit then limit - offset else 0
      ensures forall j :: 0 <= j < |r| ==> r[j].id in carts && carts[r[j].id] == r[j] && p(r[j])
      ensures forall i, j :: 0 <= i < j < |r| ==> r[i].id < r[j].id
      ensures var total := |MatchingBelow(carts, p, |carts| + 1)|;
        |r| == if offset < Min(limit, total) then Min(limit, total) - offset else 0
      ensures forall id :: id in carts ==>
        (carts[id] in r <==> (p(carts[id]) && offset <= |MatchingBelow(carts, p, id)| < limit))
    {
      var vs := Values();
      var key := (cart: Cart) => cart.id;
      FilterIncreasing(p, vs, key);
      WindowExact(carts, |carts|, p, key, offset, limit);
      IsliceAtMost(Filter(p, vs), offset, limit);
    }

    /**
     * The quantity bounds of the listing bound the number of
     * `add_item_to_cart` calls made on each listed cart.
     */
    lemma ListedCartsCountAdditions(offset: nat, limit: nat, minPrice: Option<real>, maxPrice: Option<real>,
                                    minQuantity: Option<int>, maxQuantity: Option<int>)
      requires Valid()
      ensures forall c :: c in PaginateFiltered(offset, limit, minPrice, maxPrice, minQuantity, maxQuantity) ==>
        && c.id in added
        && (minQuantity.Some? ==> |added[c.id]| >= minQuantity.value)
        && (maxQuantity.Some? ==> |added[c.id]| <= maxQuantity.value)
    {
      var r := PaginateFiltered(offset, limit, minPrice, maxPrice, minQuantity, maxQuantity);
      forall c | c in r
        ensures c.id in added && Consistent(c, c.id, added[c.id])
      {
      }
    }

    /**
     * A window that starts at 0 and reaches past the end lists every cart
     * that passes the filter.
     */
    lemma FullWindowListsEveryMatch(limit: nat, minPrice: Option<real>, maxPrice: Option<real>,
                                    minQuantity: Option<int>, maxQuantity: Option<int>)
      requires Valid()
      requires limit >= |carts|
      ensures forall id :: id in carts && CartMatches(carts[id], minPrice, maxPrice, minQuantity, maxQuantity) ==>
        carts[id] in PaginateFiltered(0, limit, minPrice, maxPrice, minQuantity, maxQuantity)
    {
      var vs := Values();
      var p := CartFilter(minPrice, maxPrice, minQuantity, maxQuantity);
      var f := Filter(p, vs);
      assert Islice(f, 0, limit) == f;
      forall id | id in carts && CartMatches(carts[id], minPrice, maxPrice, minQuantity, maxQuantity)
        ensures carts[id] in f
      {
        assert vs[id - 1] == carts[id];
      }
    }

    /** Unlike the item listing's, a quantity bound of 0 is a real bound: it lists only empty carts. */
    lemma ZeroMaxQuantityListsEmptyCarts(offset: nat, limit: nat, minPrice: Option<real>, maxPrice: Option<real>,
                                         minQuantity: Option<int>)
      requires Valid()
      ensures forall c :: c in PaginateFiltered(offset, limit, minPrice, maxPrice, minQuantity, Some(0)) ==>
        c.items == map[] && c.price == 0.0
    {
      var r := PaginateFiltered(offset, limit, minPrice, maxPrice, minQuantity, Some(0));
      forall c | c in r
        ensures c.items == map[] && c.price == 0.0
      {
        var h := added[c.id];
        assert Consistent(c, c.id, h);
        assert h == [];
        assert forall k :: k !in c.items;
      }
    }
  }
}
