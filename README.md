# Shop API stores, modelled in Dafny

This project models the two in-memory stores behind the shop service's HTTP
API: the item store (`ItemStorage`) and the cart store (`CartStorage`).

- The **item store** is a dictionary from id to `Item`. It can create an item, with
  id `len(items) + 1`, and get one. It can replace one; a replace clears the
  soft-delete flag. It can update only the fields supplied, and soft-delete. It
  also gives a filtered listing, windowed by `islice(filtered, offset, limit)`.
- The **cart store** is a dictionary from id to `Cart`. It can create an empty cart,
  with id `len(carts) + 1`, and get one. It can add an item to a cart: the item's
  line gets a quantity bump, or a new snapshot line is inserted, and the item's
  price is added to the cart's price. It also gives a listing filtered by
  inclusive price bounds and inclusive total-quantity bounds, with the same window.

Files:

- `wrappers.dfy` (module `Wrappers`): `Option`, and `Result` with the two
  exceptions the stores raise (`ValueError`, `KeyError`) as values.
- `paging.dfy` (module `Paging`): the order in which a dictionary with keys
  1..n yields its values (`InOrder`), `filter` (`Filter`), and
  `itertools.islice` (`Islice`), with the lemmas the listings need.
- `item_storage.dfy` (module `Items`): `Item`, the listing filter
  `ItemMatches` with Python truthiness for the price bounds, the partial
  update `Merge`, and the class `ItemStorage`.
- `cart_storage.dfy` (module `Carts`): `CartItem`, `Cart`, the
  order-independent quantity sum `TotalQuantity`, the one-cart update
  `AddToCart`, the listing filter `CartMatches`, and the class `CartStorage`.
- `scenario.dfy` (module `Scenario`): two client methods. They show what a
  caller can conclude from the contracts alone: an item added twice to a cart,
  and the delete / replace life cycle of an item.

Each store is a class with a `map` field for the dictionary. Its object
invariant `Valid()` says that the keys are exactly 1..n, because nothing is
ever removed and each new key is `len + 1`. It also says that every value
carries its key as its id.

A Python dictionary iterates in insertion order, and assigning to an existing
key keeps its position. With keys inserted as 1, 2, ..., n, `values()` is
therefore id order. This is how both listings are modelled (`Values`).

The cart store keeps a ghost history `added`: for each cart, the items passed
to `add_item_to_cart`, in call order. `Valid()` ties each cart to its history:

- the cart's price is the sum of those items' prices;
- its total quantity is the number of additions;
- it has a line exactly for the ids added;
- each line's quantity counts the additions of that id;
- each line's name and availability are the snapshot of the first such
  addition.

Prices are `real`.

## Model

| member | source | states |
|---|---|---|
| `Items.ItemStorage.constructor` | lecture_2/hw/shop_api/app/storages/item_storage.py:15-16 | a new store is empty and satisfies the key invariant |
| `Items.ItemStorage.AddNewItem` | lecture_2/hw/shop_api/app/storages/item_storage.py:18-21 | the new item has id `len(items)+1`, a key not used before, the given name and price and `deleted` false; every existing entry is unchanged; the keys stay exactly 1..n |
| `Items.ItemStorage.GetItem` | lecture_2/hw/shop_api/app/storages/item_storage.py:23-24 | an item is found exactly when 1 <= id <= n, and it is the stored item carrying that id; `None` otherwise |
| `Items.ItemStorage.ReplaceItem` | lecture_2/hw/shop_api/app/storages/item_storage.py:26-32 | for a known id, the entry becomes that id with the new name and price and `deleted` false, so a deleted item is resurrected, and nothing else changes; an unknown id gives `ValueError` and no change |
| `Items.Merge` | lecture_2/hw/shop_api/app/storages/item_storage.py:40-45 | a partial update overwrites exactly the supplied fields and keeps id and `deleted`; supplying nothing changes nothing |
| `Items.ItemStorage.UpdateItem` | lecture_2/hw/shop_api/app/storages/item_storage.py:34-47 | name and price default to absent; for a known id, only that entry changes, to its `Merge` with the supplied fields, and that entry is returned; an unknown id gives `ValueError` and no change |
| `Items.ItemStorage.DeleteItem` | lecture_2/hw/shop_api/app/storages/item_storage.py:49-53 | for a known id, only that entry's `deleted` flag is set; deleting an already deleted item succeeds and changes nothing (idempotent); an unknown id gives `ValueError` and no change |
| `Items.ItemStorage.Values` | lecture_2/hw/shop_api/app/storages/item_storage.py:73 | the stored values in dictionary order are the items with ids 1, 2, ..., n in that order |
| `Items.ItemStorage.PaginateItemsFiltered` | lecture_2/hw/shop_api/app/storages/item_storage.py:55-74 | with the source's defaults (offset 0, limit 10, no price bounds, deleted items hidden), the page is exactly `filtered[offset:limit]`: with M the number of stored items that pass `ItemMatches`, it holds `max(0, min(limit, M) - offset)` items; a stored item is listed if and only if it passes and the number of passing items with a smaller id lies in `offset..limit-1`; every listed item is stored and passes; the page is in strictly increasing id order |
| `Items.Truthy` | lecture_2/hw/shop_api/app/storages/item_storage.py:67-69 | a bound is truthy only when given; a bound of 0 is not truthy; any other given bound is |
| `Items.ItemMatches` | lecture_2/hw/shop_api/app/storages/item_storage.py:64-71 | an item passes exactly when it is not deleted (unless `show_deleted`), its price is at least a truthy `min_price` and at most a truthy `max_price` |
| `Items.ItemStorage.PageFacts` | lecture_2/hw/shop_api/app/storages/item_storage.py:73-74 | for any filter, the window over the filtered values in id order has the exact length and membership by rank stated for the listing, holds only stored items that pass, and is in increasing id order |
| `Items.ItemStorage.WindowEndsAtLimit` | lecture_2/hw/shop_api/app/storages/item_storage.py:73-74 | with every item shown and no bounds, the page holds `max(0, min(limit, n) - offset)` items, e.g. 5 items for offset 5 and limit 10 in a store of 20 |
| `Items.ItemStorage.FullWindowListsEveryMatch` | lecture_2/hw/shop_api/app/storages/item_storage.py:64-74 | with offset 0 and a limit of at least n, every stored item that passes the filter is listed |
| `Items.ZeroBoundIsNoBound` | lecture_2/hw/shop_api/app/storages/item_storage.py:67-70 | the filter treats a price bound of 0 exactly as an absent bound |
| `Items.ItemStorage.ZeroBoundListsTheSame` | lecture_2/hw/shop_api/app/storages/item_storage.py:64-74 | a listing with a price bound of 0 is the same list as one with no bound |
| `Paging.InOrder` | lecture_2/hw/shop_api/app/storages/item_storage.py:73 | the values of a dictionary with keys 1..n, in insertion order, are the entries for keys 1..n in key order |
| `Paging.Filter` | lecture_2/hw/shop_api/app/storages/item_storage.py:73 | the result is no longer than the input; it holds only input elements that pass the predicate, and every input element that passes |
| `Paging.FilterIncreasing` | lecture_2/hw/shop_api/app/storages/item_storage.py:73 | filtering keeps relative order: an input increasing in a key gives an output increasing in that key |
| `Paging.FilterCongruent` | lecture_2/hw/shop_api/app/storages/item_storage.py:64-73 | filters that agree on every element give the same list |
| `Paging.FilterAppend` | lecture_2/hw/shop_api/app/storages/item_storage.py:73 | filtering a concatenation is the concatenation of the filtered parts, so the relative order of kept elements is the input's |
| `Paging.FilterMultiplicity` | lecture_2/hw/shop_api/app/storages/item_storage.py:73 | every passing element is kept exactly as many times as it occurs in the input, and no failing element is kept |
| `Paging.FilterKeepsAll` | lecture_2/hw/shop_api/app/storages/item_storage.py:73 | when every element passes, the filtered list is the input |
| `Paging.FilterInOrderLength` | lecture_2/hw/shop_api/app/storages/item_storage.py:73 | filtering the values for keys 1..j of a dictionary keeps as many values as there are passing keys in 1..j |
| `Paging.FilterInOrderAt` | lecture_2/hw/shop_api/app/storages/item_storage.py:73 | a passing value with key k is found in the filtered values at the position given by the number of passing keys below k |
| `Paging.WindowExact` | lecture_2/hw/shop_api/app/storages/item_storage.py:73-74 | the `islice` window over the filtered values of a dictionary keyed 1..n has length `max(0, min(stop, total) - start)`, and a value is in it exactly when it passes and its rank among passing values lies in `start..stop-1` |
| `Paging.Islice` | lecture_2/hw/shop_api/app/storages/item_storage.py:73-74 | the window holds the elements at positions `start` up to but not including `min(stop, len)`, and is empty when `start` is not below that |
| `Paging.IsliceAtMost` | lecture_2/hw/shop_api/app/storages/cart_storage.py:69-70 | a window `start..stop` holds at most `max(0, stop - start)` elements, not `stop` elements counted from `start` |
| `Carts.CartStorage.constructor` | lecture_2/hw/shop_api/app/storages/cart_storage.py:24-25 | a new store is empty and satisfies its invariant |
| `Carts.CartStorage.CreateCart` | lecture_2/hw/shop_api/app/storages/cart_storage.py:27-31 | the new id is `len(carts)+1` and was not used before; the cart stored under it has that id, no lines and price 0; existing carts are unchanged; the keys stay exactly 1..n |
| `Carts.NewCartConsistent` | lecture_2/hw/shop_api/app/storages/cart_storage.py:29 | an empty cart with price 0 agrees with an empty history of additions |
| `Carts.CartStorage.GetCart` | lecture_2/hw/shop_api/app/storages/cart_storage.py:33-34 | a cart is found exactly when 1 <= id <= n; it carries that id; its price is the sum of the prices added to it and its total quantity the number of additions; every line's key is its id and every quantity is at least 1 |
| `Carts.QuantityWithout` | lecture_2/hw/shop_api/app/storages/cart_storage.py:62 | the total quantity equals any one line's quantity plus the total of the other lines, so the sum does not depend on iteration order |
| `Carts.AddToCart` | lecture_2/hw/shop_api/app/storages/cart_storage.py:38-44 | the price grows by exactly the item's price and the total quantity by exactly 1; an existing line for the item gets quantity + 1 and keeps its snapshot, else a line with the item's id and name, quantity 1 and `available = not deleted` is inserted; every other line is unchanged |
| `Carts.AddKeepsConsistent` | lecture_2/hw/shop_api/app/storages/cart_storage.py:36-45 | a cart that agrees with its history of additions still agrees after one more `add_item_to_cart`, with the history extended by that item |
| `Carts.CartStorage.AddItemToCart` | lecture_2/hw/shop_api/app/storages/cart_storage.py:36-45 | for a known cart, only that cart changes, to `AddToCart` of it; its history grows by the item; the returned line is the cart's line for `item.id`; an unknown cart gives `KeyError` and no change |
| `Carts.CartStorage.Values` | lecture_2/hw/shop_api/app/storages/cart_storage.py:69 | the stored carts in dictionary order are the carts with ids 1, 2, ..., n in that order |
| `Carts.CartStorage.PaginateFiltered` | lecture_2/hw/shop_api/app/storages/cart_storage.py:47-70 | with the source's defaults (offset 0, limit 10, no bounds), the page is exactly `filtered[offset:limit]`: with M the number of stored carts that pass `CartMatches`, it holds `max(0, min(limit, M) - offset)` carts; a stored cart is listed if and only if it passes and the number of passing carts with a smaller id lies in `offset..limit-1`; every listed cart is stored and passes; the page is in strictly increasing id order |
| `Carts.TotalQuantity` | lecture_2/hw/shop_api/app/storages/cart_storage.py:62 | the sum of the quantities of a cart's lines, 0 for a cart with no lines; its order independence and bounds are the lemmas below |
| `Carts.QuantityAtLeastLines` | lecture_2/hw/shop_api/app/storages/cart_storage.py:62 | when every quantity is at least 1, the total is at least the number of lines, and it is 0 exactly for a cart with no lines |
| `Carts.CartMatches` | lecture_2/hw/shop_api/app/storages/cart_storage.py:57-67 | a cart passes exactly when its price lies within each given price bound and its total quantity within each given quantity bound, a bound of 0 included |
| `Carts.CartStorage.PageFacts` | lecture_2/hw/shop_api/app/storages/cart_storage.py:69-70 | for any filter, the window over the filtered carts in id order has the exact length and membership by rank stated for the listing, holds only stored carts that pass, and is in increasing id order |
| `Carts.CartStorage.ListedCartsCountAdditions` | lecture_2/hw/shop_api/app/storages/cart_storage.py:62-66 | each listed cart's number of `add_item_to_cart` calls lies within every quantity bound given |
| `Carts.CartStorage.FullWindowListsEveryMatch` | lecture_2/hw/shop_api/app/storages/cart_storage.py:57-70 | with offset 0 and a limit of at least n, every stored cart that passes the filter is listed |
| `Carts.CartStorage.ZeroMaxQuantityListsEmptyCarts` | lecture_2/hw/shop_api/app/storages/cart_storage.py:65-66 | a maximum quantity of 0 is a real bound: only carts with no lines and price 0 are listed |

## Left out

- The route modules (`routes/items.py`, `routes/carts.py`) are not part of this model. They map store results and exceptions to HTTP status codes. They also hold boundary policy that the stores do not enforce: a deleted item reads as not found, and a PATCH on a deleted item is refused.
- `routes/chats.py`, the per-topic WebSocket broadcaster, is not part of this model. Its behaviour is asynchronous network I/O with concurrent receive loops, plus random connection ids.
- `models.py` (pydantic request and response classes) and `main.py` (application wiring) are not part of this model.
- Prices are `real`. Python's floating-point rounding in `cart.price += item.price` is not modelled.
- Object aliasing is not modelled. `update_item`, `delete_item` and `add_item_to_cart` mutate objects that earlier callers may still hold. `replace_item` installs a fresh object. Here items, carts and lines are values in a map.
- Concurrency is not modelled: the stores are module-level singletons shared across requests, and each operation is treated as atomic.
- `offset` and `limit` are `nat`. `islice` raises `ValueError` for a negative bound, and the routes only pass non-negative values.
- Dictionary iteration order is not a field of the model. It is derived from the key invariant (keys inserted as 1..n, never removed) and Python's insertion-order guarantee.
- `Items.ItemStorage.GetItem` returns deleted items, as the store does. Treating a deleted item as not found is the route's policy.
