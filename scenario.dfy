/**
 * What a caller can conclude from the stores' contracts alone: the sample
 * session of the shop (one item, one cart, the item added twice), and the
 * soft-delete / replace life cycle of an item.
 */
module Scenario {
  import opened Wrappers
  import opened Items
  import opened Carts

  method AppleSession()
  {
    var itemStore := new ItemStorage();
    var cartStore := new CartStorage();

    var apple := itemStore.AddNewItem("Apple", 1.5);
    assert apple.id == 1;
    var cartId := cartStore.CreateCart();
    assert cartId == 1;

    var line := cartStore.AddItemToCart(cartId, apple);
    assert line == Ok(CartItem(1, "Apple", 1, true));
    assert cartStore.carts[1].price == 1.5;

    line := cartStore.AddItemToCart(cartId, apple);
    assert line == Ok(CartItem(1, "Apple", 2, true));
    assert cartStore.carts[1].price == 3.0;
    assert cartStore.carts[1].items.Keys == {1};

    var missing := cartStore.AddItemToCart(2, apple);
    assert missing == Err(KeyError(2));

    var carts := cartStore.PaginateFiltered(maxQuantity := Some(1));
    assert cartStore.carts[1] !in carts;
  }

  method DeleteAndResurrect()
  {
    var store := new ItemStorage();
    var pear := store.AddNewItem("Pear", 2.0);
    var plum := store.AddNewItem("Plum", 3.0);
    assert plum.id == 2;

    var deleted := store.DeleteItem(pear.id);
    assert deleted.Ok? && store.items[1].deleted;
    deleted := store.DeleteItem(pear.id);
    assert deleted.Ok? && store.items[1].deleted;

    var page := store.PaginateItemsFiltered();
    assert page == store.PaginateItemsFiltered(0, 10, None, None, false);
    assert forall x :: x in page ==> x.id != 1;
    assert |page| <= 10;

    var replaced := store.ReplaceItem(pear.id, "Pear", 2.5);
    assert replaced == Ok(Item(1, "Pear", 2.5, false));

    var patched := store.UpdateItem(2, price := Some(4.0));
    assert patched == Ok(Item(2, "Plum", 4.0, false));

    var unknown := store.DeleteItem(3);
    assert unknown.Err? && |store.items| == 2;
  }
}
