/** The shopping cart of `cart_routes.py`: the `CartItem` table as a store that
    `add_to_cart`, `update_cart_item` and `remove_from_cart` change in place. The
    product table is read only; the current user is a parameter. */
module Cart {
  import opened Wrappers
  import opened Seqs
  import opened Text
  import opened Models

  /** How a cart request ends: the change is made; a 404 page; a flash message and a
      redirect; or an exception, which the framework turns into a server error. Only
      `Done` changes the store. */
  datatype Outcome = Done | NotFound | Rejected | Failed

  /** A request's outcome and the cart table after it. */
  datatype Step = Step(outcome: Outcome, items: seq<CartItem>)

  /** `Product.query.get(id)`. */
  function ProductById(products: seq<Product>, id: int): Option<Product> {
    First(products, (p: Product) => p.id == id)
  }

  /** `int(request.form.get('quantity', 1))`: 1 when the field is absent, `None` when
      `int()` raises. */
  function AddQuantity(field: Option<string>): Option<int> {
    match field
    case None => Some(1)
    case Some(text) => ParseInt(text)
  }

  /** `request.form.get('quantity', type=int)`: `None` when the field is absent or is
      not an integer. */
  function UpdateQuantity(field: Option<string>): Option<int> {
    match field
    case None => None
    case Some(text) => ParseInt(text)
  }

  /** `filter_by(user_id=userId, product_id=productId)`. */
  function ItemFor(userId: int, productId: int): CartItem -> bool {
    (c: CartItem) => c.userId == userId && c.productId == productId
  }

  /** `filter_by(id=itemId, user_id=userId)`. */
  function OwnedItem(userId: int, itemId: int): CartItem -> bool {
    (c: CartItem) => c.id == itemId && c.userId == userId
  }

  function ItemIds(items: seq<CartItem>): seq<int> {
    seq(|items|, i requires 0 <= i < |items| => items[i].id)
  }

  /** The items of user `u` (`CartItem.query.filter_by(user_id=u)`). */
  function ItemsOf(items: seq<CartItem>, u: int): seq<CartItem> {
    Filter(items, (c: CartItem) => c.userId == u)
  }

  /** At most one item per user and product. */
  predicate OnePerProduct(items: seq<CartItem>) {
    forall i, j :: 0 <= i < j < |items| ==>
      items[i].userId != items[j].userId || items[i].productId != items[j].productId
  }

  /** `add_to_cart(productId)` for user `userId`. */
  function Add(items: seq<CartItem>, products: seq<Product>, userId: int, productId: int,
               field: Option<string>): (r: Step)
    ensures r.outcome != Done ==> r.items == items
    ensures r.outcome == Done ==> ProductById(products, productId).Some?
    ensures r.outcome == NotFound <==> ProductById(products, productId).None?
    ensures r.outcome == Failed <==> ProductById(products, productId).Some? && AddQuantity(field).None?
  {
    match ProductById(products, productId)
    case None => Step(NotFound, items)
    case Some(product) =>
      match AddQuantity(field)
      case None => Step(Failed, items)
      case Some(quantity) => AddCounted(items, product, userId, quantity)
  }

  /** `add_to_cart` once the product is found and the quantity parsed: the stock checks,
      then the merge into the user's item for the product or a new item. */
  function AddCounted(items: seq<CartItem>, product: Product, userId: int, quantity: int)
    : (r: Step)
    ensures r.outcome == Done || r == Step(Rejected, items)
  {
    if quantity > product.stock then Step(Rejected, items)
    else
      var i := FirstIndex(items, ItemFor(userId, product.id));
      if i < |items| then
        var newQuantity := items[i].quantity + quantity;
        if newQuantity > product.stock then Step(Rejected, items)
        else Step(Done, items[i := items[i].(quantity := newQuantity)])
      else
        Step(Done, items + [CartItem(NextId(ItemIds(items)), userId, product.id, quantity)])
  }

  /** `update_cart_item(itemId)` for user `userId`. */
  function Update(items: seq<CartItem>, products: seq<Product>, userId: int, itemId: int,
                  field: Option<string>): (r: Step)
    ensures r.outcome != Done ==> r.items == items
    ensures r.outcome == NotFound <==> forall k :: 0 <= k < |items| ==> !OwnedItem(userId, itemId)(items[k])
  {
    var i := FirstIndex(items, OwnedItem(userId, itemId));
    if i == |items| then Step(NotFound, items)
    else
      match UpdateQuantity(field)
      case None => Step(Rejected, items)
      case Some(quantity) =>
        if quantity < 1 then Step(Rejected, items)
        else
          match ProductById(products, items[i].productId)
          case None => Step(Failed, items)
          case Some(product) =>
            if quantity > product.stock then Step(Rejected, items)
            else Step(Done, items[i := items[i].(quantity := quantity)])
  }

  /** `remove_from_cart(itemId)` for user `userId`. */
  function Remove(items: seq<CartItem>, userId: int, itemId: int): (r: Step)
    ensures r.outcome != Done ==> r.items == items
    ensures r.outcome == Done <==> exists k :: 0 <= k < |items| && OwnedItem(userId, itemId)(items[k])
    ensures r.outcome == Done ==> |r.items| == |items| - 1
  {
    var i := FirstIndex(items, OwnedItem(userId, itemId));
    if i == |items| then Step(NotFound, items) else Step(Done, RemoveAt(items, i))
  }

  // ---------------------------------------------------------------------------
  // add_to_cart

  /** A requested quantity above the stock changes nothing, whatever is in the cart. */
  lemma AddOverStock(items: seq<CartItem>, products: seq<Product>, userId: int, productId: int,
                     field: Option<string>)
    requires ProductById(products, productId).Some? && AddQuantity(field).Some?
    requires AddQuantity(field).value > ProductById(products, productId).value.stock
    ensures Add(items, products, userId, productId, field) == Step(Rejected, items)
  {
  }

  /** With an item for the product already in the cart, `add` raises its quantity by
      the requested amount, or rejects the request when the sum would exceed the stock. */
  lemma AddToExisting(items: seq<CartItem>, products: seq<Product>, userId: int, productId: int,
                      field: Option<string>, i: nat)
    requires ProductById(products, productId).Some? && AddQuantity(field).Some?
    requires i < |items| && items[i].userId == userId && items[i].productId == productId
    requires forall k :: 0 <= k < i ==> items[k].userId != userId || items[k].productId != productId
    ensures var stock := ProductById(products, productId).value.stock;
            var sum := items[i].quantity + AddQuantity(field).value;
            var r := Add(items, products, userId, productId, field);
            (r.outcome == Done <==> AddQuantity(field).value <= stock && sum <= stock) &&
            (r.outcome == Done ==> r.items == items[i := items[i].(quantity := sum)])
  {
    var product := ProductById(products, productId).value;
    assert product.id == productId;
    assert Add(items, products, userId, productId, field) ==
           AddCounted(items, product, userId, AddQuantity(field).value);
    AddCountedToExisting(items, product, userId, AddQuantity(field).value, i);
  }

  /** `AddToExisting` once the product is found and the quantity parsed. */
  lemma AddCountedToExisting(items: seq<CartItem>, product: Product, userId: int, quantity: int, i: nat)
    requires i < |items| && items[i].userId == userId && items[i].productId == product.id
    requires forall k :: 0 <= k < i ==> items[k].userId != userId || items[k].productId != product.id
    ensures var sum := items[i].quantity + quantity;
            var r := AddCounted(items, product, userId, quantity);
            (r.outcome == Done <==> quantity <= product.stock && sum <= product.stock) &&
            (r.outcome == Done ==> r.items == items[i := items[i].(quantity := sum)])
  {
    assert FirstIndex(items, ItemFor(userId, product.id)) == i by {
      assert ItemFor(userId, product.id)(items[i]);
    }
  }

  /** Without an item for the product, `add` appends exactly one new item holding the
      requested quantity, under an id no item has. */
  lemma AddCreates(items: seq<CartItem>, products: seq<Product>, userId: int, productId: int,
                   field: Option<string>)
    requires ProductById(products, productId).Some? && AddQuantity(field).Some?
    requires AddQuantity(field).value <= ProductById(products, productId).value.stock
    requires forall k :: 0 <= k < |items| ==> items[k].userId != userId || items[k].productId != productId
    ensures var id := NextId(ItemIds(items));
            Add(items, products, userId, productId, field) ==
              Step(Done, items + [CartItem(id, userId, productId, AddQuantity(field).value)]) &&
            forall k :: 0 <= k < |items| ==> items[k].id != id
  {
    assert FirstIndex(items, ItemFor(userId, productId)) == |items|;
    var ids := ItemIds(items);
    assert forall k :: 0 <= k < |items| ==> items[k].id == ids[k];
  }

  /** `add` checks only the upper bound: any quantity up to the stock, zero and negative
      ones included, is put into a cart that does not yet hold the product. */
  lemma AddHasNoLowerBound(items: seq<CartItem>, products: seq<Product>, userId: int,
                           productId: int, quantity: int)
    requires ProductById(products, productId).Some?
    requires quantity <= ProductById(products, productId).value.stock
    requires forall k :: 0 <= k < |items| ==> items[k].userId != userId || items[k].productId != productId
    ensures Add(items, products, userId, productId, Some(IntToString(quantity))) ==
            Step(Done, items + [CartItem(NextId(ItemIds(items)), userId, productId, quantity)])
  {
    ParseIntRoundTrip(quantity);
    AddCreates(items, products, userId, productId, Some(IntToString(quantity)));
  }

  /** After a successful `add`, the cart holds an item for the product whose quantity
      does not exceed the product's stock. */
  lemma AddWithinStock(items: seq<CartItem>, products: seq<Product>, userId: int, productId: int,
                       field: Option<string>)
    requires Add(items, products, userId, productId, field).outcome == Done
    ensures var r := Add(items, products, userId, productId, field);
            exists k :: 0 <= k < |r.items| && r.items[k].userId == userId &&
                        r.items[k].productId == productId &&
                        r.items[k].quantity <= ProductById(products, productId).value.stock
  {
    var r := Add(items, products, userId, productId, field);
    var i := FirstIndex(items, ItemFor(userId, productId));
    if i < |items| {
      assert r.items[i].userId == userId && r.items[i].productId == productId;
    } else {
      assert r.items[|items|].userId == userId && r.items[|items|].productId == productId;
    }
  }

  /** `add` keeps at most one item per user and product. */
  lemma AddKeepsOnePerProduct(items: seq<CartItem>, products: seq<Product>, userId: int,
                              productId: int, field: Option<string>)
    requires OnePerProduct(items)
    ensures OnePerProduct(Add(items, products, userId, productId, field).items)
  {
    var r := Add(items, products, userId, productId, field);
    if r.outcome == Done {
      var i := FirstIndex(items, ItemFor(userId, productId));
      if i < |items| {
        OnePerProductUpdate(items, i, r.items[i]);
      } else {
        assert forall k :: 0 <= k < |items| ==> !ItemFor(userId, productId)(items[k]);
        OnePerProductAppend(items, r.items[|items|]);
      }
    }
  }

  /** Changing an item but not its user and product keeps one item per product. */
  lemma OnePerProductUpdate(items: seq<CartItem>, i: nat, x: CartItem)
    requires OnePerProduct(items) && i < |items|
    requires x.userId == items[i].userId && x.productId == items[i].productId
    ensures OnePerProduct(items[i := x])
  {
    assert forall k :: 0 <= k < |items| ==>
      items[i := x][k].userId == items[k].userId && items[i := x][k].productId == items[k].productId;
  }

  /** Appending an item for a new user and product keeps one item per product. */
  lemma OnePerProductAppend(items: seq<CartItem>, x: CartItem)
    requires OnePerProduct(items)
    requires forall k :: 0 <= k < |items| ==> items[k].userId != x.userId || items[k].productId != x.productId
    ensures OnePerProduct(items + [x])
  {
  }

  // ---------------------------------------------------------------------------
  // update_cart_item

  /** `update` succeeds exactly when the user owns the item and the quantity is an
      integer from 1 to the product's stock; it then sets that quantity and nothing
      else. */
  lemma UpdateSetsQuantity(items: seq<CartItem>, products: seq<Product>, userId: int, itemId: int,
                           field: Option<string>, i: nat)
    requires i < |items| && items[i].id == itemId && items[i].userId == userId
    requires forall k :: 0 <= k < i ==> items[k].id != itemId || items[k].userId != userId
    ensures var r := Update(items, products, userId, itemId, field);
            var q := UpdateQuantity(field);
            var product := ProductById(products, items[i].productId);
            (r.outcome == Done <==>
               q.Some? && 1 <= q.value && product.Some? && q.value <= product.value.stock) &&
            (r.outcome == Done ==> r.items == items[i := items[i].(quantity := q.value)])
  {
    assert FirstIndex(items, OwnedItem(userId, itemId)) == i by {
      assert OwnedItem(userId, itemId)(items[i]);
    }
  }

  /** `update` keeps at most one item per user and product. */
  lemma UpdateKeepsOnePerProduct(items: seq<CartItem>, products: seq<Product>, userId: int,
                                 itemId: int, field: Option<string>)
    requires OnePerProduct(items)
    ensures OnePerProduct(Update(items, products, userId, itemId, field).items)
  {
    var r := Update(items, products, userId, itemId, field);
    if r.outcome == Done {
      var i := FirstIndex(items, OwnedItem(userId, itemId));
      OnePerProductUpdate(items, i, r.items[i]);
    }
  }

  // ---------------------------------------------------------------------------
  // remove_from_cart

  /** `remove` deletes exactly the addressed item of the user: the others stay, in
      order. */
  lemma RemoveDeletesOne(items: seq<CartItem>, userId: int, itemId: int, i: nat)
    requires i < |items| && items[i].id == itemId && items[i].userId == userId
    requires forall k :: 0 <= k < i ==> items[k].id != itemId || items[k].userId != userId
    ensures Remove(items, userId, itemId) == Step(Done, items[..i] + items[i + 1..])
    ensures multiset(Remove(items, userId, itemId).items) + multiset{items[i]} == multiset(items)
  {
    assert FirstIndex(items, OwnedItem(userId, itemId)) == i by {
      assert OwnedItem(userId, itemId)(items[i]);
    }
    assert items == items[..i] + [items[i]] + items[i + 1..];
  }

  /** `remove` keeps at most one item per user and product. */
  lemma RemoveKeepsOnePerProduct(items: seq<CartItem>, userId: int, itemId: int)
    requires OnePerProduct(items)
    ensures OnePerProduct(Remove(items, userId, itemId).items)
  {
  }

  // ---------------------------------------------------------------------------
  // Other users' carts

  /** Replacing an item of another user by one of another user leaves `u`'s items as
      they are. */
  lemma ItemsOfUpdate(items: seq<CartItem>, i: nat, x: CartItem, u: int)
    requires i < |items| && items[i].userId != u && x.userId != u
    ensures ItemsOf(items[i := x], u) == ItemsOf(items, u)
  {
    var a, b := items[..i], items[i + 1..];
    assert items == a + [items[i]] + b;
    assert items[i := x] == a + [x] + b;
    FilterAroundRejected(a, items[i], b, (c: CartItem) => c.userId == u);
    FilterAroundRejected(a, x, b, (c: CartItem) => c.userId == u);
  }

  /** Removing an item of another user leaves `u`'s items as they are. */
  lemma ItemsOfRemove(items: seq<CartItem>, i: nat, u: int)
    requires i < |items| && items[i].userId != u
    ensures ItemsOf(RemoveAt(items, i), u) == ItemsOf(items, u)
  {
    var a, b := items[..i], items[i + 1..];
    assert items == a + [items[i]] + b;
    FilterAroundRejected(a, items[i], b, (c: CartItem) => c.userId == u);
  }

  /** No `add` of user `userId` changes the cart of another user `u`. */
  lemma AddLeavesOtherCarts(items: seq<CartItem>, products: seq<Product>, userId: int, u: int,
                            productId: int, field: Option<string>)
    requires u != userId
    ensures ItemsOf(Add(items, products, userId, productId, field).items, u) == ItemsOf(items, u)
  {
    var add := Add(items, products, userId, productId, field);
    if add.outcome == Done {
      var i := FirstIndex(items, ItemFor(userId, productId));
      if i < |items| {
        ItemsOfUpdate(items, i, add.items[i], u);
      } else {
        FilterAppend(items, [add.items[|items|]], (c: CartItem) => c.userId == u);
      }
    }
  }

  /** No `update` of user `userId` changes the cart of another user `u`. */
  lemma UpdateLeavesOtherCarts(items: seq<CartItem>, products: seq<Product>, userId: int, u: int,
                               itemId: int, field: Option<string>)
    requires u != userId
    ensures ItemsOf(Update(items, products, userId, itemId, field).items, u) == ItemsOf(items, u)
  {
    var update := Update(items, products, userId, itemId, field);
    if update.outcome == Done {
      var j := FirstIndex(items, OwnedItem(userId, itemId));
      ItemsOfUpdate(items, j, update.items[j], u);
    }
  }

  /** No `remove` of user `userId` changes the cart of another user `u`. */
  lemma RemoveLeavesOtherCarts(items: seq<CartItem>, userId: int, u: int, itemId: int)
    requires u != userId
    ensures ItemsOf(Remove(items, userId, itemId).items, u) == ItemsOf(items, u)
  {
    var j := FirstIndex(items, OwnedItem(userId, itemId));
    if j < |items| {
      ItemsOfRemove(items, j, u);
    }
  }

  // ---------------------------------------------------------------------------
  // The store

  /** The `CartItem` table, changed in place by the three cart requests. */
  class CartStore {
    var items: seq<CartItem>

    constructor (initial: seq<CartItem>)
      ensures items == initial
    {
      items := initial;
    }

    /** `add_to_cart(productId)` for the logged-in user `userId`. */
    method AddToCart(products: seq<Product>, userId: int, productId: int, field: Option<string>)
      returns (outcome: Outcome)
      modifies this
      ensures outcome == Add(old(items), products, userId, productId, field).outcome
      ensures items == Add(old(items), products, userId, productId, field).items
    {
      var product := ProductById(products, productId);
      if product.None? {
        return NotFound;
      }
      var quantity := AddQuantity(field);
      if quantity.None? {
        return Failed;
      }
      outcome := AddParsed(product.value, userId, quantity.value);
    }

    /** The part of `add_to_cart` after the product lookup and `int()`. */
    method AddParsed(product: Product, userId: int, quantity: int) returns (outcome: Outcome)
      modifies this
      ensures outcome == AddCounted(old(items), product, userId, quantity).outcome
      ensures items == AddCounted(old(items), product, userId, quantity).items
    {
      if quantity > product.stock {
        return Rejected;
      }
      var i := FirstIndex(items, ItemFor(userId, product.id));
      if i < |items| {
        var newQuantity := items[i].quantity + quantity;
        if newQuantity > product.stock {
          return Rejected;
        }
        items := items[i := items[i].(quantity := newQuantity)];
      } else {
        var item := CartItem(NextId(ItemIds(items)), userId, product.id, quantity);
        items := items + [item];
      }
      return Done;
    }

    /** `update_cart_item(itemId)` for the logged-in user `userId`. */
    method UpdateCartItem(products: seq<Product>, userId: int, itemId: int, field: Option<string>)
      returns (outcome: Outcome)
      modifies this
      ensures outcome == Update(old(items), products, userId, itemId, field).outcome
      ensures items == Update(old(items), products, userId, itemId, field).items
    {
      var i := FirstIndex(items, OwnedItem(userId, itemId));
      if i == |items| {
        return NotFound;
      }
      var quantity := UpdateQuantity(field);
      if quantity.None? || quantity.value < 1 {
        return Rejected;
      }
      var product := ProductById(products, items[i].productId);
      if product.None? {
        return Failed;
      }
      if quantity.value > product.value.stock {
        return Rejected;
      }
      items := items[i := items[i].(quantity := quantity.value)];
      return Done;
    }

    /** `remove_from_cart(itemId)` for the logged-in user `userId`. */
    method RemoveFromCart(userId: int, itemId: int) returns (outcome: Outcome)
      modifies this
      ensures outcome == Remove(old(items), userId, itemId).outcome
      ensures items == Remove(old(items), userId, itemId).items
    {
      var i := FirstIndex(items, OwnedItem(userId, itemId));
      if i == |items| {
        return NotFound;
      }
      items := items[..i] + items[i + 1..];
      return Done;
    }
  }
}
