/** The parent-cart model: `cart_items` rows grouped by `cart_id`, each row
    carrying a derived `total_price = quantity * unit_price`, and a cart's
    total as the sum of its rows' totals. */
module CartModel {
  import opened Tables

  /** One row; prices are in cents. */
  datatype Item = Item(
    id: nat,
    cartId: Id,
    productId: Id,
    variantId: Option<Id>,
    quantity: int,
    unitPrice: int,
    totalPrice: int)

  datatype ItemTable = ItemTable(rows: seq<Item>, nextId: nat)

  /** Why an update fails: the store matched no row, or (as written) the
      update names `item` inside its own initialiser before it is bound. */
  datatype Failure = NoSuchItem | ItemNotBound

  datatype Outcome = Done(item: Item) | Failed(error: Failure)

  /** The table after a call and what the call returned. */
  datatype Change = Change(table: ItemTable, outcome: Outcome)

  predicate Priced(x: Item) {
    x.totalPrice == x.quantity * x.unitPrice
  }

  predicate IdBefore(a: Item, b: Item) {
    a.id < b.id
  }

  /** Every row is priced and has an id below `nextId`, and ids increase
      along the table. */
  ghost predicate Consistent(t: ItemTable) {
    (forall x :: x in t.rows ==> Priced(x) && x.id < t.nextId) &&
    Pairwise(t.rows, IdBefore)
  }

  function InCart(c: Id): Item -> bool {
    (x: Item) => x.cartId == c
  }

  function NotInCart(c: Id): Item -> bool {
    (x: Item) => x.cartId != c
  }

  function IsItem(c: Id, id: nat): Item -> bool {
    (x: Item) => x.id == id && x.cartId == c
  }

  function NotItem(c: Id, id: nat): Item -> bool {
    (x: Item) => !(x.id == id && x.cartId == c)
  }

  // ---------------------------------------------------------------------
  // Operations

  /** `addItem`: insert one row with the derived total. */
  function AddItemResult(t: ItemTable, c: Id, p: Id, v: Option<Id>, quantity: int, unitPrice: int): (r: Change)
    ensures r.outcome.Done? && r.table.rows == t.rows + [r.outcome.item]
    ensures r.table.nextId == t.nextId + 1 && r.outcome.item.id == t.nextId
  {
    var item := Item(t.nextId, c, p, v, quantity, unitPrice, quantity * unitPrice);
    Change(ItemTable(t.rows + [item], t.nextId + 1), Done(item))
  }

  /** `updateItem` as the repository writes it: the update's argument reads
      `item.unit_price` while `item` is still being declared, so the call
      throws before it reaches the store. */
  function UpdateItemAsWritten(t: ItemTable, c: Id, itemId: nat, quantity: int): (r: Change)
    ensures r.table == t && r.outcome.Failed?
  {
    Change(t, Failed(ItemNotBound))
  }

  /** A row with a new quantity and its total recomputed from its own unit price. */
  function Repriced(x: Item, quantity: int): (r: Item)
    ensures Priced(r) && r.quantity == quantity && r.unitPrice == x.unitPrice
    ensures r.id == x.id && r.cartId == x.cartId && r.productId == x.productId && r.variantId == x.variantId
  {
    x.(quantity := quantity, totalPrice := quantity * x.unitPrice)
  }

  /** Every row the filter selects is repriced; the others are kept. */
  function Reprice(rows: seq<Item>, sel: Item -> bool, quantity: int): (r: seq<Item>)
    ensures |r| == |rows|
    ensures forall i :: 0 <= i < |rows| ==>
              r[i] == if sel(rows[i]) then Repriced(rows[i], quantity) else rows[i]
  {
    seq(|rows|, i requires 0 <= i < |rows| =>
      if sel(rows[i]) then Repriced(rows[i], quantity) else rows[i])
  }

  /** `updateItem` as evidently intended: reprice the row with this id in
      this cart; `.single()` fails when no row matched. */
  function UpdateItemResult(t: ItemTable, c: Id, itemId: nat, quantity: int): (r: Change)
    ensures r.outcome.Failed? <==> forall x :: x in t.rows ==> !(x.id == itemId && x.cartId == c)
    ensures r.outcome.Failed? ==> r.table == t
  {
    var matched := Filter(t.rows, IsItem(c, itemId));
    if matched == [] then Change(t, Failed(NoSuchItem))
    else
      assert matched[0] in matched;
      Change(ItemTable(Reprice(t.rows, IsItem(c, itemId), quantity), t.nextId),
             Done(Repriced(matched[0], quantity)))
  }

  /** `removeItem`: delete the rows with this id in this cart. */
  function RemoveItemResult(rows: seq<Item>, c: Id, itemId: nat): (r: seq<Item>)
    ensures forall x :: x in r <==> x in rows && !(x.id == itemId && x.cartId == c)
  {
    Filter(rows, NotItem(c, itemId))
  }

  /** `clearCart`: delete every row of this cart. */
  function ClearCartResult(rows: seq<Item>, c: Id): (r: seq<Item>)
    ensures forall x :: x in r <==> x in rows && x.cartId != c
  {
    Filter(rows, NotInCart(c))
  }

  /** `getCartItems`: the rows of this cart, in table order. */
  function CartItems(rows: seq<Item>, c: Id): (r: seq<Item>)
    ensures forall x :: x in r <==> x in rows && x.cartId == c
  {
    Filter(rows, InCart(c))
  }

  /** `items.reduce((total, item) => total + item.total_price, 0)`. */
  function TotalPrice(items: seq<Item>): (r: int)
    ensures items == [] ==> r == 0
    ensures (forall x :: x in items ==> x.totalPrice >= 0) ==> r >= 0
  {
    if items == [] then 0 else TotalPrice(items[..|items| - 1]) + items[|items| - 1].totalPrice
  }

  /** `calculateTotal`. */
  function CartTotal(rows: seq<Item>, c: Id): (r: int)
    ensures (forall x :: x in rows && x.cartId == c ==> x.totalPrice >= 0) ==> r >= 0
  {
    TotalPrice(CartItems(rows, c))
  }

  /** The sum of `quantity * unit_price` over the rows, computed afresh. */
  function LineSum(items: seq<Item>): int {
    if items == [] then 0 else items[0].quantity * items[0].unitPrice + LineSum(items[1..])
  }

  // ---------------------------------------------------------------------
  // Properties

  /** `addItem` appends exactly one row: the next id, the given cart,
      product, variant, quantity and unit price, and their product as total. */
  lemma AddItemInserts(t: ItemTable, c: Id, p: Id, v: Option<Id>, quantity: int, unitPrice: int)
    ensures var r := AddItemResult(t, c, p, v, quantity, unitPrice);
      r.outcome.Done? && r.table.rows == t.rows + [r.outcome.item] &&
      r.table.nextId == t.nextId + 1 &&
      r.outcome.item == Item(t.nextId, c, p, v, quantity, unitPrice, quantity * unitPrice)
  {
  }

  lemma AddItemConsistent(t: ItemTable, c: Id, p: Id, v: Option<Id>, quantity: int, unitPrice: int)
    requires Consistent(t)
    ensures Consistent(AddItemResult(t, c, p, v, quantity, unitPrice).table)
  {
    var r := AddItemResult(t, c, p, v, quantity, unitPrice).table;
    forall i, j | 0 <= i < j < |r.rows| ensures IdBefore(r.rows[i], r.rows[j]) {
      if j < |t.rows| {
        assert IdBefore(t.rows[i], t.rows[j]);
      } else {
        assert r.rows[i] == t.rows[i] && t.rows[i] in t.rows;
      }
    }
  }

  /** Adding a row raises its cart's total by `quantity * unitPrice` and
      leaves every other cart's total alone. */
  lemma CartTotalAfterAdd(t: ItemTable, c: Id, p: Id, v: Option<Id>, quantity: int, unitPrice: int, c': Id)
    ensures CartTotal(AddItemResult(t, c, p, v, quantity, unitPrice).table.rows, c')
         == CartTotal(t.rows, c') + (if c' == c then quantity * unitPrice else 0)
  {
    var r := AddItemResult(t, c, p, v, quantity, unitPrice);
    var item := r.outcome.item;
    assert r.table.rows == t.rows + [item];
    FilterAppend(t.rows, item, InCart(c'));
    if c' == c {
      assert CartItems(r.table.rows, c') == CartItems(t.rows, c') + [item];
      TotalPriceAppend(CartItems(t.rows, c'), item);
    } else {
      assert CartItems(r.table.rows, c') == CartItems(t.rows, c');
    }
  }

  lemma TotalPriceAppend(items: seq<Item>, x: Item)
    ensures TotalPrice(items + [x]) == TotalPrice(items) + x.totalPrice
  {
    assert (items + [x])[..|items|] == items;
  }

  /** The repository's `updateItem` fails and changes nothing even when the
      row exists, where the intended update would reprice it. */
  lemma UpdateItemAsWrittenIgnoresRow(t: ItemTable, c: Id, itemId: nat, quantity: int, k: nat)
    requires k < |t.rows| && t.rows[k].id == itemId && t.rows[k].cartId == c
    ensures UpdateItemAsWritten(t, c, itemId, quantity) == Change(t, Failed(ItemNotBound))
    ensures UpdateItemResult(t, c, itemId, quantity).outcome.Done?
    ensures t.rows[k].quantity != quantity ==>
              UpdateItemResult(t, c, itemId, quantity).table != t
  {
    assert t.rows[k] in t.rows;
    var r := UpdateItemResult(t, c, itemId, quantity);
    if t.rows[k].quantity != quantity {
      assert r.table.rows[k] == Repriced(t.rows[k], quantity);
    }
  }

  /** The intended `updateItem` reprices exactly the row with this id in this
      cart, from that row's own unit price; every other row, including rows
      with the same id in other carts, is kept. */
  lemma UpdateItemReprices(t: ItemTable, c: Id, itemId: nat, quantity: int, k: nat)
    requires Consistent(t)
    requires k < |t.rows| && t.rows[k].id == itemId && t.rows[k].cartId == c
    ensures var r := UpdateItemResult(t, c, itemId, quantity);
      r.outcome == Done(Repriced(t.rows[k], quantity)) &&
      r.table.nextId == t.nextId && |r.table.rows| == |t.rows| &&
      r.table.rows[k] == t.rows[k].(quantity := quantity, totalPrice := quantity * t.rows[k].unitPrice) &&
      forall i :: 0 <= i < |t.rows| && i != k ==> r.table.rows[i] == t.rows[i]
  {
    assert t.rows[k] in t.rows;
    var matched := Filter(t.rows, IsItem(c, itemId));
    assert matched[0] in matched;
    forall i | 0 <= i < |t.rows| && i != k ensures t.rows[i].id != itemId {
      assert i < k ==> IdBefore(t.rows[i], t.rows[k]);
      assert k < i ==> IdBefore(t.rows[k], t.rows[i]);
    }
  }

  lemma UpdateItemConsistent(t: ItemTable, c: Id, itemId: nat, quantity: int)
    requires Consistent(t)
    ensures Consistent(UpdateItemResult(t, c, itemId, quantity).table)
  {
    var r := UpdateItemResult(t, c, itemId, quantity).table;
    if r != t {
      forall x | x in r.rows ensures Priced(x) && x.id < t.nextId {
        var i :| 0 <= i < |r.rows| && r.rows[i] == x;
        assert t.rows[i] in t.rows;
      }
      forall i, j | 0 <= i < j < |r.rows| ensures IdBefore(r.rows[i], r.rows[j]) {
        assert IdBefore(t.rows[i], t.rows[j]);
      }
    }
  }

  /** Removing an item leaves every other cart's rows as they were. */
  lemma RemoveItemKeepsOtherCarts(rows: seq<Item>, c: Id, itemId: nat, c': Id)
    requires c' != c
    ensures CartItems(RemoveItemResult(rows, c, itemId), c') == CartItems(rows, c')
  {
    FilterFilter(rows, NotItem(c, itemId), InCart(c'));
  }

  /** Clearing a cart empties it and leaves every other cart's rows as they were. */
  lemma ClearCartKeepsOtherCarts(rows: seq<Item>, c: Id, c': Id)
    ensures CartItems(ClearCartResult(rows, c), c) == []
    ensures c' != c ==> CartItems(ClearCartResult(rows, c), c') == CartItems(rows, c')
  {
    FilterNone(ClearCartResult(rows, c), InCart(c));
    if c' != c {
      FilterFilter(rows, NotInCart(c), InCart(c'));
    }
  }

  /** A cart without rows totals 0. */
  lemma CartTotalOfEmptyCart(rows: seq<Item>, c: Id)
    requires forall x :: x in rows ==> x.cartId != c
    ensures CartTotal(rows, c) == 0
  {
    FilterNone(rows, InCart(c));
  }

  lemma {:induction false} LineSumAppend(items: seq<Item>, x: Item)
    ensures LineSum(items + [x]) == LineSum(items) + x.quantity * x.unitPrice
  {
    if items == [] {
      assert [x][1..] == [];
    } else {
      assert (items + [x])[1..] == items[1..] + [x];
      LineSumAppend(items[1..], x);
    }
  }

  /** When every row is priced, a total folded from the stored totals equals
      the sum of quantity times unit price. */
  lemma {:induction false} TotalPriceIsLineSum(items: seq<Item>)
    requires forall x :: x in items ==> Priced(x)
    ensures TotalPrice(items) == LineSum(items)
    decreases |items|
  {
    if items != [] {
      var front, last := items[..|items| - 1], items[|items| - 1];
      assert items == front + [last];
      assert forall x :: x in front ==> x in items;
      assert last in items;
      TotalPriceIsLineSum(front);
      LineSumAppend(front, last);
      assert TotalPrice(items) == TotalPrice(front) + last.totalPrice;
    }
  }

  /** In a consistent table `calculateTotal` is the sum of quantity times
      unit price over the cart's rows. */
  lemma CartTotalIsLineSum(t: ItemTable, c: Id)
    requires Consistent(t)
    ensures CartTotal(t.rows, c) == LineSum(CartItems(t.rows, c))
  {
    TotalPriceIsLineSum(CartItems(t.rows, c));
  }

  // ---------------------------------------------------------------------
  // The table as the model object changes it

  class Carts {
    var rows: seq<Item>
    var nextId: nat

    ghost predicate Valid()
      reads this
    {
      Consistent(ItemTable(rows, nextId))
    }

    function Snapshot(): ItemTable
      reads this
    {
      ItemTable(rows, nextId)
    }

    constructor ()
      ensures Valid() && rows == [] && nextId == 0
    {
      rows, nextId := [], 0;
    }

    method AddItem(c: Id, p: Id, v: Option<Id>, quantity: int, unitPrice: int) returns (item: Item)
      requires Valid()
      modifies this
      ensures Valid()
      ensures Change(Snapshot(), Done(item)) == AddItemResult(old(Snapshot()), c, p, v, quantity, unitPrice)
    {
      AddItemConsistent(Snapshot(), c, p, v, quantity, unitPrice);
      item := Item(nextId, c, p, v, quantity, unitPrice, quantity * unitPrice);
      rows := rows + [item];
      nextId := nextId + 1;
    }

    /** The intended update; see `UpdateItemAsWritten` for the repository's. */
    method UpdateItem(c: Id, itemId: nat, quantity: int) returns (outcome: Outcome)
      requires Valid()
      modifies this
      ensures Valid()
      ensures Change(Snapshot(), outcome) == UpdateItemResult(old(Snapshot()), c, itemId, quantity)
    {
      var matched := Filter(rows, IsItem(c, itemId));
      if matched == [] {
        return Failed(NoSuchItem);
      }
      UpdateItemConsistent(Snapshot(), c, itemId, quantity);
      rows := Reprice(rows, IsItem(c, itemId), quantity);
      outcome := Done(Repriced(matched[0], quantity));
    }

    method RemoveItem(c: Id, itemId: nat) returns (ok: bool)
      requires Valid()
      modifies this
      ensures Valid() && ok
      ensures rows == RemoveItemResult(old(rows), c, itemId) && nextId == old(nextId)
    {
      FilterPairwise(rows, NotItem(c, itemId), IdBefore);
      rows := Filter(rows, NotItem(c, itemId));
      ok := true;
    }

    method ClearCart(c: Id) returns (ok: bool)
      requires Valid()
      modifies this
      ensures Valid() && ok
      ensures rows == ClearCartResult(old(rows), c) && nextId == old(nextId)
    {
      FilterPairwise(rows, NotInCart(c), IdBefore);
      rows := Filter(rows, NotInCart(c));
      ok := true;
    }
  }
}
