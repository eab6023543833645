/**
 * The three tables of the product API (Product, Order, OrderDetail) and the
 * rules their declarations impose: automatic ids, the 200-character limit on
 * the two text fields, the foreign keys from OrderDetail to Order and Product
 * with their cascading deletes, the uniqueness of the (order, product) pair,
 * and the ascending-id default ordering of OrderDetail.
 */
module Models {
  import opened Wrappers

  /** `max_length` of Product.name and Order.client. */
  const MaxTextLength: nat := 200

  /** A FloatField value, kept as its 64 bits; nothing in the model computes with it. */
  datatype Price = Price(bits: bv64)

  /** A DateField value; nothing in the model computes with it. */
  datatype Date = Date(year: int, month: int, day: int)

  /** A Product row without its id (the id is the key of the table). */
  datatype Product = Product(name: string, price: Price, stock: int)

  /** An Order row without its id. */
  datatype Order = Order(date: Date, client: string)

  /** An OrderDetail row without its id: the ids of its order and its product. */
  datatype OrderDetail = OrderDetail(order: int, quantity: int, product: int)

  /** A table maps ids to rows. */
  type Table<T> = map<int, T>

  /** The characters Python's `str.strip()` removes: its whitespace characters. */
  predicate IsSpace(c: char) {
    || c == ' ' || ('\t' <= c <= '\r') || ('\U{001C}' <= c <= '\U{001F}')
    || c == '\U{0085}' || c == '\U{00A0}' || c == '\U{1680}' || ('\U{2000}' <= c <= '\U{200A}')
    || c == '\U{2028}' || c == '\U{2029}' || c == '\U{202F}' || c == '\U{205F}' || c == '\U{3000}'
  }

  /** A string with no whitespace at either end. */
  predicate Stripped(s: string) {
    s == [] || (!IsSpace(s[0]) && !IsSpace(s[|s| - 1]))
  }

  /**
   * A value a required CharField(max_length=200) holds once the serializer has cleaned
   * it: trimmed, not empty, at most 200 characters and free of NUL characters.
   */
  predicate ValidText(s: string) {
    Stripped(s) && 0 < |s| <= MaxTextLength && '\0' !in s
  }

  predicate ValidProduct(p: Product) {
    ValidText(p.name)
  }

  predicate ValidOrder(o: Order) {
    ValidText(o.client)
  }

  /** Every id of an AutoField table is positive and below the next id to hand out. */
  predicate IdsBelow<T>(table: Table<T>, next: int) {
    forall id :: id in table ==> 1 <= id < next
  }

  /** Both foreign keys of every OrderDetail point at existing rows. */
  predicate ReferencesExist(products: Table<Product>, orders: Table<Order>, details: Table<OrderDetail>) {
    forall id :: id in details ==> details[id].order in orders && details[id].product in products
  }

  /** `unique_together = ('order_id', 'product_id')`. */
  predicate PairsUnique(details: Table<OrderDetail>) {
    forall a, b :: a in details && b in details && a != b ==>
      details[a].order != details[b].order || details[a].product != details[b].product
  }

  /**
   * Whether a detail other than `self` (the detail being updated; None on create)
   * already uses the pair (order, product).
   */
  predicate PairTaken(details: Table<OrderDetail>, order: int, product: int, self: Option<int>) {
    exists id :: id in details && self != Some(id) && details[id].order == order && details[id].product == product
  }

  /** The whole store: the three tables, the three id counters and every declared rule. */
  predicate WellFormed(products: Table<Product>, orders: Table<Order>, details: Table<OrderDetail>,
                       nextProduct: int, nextOrder: int, nextDetail: int)
  {
    && 1 <= nextProduct && 1 <= nextOrder && 1 <= nextDetail
    && IdsBelow(products, nextProduct) && IdsBelow(orders, nextOrder) && IdsBelow(details, nextDetail)
    && (forall id :: id in products ==> ValidProduct(products[id]))
    && (forall id :: id in orders ==> ValidOrder(orders[id]))
    && ReferencesExist(products, orders, details)
    && PairsUnique(details)
  }

  /** Writing a valid product under an id below the (possibly advanced) counter keeps every rule. */
  lemma PutProductKeepsWellFormed(products: Table<Product>, orders: Table<Order>, details: Table<OrderDetail>,
                                  nextProduct: int, nextOrder: int, nextDetail: int,
                                  id: int, row: Product, nextProduct': int)
    requires WellFormed(products, orders, details, nextProduct, nextOrder, nextDetail)
    requires ValidProduct(row) && 1 <= id < nextProduct' && nextProduct <= nextProduct'
    ensures WellFormed(products[id := row], orders, details, nextProduct', nextOrder, nextDetail)
  {
    var products' := products[id := row];
    forall k | k in products' ensures ValidProduct(products'[k]) {
      if k != id {
        assert products'[k] == products[k];
      }
    }
  }

  /** Writing a valid order under an id below the (possibly advanced) counter keeps every rule. */
  lemma PutOrderKeepsWellFormed(products: Table<Product>, orders: Table<Order>, details: Table<OrderDetail>,
                                nextProduct: int, nextOrder: int, nextDetail: int,
                                id: int, row: Order, nextOrder': int)
    requires WellFormed(products, orders, details, nextProduct, nextOrder, nextDetail)
    requires ValidOrder(row) && 1 <= id < nextOrder' && nextOrder <= nextOrder'
    ensures WellFormed(products, orders[id := row], details, nextProduct, nextOrder', nextDetail)
  {
    var orders' := orders[id := row];
    forall k | k in orders' ensures ValidOrder(orders'[k]) {
      if k != id {
        assert orders'[k] == orders[k];
      }
    }
  }

  /** The row whose deletion cascades to the details: an Order or a Product. */
  datatype Parent = OrderRow(id: int) | ProductRow(id: int)

  predicate Refers(d: OrderDetail, parent: Parent) {
    match parent
    case OrderRow(o) => d.order == o
    case ProductRow(p) => d.product == p
  }

  /** The ids of the details whose foreign key points at `parent`. */
  function Referencing(details: Table<OrderDetail>, parent: Parent): set<int> {
    set id | id in details && Refers(details[id], parent)
  }

  /** `on_delete=CASCADE`: what is left of the detail table once `parent` is deleted. */
  function Cascade(details: Table<OrderDetail>, parent: Parent): (r: Table<OrderDetail>)
    ensures forall id :: id in r ==> id in details && r[id] == details[id]
    ensures forall id :: id in r ==> !Refers(r[id], parent)
    ensures forall id :: id in details && !Refers(details[id], parent) ==> id in r
  {
    details - Referencing(details, parent)
  }

  /** The cascade removes exactly the referencing details, and no others. */
  lemma CascadeSize(details: Table<OrderDetail>, parent: Parent)
    ensures |Cascade(details, parent)| == |details| - |Referencing(details, parent)|
  {
  }

  /** Deleting a parent together with its referencing details keeps every rule. */
  lemma CascadeKeepsWellFormed(products: Table<Product>, orders: Table<Order>, details: Table<OrderDetail>,
                               nextProduct: int, nextOrder: int, nextDetail: int, parent: Parent)
    requires WellFormed(products, orders, details, nextProduct, nextOrder, nextDetail)
    ensures parent.OrderRow? ==>
      WellFormed(products, orders - {parent.id}, Cascade(details, parent), nextProduct, nextOrder, nextDetail)
    ensures parent.ProductRow? ==>
      WellFormed(products - {parent.id}, orders, Cascade(details, parent), nextProduct, nextOrder, nextDetail)
  {
  }

  /** The ids of the details that carry the pair (order, product). */
  function Holders(details: Table<OrderDetail>, order: int, product: int): set<int> {
    set id | id in details && details[id].order == order && details[id].product == product
  }

  /**
   * Under unique_together, an order holds a given product at most once: at most one
   * detail carries any (order, product) pair.
   */
  lemma AtMostOneDetailPerPair(details: Table<OrderDetail>, order: int, product: int)
    requires PairsUnique(details)
    ensures |Holders(details, order, product)| <= 1
  {
    var holders := Holders(details, order, product);
    if x :| x in holders {
      forall y | y in holders ensures y == x {
        assert y in details && x in details;
      }
      assert holders == {x};
    } else {
      assert forall y :: y !in holders;
      assert holders == {};
    }
  }

  /** The ids of `keys` in [1, hi) in ascending order: `ordering = ['id']`. */
  function AscendingIds(keys: set<int>, hi: int): (r: seq<int>)
    decreases hi
    ensures forall i, j :: 0 <= i < j < |r| ==> r[i] < r[j]
    ensures forall i :: 0 <= i < |r| ==> r[i] in keys && 1 <= r[i] < hi
    ensures forall id :: id in keys && 1 <= id < hi ==> id in r
  {
    if hi <= 1 then []
    else AscendingIds(keys, hi - 1) + (if hi - 1 in keys then [hi - 1] else [])
  }

  /** A strictly ascending sequence lists as many ids as its set of elements holds. */
  lemma {:induction false} AscendingCard(s: seq<int>)
    requires forall i, j :: 0 <= i < j < |s| ==> s[i] < s[j]
    ensures |set x | x in s| == |s|
  {
    if s != [] {
      var init := s[..|s| - 1];
      AscendingCard(init);
      assert (set x | x in s) == (set x | x in init) + {s[|s| - 1]};
      assert s[|s| - 1] !in (set x | x in init);
    }
  }

  /** When every key lies in [1, hi), the ascending listing holds each key exactly once. */
  lemma AscendingIdsExact(keys: set<int>, hi: int)
    requires forall id :: id in keys ==> 1 <= id < hi
    ensures (set x | x in AscendingIds(keys, hi)) == keys
    ensures |AscendingIds(keys, hi)| == |keys|
  {
    var r := AscendingIds(keys, hi);
    assert (set x | x in r) == keys;
    AscendingCard(r);
  }

  /** The rows of `details` under the given ids, in the order of the ids. */
  function RowsOf(details: Table<OrderDetail>, ids: seq<int>): (rows: seq<(int, OrderDetail)>)
    requires forall i :: 0 <= i < |ids| ==> ids[i] in details
    ensures |rows| == |ids|
    ensures forall i :: 0 <= i < |rows| ==> rows[i].0 == ids[i] && rows[i].1 == details[ids[i]]
  {
    if ids == [] then [] else [(ids[0], details[ids[0]])] + RowsOf(details, ids[1..])
  }

  /** Each listed id comes out with its own row. */
  lemma RowsOfContains(details: Table<OrderDetail>, ids: seq<int>, id: int)
    requires forall i :: 0 <= i < |ids| ==> ids[i] in details
    requires id in ids
    ensures (id, details[id]) in RowsOf(details, ids)
  {
    var i :| 0 <= i < |ids| && ids[i] == id;
    assert RowsOf(details, ids)[i] == (id, details[id]);
  }

  /** The detail table listed by `ordering = ['id']`: every detail once, by ascending id. */
  function DetailListing(details: Table<OrderDetail>, hi: int): (rows: seq<(int, OrderDetail)>)
    requires IdsBelow(details, hi)
    ensures |rows| == |details|
    ensures forall i, j :: 0 <= i < j < |rows| ==> rows[i].0 < rows[j].0
    ensures forall i :: 0 <= i < |rows| ==> rows[i].0 in details && rows[i].1 == details[rows[i].0]
    ensures forall id :: id in details ==> (id, details[id]) in rows
  {
    var ids := AscendingIds(details.Keys, hi);
    AscendingIdsExact(details.Keys, hi);
    assert |ids| == |details|;
    var rows := RowsOf(details, ids);
    assert forall id :: id in details ==> (id, details[id]) in rows by {
      forall id | id in details ensures (id, details[id]) in rows {
        RowsOfContains(details, ids, id);
      }
    }
    rows
  }
}
