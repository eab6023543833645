/**
 * The three view sets of the product API as one in-memory store. Each handler
 * is a method that answers with an HTTP status and, when it fails, leaves the
 * store as it was. Request bodies are reduced to payloads whose fields are
 * missing, malformed or given; what the serializer does with them is stated
 * by the Deserialize functions below.
 */
module Views {
  import opened Wrappers
  import opened Models

  /** The statuses the handlers answer with: 201, 200, 204, 400 and 404. */
  datatype Status = Created | Ok | NoContent | BadRequest | NotFound

  /** One field of a request body: absent, present but not parsable as its type, or a value. */
  datatype Field<T> = Missing | Malformed | Given(value: T)

  datatype ProductPayload = ProductPayload(name: Field<string>, price: Field<Price>, stock: Field<int>)
  datatype OrderPayload = OrderPayload(date: Field<Date>, client: Field<string>)
  datatype DetailPayload = DetailPayload(order: Field<int>, quantity: Field<int>, product: Field<int>)

  /** A required field: its value only when it is given. */
  function Required<T>(f: Field<T>): Option<T> {
    match f
    case Given(v) => Some(v)
    case _ => None
  }

  /** How many whitespace characters `s` starts with. */
  function LeadingSpace(s: string): (n: nat)
    ensures n <= |s|
    ensures forall i :: 0 <= i < n ==> IsSpace(s[i])
    ensures n == |s| || !IsSpace(s[n])
  {
    if s == [] || !IsSpace(s[0]) then 0 else 1 + LeadingSpace(s[1..])
  }

  /** How many whitespace characters `s` ends with. */
  function TrailingSpace(s: string): (n: nat)
    ensures n <= |s|
    ensures forall i :: |s| - n <= i < |s| ==> IsSpace(s[i])
    ensures n == |s| || !IsSpace(s[|s| - 1 - n])
  {
    if s == [] || !IsSpace(s[|s| - 1]) then 0 else 1 + TrailingSpace(s[..|s| - 1])
  }

  /** `str.strip()`: the text with the whitespace at both ends removed. */
  function Strip(s: string): string {
    var lead := LeadingSpace(s);
    if lead == |s| then [] else s[lead..|s| - TrailingSpace(s)]
  }

  /**
   * Stripping removes whitespace and nothing else: what is left is one contiguous piece
   * of the text, with only whitespace before it and after it.
   */
  lemma StripSlice(s: string)
    ensures var k, n := LeadingSpace(s), |Strip(s)|;
      && k + n <= |s| && Strip(s) == s[k..k + n]
      && (forall i :: 0 <= i < k ==> IsSpace(s[i]))
      && (forall i :: k + n <= i < |s| ==> IsSpace(s[i]))
  {
  }

  /** A string without whitespace at either end is its own stripped form. */
  lemma StripOfStripped(s: string)
    requires Stripped(s)
    ensures Strip(s) == s
  {
    if s != [] {
      assert LeadingSpace(s) == 0 && TrailingSpace(s) == 0;
    }
  }

  /** The stripped form has no whitespace at either end. */
  lemma StrippedStrip(s: string)
    ensures Stripped(Strip(s))
  {
  }

  /** Every character of the stripped form comes from the text, and so does every non-space one. */
  lemma StripChars(s: string)
    ensures forall c :: c in s && !IsSpace(c) ==> c in Strip(s)
    ensures forall c :: c in Strip(s) ==> c in s
  {
    var r := Strip(s);
    var k := LeadingSpace(s);
    StripSlice(s);
    forall c | c in r ensures c in s {
      var i :| 0 <= i < |r| && r[i] == c;
      assert s[k + i] == c;
    }
    forall c | c in s && !IsSpace(c) ensures c in r {
      var i :| 0 <= i < |s| && s[i] == c;
      assert r[i - k] == c;
    }
  }

  /** Stripping empties exactly the all-whitespace strings. */
  lemma StripEmpty(s: string)
    ensures Strip(s) == [] <==> forall i :: 0 <= i < |s| ==> IsSpace(s[i])
  {
  }

  /**
   * Stripping leaves a string without whitespace at either end, is the identity on such
   * strings, keeps every non-whitespace character and adds none, and empties exactly the
   * all-whitespace strings.
   */
  lemma StripSpec(s: string)
    ensures Stripped(Strip(s))
    ensures Stripped(s) ==> Strip(s) == s
    ensures Strip(Strip(s)) == Strip(s)
    ensures forall c :: c in s && !IsSpace(c) ==> c in Strip(s)
    ensures forall c :: c in Strip(s) ==> c in s
    ensures Strip(s) == [] <==> forall i :: 0 <= i < |s| ==> IsSpace(s[i])
  {
    StripChars(s);
    StripEmpty(s);
    StrippedStrip(s);
    StripOfStripped(Strip(s));
    if Stripped(s) {
      StripOfStripped(s);
    }
  }

  /**
   * How the serializer cleans a given text for a CharField(max_length=200): it strips the
   * value, then rejects it if it is blank, longer than 200 characters or holds a NUL.
   */
  function CleanText(raw: string): (r: Option<string>)
    ensures r.Some? ==> r.value == Strip(raw) && ValidText(r.value)
    ensures r.Some? <==> 0 < |Strip(raw)| <= MaxTextLength && '\0' !in raw
    ensures (forall i :: 0 <= i < |raw| ==> IsSpace(raw[i])) ==> r.None?
    ensures '\0' in raw ==> r.None?
    ensures |Strip(raw)| > MaxTextLength ==> r.None?
    ensures ValidText(Strip(raw)) ==> r == Some(Strip(raw))
    ensures ValidText(raw) ==> r == Some(raw)
  {
    StripSpec(raw);
    assert !IsSpace('\0');
    var t := Strip(raw);
    if ValidText(t) then Some(t) else None
  }

  /** A name padded with spaces is accepted, and stored without them. */
  lemma PaddedTextAccepted()
    ensures CleanText(" Acme ") == Some("Acme")
  {
    assert LeadingSpace(" Acme ") == 1;
    assert TrailingSpace(" Acme ") == 1;
    assert Strip(" Acme ") == "Acme";
  }

  /** The body that serializing a row produces (`serializer.data`, without the id). */
  function SerializeProduct(row: Product): ProductPayload {
    ProductPayload(Given(row.name), Given(row.price), Given(row.stock))
  }

  function SerializeOrder(row: Order): OrderPayload {
    OrderPayload(Given(row.date), Given(row.client))
  }

  function SerializeDetail(row: OrderDetail): DetailPayload {
    DetailPayload(Given(row.order), Given(row.quantity), Given(row.product))
  }

  /** ProductSerializer on a full body: every field is required and the name must clean. */
  function DeserializeProduct(p: ProductPayload): (r: Option<Product>)
    ensures r.Some? <==> p.name.Given? && p.price.Given? && p.stock.Given? && CleanText(p.name.value).Some?
    ensures r.Some? ==>
      r.value.name == CleanText(p.name.value).value && r.value.price == p.price.value && r.value.stock == p.stock.value
    ensures r.Some? ==> ValidProduct(r.value)
  {
    match (Required(p.name), Required(p.price), Required(p.stock))
    case (Some(raw), Some(price), Some(stock)) =>
      var name := CleanText(raw);
      if name.Some? then Some(Product(name.value, price, stock)) else None
    case _ => None
  }

  /** OrderSerializer on a full body: date and client are required, the client must clean. */
  function DeserializeOrder(p: OrderPayload): (r: Option<Order>)
    ensures r.Some? <==> p.date.Given? && p.client.Given? && CleanText(p.client.value).Some?
    ensures r.Some? ==> r.value.date == p.date.value && r.value.client == CleanText(p.client.value).value
    ensures r.Some? ==> ValidOrder(r.value)
  {
    match (Required(p.date), Required(p.client))
    case (Some(date), Some(raw)) =>
      var client := CleanText(raw);
      if client.Some? then Some(Order(date, client.value)) else None
    case _ => None
  }

  /**
   * OrderDetailSerializer on a full body for the detail `self` (None on create): every
   * field is required, both keys must name existing rows and no other detail may hold
   * the same (order, product) pair.
   */
  function DeserializeDetail(p: DetailPayload, self: Option<int>, products: Table<Product>, orders: Table<Order>,
                             details: Table<OrderDetail>): (r: Option<OrderDetail>)
    ensures r.Some? <==>
      && p.order.Given? && p.quantity.Given? && p.product.Given?
      && p.order.value in orders && p.product.value in products
      && !PairTaken(details, p.order.value, p.product.value, self)
    ensures r.Some? ==>
      r.value.order == p.order.value && r.value.quantity == p.quantity.value && r.value.product == p.product.value
  {
    match (Required(p.order), Required(p.quantity), Required(p.product))
    case (Some(order), Some(quantity), Some(product)) =>
      if order in orders && product in products && !PairTaken(details, order, product, self)
      then Some(OrderDetail(order, quantity, product))
      else None
    case _ => None
  }

  /** `partial=True`: a field the body leaves out keeps the stored value. */
  function Fill<T>(f: Field<T>, stored: T): Field<T> {
    if f.Missing? then Given(stored) else f
  }

  function FillOrder(p: OrderPayload, stored: Order): OrderPayload {
    OrderPayload(Fill(p.date, stored.date), Fill(p.client, stored.client))
  }

  function FillDetail(p: DetailPayload, stored: OrderDetail): DetailPayload {
    DetailPayload(Fill(p.order, stored.order), Fill(p.quantity, stored.quantity), Fill(p.product, stored.product))
  }

  /** Re-submitting a product's own representation yields the same product. */
  lemma ProductRoundTrip(row: Product)
    requires ValidProduct(row)
    ensures DeserializeProduct(SerializeProduct(row)) == Some(row)
  {
  }

  lemma OrderRoundTrip(row: Order)
    requires ValidOrder(row)
    ensures DeserializeOrder(SerializeOrder(row)) == Some(row)
  {
  }

  /**
   * Re-submitting a stored detail's own representation for that detail passes the
   * serializer: its pair is its own, so the uniqueness check does not object.
   */
  lemma DetailRoundTrip(self: int, products: Table<Product>, orders: Table<Order>, details: Table<OrderDetail>)
    requires self in details && ReferencesExist(products, orders, details) && PairsUnique(details)
    ensures DeserializeDetail(SerializeDetail(details[self]), Some(self), products, orders, details) == Some(details[self])
  {
  }

  /**
   * A partial update of a stored order changes exactly the supplied fields; it fails only
   * on a malformed field or an unfit client, and an empty body changes nothing.
   */
  lemma PartialOrderUpdate(p: OrderPayload, stored: Order)
    requires ValidOrder(stored)
    ensures var r := DeserializeOrder(FillOrder(p, stored));
      && (r.None? <==> p.date.Malformed? || p.client.Malformed? || (p.client.Given? && CleanText(p.client.value).None?))
      && (r.Some? ==> r.value.date == (if p.date.Given? then p.date.value else stored.date))
      && (r.Some? ==> r.value.client == (if p.client.Given? then CleanText(p.client.value).value else stored.client))
    ensures DeserializeOrder(FillOrder(OrderPayload(Missing, Missing), stored)) == Some(stored)
  {
  }

  /**
   * A partial update of a stored detail changes exactly the supplied fields, with the
   * stored values standing in for the omitted keys in the uniqueness check; an empty
   * body on a well-formed table changes nothing.
   */
  lemma PartialDetailUpdate(p: DetailPayload, self: int, products: Table<Product>, orders: Table<Order>,
                            details: Table<OrderDetail>)
    requires self in details && ReferencesExist(products, orders, details) && PairsUnique(details)
    ensures var stored := details[self];
      var r := DeserializeDetail(FillDetail(p, stored), Some(self), products, orders, details);
      && (r.Some? ==> r.value.order == (if p.order.Given? then p.order.value else stored.order))
      && (r.Some? ==> r.value.quantity == (if p.quantity.Given? then p.quantity.value else stored.quantity))
      && (r.Some? ==> r.value.product == (if p.product.Given? then p.product.value else stored.product))
      && (p.order.Malformed? || p.quantity.Malformed? || p.product.Malformed? ==> r.None?)
    ensures DeserializeDetail(FillDetail(DetailPayload(Missing, Missing, Missing), details[self]), Some(self),
                              products, orders, details) == Some(details[self])
  {
  }

  /** The in-memory store: the three tables and their id sequences. */
  class Store {
    var products: Table<Product>
    var orders: Table<Order>
    var details: Table<OrderDetail>
    var nextProductId: int
    var nextOrderId: int
    var nextDetailId: int

    ghost predicate Valid()
      reads this
    {
      WellFormed(products, orders, details, nextProductId, nextOrderId, nextDetailId)
    }

    constructor ()
      ensures Valid()
      ensures products == map[] && orders == map[] && details == map[]
    {
      products, orders, details := map[], map[], map[];
      nextProductId, nextOrderId, nextDetailId := 1, 1, 1;
    }

    /** ProductViewSet.create: a valid body becomes one new product under a never-used id. */
    method CreateProduct(p: ProductPayload) returns (status: Status, id: int)
      requires Valid()
      modifies this
      ensures Valid()
      ensures status == Created || status == BadRequest
      ensures status == Created <==> DeserializeProduct(p).Some?
      ensures status == Created ==>
        && id == old(nextProductId) && id !in old(products)
        && (forall k :: k in old(products) ==> k < id)
        && products == old(products)[id := DeserializeProduct(p).value]
        && nextProductId == id + 1
      ensures status == BadRequest ==> products == old(products) && nextProductId == old(nextProductId)
      ensures orders == old(orders) && details == old(details)
      ensures nextOrderId == old(nextOrderId) && nextDetailId == old(nextDetailId)
    {
      var row := DeserializeProduct(p);
      if row.None? {
        return BadRequest, 0;
      }
      id := nextProductId;
      PutProductKeepsWellFormed(products, orders, details, nextProductId, nextOrderId, nextDetailId,
                                id, row.value, nextProductId + 1);
      products := products[id := row.value];
      nextProductId := nextProductId + 1;
      status := Created;
    }

    /** ProductViewSet.update: a full body replaces the fields of that one product. */
    method UpdateProduct(id: int, p: ProductPayload) returns (status: Status)
      requires Valid()
      modifies this
      ensures Valid()
      ensures id !in old(products) ==> status == NotFound
      ensures id in old(products) && DeserializeProduct(p).None? ==> status == BadRequest
      ensures id in old(products) && DeserializeProduct(p).Some? ==>
        status == Ok && products == old(products)[id := DeserializeProduct(p).value]
      ensures status != Ok ==> products == old(products)
      ensures orders == old(orders) && details == old(details)
      ensures nextProductId == old(nextProductId) && nextOrderId == old(nextOrderId)
      ensures nextDetailId == old(nextDetailId)
    {
      if id !in products {
        return NotFound;
      }
      var row := DeserializeProduct(p);
      if row.None? {
        return BadRequest;
      }
      PutProductKeepsWellFormed(products, orders, details, nextProductId, nextOrderId, nextDetailId,
                                id, row.value, nextProductId);
      products := products[id := row.value];
      status := Ok;
    }

    /**
     * ProductViewSet.destroy: a product with positive stock stays; any other product
     * goes, and with it every detail that references it.
     */
    method DestroyProduct(id: int) returns (status: Status)
      requires Valid()
      modifies this
      ensures Valid()
      ensures id !in old(products) ==> status == NotFound
      ensures id in old(products) && old(products)[id].stock > 0 ==> status == BadRequest
      ensures id in old(products) && old(products)[id].stock <= 0 ==>
        && status == NoContent
        && products == old(products) - {id}
        && details == Cascade(old(details), ProductRow(id))
      ensures status != NoContent ==> products == old(products) && details == old(details)
      ensures orders == old(orders)
      ensures nextProductId == old(nextProductId) && nextOrderId == old(nextOrderId)
      ensures nextDetailId == old(nextDetailId)
    {
      if id !in products {
        return NotFound;
      }
      if products[id].stock > 0 {
        return BadRequest;
      }
      CascadeKeepsWellFormed(products, orders, details, nextProductId, nextOrderId, nextDetailId, ProductRow(id));
      details := Cascade(details, ProductRow(id));
      products := products - {id};
      status := NoContent;
    }

    /** OrderViewSet.create: a valid body becomes one new order under a never-used id. */
    method CreateOrder(p: OrderPayload) returns (status: Status, id: int)
      requires Valid()
      modifies this
      ensures Valid()
      ensures status == Created || status == BadRequest
      ensures status == Created <==> DeserializeOrder(p).Some?
      ensures status == Created ==>
        && id == old(nextOrderId) && id !in old(orders)
        && (forall k :: k in old(orders) ==> k < id)
        && orders == old(orders)[id := DeserializeOrder(p).value]
        && nextOrderId == id + 1
      ensures status == BadRequest ==> orders == old(orders) && nextOrderId == old(nextOrderId)
      ensures products == old(products) && details == old(details)
      ensures nextProductId == old(nextProductId) && nextDetailId == old(nextDetailId)
    {
      var row := DeserializeOrder(p);
      if row.None? {
        return BadRequest, 0;
      }
      id := nextOrderId;
      PutOrderKeepsWellFormed(products, orders, details, nextProductId, nextOrderId, nextDetailId,
                              id, row.value, nextOrderId + 1);
      orders := orders[id := row.value];
      nextOrderId := nextOrderId + 1;
      status := Created;
    }

    /** OrderViewSet.update: a full body replaces the fields of that one order. */
    method UpdateOrder(id: int, p: OrderPayload) returns (status: Status)
      requires Valid()
      modifies this
      ensures Valid()
      ensures id !in old(orders) ==> status == NotFound
      ensures id in old(orders) && DeserializeOrder(p).None? ==> status == BadRequest
      ensures id in old(orders) && DeserializeOrder(p).Some? ==>
        status == Ok && orders == old(orders)[id := DeserializeOrder(p).value]
      ensures status != Ok ==> orders == old(orders)
      ensures products == old(products) && details == old(details)
      ensures nextProductId == old(nextProductId) && nextOrderId == old(nextOrderId)
      ensures nextDetailId == old(nextDetailId)
    {
      if id !in orders {
        return NotFound;
      }
      var row := DeserializeOrder(p);
      if row.None? {
        return BadRequest;
      }
      PutOrderKeepsWellFormed(products, orders, details, nextProductId, nextOrderId, nextDetailId,
                              id, row.value, nextOrderId);
      orders := orders[id := row.value];
      status := Ok;
    }

    /** OrderViewSet.partial_update: the supplied fields replace those of that one order. */
    method PartialUpdateOrder(id: int, p: OrderPayload) returns (status: Status)
      requires Valid()
      modifies this
      ensures Valid()
      ensures id !in old(orders) ==> status == NotFound
      ensures id in old(orders) ==>
        var r := DeserializeOrder(FillOrder(p, old(orders)[id]));
        && (r.None? ==> status == BadRequest)
        && (r.Some? ==> status == Ok && orders == old(orders)[id := r.value])
      ensures status != Ok ==> orders == old(orders)
      ensures products == old(products) && details == old(details)
      ensures nextProductId == old(nextProductId) && nextOrderId == old(nextOrderId)
      ensures nextDetailId == old(nextDetailId)
    {
      if id !in orders {
        return NotFound;
      }
      var row := DeserializeOrder(FillOrder(p, orders[id]));
      if row.None? {
        return BadRequest;
      }
      PutOrderKeepsWellFormed(products, orders, details, nextProductId, nextOrderId, nextDetailId,
                              id, row.value, nextOrderId);
      orders := orders[id := row.value];
      status := Ok;
    }

    /** OrderViewSet.destroy: the order goes, and with it every detail that references it. */
    method DestroyOrder(id: int) returns (status: Status)
      requires Valid()
      modifies this
      ensures Valid()
      ensures id !in old(orders) ==> status == NotFound && orders == old(orders) && details == old(details)
      ensures id in old(orders) ==>
        && status == NoContent
        && orders == old(orders) - {id}
        && details == Cascade(old(details), OrderRow(id))
      ensures products == old(products)
      ensures nextProductId == old(nextProductId) && nextOrderId == old(nextOrderId)
      ensures nextDetailId == old(nextDetailId)
    {
      if id !in orders {
        return NotFound;
      }
      CascadeKeepsWellFormed(products, orders, details, nextProductId, nextOrderId, nextDetailId, OrderRow(id));
      details := Cascade(details, OrderRow(id));
      orders := orders - {id};
      status := NoContent;
    }

    /** OrderDetailViewSet.create: a valid body with a fresh pair becomes one new detail. */
    method CreateDetail(p: DetailPayload) returns (status: Status, id: int)
      requires Valid()
      modifies this
      ensures Valid()
      ensures status == Created || status == BadRequest
      ensures status == Created <==> DeserializeDetail(p, None, old(products), old(orders), old(details)).Some?
      ensures status == Created ==>
        && id == old(nextDetailId) && id !in old(details)
        && (forall k :: k in old(details) ==> k < id)
        && details == old(details)[id := DeserializeDetail(p, None, old(products), old(orders), old(details)).value]
        && nextDetailId == id + 1
      ensures status == BadRequest ==> details == old(details) && nextDetailId == old(nextDetailId)
      ensures products == old(products) && orders == old(orders)
      ensures nextProductId == old(nextProductId) && nextOrderId == old(nextOrderId)
    {
      var row := DeserializeDetail(p, None, products, orders, details);
      if row.None? {
        return BadRequest, 0;
      }
      id := nextDetailId;
      details := details[id := row.value];
      nextDetailId := nextDetailId + 1;
      status := Created;
    }

    /** OrderDetailViewSet.update: a full body replaces the fields of that one detail. */
    method UpdateDetail(id: int, p: DetailPayload) returns (status: Status)
      requires Valid()
      modifies this
      ensures Valid()
      ensures id !in old(details) ==> status == NotFound
      ensures id in old(details) ==>
        var r := DeserializeDetail(p, Some(id), old(products), old(orders), old(details));
        && (r.None? ==> status == BadRequest)
        && (r.Some? ==> status == Ok && details == old(details)[id := r.value])
      ensures status != Ok ==> details == old(details)
      ensures products == old(products) && orders == old(orders)
      ensures nextProductId == old(nextProductId) && nextOrderId == old(nextOrderId)
      ensures nextDetailId == old(nextDetailId)
    {
      if id !in details {
        return NotFound;
      }
      var row := DeserializeDetail(p, Some(id), products, orders, details);
      if row.None? {
        return BadRequest;
      }
      details := details[id := row.value];
      status := Ok;
    }

    /** OrderDetailViewSet.partial_update: the supplied fields replace those of that one detail. */
    method PartialUpdateDetail(id: int, p: DetailPayload) returns (status: Status)
      requires Valid()
      modifies this
      ensures Valid()
      ensures id !in old(details) ==> status == NotFound
      ensures id in old(details) ==>
        var r := DeserializeDetail(FillDetail(p, old(details)[id]), Some(id), old(products), old(orders), old(details));
        && (r.None? ==> status == BadRequest)
        && (r.Some? ==> status == Ok && details == old(details)[id := r.value])
      ensures status != Ok ==> details == old(details)
      ensures products == old(products) && orders == old(orders)
      ensures nextProductId == old(nextProductId) && nextOrderId == old(nextOrderId)
      ensures nextDetailId == old(nextDetailId)
    {
      if id !in details {
        return NotFound;
      }
      var row := DeserializeDetail(FillDetail(p, details[id]), Some(id), products, orders, details);
      if row.None? {
        return BadRequest;
      }
      details := details[id := row.value];
      status := Ok;
    }

    /** OrderDetailViewSet.destroy: that one detail goes; nothing references a detail. */
    method DestroyDetail(id: int) returns (status: Status)
      requires Valid()
      modifies this
      ensures Valid()
      ensures id !in old(details) ==> status == NotFound && details == old(details)
      ensures id in old(details) ==> status == NoContent && details == old(details) - {id}
      ensures products == old(products) && orders == old(orders)
      ensures nextProductId == old(nextProductId) && nextOrderId == old(nextOrderId)
      ensures nextDetailId == old(nextDetailId)
    {
      if id !in details {
        return NotFound;
      }
      details := details - {id};
      status := NoContent;
    }

    /**
     * OrderDetailViewSet.list under `ordering = ['id']`: every detail exactly once, with
     * its own row, by strictly ascending id.
     */
    function ListDetails(): (rows: seq<(int, OrderDetail)>)
      reads this
      requires Valid()
      ensures |rows| == |details|
      ensures forall i, j :: 0 <= i < j < |rows| ==> rows[i].0 < rows[j].0
      ensures forall i :: 0 <= i < |rows| ==> rows[i].0 in details && rows[i].1 == details[rows[i].0]
      ensures forall id :: id in details ==> (id, details[id]) in rows
    {
      DetailListing(details, nextDetailId)
    }
  }
}
