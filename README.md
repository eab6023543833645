# Product API store

A Dafny model of the small e-commerce back office in `ecommerceapi/product_api`.
It has three tables:

- **Product**: name, price and stock.
- **Order**: date and client.
- **OrderDetail**: one order, one product and a quantity.

Each table is reached through a view set with create, update, partial update and
destroy handlers. The model keeps the three tables as maps from id to row inside one
`Store` class. Each handler is a method of that class. It answers with a status: 201
Created, 200 Ok, 204 No Content, 400 Bad Request or 404 Not Found. On every failure it
leaves all three tables and all id counters as they were.

The model has three parts:

- `models.dfy` (module `Models`) holds the record shapes and the rules that the
  declarations in `models.py` impose:
  - each table's ids are automatic, positive and never handed out twice;
  - `name` and `client` are stored trimmed, non-empty, at most 200 characters long and
    free of NUL characters;
  - every detail references an existing order and an existing product;
  - no two details share an (order, product) pair;
  - deleting an order or a product cascades to the details that reference it;
  - details are listed in ascending id order.

  `WellFormed` collects these rules. `Cascade` is the cascading delete.
  `DetailListing` is the ordered listing.
- `views.dfy` (module `Views`) holds the handlers of `views.py`. Request bodies become
  payloads. Each payload field is `Missing`, `Malformed` (present but not of its type)
  or `Given(v)`. The `Deserialize*` functions state what the serializer accepts.
  `CleanText` is the serializer's handling of a given text: it strips whitespace at both
  ends (`Strip`, as `str.strip()` does), then rejects the result if it is empty, longer
  than 200 characters or holds a NUL character. A
  partial update fills each omitted field with the stored value and then validates
  the full body (`FillOrder`, `FillDetail`). `Store.Valid()` is `WellFormed` of the
  store's fields. Every handler requires it and keeps it.
- `wrappers.dfy` holds `Option`.

Ids are Django `AutoField`s. Each table has a counter, `nextProductId` and so on. A
created row gets the counter's value and the counter moves on, so a deleted row's id
is never reused. A failed validation does not consume an id.

Two consequences of the code are worth stating:

- **Deleting a product.** The guard at `views.py:80` is `stock > 0`. So a product with
  negative stock is deleted like one with zero stock. `DestroyProduct` states this.
- **Order fields.** `OrderSerializer` uses `fields = '__all__'` (`serializers.py:35`),
  which exposes only `id`, `date` and `client`. There is no nested list of details, and
  the model's `Order` has only `date` and `client`.

## Model

| member | source | states |
|---|---|---|
| `Models.Cascade` | ecommerceapi/product_api/models.py:62-64 | After an order or a product is deleted with `on_delete=CASCADE`, no remaining detail references it. Every detail that did not reference it remains, with its fields unchanged. Nothing else is added. |
| `Models.CascadeSize` | ecommerceapi/product_api/models.py:62-64 | The cascade removes exactly the referencing details: the table shrinks by precisely their number. |
| `Models.CascadeKeepsWellFormed` | ecommerceapi/product_api/models.py:61-68 | Deleting an order or a product together with its cascade keeps every declared rule: ids, text lengths, references, pair uniqueness. |
| `Models.PutProductKeepsWellFormed` | ecommerceapi/product_api/models.py:17-20 | Writing a valid product under an id below the id counter, whether a new id or an existing one, keeps every rule of the store. |
| `Models.PutOrderKeepsWellFormed` | ecommerceapi/product_api/models.py:35-37 | Writing a valid order under an id below the id counter keeps every rule of the store. |
| `Models.AtMostOneDetailPerPair` | ecommerceapi/product_api/models.py:67 | Under `unique_together`, at most one detail carries any (order, product) pair, so an order holds a given product at most once. |
| `Models.AscendingIds` | ecommerceapi/product_api/models.py:68 | The ids of a set within [1, hi), strictly ascending, with every such id present. |
| `Models.AscendingIdsExact` | ecommerceapi/product_api/models.py:68 | When every key is below the next id, the ascending listing holds exactly the table's keys, each once. Its length equals the number of keys. |
| `Models.DetailListing` | ecommerceapi/product_api/models.py:66-68 | Listing the details (`ordering = ['id']`) yields every detail exactly once, paired with its own row, in strictly ascending id order. |
| `Views.StripSlice` | ecommerceapi/product_api/models.py:18 | Stripping removes only whitespace, and only at the ends. The result is one contiguous piece of the text, with nothing but whitespace before and after it. |
| `Views.StripSpec` | ecommerceapi/product_api/models.py:18 | Stripping leaves no whitespace at either end and is idempotent. It is the identity on an already-trimmed string. Every non-whitespace character of the text stays and no character is added. The result is empty exactly for all-whitespace input. |
| `Views.CleanText` | ecommerceapi/product_api/models.py:18 | A given text for a `CharField(max_length=200)` is accepted iff its stripped form is non-empty and at most 200 characters and the text holds no NUL. An accepted text is stored as its stripped form, which is then a valid stored text. All-whitespace text is rejected. |
| `Views.PaddedTextAccepted` | ecommerceapi/product_api/models.py:18 | `" Acme "` is accepted and stored as `"Acme"`. |
| `Views.DeserializeProduct` | ecommerceapi/product_api/models.py:17-20 | A product body is accepted iff name, price and stock are all given and of their types, and the name cleans. The resulting row carries the cleaned name and exactly the given price and stock. |
| `Views.DeserializeOrder` | ecommerceapi/product_api/models.py:35-37 | An order body is accepted iff date and client are both given and the client cleans. The row carries the given date and the cleaned client. |
| `Views.DeserializeDetail` | ecommerceapi/product_api/models.py:61-67 | A detail body is accepted iff all three fields are given, the order and the product exist, and no other detail already holds the pair. |
| `Views.ProductRoundTrip` | ecommerceapi/product_api/views.py:98-102 | Re-submitting a valid product's own representation yields that same product. |
| `Views.OrderRoundTrip` | ecommerceapi/product_api/views.py:213-217 | Re-submitting a valid order's own representation yields that same order. |
| `Views.DetailRoundTrip` | ecommerceapi/product_api/views.py:305-309 | Re-submitting a stored detail for itself passes: the uniqueness check does not count the detail against itself. |
| `Views.PartialOrderUpdate` | ecommerceapi/product_api/views.py:237-243 | A partial order update fails iff a supplied field is malformed or a supplied client does not clean. Otherwise each supplied field replaces the stored one (the client in its cleaned form) and each omitted field keeps its value. An empty body changes nothing. |
| `Views.PartialDetailUpdate` | ecommerceapi/product_api/views.py:326-332 | A partial detail update sets each supplied field and keeps each omitted one. A malformed field is rejected. An empty body on a well-formed table changes nothing. |
| `Views.Store.CreateProduct` | ecommerceapi/product_api/views.py:46-49 | A valid body gives 201 and adds exactly one product, under an id larger than every id in the table. An invalid body gives 400 and changes nothing. |
| `Views.Store.UpdateProduct` | ecommerceapi/product_api/views.py:98-104 | For an unknown id: 404. For an invalid body: 400, store unchanged. Otherwise: 200, and only that product's fields are replaced. |
| `Views.Store.DestroyProduct` | ecommerceapi/product_api/views.py:79-83 | For an unknown id: 404. For stock > 0: 400, with all three tables unchanged. Otherwise, negative stock included: 204, the product is removed and exactly its details cascade away. |
| `Views.Store.CreateOrder` | ecommerceapi/product_api/views.py:171-176 | A valid body gives 201 and adds one order under a never-used id. An invalid body gives 400 and changes nothing. |
| `Views.Store.UpdateOrder` | ecommerceapi/product_api/views.py:213-219 | For an unknown id: 404. For an invalid full body: 400, unchanged. Otherwise: 200, and only that order is replaced. |
| `Views.Store.PartialUpdateOrder` | ecommerceapi/product_api/views.py:237-243 | For an unknown id: 404. Otherwise the supplied fields are validated and merged into that one order (200), or the body is rejected (400) with the store unchanged. |
| `Views.Store.DestroyOrder` | ecommerceapi/product_api/views.py:193-195 | For an unknown id: 404. Otherwise the delete is unconditional: 204, the order is removed, exactly its details cascade away and unrelated details are untouched. |
| `Views.Store.CreateDetail` | ecommerceapi/product_api/views.py:269-274 | A body with existing order and product and a fresh pair gives 201 and adds one detail under a never-used id. A duplicated pair or a bad body gives 400 with the detail table unchanged. |
| `Views.Store.UpdateDetail` | ecommerceapi/product_api/views.py:305-311 | For an unknown id: 404. Otherwise a full body is validated against the other details (200, that detail replaced) or rejected (400, unchanged). |
| `Views.Store.PartialUpdateDetail` | ecommerceapi/product_api/views.py:326-332 | For an unknown id: 404. Otherwise omitted fields keep their stored values and the merged row must pass the same checks as a full update (200 or 400). |
| `Views.Store.ListDetails` | ecommerceapi/product_api/views.py:253 | The detail view set's list yields every detail exactly once, with its own row, in strictly ascending id order (`ordering = ['id']`, models.py:68). |
| `Views.Store.DestroyDetail` | ecommerceapi/product_api/views.py:288-290 | For an unknown id: 404. Otherwise: 204, and only that detail is removed. |

## Left out

- HTTP plumbing is not modelled: request parsing, `Response` bodies, routing, and the
  framework's `get_object` and `get_serializer`. Handlers take an id and a payload.
  They return a status, and a new id on create.
- `ProductViewSet.partial_update` (views.py:120-125) is not modelled. It calls
  `is_valid`, `perform_update` with a model instance and `data` on that instance, not
  on a serializer, so as written it cannot apply a change.
- `ProductViewSet.list` is not modelled. It returns the rows in storage order and
  promises no ordering.
- Retrieving a single row (the framework's default `retrieve`) is not modelled as an
  operation. "Retrievable" is membership of the id in the table.
- `__str__` methods and `apps.py` are not modelled.
- Parsing raw request text is not modelled. A field that fails to parse is `Malformed`.
- Text cleaning covers trimming, blank, length and NUL checks only. Turning a non-string
  JSON value (a number, say) into text is not modelled; such a field is `Malformed`.
- `price` (a float) and `date` are opaque values. The model never computes with them or
  validates them beyond their presence.
- Integer widths are not modelled. Ids, `stock` and `quantity` are unbounded integers.
  The 32-bit range of `AutoField`/`IntegerField`, which depends on the database
  backend, is not enforced.
- Partial detail updates: the model re-checks the stored references of omitted
  fields, and also checks pair uniqueness when neither key changes. The framework
  skips both checks. On a well-formed store they always pass, so the outcome is the
  same.
- Transactions, isolation and concurrent requests are not modelled. Each handler runs
  alone and atomically.
