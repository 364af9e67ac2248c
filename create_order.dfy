/** The decision part of `CreateOrderService.execute`: everything the service
    computes between its repository calls. Given whether the customer exists,
    the products the batch lookup found, and the request, it picks the first
    failing validation or builds the line items; and, from a stored order's
    line items, it computes the new absolute stock values. */
module CreateOrder {
  import opened Lists

  type Id = string

  /** Prices are only copied from the catalog into line items, never computed
      with, so integer cents stand in for the source's floating-point number. */
  type Price = int

  /** One requested `{ id, quantity }` pair. Quantities are not validated. */
  datatype Item = Item(id: Id, quantity: int)

  /** A product as the batch lookup returned it: a snapshot of the catalog. */
  datatype Product = Product(id: Id, price: Price, quantity: int)

  /** `{ product_id, quantity, price }`: a line of the order. */
  datatype LineItem = LineItem(productId: Id, quantity: int, price: Price)

  /** `{ id, quantity }`: the absolute stock value to write for a product. */
  datatype StockUpdate = StockUpdate(id: Id, quantity: int)

  /** The four validation failures, in the order they are checked. */
  datatype Error =
    | CustomerNotFound
    | NoProductsFound
    | ProductNotFound(id: Id)
    | InsufficientStock(quantity: int, id: Id)

  datatype Result<T> = Ok(value: T) | Err(error: Error)

  /** `findProducts.map(product => product.id)` */
  function Ids(found: seq<Product>): (ids: seq<Id>)
  {
    seq(|found|, k requires 0 <= k < |found| => found[k].id)
  }

  /** `existentProductsIds.includes(id)` */
  predicate Known(found: seq<Product>, id: Id)
  {
    id in Ids(found)
  }

  /** `p => p.id === id` */
  function ById(id: Id): (matches: Product -> bool)
  {
    (p: Product) => p.id == id
  }

  /** `findProducts.filter(p => p.id === id)[0]`: defined only when some found
      product has that id, and then the first such product. */
  function FirstWithId(found: seq<Product>, id: Id): (p: Product)
    requires Known(found, id)
    ensures exists k :: 0 <= k < |found| && found[k] == p && p.id == id &&
                        forall j :: 0 <= j < k ==> found[j].id != id
  {
    var k :| 0 <= k < |found| && Ids(found)[k] == id;
    assert ById(id)(found[k]);
    FilterEmpty(found, ById(id));
    FilterHead(found, ById(id));
    Filter(found, ById(id))[0]
  }

  /** The filter at lines 44-46: requested items whose id was not found. */
  function Unknown(found: seq<Product>): (missing: Item -> bool)
  {
    (i: Item) => !Known(found, i.id)
  }

  /** The filter at lines 54-58: requested items asking for more than the
      first found product with their id has in stock. */
  function Insufficient(found: seq<Product>): (short: Item --> bool)
  {
    (i: Item) requires Known(found, i.id) => FirstWithId(found, i.id).quantity < i.quantity
  }

  /** Every requested id was found. */
  predicate AllKnown(found: seq<Product>, req: seq<Item>)
  {
    forall k :: 0 <= k < |req| ==> Known(found, req[k].id)
  }

  /** Every requested quantity fits its product's stock; equal passes. */
  predicate AllSufficient(found: seq<Product>, req: seq<Item>)
    requires AllKnown(found, req)
  {
    forall k :: 0 <= k < |req| ==> req[k].quantity <= FirstWithId(found, req[k].id).quantity
  }

  /** `k` is the first request position whose id was not found. */
  predicate FirstUnknown(found: seq<Product>, req: seq<Item>, k: int)
  {
    0 <= k < |req| && !Known(found, req[k].id) &&
    forall j :: 0 <= j < k ==> Known(found, req[j].id)
  }

  /** `k` is the first request position whose quantity exceeds the stock. */
  predicate FirstInsufficient(found: seq<Product>, req: seq<Item>, k: int)
    requires AllKnown(found, req)
  {
    0 <= k < |req| && FirstWithId(found, req[k].id).quantity < req[k].quantity &&
    forall j :: 0 <= j < k ==> req[j].quantity <= FirstWithId(found, req[j].id).quantity
  }

  /** The unfound-ids filter is empty exactly when every requested id was
      found; otherwise its element `[0]` is the first unfound request item. */
  lemma {:induction false} UnknownFilter(found: seq<Product>, req: seq<Item>)
    ensures Filter(req, Unknown(found)) == [] <==> AllKnown(found, req)
    ensures Filter(req, Unknown(found)) != [] ==>
              exists k :: FirstUnknown(found, req, k) && Filter(req, Unknown(found))[0] == req[k]
  {
    FilterEmpty(req, Unknown(found));
    if Filter(req, Unknown(found)) != [] {
      FilterHead(req, Unknown(found));
      var k :| IsFirst(req, Unknown(found), k) && Filter(req, Unknown(found))[0] == req[k];
      assert FirstUnknown(found, req, k);
    }
  }

  /** Once every id was found, the stock filter is empty exactly when every
      quantity fits; otherwise its element `[0]` is the first item that does
      not. */
  lemma {:induction false} InsufficientFilter(found: seq<Product>, req: seq<Item>)
    requires AllKnown(found, req)
    ensures Filter(req, Insufficient(found)) == [] <==> AllSufficient(found, req)
    ensures Filter(req, Insufficient(found)) != [] ==>
              exists k :: FirstInsufficient(found, req, k) && Filter(req, Insufficient(found))[0] == req[k]
  {
    FilterEmpty(req, Insufficient(found));
    if Filter(req, Insufficient(found)) != [] {
      FilterHead(req, Insufficient(found));
      var k :| IsFirst(req, Insufficient(found), k) && Filter(req, Insufficient(found))[0] == req[k];
      assert FirstInsufficient(found, req, k);
    }
  }

  /** `products.map(...)` at lines 67-71: one line per request item, in order,
      priced from the first found product with that id. */
  function Serialize(found: seq<Product>, req: seq<Item>): (lines: seq<LineItem>)
    requires AllKnown(found, req)
    ensures |lines| == |req|
    ensures forall k :: 0 <= k < |req| ==>
              lines[k].productId == req[k].id && lines[k].quantity == req[k].quantity &&
              exists j :: 0 <= j < |found| && found[j].id == req[k].id && found[j].price == lines[k].price
  {
    seq(|req|, k requires 0 <= k < |req| =>
      LineItem(req[k].id, req[k].quantity, FirstWithId(found, req[k].id).price))
  }

  /** Lines 32-71 of `execute`: the validation chain and the line items it
      hands to the order store. The checks run in a fixed order and the first
      one that fails decides the error; the last two name the first offending
      request item. */
  function Decide(customerExists: bool, found: seq<Product>, req: seq<Item>): (r: Result<seq<LineItem>>)
    ensures !customerExists ==> r == Err(CustomerNotFound)
    ensures customerExists && found == [] ==> r == Err(NoProductsFound)
    ensures customerExists && found != [] && !AllKnown(found, req) ==>
              r.Err? && r.error.ProductNotFound? &&
              exists k :: FirstUnknown(found, req, k) && r.error.id == req[k].id
    ensures customerExists && found != [] && AllKnown(found, req) && !AllSufficient(found, req) ==>
              r.Err? && exists k :: FirstInsufficient(found, req, k) &&
                                    r.error == InsufficientStock(req[k].quantity, req[k].id)
    ensures customerExists && found != [] && AllKnown(found, req) && AllSufficient(found, req) ==>
              r.Ok? && |r.value| == |req| &&
              forall k :: 0 <= k < |req| ==>
                r.value[k] == LineItem(req[k].id, req[k].quantity, FirstWithId(found, req[k].id).price)
  {
    if !customerExists then Err(CustomerNotFound)
    else if |found| == 0 then Err(NoProductsFound)
    else
      var nonExistent := Filter(req, Unknown(found));
      UnknownFilter(found, req);
      if |nonExistent| > 0 then
        Err(ProductNotFound(nonExistent[0].id))
      else
        var insufficient := Filter(req, Insufficient(found));
        InsufficientFilter(found, req);
        if |insufficient| > 0 then
          Err(InsufficientStock(insufficient[0].quantity, insufficient[0].id))
        else
          Ok(Serialize(found, req))
  }

  /** Lines 80-85: for each line item of the stored order, the pre-order
      snapshot quantity of its product minus the ordered quantity. */
  function StockUpdates(found: seq<Product>, orderProducts: seq<LineItem>): (updates: seq<StockUpdate>)
    requires forall k :: 0 <= k < |orderProducts| ==> Known(found, orderProducts[k].productId)
    ensures |updates| == |orderProducts|
    ensures forall k :: 0 <= k < |orderProducts| ==>
              updates[k].id == orderProducts[k].productId &&
              exists j :: 0 <= j < |found| && found[j].id == orderProducts[k].productId &&
                          updates[k].quantity == found[j].quantity - orderProducts[k].quantity
  {
    seq(|orderProducts|, k requires 0 <= k < |orderProducts| =>
      StockUpdate(orderProducts[k].productId,
                  FirstWithId(found, orderProducts[k].productId).quantity - orderProducts[k].quantity))
  }

  /** On success there is one stock update per line item, for the same
      product, computed from the lookup snapshot (so two lines for one product
      each start from the same value), and none of them is negative. */
  lemma NewStockNonNegative(customerExists: bool, found: seq<Product>, req: seq<Item>)
    requires Decide(customerExists, found, req).Ok?
    ensures var lines := Decide(customerExists, found, req).value;
            AllKnown(found, req) && |lines| == |req| &&
            (forall k :: 0 <= k < |lines| ==> lines[k].productId == req[k].id) &&
            var u := StockUpdates(found, lines);
            |u| == |req| &&
            forall k :: 0 <= k < |u| ==>
              u[k].id == req[k].id &&
              u[k].quantity == FirstWithId(found, req[k].id).quantity - req[k].quantity &&
              u[k].quantity >= 0
  {
  }
}
