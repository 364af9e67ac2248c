/** The state `CreateOrderService.execute` reads and writes through its three
    repositories: registered customers, the product catalog and the stored
    orders. `Store.Execute` runs the service against them: look the customer
    up, validate and build the line items, create the order, then overwrite
    the stock of the ordered products. */
module Repositories {
  import opened CreateOrder

  /** A catalog entry: the product's current price and stock. */
  datatype Stock = Stock(price: Price, quantity: int)

  /** A stored order: its customer and its `order_products`. */
  datatype Order = Order(customerId: Id, products: seq<LineItem>)

  /** What `productsRepository.findAllById(products)` is assumed to return:
      only catalog entries, each as the catalog holds it and each asked for by
      the request, and every requested id the catalog has. Its order and any
      repetition are left open. */
  predicate FoundBy(catalog: map<Id, Stock>, req: seq<Item>, found: seq<Product>)
  {
    && (forall k :: 0 <= k < |found| ==>
          found[k].id in catalog &&
          catalog[found[k].id] == Stock(found[k].price, found[k].quantity) &&
          Requested(req, found[k].id))
    && (forall j :: 0 <= j < |req| && req[j].id in catalog ==> Known(found, req[j].id))
  }

  /** Some request item asks for `id`. */
  predicate Requested(req: seq<Item>, id: Id)
  {
    exists j :: 0 <= j < |req| && req[j].id == id
  }

  /** No product has negative stock. */
  predicate StockNonNegative(catalog: map<Id, Stock>)
  {
    forall id :: id in catalog ==> catalog[id].quantity >= 0
  }

  /** Every update names a product of the catalog. */
  predicate UpdatesInCatalog(catalog: map<Id, Stock>, updates: seq<StockUpdate>)
  {
    forall k :: 0 <= k < |updates| ==> updates[k].id in catalog
  }

  /** `productsRepository.updateQuantity(updates)`: each update overwrites its
      product's stock with an absolute value, in list order, so for a product
      named twice the later value stays. Prices and the set of products are
      kept, and a product no update names is left as it was. */
  function Overwrite(catalog: map<Id, Stock>, updates: seq<StockUpdate>): (c: map<Id, Stock>)
    requires UpdatesInCatalog(catalog, updates)
    ensures c.Keys == catalog.Keys
    ensures forall id :: id in catalog ==> c[id].price == catalog[id].price
    ensures forall id :: id in catalog && (forall k :: 0 <= k < |updates| ==> updates[k].id != id) ==>
              c[id] == catalog[id]
    decreases |updates|
  {
    if updates == [] then catalog
    else
      var u := updates[0];
      Overwrite(catalog[u.id := catalog[u.id].(quantity := u.quantity)], updates[1..])
  }

  /** The last update naming a product decides its new stock. */
  lemma {:induction false} OverwriteLastWins(catalog: map<Id, Stock>, updates: seq<StockUpdate>, k: int)
    requires UpdatesInCatalog(catalog, updates)
    requires 0 <= k < |updates|
    requires forall j :: k < j < |updates| ==> updates[j].id != updates[k].id
    ensures Overwrite(catalog, updates)[updates[k].id].quantity == updates[k].quantity
    decreases |updates|
  {
    var u := updates[0];
    var next := catalog[u.id := catalog[u.id].(quantity := u.quantity)];
    assert UpdatesInCatalog(next, updates[1..]);
    if k == 0 {
      assert forall j :: 0 <= j < |updates[1..]| ==> updates[1..][j] == updates[j + 1];
    } else {
      OverwriteLastWins(next, updates[1..], k - 1);
    }
  }

  /** Updates with non-negative values keep every stock non-negative. */
  lemma {:induction false} OverwriteKeepsStockNonNegative(catalog: map<Id, Stock>, updates: seq<StockUpdate>)
    requires UpdatesInCatalog(catalog, updates)
    requires StockNonNegative(catalog)
    requires forall k :: 0 <= k < |updates| ==> updates[k].quantity >= 0
    ensures StockNonNegative(Overwrite(catalog, updates))
    decreases |updates|
  {
    if updates != [] {
      var u := updates[0];
      var next := catalog[u.id := catalog[u.id].(quantity := u.quantity)];
      assert forall j :: 0 <= j < |updates[1..]| ==> updates[1..][j] == updates[j + 1];
      OverwriteKeepsStockNonNegative(next, updates[1..]);
    }
  }

  /** Under the lookup's contract, "found" means "in the catalog", the lookup
      comes back empty exactly when the catalog has none of the requested
      ids, and the snapshot the service works from is the catalog's entry. */
  lemma {:induction false} FoundMatchesCatalog(catalog: map<Id, Stock>, req: seq<Item>, found: seq<Product>)
    requires FoundBy(catalog, req, found)
    ensures forall id :: Known(found, id) ==> id in catalog
    ensures forall k :: 0 <= k < |req| ==> (Known(found, req[k].id) <==> req[k].id in catalog)
    ensures forall id :: Known(found, id) ==>
              catalog[id] == Stock(FirstWithId(found, id).price, FirstWithId(found, id).quantity)
    ensures found == [] <==> forall k :: 0 <= k < |req| ==> req[k].id !in catalog
  {
    forall id | Known(found, id)
      ensures id in catalog
      ensures catalog[id] == Stock(FirstWithId(found, id).price, FirstWithId(found, id).quantity)
    {
      var m :| 0 <= m < |found| && found[m] == FirstWithId(found, id);
    }
    if found != [] {
      assert Requested(req, found[0].id);
      var j :| 0 <= j < |req| && req[j].id == found[0].id;
      assert req[j].id in catalog;
    }
  }

  /** Every requested id is in the catalog. */
  predicate AllInCatalog(catalog: map<Id, Stock>, req: seq<Item>)
  {
    forall j :: 0 <= j < |req| ==> req[j].id in catalog
  }

  /** Some requested id is in the catalog. */
  predicate SomeInCatalog(catalog: map<Id, Stock>, req: seq<Item>)
  {
    exists j :: 0 <= j < |req| && req[j].id in catalog
  }

  /** `k` is the first request position whose id the catalog lacks. */
  predicate FirstNotInCatalog(catalog: map<Id, Stock>, req: seq<Item>, k: int)
  {
    0 <= k < |req| && req[k].id !in catalog && forall j :: 0 <= j < k ==> req[j].id in catalog
  }

  /** `k` is the first request position asking for more than the catalog's
      stock. */
  predicate FirstOverStock(catalog: map<Id, Stock>, req: seq<Item>, k: int)
    requires AllInCatalog(catalog, req)
  {
    0 <= k < |req| && catalog[req[k].id].quantity < req[k].quantity &&
    forall j :: 0 <= j < k ==> req[j].quantity <= catalog[req[j].id].quantity
  }

  /** Under the lookup's contract, the service's outcome read off the
      catalog for an existing customer: no requested id in the catalog gives
      the no-products error; otherwise the first requested id missing from the
      catalog is named; otherwise the first item asking for more than the
      catalog's stock is named with its requested quantity; otherwise one line
      per item at the catalog's price. */
  lemma {:induction false} DecideOnCatalog(catalog: map<Id, Stock>, req: seq<Item>, found: seq<Product>)
    requires FoundBy(catalog, req, found)
    ensures var r := Decide(true, found, req);
            && ((forall k :: 0 <= k < |req| ==> req[k].id !in catalog) ==> r == Err(NoProductsFound))
            && (forall k :: SomeInCatalog(catalog, req) && FirstNotInCatalog(catalog, req, k) ==>
                  r == Err(ProductNotFound(req[k].id)))
            && (forall k :: AllInCatalog(catalog, req) && FirstOverStock(catalog, req, k) ==>
                  r == Err(InsufficientStock(req[k].quantity, req[k].id)))
            && (req != [] && AllInCatalog(catalog, req) &&
                (forall j :: 0 <= j < |req| ==> req[j].quantity <= catalog[req[j].id].quantity) ==>
                  r.Ok? && |r.value| == |req| &&
                  forall k :: 0 <= k < |req| ==>
                    r.value[k] == LineItem(req[k].id, req[k].quantity, catalog[req[k].id].price))
  {
    FoundMatchesCatalog(catalog, req, found);
    var r := Decide(true, found, req);
    forall k | SomeInCatalog(catalog, req) && FirstNotInCatalog(catalog, req, k)
      ensures r == Err(ProductNotFound(req[k].id))
    {
      assert FirstUnknown(found, req, k);
      var k' :| FirstUnknown(found, req, k') && r.error.id == req[k'].id;
      assert k' == k;
    }
    if AllInCatalog(catalog, req) {
      assert AllKnown(found, req);
      forall k | FirstOverStock(catalog, req, k)
        ensures r == Err(InsufficientStock(req[k].quantity, req[k].id))
      {
        assert FirstInsufficient(found, req, k);
        var k' :| FirstInsufficient(found, req, k') && r.error == InsufficientStock(req[k'].quantity, req[k'].id);
        assert k' == k;
      }
      if req != [] && forall j :: 0 <= j < |req| ==> req[j].quantity <= catalog[req[j].id].quantity {
        assert req[0].id in catalog;
        assert AllSufficient(found, req);
      }
    }
  }

  /** With the lookup's contract, a successful decision's line items all
      name found products, its stock updates all name catalog products and
      carry non-negative values, so applying them keeps stock non-negative. */
  lemma OrderWritesFit(catalog: map<Id, Stock>, req: seq<Item>, found: seq<Product>, customerExists: bool)
    requires FoundBy(catalog, req, found)
    requires Decide(customerExists, found, req).Ok?
    ensures var lines := Decide(customerExists, found, req).value;
            (forall k :: 0 <= k < |lines| ==> Known(found, lines[k].productId)) &&
            UpdatesInCatalog(catalog, StockUpdates(found, lines)) &&
            (StockNonNegative(catalog) ==> StockNonNegative(Overwrite(catalog, StockUpdates(found, lines))))
  {
    NewStockNonNegative(customerExists, found, req);
    FoundMatchesCatalog(catalog, req, found);
    var lines := Decide(customerExists, found, req).value;
    if StockNonNegative(catalog) {
      OverwriteKeepsStockNonNegative(catalog, StockUpdates(found, lines));
    }
  }

  /** With the lookup's contract and distinct requested ids, a successful
      order lowers each ordered product's stock by exactly the ordered
      quantity, never below zero, keeps its price, and leaves every other
      product as it was. */
  lemma StockAfterOrder(catalog: map<Id, Stock>, req: seq<Item>, found: seq<Product>, customerExists: bool)
    requires FoundBy(catalog, req, found)
    requires Decide(customerExists, found, req).Ok?
    requires forall i, j :: 0 <= i < j < |req| ==> req[i].id != req[j].id
    ensures var lines := Decide(customerExists, found, req).value;
            var updates := StockUpdates(found, lines);
            UpdatesInCatalog(catalog, updates) &&
            var c := Overwrite(catalog, updates);
            c.Keys == catalog.Keys &&
            (forall k :: 0 <= k < |req| ==>
               c[req[k].id] == Stock(catalog[req[k].id].price, catalog[req[k].id].quantity - req[k].quantity) &&
               c[req[k].id].quantity >= 0) &&
            (forall id :: id in catalog && (forall k :: 0 <= k < |req| ==> req[k].id != id) ==> c[id] == catalog[id])
  {
    NewStockNonNegative(customerExists, found, req);
    FoundMatchesCatalog(catalog, req, found);
    var lines := Decide(customerExists, found, req).value;
    var updates := StockUpdates(found, lines);
    forall k | 0 <= k < |req|
      ensures Overwrite(catalog, updates)[req[k].id].quantity == catalog[req[k].id].quantity - req[k].quantity
    {
      OverwriteLastWins(catalog, updates, k);
    }
  }

  /** Two lines for the same product are each checked against, and each
      subtract from, the same snapshot: asking twice for 4 of a product with
      5 in stock is accepted, 8 units are ordered, and the stock ends at 1. */
  lemma DuplicateLinesEachFromSnapshot()
    ensures var catalog := map["p1" := Stock(1000, 5)];
            var req := [Item("p1", 4), Item("p1", 4)];
            var found := [Product("p1", 1000, 5)];
            FoundBy(catalog, req, found) &&
            Decide(true, found, req) == Ok([LineItem("p1", 4, 1000), LineItem("p1", 4, 1000)]) &&
            Overwrite(catalog, StockUpdates(found, Decide(true, found, req).value))["p1"] == Stock(1000, 1)
  {
    var req := [Item("p1", 4), Item("p1", 4)];
    var found := [Product("p1", 1000, 5)];
    assert Ids(found) == ["p1"];
    assert FirstWithId(found, "p1") == found[0];
    assert req[0].id == found[0].id;
    var catalog := map["p1" := Stock(1000, 5)];
    assert FoundBy(catalog, req, found);
    assert AllKnown(found, req) && AllSufficient(found, req);
    var lines := Decide(true, found, req).value;
    assert lines == [LineItem("p1", 4, 1000), LineItem("p1", 4, 1000)];
    assert StockUpdates(found, Decide(true, found, req).value) == [StockUpdate("p1", 1), StockUpdate("p1", 1)];
  }

  /** A one-product lookup: its only product is known, and is the first
      match for its id. */
  lemma SingleLookup(p: Product, q: int)
    ensures Known([p], p.id) && FirstWithId([p], p.id) == p
    ensures FoundBy(map[p.id := Stock(p.price, p.quantity)], [Item(p.id, q)], [p])
  {
    assert Ids([p])[0] == p.id;
    assert Requested([Item(p.id, q)], p.id) by {
      assert [Item(p.id, q)][0].id == p.id;
    }
  }

  /** With a one-product lookup, a single request item for that product
      that fits the stock becomes one line at the snapshot price, and the new
      stock is the snapshot minus the ordered quantity. */
  lemma SingleItemAccepted(p: Product, q: int)
    requires q <= p.quantity
    ensures Decide(true, [p], [Item(p.id, q)]) == Ok([LineItem(p.id, q, p.price)])
    ensures StockUpdates([p], [LineItem(p.id, q, p.price)]) == [StockUpdate(p.id, p.quantity - q)]
  {
    SingleLookup(p, q);
    var req := [Item(p.id, q)];
    assert AllKnown([p], req) && AllSufficient([p], req);
    var lines := Decide(true, [p], req).value;
    assert |lines| == 1 && lines[0] == LineItem(p.id, q, p.price);
    assert lines == [LineItem(p.id, q, p.price)];
  }

  /** With a one-product lookup, a single request item for more than the
      stock fails naming the requested quantity, not the available one. */
  lemma SingleItemRejected(p: Product, q: int)
    requires q > p.quantity
    ensures Decide(true, [p], [Item(p.id, q)]) == Err(InsufficientStock(q, p.id))
  {
    SingleLookup(p, q);
    var req := [Item(p.id, q)];
    assert AllKnown([p], req);
    assert FirstInsufficient([p], req, 0);
  }

  class Store {
    var customers: set<Id>
    var catalog: map<Id, Stock>
    var orders: seq<Order>

    constructor (customers: set<Id>, catalog: map<Id, Stock>)
      ensures this.customers == customers && this.catalog == catalog && orders == []
    {
      this.customers := customers;
      this.catalog := catalog;
      orders := [];
    }

    /** `customersRepository.findById(id)`, reduced to whether it found one. */
    method FindCustomer(id: Id) returns (found: bool)
      ensures found <==> id in customers
    {
      found := id in customers;
    }

    /** `ordersRepository.create`: stores a new order and returns it, its
        `order_products` being the line items it was given, in order. */
    method Create(customerId: Id, products: seq<LineItem>) returns (order: Order)
      modifies this`orders
      ensures order == Order(customerId, products)
      ensures orders == old(orders) + [order]
    {
      order := Order(customerId, products);
      orders := orders + [order];
    }

    /** `productsRepository.updateQuantity`. */
    method UpdateQuantity(updates: seq<StockUpdate>)
      requires UpdatesInCatalog(catalog, updates)
      modifies this`catalog
      ensures catalog == Overwrite(old(catalog), updates)
    {
      catalog := Overwrite(catalog, updates);
    }

    /** `CreateOrderService.execute`. `found` is what the batch product lookup
        returns for `req`. On a validation failure nothing is written; on
        success exactly one order is appended, then the ordered products'
        stock is overwritten, and the created order is returned. Stock that
        was non-negative stays so. */
    method Execute(customerId: Id, req: seq<Item>, found: seq<Product>) returns (r: Result<Order>)
      requires FoundBy(catalog, req, found)
      modifies this`orders, this`catalog
      ensures customers == old(customers)
      ensures var d := Decide(customerId in customers, found, req);
              && (d.Err? ==> r == Err(d.error) && orders == old(orders) && catalog == old(catalog))
              && (d.Ok? ==>
                    && r == Ok(Order(customerId, d.value))
                    && orders == old(orders) + [r.value]
                    && (forall k :: 0 <= k < |d.value| ==> Known(found, d.value[k].productId))
                    && UpdatesInCatalog(old(catalog), StockUpdates(found, d.value))
                    && catalog == Overwrite(old(catalog), StockUpdates(found, d.value)))
      ensures StockNonNegative(old(catalog)) ==> StockNonNegative(catalog)
    {
      var customerExists := FindCustomer(customerId);
      var decision := Decide(customerExists, found, req);
      if decision.Err? {
        return Err(decision.error);
      }
      var order := Create(customerId, decision.value);
      OrderWritesFit(catalog, req, found, customerExists);
      var updates := StockUpdates(found, order.products);
      UpdateQuantity(updates);
      r := Ok(order);
    }
  }

  /** Running the same order twice is not a no-op: two orders are stored and
      the stock falls twice, the second lookup seeing the first write. */
  method RepeatOrder() returns (s: Store, first: Result<Order>, second: Result<Order>)
    ensures first == second == Ok(Order("c1", [LineItem("p1", 2, 1000)]))
    ensures s.orders == [first.value, second.value]
    ensures s.catalog == map["p1" := Stock(1000, 1)]
  {
    SingleLookup(Product("p1", 1000, 5), 2);
    SingleLookup(Product("p1", 1000, 3), 2);
    SingleItemAccepted(Product("p1", 1000, 5), 2);
    SingleItemAccepted(Product("p1", 1000, 3), 2);
    s := new Store({"c1"}, map["p1" := Stock(1000, 5)]);
    first := s.Execute("c1", [Item("p1", 2)], [Product("p1", 1000, 5)]);
    second := s.Execute("c1", [Item("p1", 2)], [Product("p1", 1000, 3)]);
  }

  /** Customer "c1" exists and "p1" costs 1000 cents with 5 in stock. Asking
      for 10 fails, naming the requested 10 and "p1", and writes nothing;
      asking for 3 then stores one line at the snapshot price and leaves a
      stock of 2. */
  method SingleProductScenario() returns (s: Store, rejected: Result<Order>, accepted: Result<Order>)
    ensures rejected == Err(InsufficientStock(10, "p1"))
    ensures accepted == Ok(Order("c1", [LineItem("p1", 3, 1000)]))
    ensures s.orders == [accepted.value]
    ensures s.catalog == map["p1" := Stock(1000, 2)]
  {
    var p := Product("p1", 1000, 5);
    SingleLookup(p, 10);
    SingleLookup(p, 3);
    SingleItemRejected(p, 10);
    SingleItemAccepted(p, 3);
    s := new Store({"c1"}, map["p1" := Stock(1000, 5)]);
    rejected := s.Execute("c1", [Item("p1", 10)], [p]);
    accepted := s.Execute("c1", [Item("p1", 3)], [p]);
  }
}
