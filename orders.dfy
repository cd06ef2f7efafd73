/** The order records of the mini order service: an order has a title, a
    date and a list of priced services; a user has a name, a password and a
    list of orders. Prices are `decimal`, kept here as exact reals; a date
    is kept as the Int64 that `DateTime.ToBinary` gives. */
module Orders {
  import opened Wrappers

  /** A service line of an order; the name is a nullable string. */
  datatype Service = Service(name: Option<string>, price: real)

  /** An order: nullable title, date, services in the order they were added. */
  datatype Order = Order(title: Option<string>, date: int, services: seq<Service>)

  /** Sum of the prices of `services`. */
  function SumPrices(services: seq<Service>): real
    decreases |services|
  {
    if services == [] then 0.0
    else SumPrices(services[..|services| - 1]) + services[|services| - 1].price
  }

  /** `Order.Total`. */
  function Total(o: Order): real {
    SumPrices(o.services)
  }

  /** Sum of the totals of `orders`. */
  function SumTotals(orders: seq<Order>): real
    decreases |orders|
  {
    if orders == [] then 0.0
    else SumTotals(orders[..|orders| - 1]) + Total(orders[|orders| - 1])
  }

  /** Every service of every order, order by order. */
  function AllServices(orders: seq<Order>): seq<Service>
    decreases |orders|
  {
    if orders == [] then [] else orders[0].services + AllServices(orders[1..])
  }

  /** `Order.ComputeTotal`: the `foreach` that adds up the prices. */
  method ComputeTotal(o: Order) returns (s: real)
    ensures s == Total(o)
  {
    s := 0.0;
    var i := 0;
    while i < |o.services|
      invariant 0 <= i <= |o.services|
      invariant s == SumPrices(o.services[..i])
    {
      assert o.services[..i + 1][..i] == o.services[..i];
      s := s + o.services[i].price;
      i := i + 1;
    }
    assert o.services[..i] == o.services;
  }

  /** The total of two lists of services side by side is the sum of their
      totals. */
  lemma {:induction false} SumPricesAppend(a: seq<Service>, b: seq<Service>)
    ensures SumPrices(a + b) == SumPrices(a) + SumPrices(b)
    decreases |b|
  {
    if b != [] {
      var c := a + b;
      assert c[..|c| - 1] == a + b[..|b| - 1];
      SumPricesAppend(a, b[..|b| - 1]);
    } else {
      assert a + b == a;
    }
  }

  /** An order without services totals 0, and an order whose prices are all
      non-negative totals at least 0. */
  lemma {:induction false} TotalNonNegative(services: seq<Service>)
    requires forall i :: 0 <= i < |services| ==> services[i].price >= 0.0
    ensures SumPrices(services) >= 0.0
    ensures services == [] ==> SumPrices(services) == 0.0
    decreases |services|
  {
    if services != [] {
      TotalNonNegative(services[..|services| - 1]);
    }
  }

  lemma {:induction false} SumTotalsAppend(a: seq<Order>, b: seq<Order>)
    ensures SumTotals(a + b) == SumTotals(a) + SumTotals(b)
    decreases |b|
  {
    if b != [] {
      var c := a + b;
      assert c[..|c| - 1] == a + b[..|b| - 1];
      SumTotalsAppend(a, b[..|b| - 1]);
    } else {
      assert a + b == a;
    }
  }

  /** The sum of the order totals is the sum of the prices of all services
      of all orders. */
  lemma {:induction false} SumTotalsIsSumOfAllPrices(orders: seq<Order>)
    ensures SumTotals(orders) == SumPrices(AllServices(orders))
    decreases |orders|
  {
    if orders != [] {
      SumTotalsIsSumOfAllPrices(orders[1..]);
      SumTotalsAppend([orders[0]], orders[1..]);
      assert [orders[0]] + orders[1..] == orders;
      assert SumTotals([orders[0]]) == Total(orders[0]) by {
        assert [orders[0]][..0] == [];
      }
      SumPricesAppend(orders[0].services, AllServices(orders[1..]));
    }
  }

  /** `UserData`: the logged-in user and the orders the program works on. */
  class UserData {
    var username: string
    var password: string
    var orders: seq<Order>

    constructor (username: string, password: string, orders: seq<Order>)
      ensures this.username == username && this.password == password && this.orders == orders
    {
      this.username := username;
      this.password := password;
      this.orders := orders;
    }
  }
}
