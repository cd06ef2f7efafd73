/** The binary order file `orders.dat`, at the level of the values
    `BinaryWriter` writes and `BinaryReader` reads back: an Int32 order
    count, then for each order its title (String), its date (Int64) and its
    service count (Int32), then for each service its name (String) and its
    price (Double). The casts between `decimal` and `double` are given as
    a parameter, so nothing here claims a price survives a save and load;
    the cast back to `decimal` can fail, which fails the whole load. */
module OrderCodec {
  import opened Wrappers
  import opened Orders

  /** One value in the file. */
  datatype Token = Int32Token(i: int) | StringToken(s: string) | Int64Token(l: int) | DoubleToken(d: real)

  /** `(double)price` when saving and `(decimal)value` when loading; the
      latter is `None` where it throws `OverflowException`. */
  datatype PriceConversion = PriceConversion(toDouble: real -> real, toDecimal: real -> Option<real>)

  /** `decimal.MaxValue`, and 2^96, one more. */
  const DECIMAL_MAX: real := 79228162514264337593543950335.0
  const TWO_TO_96: real := 79228162514264337593543950336.0

  /** The two casts as .NET performs them at the edge of the range:
      `(double)decimal.MaxValue` rounds up to 2^96, and `(decimal)d` throws
      exactly for a double of magnitude 2^96 or more. */
  ghost predicate DotNetCasts(conv: PriceConversion) {
    conv.toDouble(DECIMAL_MAX) == TWO_TO_96
    && forall d :: conv.toDecimal(d).None? <==> (d >= TWO_TO_96 || d <= -TWO_TO_96)
  }

  /** A saved price that loads back: `(decimal)(double)price` does not throw. */
  predicate Converts(conv: PriceConversion, s: Service) {
    conv.toDecimal(conv.toDouble(s.price)).Some?
  }

  predicate ServicesConvert(conv: PriceConversion, services: seq<Service>) {
    forall i :: 0 <= i < |services| ==> Converts(conv, services[i])
  }

  predicate OrdersConvert(conv: PriceConversion, orders: seq<Order>) {
    forall i :: 0 <= i < |orders| ==> ServicesConvert(conv, orders[i].services)
  }

  // ------------------------------------------------------------ writing

  function EncodeService(conv: PriceConversion, s: Service): seq<Token> {
    [StringToken(s.name.GetOr("")), DoubleToken(conv.toDouble(s.price))]
  }

  function EncodeServices(conv: PriceConversion, services: seq<Service>): (ts: seq<Token>)
    ensures |ts| == 2 * |services|
    ensures forall i :: 0 <= i < |services| ==>
              ts[2 * i] == StringToken(services[i].name.GetOr(""))
              && ts[2 * i + 1] == DoubleToken(conv.toDouble(services[i].price))
    decreases |services|
  {
    if services == [] then []
    else
      var rest := EncodeServices(conv, services[1..]);
      var ts := EncodeService(conv, services[0]) + rest;
      assert forall i :: 1 <= i < |services| ==> services[i] == services[1..][i - 1];
      ts
  }

  function OrderHeader(o: Order): seq<Token> {
    [StringToken(o.title.GetOr("")), Int64Token(o.date), Int32Token(|o.services|)]
  }

  /** One order: title, date and service count, then the services. */
  function EncodeOrder(conv: PriceConversion, o: Order): (ts: seq<Token>)
    ensures |ts| == 3 + 2 * |o.services|
    ensures ts[0] == StringToken(o.title.GetOr("")) && ts[1] == Int64Token(o.date) && ts[2] == Int32Token(|o.services|)
    ensures ts[3..] == EncodeServices(conv, o.services)
  {
    OrderHeader(o) + EncodeServices(conv, o.services)
  }

  function EncodeOrders(conv: PriceConversion, orders: seq<Order>): (ts: seq<Token>)
    ensures |ts| >= 3 * |orders|
    decreases |orders|
  {
    if orders == [] then [] else EncodeOrder(conv, orders[0]) + EncodeOrders(conv, orders[1..])
  }

  /** The whole file `SaveOrdersBinary` writes: the order count first,
      then at least three values per order. */
  function Encode(conv: PriceConversion, orders: seq<Order>): (ts: seq<Token>)
    ensures |ts| >= 1 + 3 * |orders| && ts[0] == Int32Token(|orders|)
  {
    [Int32Token(|orders|)] + EncodeOrders(conv, orders)
  }

  // ------------------------------------------------------------ reading

  /** The inner loop of `LoadOrdersBinary`: read `remaining` services from
      the front of `ts` after those already in `acc`; the rest of the
      stream comes back with them. Running out of values, a value of the
      wrong kind, or a price the cast to `decimal` cannot hold is the
      exception that makes the load fail. */
  function ReadServices(conv: PriceConversion, ts: seq<Token>, remaining: int, acc: seq<Service>)
    : (r: Option<(seq<Service>, seq<Token>)>)
    ensures r.Some? ==> |r.value.1| <= |ts|
    decreases |ts|
  {
    if remaining <= 0 then Some((acc, ts))
    else if |ts| < 2 || !ts[0].StringToken? || !ts[1].DoubleToken? then None
    else match conv.toDecimal(ts[1].d)
      case None => None
      case Some(price) => ReadServices(conv, ts[2..], remaining - 1, acc + [Service(Some(ts[0].s), price)])
  }

  /** The outer loop of `LoadOrdersBinary`: a successful read keeps the
      orders already read and adds exactly `remaining` more (none when it
      is 0 or less). */
  function ReadOrders(conv: PriceConversion, ts: seq<Token>, remaining: int, acc: seq<Order>): (r: Option<seq<Order>>)
    ensures r.Some? ==> |r.value| == |acc| + (if remaining <= 0 then 0 else remaining) && r.value[..|acc|] == acc
    decreases |ts|
  {
    if remaining <= 0 then Some(acc)
    else if |ts| < 3 || !ts[0].StringToken? || !ts[1].Int64Token? || !ts[2].Int32Token? then None
    else
      match ReadServices(conv, ts[3..], ts[2].i, [])
      case None => None
      case Some((services, rest)) =>
        ReadOrders(conv, rest, remaining - 1, acc + [Order(Some(ts[0].s), ts[1].l, services)])
  }

  /** What `LoadOrdersBinary` returns for an existing file: `None` is the
      null it returns when reading throws. Values after the last order are
      not read. */
  function Decode(conv: PriceConversion, ts: seq<Token>): (r: Option<seq<Order>>)
    ensures r.Some? ==> ts != [] && ts[0].Int32Token? && |r.value| == (if ts[0].i <= 0 then 0 else ts[0].i)
  {
    if ts == [] || !ts[0].Int32Token? then None else ReadOrders(conv, ts[1..], ts[0].i, [])
  }

  // ------------------------------------------------------- what survives

  /** A service as it comes back: a null name as "", the price through
      both casts. */
  function NormalizeService(conv: PriceConversion, s: Service): Service
    requires Converts(conv, s)
  {
    Service(Some(s.name.GetOr("")), conv.toDecimal(conv.toDouble(s.price)).value)
  }

  function NormalizeServices(conv: PriceConversion, services: seq<Service>): (r: seq<Service>)
    requires ServicesConvert(conv, services)
    ensures |r| == |services|
    ensures forall i :: 0 <= i < |services| ==> r[i] == NormalizeService(conv, services[i])
    decreases |services|
  {
    if services == [] then [] else [NormalizeService(conv, services[0])] + NormalizeServices(conv, services[1..])
  }

  /** An order as it comes back: a null title as "", the same date, the
      same number of services with the same names. */
  function NormalizeOrder(conv: PriceConversion, o: Order): (r: Order)
    requires ServicesConvert(conv, o.services)
    ensures r.title == Some(o.title.GetOr("")) && r.date == o.date
    ensures |r.services| == |o.services|
    ensures forall i :: 0 <= i < |o.services| ==>
              r.services[i].name == Some(o.services[i].name.GetOr(""))
  {
    Order(Some(o.title.GetOr("")), o.date, NormalizeServices(conv, o.services))
  }

  function NormalizeOrders(conv: PriceConversion, orders: seq<Order>): (r: seq<Order>)
    requires OrdersConvert(conv, orders)
    ensures |r| == |orders|
    ensures forall i :: 0 <= i < |orders| ==> r[i] == NormalizeOrder(conv, orders[i])
    decreases |orders|
  {
    if orders == [] then [] else [NormalizeOrder(conv, orders[0])] + NormalizeOrders(conv, orders[1..])
  }

  /** One step of the outer reading loop, for a stream that starts with the
      header `o` would be written with. */
  lemma ReadOrdersStep(conv: PriceConversion, o: Order, ts: seq<Token>, remaining: int, acc: seq<Order>)
    requires remaining > 0 && |ts| >= 3 && ts[..3] == OrderHeader(o)
    ensures ReadOrders(conv, ts, remaining, acc)
            == match ReadServices(conv, ts[3..], |o.services|, [])
               case None => None
               case Some((services, rest)) =>
                 ReadOrders(conv, rest, remaining - 1, acc + [Order(Some(o.title.GetOr("")), o.date, services)])
  {
    assert ts[0] == OrderHeader(o)[0] && ts[1] == OrderHeader(o)[1] && ts[2] == OrderHeader(o)[2];
  }

  /** Reading the written services back fails exactly when a price does
      not convert back to `decimal`; otherwise it yields their normalised
      form and leaves the following values. */
  lemma {:induction false} ServicesRoundTrip(conv: PriceConversion, services: seq<Service>, rest: seq<Token>, acc: seq<Service>)
    ensures ReadServices(conv, EncodeServices(conv, services) + rest, |services|, acc)
            == if ServicesConvert(conv, services) then Some((acc + NormalizeServices(conv, services), rest)) else None
    decreases |services|
  {
    var ts := EncodeServices(conv, services) + rest;
    if services == [] {
      assert ts == rest;
      assert acc + NormalizeServices(conv, services) == acc;
    } else {
      var s := services[0];
      var tail := services[1..];
      assert ts == EncodeService(conv, s) + (EncodeServices(conv, tail) + rest);
      assert ts[2..] == EncodeServices(conv, tail) + rest;
      assert ServicesConvert(conv, services) <==> Converts(conv, s) && ServicesConvert(conv, tail) by {
        assert forall i :: 1 <= i < |services| ==> services[i] == tail[i - 1];
      }
      if Converts(conv, s) {
        var acc' := acc + [NormalizeService(conv, s)];
        ServicesRoundTrip(conv, tail, rest, acc');
        if ServicesConvert(conv, services) {
          assert NormalizeServices(conv, services) == [NormalizeService(conv, s)] + NormalizeServices(conv, tail);
          assert acc' + NormalizeServices(conv, tail) == acc + ([NormalizeService(conv, s)] + NormalizeServices(conv, tail));
        }
      }
    }
  }

  /** Reading one saved order from the front of the stream fails exactly
      when one of its prices does not convert back; otherwise it gives the
      order back as `NormalizeOrder` says and leaves what follows it. */
  lemma OrderRoundTrip(conv: PriceConversion, o: Order, after: seq<Token>, remaining: int, acc: seq<Order>)
    requires remaining > 0
    ensures ReadOrders(conv, EncodeOrder(conv, o) + after, remaining, acc)
            == if ServicesConvert(conv, o.services)
               then ReadOrders(conv, after, remaining - 1, acc + [NormalizeOrder(conv, o)])
               else None
  {
    var body := EncodeServices(conv, o.services);
    var ts := EncodeOrder(conv, o) + after;
    assert ts == OrderHeader(o) + (body + after);
    assert ts[..3] == OrderHeader(o) && ts[3..] == body + after;
    ReadOrdersStep(conv, o, ts, remaining, acc);
    ServicesRoundTrip(conv, o.services, after, []);
    if ServicesConvert(conv, o.services) {
      assert [] + NormalizeServices(conv, o.services) == NormalizeServices(conv, o.services);
    }
  }

  /** Reading the written orders back fails exactly when one of their
      prices does not convert back; otherwise it yields their normalised
      forms, in order. */
  lemma {:induction false} OrdersRoundTrip(conv: PriceConversion, orders: seq<Order>, rest: seq<Token>, acc: seq<Order>)
    ensures ReadOrders(conv, EncodeOrders(conv, orders) + rest, |orders|, acc)
            == if OrdersConvert(conv, orders) then Some(acc + NormalizeOrders(conv, orders)) else None
    decreases |orders|
  {
    if orders == [] {
      assert acc + NormalizeOrders(conv, orders) == acc;
    } else {
      var o := orders[0];
      var tail := orders[1..];
      var after := EncodeOrders(conv, tail) + rest;
      assert EncodeOrders(conv, orders) + rest == EncodeOrder(conv, o) + after;
      assert OrdersConvert(conv, orders) <==> ServicesConvert(conv, o.services) && OrdersConvert(conv, tail) by {
        assert forall i :: 1 <= i < |orders| ==> orders[i] == tail[i - 1];
      }
      OrderRoundTrip(conv, o, after, |orders|, acc);
      if ServicesConvert(conv, o.services) {
        var acc' := acc + [NormalizeOrder(conv, o)];
        OrdersRoundTrip(conv, tail, rest, acc');
        if OrdersConvert(conv, orders) {
          NormalizeOrdersFirst(conv, orders);
          ConsAssociates(acc, NormalizeOrder(conv, o), NormalizeOrders(conv, tail));
        }
      }
    }
  }

  lemma NormalizeOrdersFirst(conv: PriceConversion, orders: seq<Order>)
    requires orders != [] && OrdersConvert(conv, orders)
    ensures OrdersConvert(conv, orders[1..])
    ensures NormalizeOrders(conv, orders) == [NormalizeOrder(conv, orders[0])] + NormalizeOrders(conv, orders[1..])
  {
  }

  lemma ConsAssociates<T>(acc: seq<T>, x: T, rest: seq<T>)
    ensures (acc + [x]) + rest == acc + ([x] + rest)
  {
  }

  /** Loading what was saved gives the orders back as `NormalizeOrder`
      says, whatever follows them in the file, and fails (null) exactly
      when a saved price does not convert back to `decimal`. */
  lemma RoundTrip(conv: PriceConversion, orders: seq<Order>, rest: seq<Token>)
    ensures Decode(conv, Encode(conv, orders) + rest)
            == if OrdersConvert(conv, orders) then Some(NormalizeOrders(conv, orders)) else None
  {
    var ts := Encode(conv, orders) + rest;
    assert ts[1..] == EncodeOrders(conv, orders) + rest;
    OrdersRoundTrip(conv, orders, rest, []);
    if OrdersConvert(conv, orders) {
      assert [] + NormalizeOrders(conv, orders) == NormalizeOrders(conv, orders);
    }
  }

  /** A price of `decimal.MaxValue`, which `decimal.TryParse` accepts when
      the order is entered, is saved as 2^96; loading it back throws, so
      the whole file loads as null and every order in it is lost. */
  lemma MaxPriceFailsLoad(conv: PriceConversion, orders: seq<Order>, i: nat, j: nat, rest: seq<Token>)
    requires DotNetCasts(conv)
    requires i < |orders| && j < |orders[i].services| && orders[i].services[j].price == DECIMAL_MAX
    ensures Decode(conv, Encode(conv, orders) + rest) == None
  {
    RoundTrip(conv, orders, rest);
    assert !Converts(conv, orders[i].services[j]);
  }

  /** Where every title and name is set and every price survives the two
      casts, loading what was saved gives exactly the saved orders. */
  lemma ExactRoundTrip(conv: PriceConversion, orders: seq<Order>)
    requires forall i :: 0 <= i < |orders| ==> orders[i].title.Some?
    requires forall i, j :: 0 <= i < |orders| && 0 <= j < |orders[i].services| ==>
               orders[i].services[j].name.Some?
               && conv.toDecimal(conv.toDouble(orders[i].services[j].price)) == Some(orders[i].services[j].price)
    ensures Decode(conv, Encode(conv, orders)) == Some(orders)
  {
    assert OrdersConvert(conv, orders);
    RoundTrip(conv, orders, []);
    assert Encode(conv, orders) + [] == Encode(conv, orders);
    var r := NormalizeOrders(conv, orders);
    forall i | 0 <= i < |orders|
      ensures r[i] == orders[i]
    {
      var ss := orders[i].services;
      var back := NormalizeServices(conv, ss);
      forall j | 0 <= j < |ss|
        ensures back[j] == ss[j]
      {
        assert ss[j].name.Some?;
        assert conv.toDecimal(conv.toDouble(ss[j].price)) == Some(ss[j].price);
        assert back[j] == NormalizeService(conv, ss[j]);
      }
      assert back == ss;
      assert r[i] == Order(Some(orders[i].title.GetOr("")), orders[i].date, back);
    }
    assert r == orders;
  }

  /** A count of zero or less reads as an empty list. */
  lemma NonPositiveCountIsEmpty(conv: PriceConversion, n: int, rest: seq<Token>)
    requires n <= 0
    ensures Decode(conv, [Int32Token(n)] + rest) == Some([])
  {
  }

  lemma {:induction false} TruncatedServices(conv: PriceConversion, services: seq<Service>, k: nat, acc: seq<Service>)
    requires k < |EncodeServices(conv, services)|
    ensures ReadServices(conv, EncodeServices(conv, services)[..k], |services|, acc) == None
    decreases |services|
  {
    var ts := EncodeServices(conv, services);
    if k >= 2 {
      var tail := services[1..];
      assert ts[..k][2..] == EncodeServices(conv, tail)[..k - 2];
      if Converts(conv, services[0]) {
        TruncatedServices(conv, tail, k - 2, acc + [NormalizeService(conv, services[0])]);
      }
    }
  }

  lemma {:induction false} TruncatedOrders(conv: PriceConversion, orders: seq<Order>, k: nat, acc: seq<Order>)
    requires k < |EncodeOrders(conv, orders)|
    ensures ReadOrders(conv, EncodeOrders(conv, orders)[..k], |orders|, acc) == None
    decreases |orders|
  {
    var o := orders[0];
    var first := EncodeOrder(conv, o);
    var after := EncodeOrders(conv, orders[1..]);
    var t := EncodeOrders(conv, orders)[..k];
    assert EncodeOrders(conv, orders) == first + after;
    if k >= |first| {
      var cut := after[..k - |first|];
      assert t == first + cut;
      OrderRoundTrip(conv, o, cut, |orders|, acc);
      if ServicesConvert(conv, o.services) {
        TruncatedOrders(conv, orders[1..], k - |first|, acc + [NormalizeOrder(conv, o)]);
      }
    } else {
      TruncatedOrder(conv, o, k, |orders|, acc);
      assert t == first[..k];
    }
  }

  /** A stream that stops inside the first order reads as `None`. */
  lemma TruncatedOrder(conv: PriceConversion, o: Order, k: nat, remaining: int, acc: seq<Order>)
    requires k < |EncodeOrder(conv, o)| && remaining > 0
    ensures ReadOrders(conv, EncodeOrder(conv, o)[..k], remaining, acc) == None
  {
    var body := EncodeServices(conv, o.services);
    var t := EncodeOrder(conv, o)[..k];
    if k >= 3 {
      assert t[..3] == OrderHeader(o) && t[3..] == body[..k - 3];
      ReadOrdersStep(conv, o, t, remaining, acc);
      TruncatedServices(conv, o.services, k - 3, []);
    }
  }

  /** A file cut short anywhere loads as null, never as part of the list. */
  lemma Truncated(conv: PriceConversion, orders: seq<Order>, k: nat)
    requires k < |Encode(conv, orders)|
    ensures Decode(conv, Encode(conv, orders)[..k]) == None
  {
    if k > 0 {
      var ts := Encode(conv, orders);
      assert ts[..k][1..] == EncodeOrders(conv, orders)[..k - 1];
      TruncatedOrders(conv, orders, k - 1, []);
    }
  }

  // ------------------------------------------------------------ methods

  lemma {:induction false} EncodeServicesAppend(conv: PriceConversion, services: seq<Service>, s: Service)
    ensures EncodeServices(conv, services + [s]) == EncodeServices(conv, services) + EncodeService(conv, s)
    decreases |services|
  {
    if services == [] {
      assert [s][1..] == [];
    } else {
      assert (services + [s])[1..] == services[1..] + [s];
      EncodeServicesAppend(conv, services[1..], s);
    }
  }

  lemma {:induction false} EncodeOrdersAppend(conv: PriceConversion, orders: seq<Order>, o: Order)
    ensures EncodeOrders(conv, orders + [o]) == EncodeOrders(conv, orders) + EncodeOrder(conv, o)
    decreases |orders|
  {
    if orders == [] {
      assert [o][1..] == [];
    } else {
      assert (orders + [o])[1..] == orders[1..] + [o];
      EncodeOrdersAppend(conv, orders[1..], o);
    }
  }

  /** The body of the outer writing loop: one order, its services by the
      inner loop. */
  method WriteOrder(conv: PriceConversion, o: Order) returns (ts: seq<Token>)
    ensures ts == EncodeOrder(conv, o)
  {
    ts := OrderHeader(o);
    var j := 0;
    while j < |o.services|
      invariant 0 <= j <= |o.services|
      invariant ts == OrderHeader(o) + EncodeServices(conv, o.services[..j])
    {
      EncodeServicesAppend(conv, o.services[..j], o.services[j]);
      assert o.services[..j + 1] == o.services[..j] + [o.services[j]];
      ts := ts + EncodeService(conv, o.services[j]);
      j := j + 1;
    }
    assert o.services[..j] == o.services;
  }

  /** `SaveOrdersBinary`: the values written, in order. */
  method SaveOrdersBinary(conv: PriceConversion, orders: seq<Order>) returns (ts: seq<Token>)
    ensures ts == Encode(conv, orders)
  {
    ts := [Int32Token(|orders|)];
    var i := 0;
    while i < |orders|
      invariant 0 <= i <= |orders|
      invariant ts == [Int32Token(|orders|)] + EncodeOrders(conv, orders[..i])
    {
      var written := WriteOrder(conv, orders[i]);
      EncodeOrdersAppend(conv, orders[..i], orders[i]);
      assert orders[..i + 1] == orders[..i] + [orders[i]];
      ts := ts + written;
      i := i + 1;
    }
    assert orders[..i] == orders;
  }

  /** The inner reading loop: `serviceCount` services from position
      `start`; the result is the services and the position after them. */
  method LoadServices(conv: PriceConversion, ts: seq<Token>, start: nat, serviceCount: int)
    returns (r: Option<(seq<Service>, nat)>)
    requires start <= |ts|
    ensures r.None? <==> ReadServices(conv, ts[start..], serviceCount, []).None?
    ensures r.Some? ==> start <= r.value.1 <= |ts|
    ensures r.Some? ==> ReadServices(conv, ts[start..], serviceCount, []) == Some((r.value.0, ts[r.value.1..]))
  {
    var pos := start;
    var services := [];
    var j := 0;
    while j < serviceCount
      invariant start <= pos <= |ts|
      invariant ReadServices(conv, ts[start..], serviceCount, []) == ReadServices(conv, ts[pos..], serviceCount - j, services)
      decreases serviceCount - j
    {
      if pos + 2 > |ts| || !ts[pos].StringToken? || !ts[pos + 1].DoubleToken? {
        return None;
      }
      assert ts[pos..][2..] == ts[pos + 2..];
      var price := conv.toDecimal(ts[pos + 1].d);
      if price.None? {
        return None;
      }
      services := services + [Service(Some(ts[pos].s), price.value)];
      pos := pos + 2;
      j := j + 1;
    }
    r := Some((services, pos));
  }

  /** `LoadOrdersBinary`: `file` is the content of `orders.dat`, or `None`
      when there is no such file; the result is `None` where the method
      returns null. */
  method LoadOrdersBinary(conv: PriceConversion, file: Option<seq<Token>>) returns (orders: Option<seq<Order>>)
    ensures file.None? ==> orders.None?
    ensures file.Some? ==> orders == Decode(conv, file.value)
  {
    if file.None? {
      return None;
    }
    var ts := file.value;
    if ts == [] || !ts[0].Int32Token? {
      return None;
    }
    var count := ts[0].i;
    var pos := 1;
    var list := [];
    var i := 0;
    while i < count
      invariant 1 <= pos <= |ts|
      invariant Decode(conv, ts) == ReadOrders(conv, ts[pos..], count - i, list)
      decreases count - i
    {
      if pos + 3 > |ts| || !ts[pos].StringToken? || !ts[pos + 1].Int64Token? || !ts[pos + 2].Int32Token? {
        return None;
      }
      var title := ts[pos].s;
      var date := ts[pos + 1].l;
      var serviceCount := ts[pos + 2].i;
      assert ts[pos..][3..] == ts[pos + 3..];
      var read := LoadServices(conv, ts, pos + 3, serviceCount);
      if read.None? {
        return None;
      }
      list := list + [Order(Some(title), date, read.value.0)];
      pos := read.value.1;
      i := i + 1;
    }
    orders := Some(list);
  }
}
