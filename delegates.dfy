/** The sensor notification program: a sensor keeps an ordered list of
    subscribed handlers, free of duplicates, and calls every one of them,
    in list order, with each new value. Handlers are opaque identities
    compared by equality; a call is recorded as a `Call` in an output
    sequence instead of running handler code. */
module SensorNotification {
  import Strings

  // ------------------------------------------------------- subscriber lists

  predicate NoDuplicates<H(==)>(s: seq<H>) {
    forall i, j :: 0 <= i < j < |s| ==> s[i] != s[j]
  }

  /** Position of the first occurrence of `h` in `s`. */
  function IndexOf<H(==)>(s: seq<H>, h: H): (i: nat)
    requires h in s
    ensures i < |s| && s[i] == h && h !in s[..i]
  {
    if s[0] == h then 0
    else
      var i := IndexOf(s[1..], h) + 1;
      assert s[..i] == [s[0]] + s[1..][..i - 1];
      i
  }

  /** `List.Add` guarded by `List.Contains`, as `AddSubscriber` does it:
      the handler is subscribed afterwards, the earlier subscribers keep
      their places, and the list grows exactly when it was not there. */
  function Added<H(==)>(s: seq<H>, h: H): (r: seq<H>)
    ensures |r| == if h in s then |s| else |s| + 1
    ensures h in r && r[..|s|] == s
  {
    if h in s then s else s + [h]
  }

  /** `List.Remove`: drops the first occurrence of `h`, if any. */
  function Removed<H(==)>(s: seq<H>, h: H): (r: seq<H>)
    ensures |r| == if h in s then |s| - 1 else |s|
    decreases |s|
  {
    if s == [] then []
    else if s[0] == h then s[1..]
    else [s[0]] + Removed(s[1..], h)
  }

  /** Removing an absent handler changes nothing; removing a present one
      cuts it out at its first position and keeps the rest in order. */
  lemma {:induction false} RemovedSplice<H>(s: seq<H>, h: H)
    ensures h !in s ==> Removed(s, h) == s
    ensures h in s ==> Removed(s, h) == s[..IndexOf(s, h)] + s[IndexOf(s, h) + 1..]
    decreases |s|
  {
    if s != [] && s[0] != h {
      RemovedSplice(s[1..], h);
      if h in s {
        var i := IndexOf(s, h);
        assert IndexOf(s[1..], h) == i - 1;
        assert s[..i] == [s[0]] + s[1..][..i - 1];
        assert s[i + 1..] == s[1..][i..];
      } else {
        assert s == [s[0]] + s[1..];
      }
    }
  }

  /** What is in the list after an add: everything before, and the handler. */
  lemma AddedContents<H>(s: seq<H>, h: H, x: H)
    requires NoDuplicates(s)
    ensures NoDuplicates(Added(s, h))
    ensures x in Added(s, h) <==> x in s || x == h
    ensures h in s ==> Added(s, h) == s
    ensures h !in s ==> Added(s, h)[..|s|] == s && Added(s, h)[|s|] == h
  {
    if h !in s {
      var r := s + [h];
      forall i, j | 0 <= i < j < |r|
        ensures r[i] != r[j]
      {
        if j == |s| {
          assert r[i] == s[i];
        }
      }
    }
  }

  lemma NoDuplicatesTail<H>(s: seq<H>)
    requires s != [] && NoDuplicates(s)
    ensures NoDuplicates(s[1..]) && s[0] !in s[1..]
  {
    assert forall k :: 0 <= k < |s| - 1 ==> s[1..][k] == s[k + 1];
  }

  lemma NoDuplicatesCons<H>(a: H, t: seq<H>)
    requires NoDuplicates(t) && a !in t
    ensures NoDuplicates([a] + t)
  {
    var s := [a] + t;
    assert forall k :: 0 <= k < |t| ==> s[k + 1] == t[k];
  }

  /** What is in a duplicate-free list after a remove: everything before
      except the handler, which is gone for good. */
  lemma {:induction false} RemovedContents<H>(s: seq<H>, h: H, x: H)
    requires NoDuplicates(s)
    ensures NoDuplicates(Removed(s, h))
    ensures x in Removed(s, h) <==> x in s && x != h
    decreases |s|
  {
    if s != [] {
      NoDuplicatesTail(s);
      if s[0] != h {
        RemovedContents(s[1..], h, x);
        RemovedContents(s[1..], h, s[0]);
        NoDuplicatesCons(s[0], Removed(s[1..], h));
      }
    }
  }

  /** An edit of the subscriber list, as the menu issues them. */
  datatype Edit<H> = Subscribe(handler: H) | Unsubscribe(handler: H)

  function Apply<H(==)>(s: seq<H>, e: Edit<H>): seq<H> {
    match e
    case Subscribe(h) => Added(s, h)
    case Unsubscribe(h) => Removed(s, h)
  }

  function ApplyAll<H(==)>(s: seq<H>, edits: seq<Edit<H>>): seq<H>
    decreases |edits|
  {
    if edits == [] then s else ApplyAll(Apply(s, edits[0]), edits[1..])
  }

  /** Starting from the empty list, no sequence of adds and removes ever
      puts a handler in the list twice. */
  lemma {:induction false} NoDuplicatesForever<H>(s: seq<H>, edits: seq<Edit<H>>)
    requires NoDuplicates(s)
    ensures NoDuplicates(ApplyAll(s, edits))
    decreases |edits|
  {
    if edits != [] {
      match edits[0] {
        case Subscribe(h) => AddedContents(s, h, h);
        case Unsubscribe(h) => RemovedContents(s, h, h);
      }
      NoDuplicatesForever(Apply(s, edits[0]), edits[1..]);
    }
  }

  // --------------------------------------------------------------- sensor

  /** One invocation of a handler with a value. */
  datatype Call<H> = Call(handler: H, value: int)

  class Sensor<H(==)> {
    var value: int
    var subscribers: seq<H>

    ghost predicate Valid()
      reads this
    {
      NoDuplicates(subscribers)
    }

    function Count(): nat
      reads this
    {
      |subscribers|
    }

    constructor ()
      ensures value == 0 && subscribers == []
      ensures Valid()
    {
      value := 0;
      subscribers := [];
    }

    /** Store the value, then notify every subscriber with it. */
    method SetValue(v: int) returns (notified: seq<Call<H>>)
      requires Valid()
      modifies this
      ensures Valid()
      ensures value == v && subscribers == old(subscribers)
      ensures |notified| == |subscribers|
      ensures forall i :: 0 <= i < |subscribers| ==> notified[i] == Call(subscribers[i], v)
    {
      value := v;
      notified := NotifySubscribers();
    }

    method AddSubscriber(h: H)
      requires Valid()
      modifies this
      ensures Valid()
      ensures subscribers == Added(old(subscribers), h) && value == old(value)
    {
      if h !in subscribers {
        AddedContents(subscribers, h, h);
        subscribers := subscribers + [h];
      }
    }

    method RemoveSubscriber(h: H)
      requires Valid()
      modifies this
      ensures Valid()
      ensures subscribers == Removed(old(subscribers), h) && value == old(value)
      ensures h !in subscribers
    {
      RemovedContents(subscribers, h, h);
      if h in subscribers {
        subscribers := Removed(subscribers, h);
      }
      RemovedSplice(old(subscribers), h);
    }

    /** The `foreach` over the subscribers: one call each, in list order,
        with the current value; the sensor itself is left as it is. */
    method NotifySubscribers() returns (notified: seq<Call<H>>)
      ensures |notified| == |subscribers|
      ensures forall i :: 0 <= i < |subscribers| ==> notified[i] == Call(subscribers[i], value)
    {
      notified := [];
      var i := 0;
      while i < |subscribers|
        invariant 0 <= i <= |subscribers| && |notified| == i
        invariant forall k :: 0 <= k < i ==> notified[k] == Call(subscribers[k], value)
      {
        notified := notified + [Call(subscribers[i], value)];
        i := i + 1;
      }
    }
  }

  /** The "remove subscriber" menu entry: the typed line is read as an
      Int32, and the subscriber with that 1-based number is removed when
      there is one; any other line leaves the list alone. */
  method RemoveByNumber<H(==)>(sensor: Sensor<H>, line: string)
    requires sensor.Valid()
    modifies sensor
    ensures sensor.Valid() && sensor.value == old(sensor.value)
    ensures var n := Strings.ParseInt32(line);
            if n.Some? && 1 <= n.value <= old(|sensor.subscribers|)
            then sensor.subscribers == old(sensor.subscribers[..n.value - 1] + sensor.subscribers[n.value..])
            else sensor.subscribers == old(sensor.subscribers)
  {
    var n := Strings.ParseInt32(line);
    if n.Some? && n.value > 0 {
      if n.value <= sensor.Count() {
        var h := sensor.subscribers[n.value - 1];
        ghost var before := sensor.subscribers;
        assert IndexOf(before, h) == n.value - 1 by {
          var i := IndexOf(before, h);
          assert before[i] == before[n.value - 1];
        }
        sensor.RemoveSubscriber(h);
        RemovedSplice(before, h);
      }
    }
  }

  // ------------------------------------------------------------- handlers

  /** The three handler methods of the program. */
  datatype Handler = LogChange | AlertHighValue | AlertLowValue

  /** What a handler writes for a value, if anything. */
  datatype Output = Logged(value: int) | HighAlert(value: int) | LowAlert(value: int)

  const HIGH_THRESHOLD := 70
  const LOW_THRESHOLD := 30

  /** Running handler `h` on `value`. */
  function React(h: Handler, value: int): (out: seq<Output>)
    ensures |out| <= 1
  {
    match h
    case LogChange => [Logged(value)]
    case AlertHighValue => if value > HIGH_THRESHOLD then [HighAlert(value)] else []
    case AlertLowValue => if value < LOW_THRESHOLD then [LowAlert(value)] else []
  }

  /** What a round of notifications writes, in order. */
  function Outputs(calls: seq<Call<Handler>>): seq<Output>
    decreases |calls|
  {
    if calls == [] then [] else React(calls[0].handler, calls[0].value) + Outputs(calls[1..])
  }

  /** The log line is written for every value; the high alert exactly above
      70, the low alert exactly below 30, never both, and neither for a
      value from 30 to 70. */
  lemma AlertBands(value: int)
    ensures React(LogChange, value) == [Logged(value)]
    ensures React(AlertHighValue, value) != [] <==> value > HIGH_THRESHOLD
    ensures React(AlertLowValue, value) != [] <==> value < LOW_THRESHOLD
    ensures React(AlertHighValue, value) == [] || React(AlertLowValue, value) == []
    ensures LOW_THRESHOLD <= value <= HIGH_THRESHOLD ==> React(AlertHighValue, value) + React(AlertLowValue, value) == []
  {
  }

  /** The program's sensor: LogChange and AlertHighValue subscribed. */
  method StartProgram() returns (sensor: Sensor<Handler>)
    ensures fresh(sensor) && sensor.Valid()
    ensures sensor.subscribers == [LogChange, AlertHighValue] && sensor.value == 0
  {
    sensor := new Sensor();
    sensor.AddSubscriber(LogChange);
    sensor.AddSubscriber(AlertHighValue);
  }

  /** With the program's subscribers, setting a value writes the log line
      and, above 70, the high alert after it. */
  lemma ProgramReaction(value: int)
    ensures Outputs([Call(LogChange, value), Call(AlertHighValue, value)])
            == if value > HIGH_THRESHOLD then [Logged(value), HighAlert(value)] else [Logged(value)]
  {
    var calls := [Call(LogChange, value), Call(AlertHighValue, value)];
    assert Outputs(calls) == React(LogChange, value) + Outputs(calls[1..]);
    assert Outputs(calls[1..]) == React(AlertHighValue, value) + Outputs(calls[1..][1..]);
    assert calls[1..][1..] == [];
  }
}
