/** The bounded in-memory buffers of `src/events.rs`: resizable capacity and saturating drop accounting. */
module RingBuffers {
  import opened Outcomes

  const U64_MAX: nat := 0xFFFF_FFFF_FFFF_FFFF

  function SaturatingAdd(a: nat, b: nat): nat {
    if a + b <= U64_MAX then a + b else U64_MAX
  }

  ghost predicate IsSuffix<T>(suffix: seq<T>, xs: seq<T>) {
    |suffix| <= |xs| && suffix == xs[|xs| - |suffix|..]
  }

  datatype Ring<T> = Ring(capacity: nat, dropped: nat, events: seq<T>)

  datatype RingOp<T> = Push(event: T) | Drop(count: nat) | Resize(capacity: nat)

  function Apply<T>(r: Ring<T>, op: RingOp<T>): Ring<T> {
    match op
    case Push(event) =>
      if r.capacity == 0 then r.(dropped := SaturatingAdd(r.dropped, 1))
      else if |r.events| == r.capacity then Ring(r.capacity, SaturatingAdd(r.dropped, 1), r.events[1..] + [event])
      else r.(events := r.events + [event])
    case Drop(count) => r.(dropped := SaturatingAdd(r.dropped, count))
    case Resize(capacity) =>
      var excess := if |r.events| > capacity then |r.events| - capacity else 0;
      Ring(capacity, SaturatingAdd(r.dropped, excess), r.events[excess..])
  }

  function Run<T>(capacity: nat, ops: seq<RingOp<T>>): Ring<T> {
    if ops == [] then Ring(capacity, 0, []) else Apply(Run(capacity, ops[..|ops| - 1]), ops[|ops| - 1])
  }

  /** Pushes and externally reported drops. */
  function Offered<T>(ops: seq<RingOp<T>>): nat {
    if ops == [] then 0
    else
      var rest := Offered(ops[..|ops| - 1]);
      match ops[|ops| - 1]
      case Push(_) => rest + 1
      case Drop(count) => rest + count
      case Resize(_) => rest
  }

  /** The capacity after the operations: that of the last change, or the first one. */
  function CapacityAfter<T>(capacity: nat, ops: seq<RingOp<T>>): nat {
    if ops == [] then capacity
    else if ops[|ops| - 1].Resize? then ops[|ops| - 1].capacity
    else CapacityAfter(capacity, ops[..|ops| - 1])
  }

  /** The events pushed while there was any capacity. */
  function Accepted<T>(capacity: nat, ops: seq<RingOp<T>>): seq<T> {
    if ops == [] then []
    else
      var rest, last := Accepted(capacity, ops[..|ops| - 1]), ops[|ops| - 1];
      if last.Push? && CapacityAfter(capacity, ops[..|ops| - 1]) > 0 then rest + [last.event] else rest
  }

  /** How many events are held when none is dropped without need. */
  function Retained<T>(capacity: nat, ops: seq<RingOp<T>>): nat {
    if ops == [] then 0
    else
      var before, limit := Retained(capacity, ops[..|ops| - 1]), CapacityAfter(capacity, ops);
      var wanted := if ops[|ops| - 1].Push? then before + 1 else before;
      if wanted <= limit then wanted else limit
  }

  /** The ring has the current capacity and drops nothing without need. */
  lemma {:induction false} RetainsExactly<T>(capacity: nat, ops: seq<RingOp<T>>)
    ensures Run(capacity, ops).capacity == CapacityAfter(capacity, ops)
    ensures |Run(capacity, ops).events| == Retained(capacity, ops) <= CapacityAfter(capacity, ops)
  {
    if ops != [] {
      RetainsExactly(capacity, ops[..|ops| - 1]);
    }
  }

  /**
   Within capacity, holding the latest accepted events, and everything else offered counted as dropped up to saturation.
   */
  ghost predicate Conserved<T>(r: Ring<T>, accepted: seq<T>, offered: nat) {
    && |r.events| <= r.capacity
    && IsSuffix(r.events, accepted)
    && |r.events| <= offered
    && r.dropped == SaturatingAdd(0, offered - |r.events|)
  }

  lemma PushConserves<T>(r: Ring<T>, accepted: seq<T>, offered: nat, event: T)
    requires Conserved(r, accepted, offered)
    ensures Conserved(Apply(r, Push(event)), if r.capacity > 0 then accepted + [event] else accepted, offered + 1)
  {
  }

  lemma ResizeConserves<T>(r: Ring<T>, accepted: seq<T>, offered: nat, capacity: nat)
    requires Conserved(r, accepted, offered)
    ensures Conserved(Apply(r, Resize(capacity)), accepted, offered)
  {
  }

  lemma DropConserves<T>(r: Ring<T>, accepted: seq<T>, offered: nat, count: nat)
    requires Conserved(r, accepted, offered)
    ensures Conserved(Apply(r, Drop(count)), accepted, offered + count)
  {
  }

  /** Any mix of pushes, external drops and capacity changes conserves what was offered. */
  lemma {:induction false} RingConservation<T>(capacity: nat, ops: seq<RingOp<T>>)
    ensures Conserved(Run(capacity, ops), Accepted(capacity, ops), Offered(ops))
  {
    if ops != [] {
      var init, last := ops[..|ops| - 1], ops[|ops| - 1];
      var r, accepted, offered := Run(capacity, init), Accepted(capacity, init), Offered(init);
      RingConservation(capacity, init);
      RetainsExactly(capacity, init);
      match last {
        case Push(event) => PushConserves(r, accepted, offered, event);
        case Drop(count) => DropConserves(r, accepted, offered, count);
        case Resize(newCapacity) => ResizeConserves(r, accepted, offered, newCapacity);
      }
    }
  }

  /** The contents are exactly the latest accepted events, as many as can be retained. */
  lemma RingHoldsExactly<T>(capacity: nat, ops: seq<RingOp<T>>)
    ensures var accepted, n := Accepted(capacity, ops), Retained(capacity, ops);
            n <= |accepted| && Run(capacity, ops).events == accepted[|accepted| - n..]
  {
    RingConservation(capacity, ops);
    RetainsExactly(capacity, ops);
  }

  /** Below saturation the books balance exactly. */
  lemma RingBooksBalance<T>(capacity: nat, ops: seq<RingOp<T>>)
    requires Offered(ops) <= U64_MAX
    ensures |Run(capacity, ops).events| + Run(capacity, ops).dropped == Offered(ops)
  {
    RingConservation(capacity, ops);
  }

  class RoutingTelemetryBuffer<T> {
    var capacity: nat
    var droppedEvents: nat
    var events: seq<T>

    ghost function Contents(): Ring<T>
      reads this
    {
      Ring(capacity, droppedEvents, events)
    }

    constructor (capacity: nat)
      ensures Contents() == Run(capacity, [])
    {
      this.capacity, droppedEvents, events := capacity, 0, [];
    }

    method Push(event: T)
      requires |events| <= capacity
      modifies this
      ensures Contents() == Apply(old(Contents()), RingOp.Push(event)) && |events| <= capacity
    {
      if capacity == 0 {
        RecordDroppedEvents(1);
        return;
      }
      if |events| == capacity {
        events := events[1..];
        RecordDroppedEvents(1);
      }
      events := events + [event];
    }

    method RecordDroppedEvents(dropped: nat)
      modifies this`droppedEvents
      ensures Contents() == Apply(old(Contents()), Drop(dropped))
    {
      droppedEvents := SaturatingAdd(droppedEvents, dropped);
    }

    method ReplaceCapacity(newCapacity: nat)
      modifies this
      ensures Contents() == Apply(old(Contents()), Resize(newCapacity)) && |events| <= capacity
    {
      var dropped := if |events| > newCapacity then |events| - newCapacity else 0;
      RecordDroppedEvents(dropped);
      capacity := newCapacity;
      while |events| > capacity
        invariant old(|events|) - dropped <= |events| <= old(|events|)
        invariant events == old(events)[old(|events|) - |events|..]
        invariant capacity == newCapacity && droppedEvents == SaturatingAdd(old(droppedEvents), dropped)
      {
        events := events[1..];
      }
    }
  }

  // --- Response-filter events carry ids ---------------------------------------------------------

  datatype FilterEvent<T> = FilterEvent(id: nat, createdAt: nat, input: T)
  datatype FilterOp<T> = Report(input: T, createdAt: nat) | DropReported(count: nat) | ResizeTo(capacity: nat)
  datatype FilterRing<T> = FilterRing(ring: Ring<FilterEvent<T>>, nextId: nat)

  function ApplyFilter<T>(f: FilterRing<T>, op: FilterOp<T>): FilterRing<T> {
    match op
    case Report(input, createdAt) =>
      var id := if f.ring.capacity == 0 then f.nextId else SaturatingAdd(f.nextId, 1);
      FilterRing(Apply(f.ring, Push(FilterEvent(id, createdAt, input))), id)
    case DropReported(count) => f.(ring := Apply(f.ring, Drop(count)))
    case ResizeTo(capacity) => f.(ring := Apply(f.ring, Resize(capacity)))
  }

  function RunFilter<T>(capacity: nat, ops: seq<FilterOp<T>>): FilterRing<T> {
    if ops == [] then FilterRing(Ring(capacity, 0, []), 0)
    else ApplyFilter(RunFilter(capacity, ops[..|ops| - 1]), ops[|ops| - 1])
  }

  /** What a filter operation does to the buffer behind it, whatever number a report gets. */
  function Behind<T>(ops: seq<FilterOp<T>>): seq<RingOp<()>> {
    seq(|ops|, i requires 0 <= i < |ops| =>
      match ops[i]
      case Report(_, _) => Push(())
      case DropReported(count) => Drop(count)
      case ResizeTo(capacity) => Resize(capacity))
  }

  lemma BehindSnoc<T>(ops: seq<FilterOp<T>>)
    requires ops != []
    ensures Behind(ops)[..|ops| - 1] == Behind(ops[..|ops| - 1])
  {
  }

  /** The filter buffer too has the current capacity and drops nothing without need. */
  lemma {:induction false} FilterRetainsExactly<T>(capacity: nat, ops: seq<FilterOp<T>>)
    ensures RunFilter(capacity, ops).ring.capacity == CapacityAfter(capacity, Behind(ops))
    ensures |RunFilter(capacity, ops).ring.events|
            == Retained(capacity, Behind(ops)) <= CapacityAfter(capacity, Behind(ops))
  {
    if ops != [] {
      BehindSnoc(ops);
      FilterRetainsExactly(capacity, ops[..|ops| - 1]);
    }
  }

  /** The reports accepted so far, stamped with consecutive ids from one. */
  function Stamped<T>(capacity: nat, ops: seq<FilterOp<T>>): seq<FilterEvent<T>> {
    if ops == [] then []
    else
      var init := ops[..|ops| - 1];
      StampedBy(Stamped(capacity, init), ops[|ops| - 1], CapacityAfter(capacity, Behind(init)))
  }

  function StampedBy<T>(stamped: seq<FilterEvent<T>>, op: FilterOp<T>, capacity: nat): seq<FilterEvent<T>> {
    if op.Report? && capacity > 0 then stamped + [FilterEvent(|stamped| + 1, op.createdAt, op.input)] else stamped
  }

  function OfferedReports<T>(ops: seq<FilterOp<T>>): nat {
    if ops == [] then 0 else OfferedBy(OfferedReports(ops[..|ops| - 1]), ops[|ops| - 1])
  }

  function OfferedBy<T>(offered: nat, op: FilterOp<T>): nat {
    match op
    case Report(_, _) => offered + 1
    case DropReported(count) => offered + count
    case ResizeTo(_) => offered
  }

  ghost predicate NumberedFromOne<T>(events: seq<FilterEvent<T>>) {
    forall i :: 0 <= i < |events| ==> events[i].id == i + 1
  }

  ghost predicate FilterConserved<T>(f: FilterRing<T>, stamped: seq<FilterEvent<T>>, offered: nat) {
    Conserved(f.ring, stamped, offered) && NumberedFromOne(stamped) && f.nextId == |stamped| <= offered
  }

  lemma ReportConserves<T>(f: FilterRing<T>, stamped: seq<FilterEvent<T>>, offered: nat, input: T, createdAt: nat)
    requires FilterConserved(f, stamped, offered) && offered < U64_MAX
    ensures FilterConserved(
              ApplyFilter(f, Report(input, createdAt)),
              if f.ring.capacity > 0 then stamped + [FilterEvent(|stamped| + 1, createdAt, input)] else stamped,
              offered + 1)
  {
    var id := if f.ring.capacity == 0 then f.nextId else f.nextId + 1;
    PushConserves(f.ring, stamped, offered, FilterEvent(id, createdAt, input));
  }

  lemma FilterStepConserves<T>(f: FilterRing<T>, stamped: seq<FilterEvent<T>>, offered: nat, op: FilterOp<T>)
    requires FilterConserved(f, stamped, offered) && OfferedBy(offered, op) <= U64_MAX
    ensures FilterConserved(ApplyFilter(f, op), StampedBy(stamped, op, f.ring.capacity), OfferedBy(offered, op))
  {
    match op {
      case Report(input, createdAt) => ReportConserves(f, stamped, offered, input, createdAt);
      case DropReported(count) => DropConserves(f.ring, stamped, offered, count);
      case ResizeTo(newCapacity) => ResizeConserves(f.ring, stamped, offered, newCapacity);
    }
  }

  lemma {:induction false} FilterConserves<T>(capacity: nat, ops: seq<FilterOp<T>>)
    requires OfferedReports(ops) <= U64_MAX
    ensures FilterConserved(RunFilter(capacity, ops), Stamped(capacity, ops), OfferedReports(ops))
  {
    if ops != [] {
      var init := ops[..|ops| - 1];
      FilterConserves(capacity, init);
      FilterRetainsExactly(capacity, init);
      FilterStepConserves(
        RunFilter(capacity, init), Stamped(capacity, init), OfferedReports(init), ops[|ops| - 1]);
    }
  }

  /**
   Below saturation the buffer holds the latest accepted reports under their own consecutive numbers, so its ids are
   the contiguous block that ends at `nextId`, also after a stretch at capacity zero; and the books balance.
   */
  lemma FilterIdsAreContiguous<T>(capacity: nat, ops: seq<FilterOp<T>>)
    requires OfferedReports(ops) <= U64_MAX
    ensures var f := RunFilter(capacity, ops);
            && f.nextId == |Stamped(capacity, ops)|
            && IsSuffix(f.ring.events, Stamped(capacity, ops))
            && (forall i :: 0 <= i < |f.ring.events| ==> f.ring.events[i].id == f.nextId - |f.ring.events| + 1 + i)
            && |f.ring.events| == Retained(capacity, Behind(ops)) <= f.ring.capacity
            && |f.ring.events| + f.ring.dropped == OfferedReports(ops)
  {
    FilterConserves(capacity, ops);
    FilterRetainsExactly(capacity, ops);
  }

  class ResponseFilterEventBuffer<T> {
    var capacity: nat
    var droppedEvents: nat
    var nextId: nat
    var events: seq<FilterEvent<T>>

    ghost function Contents(): FilterRing<T>
      reads this
    {
      FilterRing(Ring(capacity, droppedEvents, events), nextId)
    }

    constructor (capacity: nat)
      ensures Contents() == RunFilter(capacity, [])
    {
      this.capacity, droppedEvents, nextId, events := capacity, 0, 0, [];
    }

    method PushAtUnixSeconds(input: T, createdAt: nat) returns (r: Option<FilterEvent<T>>)
      requires |events| <= capacity
      modifies this
      ensures Contents() == ApplyFilter(old(Contents()), Report(input, createdAt)) && |events| <= capacity
      ensures r == if capacity == 0 then None else Some(events[|events| - 1])
    {
      if capacity == 0 {
        RecordDroppedEvents(1);
        return None;
      }
      nextId := SaturatingAdd(nextId, 1);
      var event := FilterEvent(nextId, createdAt, input);
      if |events| == capacity {
        events := events[1..];
        RecordDroppedEvents(1);
      }
      events := events + [event];
      r := Some(event);
    }

    method RecordDroppedEvents(dropped: nat)
      modifies this`droppedEvents
      ensures Contents() == ApplyFilter(old(Contents()), DropReported(dropped))
    {
      droppedEvents := SaturatingAdd(droppedEvents, dropped);
    }

    method ReplaceCapacity(newCapacity: nat)
      modifies this
      ensures Contents() == ApplyFilter(old(Contents()), ResizeTo(newCapacity)) && |events| <= capacity
    {
      var dropped := if |events| > newCapacity then |events| - newCapacity else 0;
      RecordDroppedEvents(dropped);
      capacity := newCapacity;
      while |events| > capacity
        invariant old(|events|) - dropped <= |events| <= old(|events|)
        invariant events == old(events)[old(|events|) - |events|..]
        invariant capacity == newCapacity && nextId == old(nextId)
        invariant droppedEvents == SaturatingAdd(old(droppedEvents), dropped)
      {
        events := events[1..];
      }
    }
  }
}
