/** The event buffer of a device (`BufferMixin` and `AbstractDevice` in
    src/devices/abstract.py). Times are whole microseconds; `now` stands for
    the wall clock read while `get` runs. */
module EventBuffer {

  /** A decoded input event. */
  datatype Event = Event(timestamp: int, code: string, state: int)

  /** The asyncio queue behind a device: its contents (head first), its
      `maxsize` (zero or less means unbounded) and the device `_timeout`. */
  datatype Buffer = Buffer(queue: seq<Event>, maxsize: int, timeout: int)

  const MicrosPerSecond: int := 1_000_000

  /** An event is stale when its age in seconds exceeds `timeout / 100`,
      compared exactly: age / 10^6 > timeout / 100. */
  predicate Stale(e: Event, now: int, timeout: int)
    ensures Stale(e, now, timeout) <==> now - e.timestamp > timeout * (MicrosPerSecond / 100)
  {
    (now - e.timestamp) * 100 > timeout * MicrosPerSecond
  }

  /** The queue counts as full only when it has a positive bound that the
      contents reach. */
  predicate Full(b: Buffer)
    ensures b.maxsize <= 0 ==> !Full(b)
    ensures Bounded(b) ==> (Full(b) <==> b.maxsize > 0 && |b.queue| == b.maxsize)
  {
    b.maxsize > 0 && |b.queue| >= b.maxsize
  }

  /** Occupancy never exceeds a positive bound. */
  predicate Bounded(b: Buffer) {
    b.maxsize > 0 ==> |b.queue| <= b.maxsize
  }

  /** `AbstractDevice.__init__`: an empty queue; by default unbounded and
      with `timeout` 100, so events older than one second are stale. */
  function NewBuffer(maxsize: int := 0, timeout: int := 100): (b: Buffer)
    ensures b.queue == [] && QSize(b) == 0 && Bounded(b) && !Full(b)
    ensures b.maxsize == maxsize && b.timeout == timeout
  {
    Buffer([], maxsize, timeout)
  }

  /** With the default timeout, the freshness limit is exactly one second:
      an event one second old is still delivered, one a microsecond older
      is not. */
  lemma DefaultThresholdIsOneSecond(e: Event, now: int)
    ensures Stale(e, now, NewBuffer().timeout) <==> now - e.timestamp > MicrosPerSecond
  {
  }

  /** `buffer_qsize`: the number of queued events. */
  function QSize(b: Buffer): (n: nat)
    ensures Bounded(b) && b.maxsize > 0 ==> n <= b.maxsize
    ensures n == 0 <==> b.queue == []
  {
    |b.queue|
  }

  /** `BufferMixin.put`: the event joins the tail; on a full queue the wait
      for space times out and the event is dropped without an error. A
      timeout of zero or less cancels the put before it starts (asyncio's
      `wait_for`), so the event is dropped then too. */
  function Put(b: Buffer, e: Event): (r: Buffer)
    ensures r.maxsize == b.maxsize && r.timeout == b.timeout
    ensures !Full(b) && b.timeout > 0 ==> r.queue == b.queue + [e] && QSize(r) == QSize(b) + 1
    ensures Full(b) || b.timeout <= 0 ==> r == b
    ensures Bounded(b) ==> Bounded(r)
  {
    if Full(b) || b.timeout <= 0 then b else b.(queue := b.queue + [e])
  }

  /** A full bounded queue stays at capacity whatever is put: the surplus
      is dropped, never queued. */
  lemma {:induction false} PutManyStaysAtCapacity(b: Buffer, es: seq<Event>)
    requires b.maxsize > 0 && QSize(b) == b.maxsize
    ensures PutMany(b, es) == b
    decreases |es|
  {
    if es != [] {
      PutManyStaysAtCapacity(Put(b, es[0]), es[1..]);
    }
  }

  function PutMany(b: Buffer, es: seq<Event>): Buffer
    decreases |es|
  {
    if es == [] then b else PutMany(Put(b, es[0]), es[1..])
  }

  /** `BufferMixin.get`: pops events from the head, discarding each one that
      is stale, and returns the first fresh one. If the queue runs dry
      first, the caller waits and receives `next`, the next event put, with
      no freshness check. Events are only ever taken from the head. */
  method Get(b: Buffer, now: int, next: Event) returns (e: Event, r: Buffer)
    ensures r.maxsize == b.maxsize && r.timeout == b.timeout
    ensures |r.queue| <= |b.queue| && r.queue == b.queue[|b.queue| - |r.queue|..]
    ensures |b.queue| > 0 && !Stale(b.queue[0], now, b.timeout) ==>
      e == b.queue[0] && r.queue == b.queue[1..]
    ensures (forall j :: 0 <= j < |b.queue| ==> Stale(b.queue[j], now, b.timeout)) ==>
      e == next && r.queue == []
    ensures (exists j :: 0 <= j < |b.queue| && !Stale(b.queue[j], now, b.timeout)) ==>
      var k := |b.queue| - |r.queue| - 1;
      0 <= k && e == b.queue[k] && !Stale(e, now, b.timeout)
      && forall j :: 0 <= j < k ==> Stale(b.queue[j], now, b.timeout)
  {
    var q := b.queue;
    if q == [] {
      return next, b;
    }
    e := q[0];
    var i := 1;
    while Stale(e, now, b.timeout)
      invariant 1 <= i <= |q|
      invariant e == q[i - 1]
      invariant forall j :: 0 <= j < i - 1 ==> Stale(q[j], now, b.timeout)
      decreases |q| - i
    {
      if i == |q| {
        return next, b.(queue := []);
      }
      e := q[i];
      i := i + 1;
    }
    r := b.(queue := q[i..]);
  }
}
