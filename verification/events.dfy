/**
 The durable record of a mutation (`Event`), its type encoding, the numbering
 the single background writer gives submitted events, and the folding of events
 onto the store that recovery performs.
 */
module Events {
  import opened Results
  import opened KvStore

  /** Go's `byte`. */
  newtype uint8 = x: int | 0 <= x < 0x100

  /** Go's `uint64`. */
  newtype uint64 = x: int | 0 <= x < 0x1_0000_0000_0000_0000

  const UINT64_MODULUS: int := 0x1_0000_0000_0000_0000

  /** The two kinds of mutation. */
  datatype EventType = EventDelete | EventPut

  /** The numeric code of an event type: the constants are declared with `iota`
      after a blank first entry, so 0 is skipped, Delete is 1 and Put is 2. */
  function Code(t: EventType): uint8
  {
    match t
    case EventDelete => 1
    case EventPut => 2
  }

  /** The event type a code stands for; every code other than 1 and 2 is not one. */
  function EventTypeOf(b: uint8): (r: Option<EventType>)
    ensures r.Some? <==> b == 1 || b == 2
    ensures r.Some? ==> Code(r.value) == b
  {
    if b == 1 then Some(EventDelete)
    else if b == 2 then Some(EventPut)
    else None
  }

  /** Encoding an event type and decoding the code gives it back, and no type encodes as 0. */
  lemma CodeRoundTrip(t: EventType)
    ensures EventTypeOf(Code(t)) == Some(t)
    ensures Code(t) != 0
  {
  }

  /** One logged mutation. A submitted event carries sequence 0 until the writer numbers it. */
  datatype Event = Event(sequence: uint64, eventType: EventType, key: string, value: string)

  /** The event `WritePut(key, value)` submits. */
  function WritePut(key: string, value: string): Event
  {
    Event(0, EventPut, key, value)
  }

  /** The event `WriteDelete(key)` submits: no value, so the empty string. */
  function WriteDelete(key: string): Event
  {
    Event(0, EventDelete, key, "")
  }

  /** Reduction to `uint64` as Go's unsigned arithmetic does. */
  function Wrap(n: nat): uint64
  {
    (n % UINT64_MODULUS) as uint64
  }

  /** The sequence number after `last`: Go's `last++` on a `uint64`. */
  function Next(last: uint64): (n: uint64)
    ensures n as int == (last as int + 1) % UINT64_MODULUS
  {
    if last as int + 1 == UINT64_MODULUS then 0 else last + 1
  }

  /** Wrapping after one more step agrees with wrapping the longer sum. */
  lemma WrapNext(n: nat)
    ensures Next(Wrap(n)) == Wrap(n + 1)
  {
  }

  /** The writer's numbering of a queue of submitted events, in submission order,
      continuing from the last number it handed out. */
  function Sequence(queue: seq<Event>, last: uint64): (written: seq<Event>)
    ensures |written| == |queue|
    ensures forall i :: 0 <= i < |queue| ==>
      written[i] == queue[i].(sequence := Wrap(last as int + 1 + i))
    decreases |queue|
  {
    if |queue| == 0 then []
    else
      var first := queue[0].(sequence := Next(last));
      var rest := Sequence(queue[1..], Next(last));
      forall i | 1 <= i < |queue|
        ensures rest[i - 1] == queue[i].(sequence := Wrap(last as int + 1 + i))
      {
        WrapShift(last as int + 1, i);
      }
      [first] + rest
  }

  /** Adding to a reduced number and reducing again is reducing the plain sum. */
  lemma WrapShift(a: nat, i: nat)
    ensures Wrap((a % UINT64_MODULUS) + i) == Wrap(a + i)
  {
    var q := a / UINT64_MODULUS;
    assert a == q * UINT64_MODULUS + a % UINT64_MODULUS;
    assert (a + i) == q * UINT64_MODULUS + (a % UINT64_MODULUS + i);
  }

  /** As long as the counter does not wrap, the numbers handed out are
      last+1, last+2, ... with no gap or repetition; a fresh writer starts at 1. */
  lemma SequencesContiguous(queue: seq<Event>, last: uint64)
    requires last as int + |queue| < UINT64_MODULUS
    ensures forall i :: 0 <= i < |queue| ==> Sequence(queue, last)[i].sequence as int == last as int + 1 + i
    ensures forall i, j :: 0 <= i < j < |queue| ==> Sequence(queue, last)[i].sequence < Sequence(queue, last)[j].sequence
    ensures last == 0 && |queue| > 0 ==> Sequence(queue, last)[0].sequence == 1
  {
  }

  /** The background writer: drains the queue in order, numbering each event with
      the next sequence number; returns what it wrote and the last number used. */
  method RunWriter(queue: seq<Event>, last: uint64) returns (written: seq<Event>, newLast: uint64)
    ensures written == Sequence(queue, last)
    ensures newLast == Wrap(last as int + |queue|)
  {
    written := [];
    newLast := last;
    var i := 0;
    while i < |queue|
      invariant 0 <= i <= |queue|
      invariant newLast == Wrap(last as int + i)
      invariant |written| == i
      invariant forall j :: 0 <= j < i ==> written[j] == queue[j].(sequence := Wrap(last as int + 1 + j))
    {
      WrapNext(last as int + i);
      newLast := Next(newLast);
      written := written + [queue[i].(sequence := newLast)];
      i := i + 1;
    }
  }

  /** Recovery's treatment of one event: Put upserts, Delete deletes. */
  function ApplyEvent(s: Store, e: Event): (u: Update)
    ensures e.eventType == EventPut ==> u.err == None && Get(u.store, e.key) == Success(e.value)
    ensures e.eventType == EventDelete ==> (u.err == None <==> e.key in s) && Get(u.store, e.key).Failure?
    ensures forall k :: k != e.key ==> Get(u.store, k) == Get(s, k)
  {
    match e.eventType
    case EventPut => Upsert(s, e.key, e.value)
    case EventDelete => Delete(s, e.key)
  }

  /** Every event of the log applies without error in turn: each Delete names a
      key present at that point. How recovery treats any other log is not modelled. */
  predicate ReplayDefined(s: Store, log: seq<Event>)
    decreases |log|
  {
    |log| == 0 || (ApplyEvent(s, log[0]).err == None && ReplayDefined(ApplyEvent(s, log[0]).store, log[1..]))
  }

  /** Applying the events of a log, in order, to a store. */
  function Replay(s: Store, log: seq<Event>): Store
    requires ReplayDefined(s, log)
    decreases |log|
  {
    if |log| == 0 then s else Replay(ApplyEvent(s, log[0]).store, log[1..])
  }

  /** Replaying a log with one more event at the end is replaying the log and then
      applying that event; the longer log is replayable exactly when the shorter
      one is and the event applies cleanly after it. */
  lemma {:induction false} ReplayAppend(s: Store, log: seq<Event>, e: Event)
    ensures ReplayDefined(s, log + [e]) <==> ReplayDefined(s, log) && ApplyEvent(Replay(s, log), e).err == None
    ensures ReplayDefined(s, log + [e]) ==> Replay(s, log + [e]) == ApplyEvent(Replay(s, log), e).store
    decreases |log|
  {
    if |log| == 0 {
      assert log + [e] == [e];
      assert [e][1..] == [];
    } else {
      assert (log + [e])[0] == log[0];
      assert (log + [e])[1..] == log[1..] + [e];
      var u := ApplyEvent(s, log[0]);
      if u.err == None {
        ReplayAppend(u.store, log[1..], e);
      }
    }
  }

  /** Sequence numbers play no part in replay: the numbered log rebuilds the same store. */
  lemma {:induction false} ReplayIgnoresSequence(s: Store, queue: seq<Event>, last: uint64)
    ensures ReplayDefined(s, Sequence(queue, last)) <==> ReplayDefined(s, queue)
    ensures ReplayDefined(s, queue) ==> Replay(s, Sequence(queue, last)) == Replay(s, queue)
    decreases |queue|
  {
    var written := Sequence(queue, last);
    if |queue| > 0 {
      assert written[0] == queue[0].(sequence := Wrap(last as int + 1));
      assert ApplyEvent(s, written[0]) == ApplyEvent(s, queue[0]);
      var u := ApplyEvent(s, queue[0]);
      assert written[1..] == Sequence(queue[1..], Next(last));
      if u.err == None {
        ReplayIgnoresSequence(u.store, queue[1..], Next(last));
      }
    }
  }
}
