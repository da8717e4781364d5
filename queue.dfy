/** The Redis list the ingestion API pushes to and `drain_queue` pops from. */
module QueueDrain {
  import opened Types

  /** At most this many items are popped in one run. */
  const MaxDrain: nat := 5000

  /** How many items one drain takes from a queue holding `queueLength` items:
      all of them, unless that is more than the cap. */
  function DrainCount(queueLength: nat): (n: nat)
    ensures n <= MaxDrain && n <= queueLength
    ensures n < MaxDrain ==> n == queueLength
    ensures queueLength <= MaxDrain ==> n == queueLength
  {
    if queueLength < MaxDrain then queueLength else MaxDrain
  }

  /** A FIFO of parsed transactions shared with the producer. */
  class TxnQueue {
    var items: seq<Txn>

    constructor (initial: seq<Txn>)
      ensures items == initial
    {
      items := initial;
    }

    /** `drain_queue`: when the queue is disabled nothing is popped; otherwise
        pop from the front until the queue is empty or `MaxDrain` items have
        been taken. The items returned are exactly the leading prefix, in FIFO
        order, and the queue keeps exactly the rest. */
    method Drain(enabled: bool) returns (drained: seq<Txn>)
      modifies this
      ensures !enabled ==> drained == [] && items == old(items)
      ensures enabled ==> |drained| == DrainCount(|old(items)|)
      ensures enabled ==> drained == old(items)[..|drained|] && items == old(items)[|drained|..]
      ensures old(items) == drained + items
    {
      drained := [];
      if !enabled {
        return;
      }
      var taken := 0;
      while taken < MaxDrain
        invariant taken <= MaxDrain
        invariant old(items) == drained + items
        invariant |drained| == taken
        invariant items == [] ==> taken == |old(items)|
      {
        if items == [] {
          break;
        }
        var item := items[0];
        items := items[1..];
        drained := drained + [item];
        taken := taken + 1;
      }
      assert drained == old(items)[..|drained|];
    }
  }
}
