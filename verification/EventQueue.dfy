/** The bounded queue between the producer of live events and their consumer. */
module EventQueue {
  import opened Values
  import opened LiveProtocol

  /** Some events from the start of `produced`, followed by one terminal event. */
  ghost predicate CutOff(events: seq<LiveEvent>, produced: seq<LiveEvent>, terminal: LiveEvent) {
    events != [] && events[|events| - 1] == terminal && events[..|events| - 1] <= produced
  }

  /** A dropping queue: an offer to a full queue fails. */
  class DroppingQueue {
    const capacity: nat
    var queue: seq<LiveEvent>
    var ended: bool
    /** Everything accepted from the producer, everything the consumer has taken, and the terminal status
        that cut the queue off. */
    ghost var produced: seq<LiveEvent>
    ghost var consumed: seq<LiveEvent>
    ghost var terminal: Option<LiveEvent>

    /** What has been taken and what still waits are together all that was produced, or, after a cut-off, a
        part of it from the start and the terminal status. */
    ghost predicate Valid()
      reads this
    {
      && capacity > 0 && |queue| <= capacity
      && (terminal.None? ==> consumed + queue == produced)
      && (terminal.Some? ==> ended && CutOff(consumed + queue, produced, terminal.value))
    }

    constructor (capacity: nat)
      requires capacity > 0
      ensures Valid() && this.capacity == capacity && queue == [] && !ended
      ensures produced == [] && consumed == [] && terminal.None?
    {
      this.capacity := capacity;
      queue, ended := [], false;
      produced, consumed, terminal := [], [], None;
    }

    method Offer(event: LiveEvent) returns (offered: bool)
      requires Valid() && !ended
      modifies this
      ensures Valid() && !ended && consumed == old(consumed) && terminal == old(terminal)
      ensures offered <==> |old(queue)| < capacity
      ensures queue == if offered then old(queue) + [event] else old(queue)
      ensures produced == if offered then old(produced) + [event] else old(produced)
    {
      if |queue| >= capacity {
        return false;
      }
      queue := queue + [event];
      produced := produced + [event];
      assert consumed + queue == produced;
      return true;
    }

    /** Drops what waits and delivers one last status, which always finds room. */
    method CutOffWith(status: LiveEvent)
      requires Valid() && !ended
      modifies this
      ensures Valid() && ended && queue == [status] && terminal == Some(status)
      ensures produced == old(produced) && consumed == old(consumed)
    {
      queue := [];
      terminal := Some(status);
      queue := queue + [status];
      ended := true;
      assert (consumed + queue)[..|consumed|] == consumed;
    }

    /** No more events; what waits can still be taken. */
    method End()
      requires Valid()
      modifies this
      ensures Valid() && ended && queue == old(queue)
      ensures produced == old(produced) && consumed == old(consumed) && terminal == old(terminal)
    {
      ended := true;
    }

    method Take() returns (event: Option<LiveEvent>)
      requires Valid()
      modifies this
      ensures Valid() && ended == old(ended) && produced == old(produced) && terminal == old(terminal)
      ensures event.None? <==> old(queue) == []
      ensures event.Some? ==> old(queue) == [event.value] + queue && consumed == old(consumed) + [event.value]
      ensures event.None? ==> queue == old(queue) && consumed == old(consumed)
    {
      if queue == [] {
        return None;
      }
      var head := queue[0];
      assert consumed + queue == (consumed + [head]) + queue[1..];
      queue := queue[1..];
      consumed := consumed + [head];
      return Some(head);
    }

    /** The consumer has read the produced events without a gap, and after them at most the terminal status. */
    lemma ConsumerReadsWithoutGap()
      requires Valid()
      ensures consumed <= produced || (terminal.Some? && CutOff(consumed, produced, terminal.value))
      ensures terminal.None? && queue == [] ==> consumed == produced
    {
      if terminal.Some? {
        var all := consumed + queue;
        if queue == [] {
          assert all == consumed;
        } else {
          assert all[..|all| - 1][..|consumed|] == consumed;
        }
      }
    }
  }
}
