/** The notification channel between the reader and a foreground consumer,
    with the two non-blocking `select`s the reader uses on it. */
module Mailbox {
  import opened Events

  /** A Go channel of key codes: its capacity, the values buffered in it and
      whether it has been closed. `make(chan KeyCode)` has capacity zero. */
  datatype Channel = Channel(capacity: nat, buffer: seq<KeyCode>, closed: bool)

  predicate Valid(c: Channel) {
    |c.buffer| <= c.capacity
  }

  /** The channel `make(chan KeyCode)` creates: unbuffered and open. */
  function Unbuffered(): (c: Channel)
    ensures Valid(c) && !c.closed && c.capacity == 0
  {
    Channel(0, [], false)
  }

  /** What happened to a value offered by a non-blocking send. */
  datatype SendOutcome = Delivered | Buffered | Dropped

  datatype PostResult = PostResult(chan: Channel, outcome: SendOutcome)

  /** `select { case <-c: default: }` run by the only sender: it takes a
      buffered value if there is one, and otherwise does nothing. */
  function Drain(c: Channel): (r: Channel)
    ensures r.capacity == c.capacity && r.closed == c.closed
    ensures Valid(c) ==> Valid(r)
    ensures c.buffer == [] ==> r == c
    ensures c.buffer != [] ==> [c.buffer[0]] + r.buffer == c.buffer
  {
    if c.buffer == [] then c else c.(buffer := c.buffer[1..])
  }

  /** `select { case c <- code: default: }`: a receiver already waiting (which
      happens only on an empty buffer) takes the value; otherwise it goes into
      free buffer space; otherwise it is dropped. */
  function TrySend(c: Channel, code: KeyCode, receiverWaiting: bool): (r: PostResult)
    ensures r.outcome == Delivered <==> receiverWaiting && c.buffer == []
    ensures r.outcome == Buffered <==> !(receiverWaiting && c.buffer == []) && |c.buffer| < c.capacity
    ensures r.outcome == Buffered ==> r.chan == c.(buffer := c.buffer + [code])
    ensures r.outcome != Buffered ==> r.chan == c
  {
    if receiverWaiting && c.buffer == [] then PostResult(c, Delivered)
    else if |c.buffer| < c.capacity then PostResult(c.(buffer := c.buffer + [code]), Buffered)
    else PostResult(c, Dropped)
  }

  /** One notification attempt: drain, then send, neither of which blocks.
      The code reaches the consumer exactly when one is waiting; on the
      unbuffered channel nothing is ever queued, so an attempt with no
      consumer waiting is lost; were the channel of capacity one, only the
      latest code would be kept. */
  function Post(c: Channel, code: KeyCode, receiverWaiting: bool): (r: PostResult)
    requires Valid(c) && !c.closed
    requires receiverWaiting ==> c.buffer == []
    ensures Valid(r.chan) && r.chan.capacity == c.capacity && !r.chan.closed
    ensures r.outcome == Delivered <==> receiverWaiting
    ensures c.capacity == 0 ==> r.chan == c && r.outcome == (if receiverWaiting then Delivered else Dropped)
    ensures c.capacity == 1 && !receiverWaiting ==> r.chan.buffer == [code] && r.outcome == Buffered
    ensures r.outcome == Buffered ==> |r.chan.buffer| > 0 && r.chan.buffer[|r.chan.buffer| - 1] == code
  {
    TrySend(Drain(c), code, receiverWaiting)
  }
}
