/** One direction of a tunnel: the bounded queue a task sends into, the frames the transport
    has taken from it but not yet delivered, and how the stream stands.  `log` and `handled`
    are history: every frame ever accepted by the queue, and how many of them the peer has
    received. */
module Channel {

  /** OUTBOUND_QUEUE on both sides. */
  const OUTBOUND_QUEUE: nat := 64

  datatype End = Flowing | Ended | Broken

  datatype Channel<F> = Channel(queue: seq<F>, net: seq<F>, end: End, log: seq<F>, handled: nat)

  /** The transport is a FIFO: what is in flight continues what was received, and until the
      stream stops the queue continues what is in flight. */
  ghost predicate Fifo<F>(ch: Channel<F>) {
    && |ch.queue| <= OUTBOUND_QUEUE
    && ch.handled + |ch.net| <= |ch.log|
    && ch.net == ch.log[ch.handled..ch.handled + |ch.net|]
    && (ch.end.Flowing? ==> ch.queue == ch.log[ch.handled + |ch.net|..])
    && (!ch.end.Flowing? ==> ch.queue == [])
  }

  /** The frames the receiving side has got so far. */
  ghost function Got<F>(ch: Channel<F>): seq<F>
    requires Fifo(ch)
  {
    ch.log[..ch.handled]
  }

  predicate CanSend<F>(ch: Channel<F>) {
    ch.end.Flowing? && |ch.queue| < OUTBOUND_QUEUE
  }

  function Send<F>(ch: Channel<F>, f: F): Channel<F> {
    ch.(queue := ch.queue + [f], log := ch.log + [f])
  }

  predicate CanMove<F>(ch: Channel<F>) {
    ch.end.Flowing? && ch.queue != []
  }

  /** The transport takes one frame from the queue. */
  function Move<F>(ch: Channel<F>): Channel<F>
    requires CanMove(ch)
  {
    ch.(queue := ch.queue[1..], net := ch.net + [ch.queue[0]])
  }

  predicate CanReceive<F>(ch: Channel<F>) {
    ch.net != []
  }

  function Receive<F>(ch: Channel<F>): Channel<F>
    requires CanReceive(ch)
  {
    ch.(net := ch.net[1..], handled := ch.handled + 1)
  }

  /** Nothing is in flight and nothing will come: the receiver sees end of stream or an error. */
  predicate AtEnd<F>(ch: Channel<F>) {
    ch.net == [] && !ch.end.Flowing?
  }

  /** The connection may be cut while flowing, and an ended stream may still break. */
  predicate CanCut<F>(ch: Channel<F>, keep: nat, end: End) {
    && keep <= |ch.net|
    && ((ch.end.Flowing? && !end.Flowing?) || (ch.end.Ended? && end.Broken?))
  }

  /** A cut loses the queue and a suffix of what is in flight. */
  function Cut<F>(ch: Channel<F>, keep: nat, end: End): Channel<F>
    requires CanCut(ch, keep, end)
  {
    ch.(queue := [], net := ch.net[..keep], end := end)
  }

  predicate CanClose<F>(ch: Channel<F>) {
    ch.end.Flowing? && ch.queue == []
  }

  /** All senders are gone and the queue is drained: the stream ends cleanly. */
  function Close<F>(ch: Channel<F>): Channel<F> {
    ch.(end := Ended)
  }

  lemma SendKeeps<F>(ch: Channel<F>, f: F)
    requires Fifo(ch) && CanSend(ch)
    ensures Fifo(Send(ch, f)) && Got(Send(ch, f)) == Got(ch)
  {
  }

  lemma MoveKeeps<F>(ch: Channel<F>)
    requires Fifo(ch) && CanMove(ch)
    ensures Fifo(Move(ch)) && Got(Move(ch)) == Got(ch)
  {
    var k := ch.handled + |ch.net|;
    assert ch.log[k..][0] == ch.log[k];
    assert ch.log[k..][1..] == ch.log[k + 1..];
  }

  lemma {:induction false} ReceiveKeeps<F>(ch: Channel<F>)
    requires Fifo(ch) && CanReceive(ch)
    ensures Fifo(Receive(ch)) && Got(Receive(ch)) == Got(ch) + [ch.net[0]]
  {
    var k := ch.handled + |ch.net|;
    assert ch.net[0] == ch.log[ch.handled];
    assert ch.net[1..] == ch.log[ch.handled + 1..k];
  }

  lemma CloseKeeps<F>(ch: Channel<F>)
    requires Fifo(ch) && CanClose(ch)
    ensures Fifo(Close(ch)) && Got(Close(ch)) == Got(ch)
  {
  }

  lemma CutKeeps<F>(ch: Channel<F>, keep: nat, end: End)
    requires Fifo(ch) && CanCut(ch, keep, end)
    ensures Fifo(Cut(ch, keep, end)) && Got(Cut(ch, keep, end)) == Got(ch)
  {
  }
}
