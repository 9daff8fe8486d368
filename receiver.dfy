/** `Receiver::try_recv_all`: drain every message a channel holds. */
module Receiver {

  /** What one `try_recv` yields: the oldest message, or why there is none. */
  datatype TryRecv<T> = Message(message: T) | Empty | Disconnected

  /** `anyhow::Result<Vec<T>>`. */
  datatype Drained<T> = Ok(messages: seq<T>) | Err

  /** The receiving end: the messages in arrival order, and whether every
      sender is gone. Messages already sent can still be received after
      the senders are gone. */
  class Receiver<T> {
    var queue: seq<T>
    var disconnected: bool

    constructor (queue0: seq<T>, disconnected0: bool)
      ensures queue == queue0 && disconnected == disconnected0
    {
      queue, disconnected := queue0, disconnected0;
    }

    /** `try_recv`: the oldest message when there is one; otherwise `Empty`
        while a sender remains and `Disconnected` once none does. */
    method TryRecvOne() returns (r: TryRecv<T>)
      modifies this
      ensures old(queue) != [] ==> r == Message(old(queue)[0]) && queue == old(queue)[1..]
      ensures old(queue) == [] ==> queue == [] && r == if disconnected then Disconnected else Empty
      ensures disconnected == old(disconnected)
    {
      if queue != [] {
        r := Message(queue[0]);
        queue := queue[1..];
      } else if disconnected {
        r := Disconnected;
      } else {
        r := Empty;
      }
    }

    /** `try_recv_all`: receive until the channel is empty. Every queued
        message comes back in arrival order; on a disconnected channel the
        collected messages are dropped and an error is returned. Either
        way the queue is empty afterwards. */
    method TryRecvAll() returns (r: Drained<T>)
      modifies this
      ensures !old(disconnected) ==> r == Ok(old(queue))
      ensures old(disconnected) ==> r == Err
      ensures queue == [] && disconnected == old(disconnected)
    {
      var vec: seq<T> := [];
      while true
        invariant old(queue) == vec + queue
        invariant disconnected == old(disconnected)
        decreases |queue|
      {
        var m := TryRecvOne();
        match m {
          case Message(message) =>
            vec := vec + [message];
          case Empty =>
            assert vec == old(queue);
            return Ok(vec);
          case Disconnected =>
            return Err;
        }
      }
    }
  }
}
