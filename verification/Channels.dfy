/**
 The unbounded FIFO channels that join the threads. A channel is its queue, the number of live senders and
 whether its receiver is alive. Sending to a dropped receiver loses the message; receiving from an empty
 channel blocks, unless every sender is gone.
 */
module Channels {

  datatype Channel<T> = Channel(queue: seq<T>, senders: nat, receiver: bool) {

    function Send(t: T): (c: Channel<T>) {
      if receiver then this.(queue := queue + [t]) else this
    }

    /** A blocking receive returns: a message is there, or none will ever come. */
    predicate Ready() { queue != [] || senders == 0 }

    function Pop(): (c: Channel<T>)
      requires queue != []
    {
      this.(queue := queue[1..])
    }

    function DropSender(): (c: Channel<T>) {
      this.(senders := if senders == 0 then 0 else senders - 1)
    }

    function DropReceiver(): (c: Channel<T>) {
      this.(receiver := false)
    }
  }

  function Open<T>(senders: nat): (c: Channel<T>) { Channel([], senders, true) }

  function Absent<T>(): (c: Channel<T>) { Channel([], 0, false) }
}
