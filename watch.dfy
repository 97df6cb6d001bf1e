/** The sending half of a single-value broadcast channel: it holds the latest value sent, which
    the connection task on the receiving side picks up. */
module Watch {
  class Sender<T> {
    /** The latest value, as the receiver would see it. */
    var value: T
    /** Every receiver has been dropped. */
    var closed: bool

    /** A fresh channel holding init. */
    constructor (init: T)
      ensures value == init && !closed
    {
      value := init;
      closed := false;
    }

    /** Replaces the value, unless nobody is listening any more; then the value stays and the
        send reports failure. */
    method Send(v: T) returns (ok: bool)
      modifies this`value
      ensures ok == !closed
      ensures value == if ok then v else old(value)
    {
      ok := !closed;
      if ok {
        value := v;
      }
    }

    /** The receiving half is dropped. */
    method DropReceiver()
      modifies this
      ensures closed && value == old(value)
    {
      closed := true;
    }
  }
}
