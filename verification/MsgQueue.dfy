// The queue of received messages and the semaphore that counts them.
module MsgQueues {
  import opened Containers

  class MsgQueue {
    const msgs: Queue<nat>
    /** The value of the semaphore. It is posted after the queue's lock has been given up. */
    var tokens: nat

    ghost function Repr(): set<object> {
      {this} + msgs.Repr()
    }

    ghost predicate Valid()
      reads Repr()
    {
      msgs.Valid() && this !in msgs.Repr()
    }

    ghost function Contents(): (s: seq<nat>)
      requires Valid()
      reads Repr()
      ensures |s| <= Capacity()
    {
      msgs.Contents()
    }

    ghost function Capacity(): nat {
      msgs.list.Length
    }

    constructor (size: nat)
      ensures Valid() && fresh(msgs.Repr())
      ensures Contents() == [] && Capacity() == size && tokens == 0
    {
      msgs := new Queue<nat>(size);
      tokens := 0;
    }

    /** The semaphore is posted even when the message does not fit. */
    method InsertMsg(m: nat) returns (ok: bool)
      requires Valid()
      modifies Repr()
      ensures Valid()
      ensures ok == (|old(Contents())| < Capacity())
      ensures Contents() == Pushed(old(Contents()), m, Capacity())
      ensures tokens == old(tokens) + 1
    {
      ok := msgs.PushBack(m);
      tokens := tokens + 1;
    }

    method RemoveMsg() returns (m: Option<nat>)
      requires Valid()
      modifies Repr()
      ensures Valid()
      ensures m == if old(Contents()) == [] then None else Some(old(Contents())[0])
      ensures Contents() == if m == None then [] else old(Contents())[1..]
      ensures tokens == old(tokens)
    {
      m := msgs.Front();
      if m == None {
        return None;
      }
      msgs.PopFront();
    }

    /** Wait returns only when there is a token to take. */
    method Wait()
      requires Valid()
      requires tokens > 0
      modifies `tokens
      ensures Valid()
      ensures tokens == old(tokens) - 1
      ensures Contents() == old(Contents())
    {
      tokens := tokens - 1;
    }
  }
}
