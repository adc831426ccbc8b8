/**
 * The message-handler registry (MessageHandler.cpp): a map from message
 * type to callback.  A callback is an opaque identity; invoking one is
 * recorded as an entry in the invocation log.  Logging is a no-op.
 */
module Handlers {
  import opened Messages

  /** A registered `std::function`, known only by its identity. */
  datatype Callback = Callback(id: nat)

  datatype Invocation = Invocation(callback: Callback, message: Message)

  class MessageHandler {
    /** `handlers_`. */
    var handlers: map<MessageType, Callback>
    /** Every callback invocation so far, oldest first. */
    var invocations: seq<Invocation>

    /** Every invocation so far went to a callback that was registered for the message's type when it ran. */
    ghost var Registered: set<(MessageType, Callback)>

    ghost predicate Valid()
      reads this
    {
      && (forall t :: t in handlers ==> (t, handlers[t]) in Registered)
      && (forall i :: 0 <= i < |invocations| ==> (invocations[i].message.Type(), invocations[i].callback) in Registered)
    }

    constructor ()
      ensures Valid() && handlers == map[] && invocations == []
    {
      handlers := map[];
      invocations := [];
      Registered := {};
    }

    /** `registerHandler`: stores the callback under its type, replacing any earlier one; other types keep theirs. */
    method RegisterHandler(t: MessageType, callback: Callback)
      requires Valid()
      modifies this
      ensures Valid()
      ensures t in handlers && handlers[t] == callback
      ensures forall u :: u != t ==> (u in handlers <==> u in old(handlers))
      ensures forall u :: u != t && u in handlers ==> handlers[u] == old(handlers)[u]
      ensures invocations == old(invocations)
    {
      handlers := handlers[t := callback];
      Registered := Registered + {(t, callback)};
    }

    /**
     * `handleMessage`: invokes the callback registered for the message's
     * type exactly once; with none registered nothing is invoked.
     */
    method HandleMessage(m: Message)
      requires Valid()
      modifies this`invocations
      ensures Valid()
      ensures m.Type() in handlers ==> invocations == old(invocations) + [Invocation(handlers[m.Type()], m)]
      ensures m.Type() !in handlers ==> invocations == old(invocations)
    {
      if m.Type() in handlers {
        invocations := invocations + [Invocation(handlers[m.Type()], m)];
      }
    }
  }
}
