/** The server's reply to a request frame, from the dispatched result to the future of the call that asked. */
module Replies {
  import opened Wrappers
  import opened ByteOrder
  import opened Protocol
  import opened RpcClients

  /** The request's id and method, with the result, or as an error without a body. */
  function ReplyTo(request: Frame, result: Option<Bytes>): Frame {
    if result.Some? then Frame(request.requestId, Response, request.methodName, result.value)
    else Frame(request.requestId, Protocol.Error, request.methodName, [])
  }

  /** What the caller's future is to get. */
  function Outcome(result: Option<Bytes>): Bytes {
    if result.Some? then result.value else []
  }

  /** The reply half of OnServerFrame: the bytes handed to Send. */
  method Answer(request: Frame, result: Option<Bytes>) returns (bytes: Bytes)
    ensures bytes == Encoded(ReplyTo(request, result))
  {
    hide Encoded;
    if result.Some? {
      bytes := Encode(request.requestId, Response, request.methodName, result.value);
    } else {
      bytes := Encode(request.requestId, Protocol.Error, request.methodName, []);
    }
  }

  /**
   A reply that fits a frame decodes to itself, and delivered to the client while the call waits, it resolves that
   call with the server's result and no other call.
   */
  lemma ReplyReachesCaller(s: Rpc, call: nat, request: Frame, result: Option<Bytes>)
    requires Routed(s) && s.next <= IDS && HasPromise(s, call) && IsPending(s, call)
    requires request.requestId == IdOf(call) && Encodable(ReplyTo(request, result))
    ensures var reply := ReplyTo(request, result);
            && Meaning(Encoded(reply)) == Some(reply)
            && var s' := Next(s, Reply(reply.requestId, reply.msgType.Error?, reply.body));
               && call in s'.resolved && s'.resolved[call] == Outcome(result)
               && (forall other :: other != call ==>
                     (other in s'.resolved <==> other in s.resolved)
                     && (other in s.resolved ==> s'.resolved[other] == s.resolved[other]))
  {
    hide Encoded, Encodable, Meaning, IsPending, Routed, HasPromise, IdOf, Next;
    RoundTripExact(ReplyTo(request, result));
    ReplyStep(s, call, ReplyTo(request, result), result);
  }

  lemma ReplyStep(s: Rpc, call: nat, reply: Frame, result: Option<Bytes>)
    requires IsPending(s, call) && reply.requestId == IdOf(call)
    requires reply.msgType == (if result.Some? then Response else Protocol.Error) && reply.body == Outcome(result)
    ensures var s' := Next(s, Reply(reply.requestId, reply.msgType.Error?, reply.body));
            s'.resolved == s.resolved[call := Outcome(result)]
  {
    hide IdOf;
  }
}
