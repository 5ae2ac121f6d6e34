/** A call through the whole stack: typed arguments, the byte buffer, framing, the protocol, a handler, and back. */
module TypedCalls {
  import opened Bytes
  import opened Codec
  import opened Message
  import opened Buffers
  import opened Rpc
  import opened RpcProofs
  import opened RpcTheorems

  /** A procedure the server offers: the types of its arguments and results, and what it computes. */
  datatype Procedure = Procedure(args: seq<Field>, results: seq<Field>, f: seq<Value> -> seq<Value>)

  /** A handler call that reads the arguments from the request in order, computes, and appends the results
      to the response. */
  ghost predicate Serves(less: Less, p: Procedure, h: Handled) {
    forall args, end {:trigger Some((args, end))} ::
      ReadAll(less, POW32, p.args, h.request, 0) == Some((args, end)) && MessageType(less, p.results, p.f(args)) ==>
        h.response == EncodeAll(p.results, p.f(args))
  }

  /** If the handler serves `p`, a completed call whose request holds the arguments `args` returns a response
      from which the caller reads exactly `p.f(args)`, and nothing is left over. */
  lemma TypedCall(less: Less, cfg: Config, s: State, i: nat, p: Procedure, args: seq<Value>)
    requires StrictOrder(less) && !cfg.asWritten && Reachable(cfg, s)
    requires forall k :: 0 <= k < |s.log| ==> Serves(less, p, s.log[k])
    requires i < |s.done| && s.done[i].call.kind == REQUEST
    requires MessageType(less, p.args, args) && MessageFaithful(p.args, args)
    requires s.done[i].call.request == EncodeAll(p.args, args)
    requires MessageType(less, p.results, p.f(args)) && MessageFaithful(p.results, p.f(args))
    ensures ReadAll(less, POW32, p.results, s.done[i].response, 0) == Some((p.f(args), |s.done[i].response|))
  {
    hide StrictOrder, Reachable, FieldType, FieldFaithful, EncodeAll, ReadAll;
    ResponsesMatch(cfg, s);
    CompletedSized(cfg, s, i);
    var h := s.log[|Requests(s.done[..i])|];
    var request, response := EncodeAll(p.args, args), EncodeAll(p.results, p.f(args));
    assert request[0..|request|] == request && response[0..|response|] == response;
    MessageBack(less, POW32, p.args, args, request, 0);
    assert Serves(less, p, h);
    assert Some((args, |request|)) == Some((args, |request|));
    MessageBack(less, POW32, p.results, p.f(args), response, 0);
  }

  /** The client's receive thread reads the type of a header and rewinds, so that the caller can read it again. */
  method PeekType(header: ByteBuffer) returns (kind: nat)
    requires header.Valid() && header.position == 0 && |header.data| >= 4
    modifies header`position
    ensures header.Valid() && header.position == 0 && kind == TypeOf(header.data)
  {
    var b := header.ValueRaw(4);
    kind := DecodeUnsigned(b);
    header.SetPosition(0);
  }

  /** The fixed bodies and headers of the protocol are what the byte buffer writes for them. */
  lemma FixedMessages(kind: nat)
    requires kind < POW32
    ensures PING_BODY == EncodeField(CString, Text([0x50, 0x49, 0x4E, 0x47]))
    ensures OK_BODY == EncodeField(CString, Text([0x4F, 0x4B]))
    ensures TypeHeader(REQUEST) == [0, 0, 0, 0] && TypeHeader(NOTIFY) == [1, 0, 0, 0]
    ensures TypeHeader(PING) == [2, 0, 0, 0] && TypeHeader(SERVER_PING) == [3, 0, 0, 0]
    ensures ReadInt(POW32, TypeHeader(kind), 0) == Some((ToInt32(kind), 4)) && TypeOf(TypeHeader(kind)) == kind
  {
    assert CPrefix([0x4F, 0x4B]) == [0x4F, 0x4B];
    assert CPrefix([0x50, 0x49, 0x4E, 0x47]) == [0x50, 0x49, 0x4E, 0x47];
    HeaderType(kind);
    assert TypeHeader(kind)[0..4] == TypeHeader(kind);
    ReadIntBack(POW32, kind, TypeHeader(kind), 0);
  }
}
