/** From the caller's arguments to the caller's results, through encoder, wires, dispatcher and decoder. */
module EndToEnd {
  import opened Bytes
  import opened Codecs
  import opened Frames
  import opened GoInts
  import opened Wrappers
  import opened Links
  import ClientRequests
  import NilErrors
  import OtherCalls
  import PooledSystems
  import ServerMethods
  import ServerPool
  import ServerRequests
  import Systems
  import SystemTheorems

  /** The values in front of the first that does not encode. */
  function Encodable(codec: Codec, values: seq<Value>): (r: seq<Value>)
    ensures r <= values
    ensures r != values ==> |r| < |values| && codec.encode(values[|r|]).Err?
  {
    if values == [] || codec.encode(values[0]).Err? then []
    else [values[0]] + Encodable(codec, values[1..])
  }

  lemma {:induction false} EncodableMeaning(codec: Codec, values: seq<Value>)
    ensures var ok := Encodable(codec, values);
            && Encodes(codec, ok)
            && EncodeAll(codec, values).0 == EncodeAll(codec, ok).0
            && (if ok == values then EncodeAll(codec, values).1 == None
                else |ok| < |values| && codec.encode(values[|ok|]).Err?
                     && EncodeAll(codec, values).1 == Some(codec.encode(values[|ok|]).text))
  {
    if values != [] && codec.encode(values[0]).Ok? {
      var ok := Encodable(codec, values[1..]);
      EncodableMeaning(codec, values[1..]);
      assert ([values[0]] + ok)[1..] == ok;
      forall i | 0 <= i <= |ok| && i < |[values[0]] + ok| ensures codec.encode(([values[0]] + ok)[i]).Ok? {
        assert i > 0 ==> ([values[0]] + ok)[i] == ok[i - 1];
      }
      assert [values[0]] + values[1..] == values;
    }
  }

  /** What a direct call of a method gives: the error, and the results that can be sent. */
  function DirectCall(codec: Codec, table: ServerMethods.Table, name: bytes, args: seq<Value>): (Option<bytes>, seq<Value>)
  {
    if name !in table then (Some(ServerMethods.NotRegistered(name)), [])
    else if |args| < |table[name].params| then (Some(EOF.Message()), [])
    else match table[name].run(args[..|table[name].params|])
      case Panics(text) => (Some(ServerPool.PanicText(text)), [])
      case NoResults => (None, [])
      case Returned(values, error) =>
        var ok := Encodable(codec, values);
        (if ok == values then error else Some(codec.encode(values[|ok|]).text), ok)
  }

  /** An error with an empty text arrives as no error. */
  function Seen(error: Option<bytes>): Option<bytes>
  {
    if error == Some([]) then None else error
  }

  /** What the caller finds: results if there are as many as there are targets, else a failure to decode. */
  function Found(error: Option<bytes>, results: seq<Value>, targets: nat): (Status, Option<bytes>, seq<Value>)
  {
    if targets <= |results| then (Success, Seen(error), results[..targets])
    else (Failed(EOF.Message()), Seen(error), results)
  }

  /** The hypothesis on the codec for one call: its arguments and its results survive encoding. */
  ghost predicate Faithful(codec: Codec, table: ServerMethods.Table, name: bytes, args: seq<Value>, targets: seq<Type>)
  {
    && Encodes(codec, args)
    && (name in table ==> Typed(codec, args, table[name].params))
    && Typed(codec, DirectCall(codec, table, name, args).1, targets)
  }

  // ----- for any codec, whether values survive it or not -----

  /**
   * What a remote call gives: the server decodes each parameter from the encoding of the argument at its
   * position, and calls the method on what it got. Nothing is assumed of the codec.
   */
  ghost function RemoteCall(codec: Codec, table: ServerMethods.Table, name: bytes, args: seq<Value>): (Option<bytes>, seq<Value>)
    requires Encodes(codec, args)
  {
    if name !in table then (Some([110, 97, 109, 101, 32, 34] + name + [34] + Text(" is not registered")), [])
    else
      var (status, received) := DecodeRaws(codec, table[name].params, Raws(codec, args));
      if status.Failed? then (Some(status.text), [])
      else match table[name].run(received)
        case Panics(text) => (Some(Text("panic has occurred while handling request: ") + text), [])
        case NoResults => (None, [])
        case Returned(values, error) =>
          var ok := Encodable(codec, values);
          (if ok == values then error else Some(codec.encode(values[|ok|]).text), ok)
  }

  /** What the caller finds: each target decoded from the encoding of the result at its position. */
  ghost function RemoteFound(codec: Codec, error: Option<bytes>, results: seq<Value>, targets: seq<Type>): (Status, Option<bytes>, seq<Value>)
    requires Encodes(codec, results)
  {
    var (status, values) := DecodeRaws(codec, targets, Raws(codec, results));
    (status, Seen(error), values)
  }

  lemma RemoteResultsEncode(codec: Codec, table: ServerMethods.Table, name: bytes, args: seq<Value>)
    requires Encodes(codec, args)
    ensures Encodes(codec, RemoteCall(codec, table, name, args).1)
  {
    if name in table {
      var (status, received) := DecodeRaws(codec, table[name].params, Raws(codec, args));
      if !status.Failed? && table[name].run(received).Returned? { EncodableMeaning(codec, table[name].run(received).values); }
    }
  }

  lemma ServeIsRemote(setup: ServerPool.Setup, name: slice, args: seq<Value>)
    requires Encodes(setup.codec, args)
    ensures
      var (error, results) := RemoteCall(setup.codec, setup.table, name, args);
      && Encodes(setup.codec, results)
      && ServerPool.Serve(setup, ClientRequests.Payload(setup.codec, name, args))
         == Body(if error == None then [] else error.value, EncodeAll(setup.codec, results).0)
  {
    RemoteResultsEncode(setup.codec, setup.table, name, args);
    ServerMethods.PayloadIsChunks(setup.codec, name, args);
    var raws := Raws(setup.codec, args);
    if name !in setup.table {
      ServerMethods.UnknownName(setup.codec, setup.table, name, Chunks(raws) + [], true);
    } else {
      DecodeStatus(setup.codec, setup.table[name].params, raws);
      ServerMethods.DispatchOnChunks(setup.codec, setup.table, name, raws, [], true);
      var (status, received) := DecodeRaws(setup.codec, setup.table[name].params, raws);
      if status.Success? && setup.table[name].run(received).Returned? {
        EncodableMeaning(setup.codec, setup.table[name].run(received).values);
      }
    }
    assert forall out: bytes :: [] + out == out;
  }

  lemma {:induction false} DecodeStatus(codec: Codec, types: seq<Type>, raws: seq<slice>)
    ensures !DecodeRaws(codec, types, raws).0.Panicked?
  {
    if types != [] && raws != [] && codec.decode(raws[0], types[0]).Ok? { DecodeStatus(codec, types[1..], raws[1..]); }
  }

  /** What the caller decodes from the server's answer is the remote call's error and results, with any codec. */
  lemma CallIsRemote(setup: ServerPool.Setup, name: slice, args: seq<Value>, targets: seq<Type>)
    requires Encodes(setup.codec, args)
    ensures
      var (error, results) := RemoteCall(setup.codec, setup.table, name, args);
      var body := ServerPool.Serve(setup, ClientRequests.Payload(setup.codec, name, args));
      Encodes(setup.codec, results) && ClientRequests.Outcome(setup.codec, targets, body) == RemoteFound(setup.codec, error, results, targets)
  {
    ServeIsRemote(setup, name, args);
    DecodeAnyEncoded(setup.codec, RemoteCall(setup.codec, setup.table, name, args).1, targets, true);
  }

  /** When the arguments survive encoding, the remote call is the direct one, and likewise for what the caller finds. */
  lemma RemoteIsDirect(codec: Codec, table: ServerMethods.Table, name: bytes, args: seq<Value>, targets: seq<Type>)
    requires Faithful(codec, table, name, args, targets)
    ensures RemoteCall(codec, table, name, args) == DirectCall(codec, table, name, args)
    ensures var (error, results) := DirectCall(codec, table, name, args);
            Encodes(codec, results) && RemoteFound(codec, error, results, targets) == Found(error, results, |targets|)
  {
    if name in table { DecodeTyped(codec, args, table[name].params); }
    ServerMethods.NotRegisteredText(name);
    RemoteResultsEncode(codec, table, name, args);
    DecodeTyped(codec, DirectCall(codec, table, name, args).1, targets);
  }

  /** An argument that does not decode is reported with the codec's error, and the method is not called. */
  lemma UndecodableIsReported(setup: ServerPool.Setup, name: slice, args: seq<Value>, k: nat, text: bytes)
    requires Encodes(setup.codec, args) && name in setup.table && k < |args| && k < |setup.table[name].params|
    requires DecodeUpTo(setup.codec, setup.table[name].params, Raws(setup.codec, args), k)
    requires setup.codec.decode(setup.codec.encode(args[k]).value, setup.table[name].params[k]) == Err(text)
    ensures RemoteCall(setup.codec, setup.table, name, args) == (Some(text), [])
    ensures ServerMethods.Dispatched(setup.codec, setup.table, ClientRequests.Payload(setup.codec, name, args), true).2 == []
  {
    DecodeRawsMeaning(setup.codec, setup.table[name].params, Raws(setup.codec, args), k);
    ServerMethods.PayloadIsChunks(setup.codec, name, args);
    ServerMethods.UndecodableArgument(setup.codec, setup.table, name, Raws(setup.codec, args), k, text, [], true);
  }

  /** A method that panics is reported with an announcement and the panic's own text, and never as success. */
  lemma PanicIsReported(setup: ServerPool.Setup, name: slice, args: seq<Value>, text: bytes)
    requires Encodes(setup.codec, args) && name in setup.table
    requires var (status, received) := DecodeRaws(setup.codec, setup.table[name].params, Raws(setup.codec, args));
             status == Success && setup.table[name].run(received) == ServerMethods.Panics(text)
    ensures
      var err := ServerPool.Serve(setup, ClientRequests.Payload(setup.codec, name, args)).err;
      && |err| == 43 + |text| && err[43..] == text
      && err[..43] == Text("panic has occurred while handling request: ")
    ensures Seen(RemoteCall(setup.codec, setup.table, name, args).0).Some?
  {
    ServeIsRemote(setup, name, args);
    var announced := Text("panic has occurred while handling request: ");
    assert |announced| == 43;
  }

  lemma ServeIsDirect(setup: ServerPool.Setup, name: slice, args: seq<Value>, targets: seq<Type>)
    requires Faithful(setup.codec, setup.table, name, args, targets)
    ensures
      var (error, results) := DirectCall(setup.codec, setup.table, name, args);
      ServerPool.Serve(setup, ClientRequests.Payload(setup.codec, name, args))
        == Body(ServerRequests.ErrorText(error), EncodeAll(setup.codec, results).0)
      && Encodes(setup.codec, results)
  {
    ServerMethods.DispatchIsDirect(setup.codec, setup.table, name, args, true);
    var (verdict, out, _) := ServerMethods.Direct(setup.codec, setup.table, name, args, true);
    assert [] + out == out;
    if name in setup.table && |args| >= |setup.table[name].params| {
      var ending := setup.table[name].run(args[..|setup.table[name].params|]);
      if ending.Returned? { EncodableMeaning(setup.codec, ending.values); }
    }
  }

  /**
   * What the caller decodes from the server's answer to its payload is what calling the named method
   * directly on its own arguments gives: the same error text, an empty one counting as none, and the first
   * results. Decoding succeeds if and only if there are at least as many results as reply targets.
   */
  lemma CallIsDirect(setup: ServerPool.Setup, name: slice, args: seq<Value>, targets: seq<Type>)
    requires Faithful(setup.codec, setup.table, name, args, targets)
    ensures
      var (error, results) := DirectCall(setup.codec, setup.table, name, args);
      var body := ServerPool.Serve(setup, ClientRequests.Payload(setup.codec, name, args));
      ClientRequests.Outcome(setup.codec, targets, body) == Found(error, results, |targets|)
  {
    ServeIsDirect(setup, name, args, targets);
    DecodeEncoded(setup.codec, DirectCall(setup.codec, setup.table, name, args).1, targets, true);
  }

  /**
   * An instance that fails: a caller with one target who names an unknown method does not get the error as a
   * reply, for its reading ends with EOF; the error text has been taken by then.
   */
  lemma UnknownMethodUnread(setup: ServerPool.Setup, name: slice, args: seq<Value>, target: Type)
    requires name !in setup.table && Encodes(setup.codec, args)
    ensures
      var body := ServerPool.Serve(setup, ClientRequests.Payload(setup.codec, name, args));
      ClientRequests.Outcome(setup.codec, [target], body) == (Failed(EOF.Message()), Some(ServerMethods.NotRegistered(name)), [])
  {
    CallIsDirect(setup, name, args, [target]);
    assert ServerMethods.NotRegistered(name)[0] == 'n' as int;
  }

  /**
   * The same through the bytes of both wires: the server parses the frame out of the stream, and a blank
   * request reads the printed reply to the result of the direct call, each leaving the rest of its stream.
   */
  lemma WireCallIsDirect(setup: ServerPool.Setup, id: u64, name: slice, args: seq<Value>, targets: seq<Type>, after: bytes, after': bytes)
    requires Faithful(setup.codec, setup.table, name, args, targets)
    requires var f := Frame(id, ClientRequests.Payload(setup.codec, name, args));
             FrameFits(f) && ReplyFits(Reply(id, ServerPool.Serve(setup, f.payload)))
    ensures
      var f := Frame(id, ClientRequests.Payload(setup.codec, name, args));
      ParseFrame(FrameBytes(f) + after) == Got(f, after)
    ensures
      var (error, results) := DirectCall(setup.codec, setup.table, name, args);
      var reply := ReplyBytes(Reply(id, ServerPool.Serve(setup, ClientRequests.Payload(setup.codec, name, args))));
      var r := ClientRequests.ReadReply(setup.codec, targets, None, 0, [], 0, reply[8..] + after');
      ReadU64(reply + after') == Got(id, reply[8..] + after')
      && (r.status, r.err, r.values) == Found(error, results, |targets|) && r.rest == after'
  {
    FramesFit();
    var reply := Reply(id, ServerPool.Serve(setup, ClientRequests.Payload(setup.codec, name, args)));
    CallIsDirect(setup, name, args, targets);
    ReplyReads(setup.codec, targets, reply, after');
  }

  lemma ReplyReads(codec: Codec, targets: seq<Type>, reply: Reply, after: bytes)
    requires ReplyFits(reply)
    ensures ReadU64(ReplyBytes(reply) + after) == Got(reply.id, ReplyBytes(reply)[8..] + after)
    ensures var r := ClientRequests.ReadReply(codec, targets, None, 0, [], 0, ReplyBytes(reply)[8..] + after);
            (r.status, r.err, r.values) == ClientRequests.Outcome(codec, targets, reply.body) && r.rest == after
  {
    ClientRequests.ReadsWholeReply(codec, targets, reply, after);
    ReplyIdReads(reply, after);
  }

  lemma ReplyIdReads(reply: Reply, after: bytes)
    requires ReplyFits(reply)
    ensures ReadU64(ReplyBytes(reply) + after) == Got(reply.id, ReplyBytes(reply)[8..] + after)
  {
    HeadThenRest(U64(reply.id), Chunk(reply.body.err) + Chunk(reply.body.out), after);
    assert ReplyBytes(reply) == U64(reply.id) + (Chunk(reply.body.err) + Chunk(reply.body.out));
    ReadU64At(reply.id, ReplyBytes(reply)[8..] + after);
  }

  lemma HeadThenRest(head: bytes, tail: bytes, after: bytes)
    ensures (head + tail) + after == head + ((head + tail)[|head|..] + after)
  {
  }

  /** What the callers asked for, and the server that they talk to. */
  datatype Calls = Calls(setup: ServerPool.Setup, name: Call -> slice, args: Call -> seq<Value>, targets: Call -> seq<Type>)

  /** The system's parameters are those of this server and these callers. */
  ghost predicate Runs(cfg: Config, calls: Calls)
  {
    && ServerPool.SameServer(cfg, calls.setup)
    && (forall c :: cfg.payload(c) == ClientRequests.Payload(calls.setup.codec, calls.name(c), calls.args(c)))
    && (forall c, body :: cfg.decodes(c, body) <==> ClientRequests.Outcome(calls.setup.codec, calls.targets(c), body).0.Success?)
  }

  /**
   * The refinement of a direct call: whatever the interleaving, the connection, the order of the handlers
   * and the reuse of ids and objects, a `Call` completed by a reply has got the error text and the results
   * of calling its own method directly on its own arguments, and as many results as it asked for.
   */
  lemma CompletedIsDirect(cfg: Config, calls: Calls, s: Systems.System, c: Call)
    requires Runs(cfg, calls) && Systems.Reachable(cfg, s) && c in s.calls && s.calls[c].outcome.Delivered?
    requires s.calls[c].outcome.link < |s.links| ==> s.links[s.calls[c].outcome.link].registrations < TWO64
    requires Faithful(calls.setup.codec, calls.setup.table, calls.name(c), calls.args(c), calls.targets(c))
    ensures
      var (error, results) := DirectCall(calls.setup.codec, calls.setup.table, calls.name(c), calls.args(c));
      && |calls.targets(c)| <= |results|
      && ClientRequests.Outcome(calls.setup.codec, calls.targets(c), s.calls[c].outcome.body)
         == (Success, Seen(error), results[..|calls.targets(c)|])
  {
    SystemTheorems.OwnReply(cfg, s, c);
    CallIsDirect(calls.setup, calls.name(c), calls.args(c), calls.targets(c));
  }

  /**
   * The same of the server on shared, recycled objects: after any run of the client's and the server's
   * goroutines a completed `Call` has got what calling its own method directly gives.
   */
  lemma PooledCallIsDirect(cfg: Config, calls: Calls, n: nat, events: seq<PooledSystems.WholeEvent>, c: Call)
    requires Runs(cfg, calls) && PooledSystems.Run(cfg, calls.setup, PooledSystems.Start(n), events).Some?
    requires var s := PooledSystems.Run(cfg, calls.setup, PooledSystems.Start(n), events).value.client;
             && c in s.calls && s.calls[c].outcome.Delivered? && (forall l | l in s.links :: l.registrations < TWO64)
    requires Faithful(calls.setup.codec, calls.setup.table, calls.name(c), calls.args(c), calls.targets(c))
    ensures
      var s := PooledSystems.Run(cfg, calls.setup, PooledSystems.Start(n), events).value.client;
      var (error, results) := DirectCall(calls.setup.codec, calls.setup.table, calls.name(c), calls.args(c));
      && |calls.targets(c)| <= |results|
      && ClientRequests.Outcome(calls.setup.codec, calls.targets(c), s.calls[c].outcome.body)
         == (Success, Seen(error), results[..|calls.targets(c)|])
  {
    PooledSystems.RunsAreReachable(cfg, calls.setup, n, events);
    CompletedIsDirect(cfg, calls, PooledSystems.View(PooledSystems.Run(cfg, calls.setup, PooledSystems.Start(n), events).value), c);
  }

  /**
   * So a caller that names an unknown method and wants one result can end the connection under another caller:
   * its own reading cannot succeed, and there is a run in which the other call returns an error for it.
   */
  lemma UnknownMethodEndsOthers(cfg: Config, calls: Calls, target: Type)
    requires Runs(cfg, calls) && NilErrors.Roomy(cfg) && !cfg.oneWay(1)
    requires calls.name(0) !in calls.setup.table && Encodes(calls.setup.codec, calls.args(0)) && calls.targets(0) == [target]
    ensures !cfg.decodes(0, cfg.serve(cfg.payload(0)))
    ensures exists s :: Systems.Reachable(cfg, s) && OtherCalls.EndedTogether(cfg, s)
  {
    UnknownMethodUnread(calls.setup, calls.name(0), calls.args(0), target);
    OtherCalls.BadReplyEndsOthers(cfg);
  }

  /**
   * The value that `Call` returns: of a delivered call it is the direct call's error, an empty text counting as
   * none; and whenever it is an error text, however the call was completed, it is the direct call's text.
   */
  lemma ReturnedIsDirect(cfg: Config, calls: Calls, s: Systems.System, c: Call)
    requires Runs(cfg, calls) && Systems.Reachable(cfg, s) && c in s.calls
    requires s.calls[c].returned && !s.calls[c].cancelled && !s.calls[c].place.Abandoned? && !cfg.oneWay(c)
    requires forall l | l in s.links :: l.registrations < TWO64
    requires Faithful(calls.setup.codec, calls.setup.table, calls.name(c), calls.args(c), calls.targets(c))
    ensures
      var error := Seen(DirectCall(calls.setup.codec, calls.setup.table, calls.name(c), calls.args(c)).0);
      && (s.calls[c].outcome.Delivered? ==>
           s.calls[c].result == if error == None then Systems.NoError else Systems.Remote(error.value))
      && (s.calls[c].result.Remote? ==> error == Some(s.calls[c].result.text))
  {
    SystemTheorems.ReturnedError(cfg, s, c);
    ServeIsDirect(calls.setup, calls.name(c), calls.args(c), calls.targets(c));
    if s.calls[c].outcome.Delivered? {
      SystemTheorems.OwnReply(cfg, s, c);
    }
  }

  /**
   * The end-to-end result for any codec: a `Call` completed by a reply has found what the remote call gives it,
   * its targets decoded with success, and has returned its error.
   */
  lemma CompletedIsRemote(cfg: Config, calls: Calls, s: Systems.System, c: Call)
    requires Runs(cfg, calls) && Systems.Reachable(cfg, s) && c in s.calls && s.calls[c].outcome.Delivered?
    requires (forall l | l in s.links :: l.registrations < TWO64) && Encodes(calls.setup.codec, calls.args(c))
    ensures
      var (error, results) := RemoteCall(calls.setup.codec, calls.setup.table, calls.name(c), calls.args(c));
      && Encodes(calls.setup.codec, results)
      && RemoteFound(calls.setup.codec, error, results, calls.targets(c)).0 == Success
      && ClientRequests.Outcome(calls.setup.codec, calls.targets(c), s.calls[c].outcome.body)
         == RemoteFound(calls.setup.codec, error, results, calls.targets(c))
  {
    SystemTheorems.OwnReply(cfg, s, c);
    CallIsRemote(calls.setup, calls.name(c), calls.args(c), calls.targets(c));
  }

  /** What `Call` returns, for any codec: of a delivered call the remote call's error, and any error text is that one. */
  lemma ReturnedIsRemote(cfg: Config, calls: Calls, s: Systems.System, c: Call)
    requires Runs(cfg, calls) && Systems.Reachable(cfg, s) && c in s.calls
    requires s.calls[c].returned && !s.calls[c].cancelled && !s.calls[c].place.Abandoned? && !cfg.oneWay(c)
    requires (forall l | l in s.links :: l.registrations < TWO64) && Encodes(calls.setup.codec, calls.args(c))
    ensures
      var error := Seen(RemoteCall(calls.setup.codec, calls.setup.table, calls.name(c), calls.args(c)).0);
      && (s.calls[c].outcome.Delivered? ==>
           s.calls[c].result == if error == None then Systems.NoError else Systems.Remote(error.value))
      && (s.calls[c].result.Remote? ==> error == Some(s.calls[c].result.text))
  {
    SystemTheorems.ReturnedError(cfg, s, c);
    ServeIsRemote(calls.setup, calls.name(c), calls.args(c));
    if s.calls[c].outcome.Delivered? {
      SystemTheorems.OwnReply(cfg, s, c);
    }
  }

  /** A delivered call of a method that panicked, or of one whose argument did not decode, does not return nil. */
  lemma FailureIsReturned(cfg: Config, calls: Calls, s: Systems.System, c: Call, k: nat, text: bytes)
    requires Runs(cfg, calls) && Systems.Reachable(cfg, s) && c in s.calls && s.calls[c].outcome.Delivered?
    requires s.calls[c].returned && !s.calls[c].cancelled && !s.calls[c].place.Abandoned? && !cfg.oneWay(c)
    requires (forall l | l in s.links :: l.registrations < TWO64) && Encodes(calls.setup.codec, calls.args(c))
    requires calls.name(c) in calls.setup.table
    ensures
      var codec, m, raws := calls.setup.codec, calls.setup.table[calls.name(c)], Raws(calls.setup.codec, calls.args(c));
      && (DecodeRaws(codec, m.params, raws).0 == Success && m.run(DecodeRaws(codec, m.params, raws).1) == ServerMethods.Panics(text)
          ==> s.calls[c].result == Systems.Remote(Text("panic has occurred while handling request: ") + text))
      && (DecodeUpTo(codec, m.params, raws, k) && k < |raws| && k < |m.params| && codec.decode(raws[k], m.params[k]) == Err(text) && text != []
          ==> s.calls[c].result == Systems.Remote(text))
  {
    var setup, name, args := calls.setup, calls.name(c), calls.args(c);
    var m, raws := setup.table[name], Raws(setup.codec, args);
    ReturnedIsRemote(cfg, calls, s, c);
    if DecodeRaws(setup.codec, m.params, raws).0 == Success && m.run(DecodeRaws(setup.codec, m.params, raws).1) == ServerMethods.Panics(text) {
      PanicIsReported(setup, name, args, text);
      ServeIsRemote(setup, name, args);
    }
    if DecodeUpTo(setup.codec, m.params, raws, k) && k < |raws| && k < |m.params| && setup.codec.decode(raws[k], m.params[k]) == Err(text) {
      UndecodableIsReported(setup, name, args, k, text);
    }
  }
}
