/** The server's method table and its dispatcher (server_method.go). */
module ServerMethods {
  import opened Bytes
  import opened ClientRequests
  import opened Codecs
  import opened GoInts
  import opened IO
  import opened Wrappers

  /** How a registered method ends: without results, with values and a last error, or by panicking. */
  datatype Ending = NoResults | Returned(values: seq<Value>, error: Option<bytes>) | Panics(text: bytes)

  datatype Method = Method(params: seq<Type>, run: seq<Value> -> Ending)

  datatype Invocation = Invocation(name: bytes, args: seq<Value>)

  /** How `dispatch` ends: normally, with an error or without, or by the method's panic. */
  datatype Verdict = Finished(error: Option<bytes>) | Panicking(text: bytes)

  type Table = map<bytes, Method>

  function NotRegistered(name: bytes): bytes
  {
    Text("name \"") + name + Text("\" is not registered")
  }

  /** What the results of a call become: encoded values, then the error. */
  function Results(codec: Codec, ending: Ending, reply: bool): (Verdict, bytes)
  {
    match ending
    case Panics(text) => (Panicking(text), [])
    case NoResults => (Finished(None), [])
    case Returned(values, error) =>
      if !reply then (Finished(None), [])
      else
        var (out, failure) := EncodeAll(codec, values);
        (Finished(if failure.Some? then failure else error), out)
  }

  /** `dispatch` as a function of the input: verdict, output and the calls made. */
  function Dispatched(codec: Codec, table: Table, input: bytes, reply: bool): (Verdict, bytes, seq<Invocation>)
  {
    match ReadChunk(input)
    case Fail(e) => (Finished(Some(e.Message())), [], [])
    case Got(name, rest) =>
      if name !in table then (Finished(Some(NotRegistered(name))), [], [])
      else
        var d := DecodeAll(codec, table[name].params, rest, false);
        if d.status.Failed? then (Finished(Some(d.status.text)), [], [])
        else
          var (verdict, out) := Results(codec, table[name].run(d.values), reply);
          (verdict, out, [Invocation(name, d.values)])
  }

  class Dispatcher {
    const codec: Codec
    const table: Table
    /** The calls of registered methods, in order. */
    ghost var calls: seq<Invocation>

    constructor (codec: Codec, table: Table)
      ensures this.codec == codec && this.table == table && calls == []
    {
      this.codec := codec;
      this.table := table;
      this.calls := [];
    }

    method Dispatch(input: Source, reply: bool) returns (verdict: Verdict, output: bytes)
      modifies this, input
      ensures
        var (v, out, made) := Dispatched(codec, table, old(input.data), reply);
        verdict == v && output == out && calls == old(calls) + made
    {
      output := [];
      var n := input.ReadNumber();
      if n.Fail? { return Finished(Some(n.error.Message())), []; }
      var name := input.Copy(ToInt(n.value));
      if name.Fail? { return Finished(Some(name.error.Message())), []; }
      if name.value !in table {
        return Finished(Some(NotRegistered(name.value))), [];
      }
      var m := table[name.value];
      var failure, args := ReadArgs(input, m.params);
      if failure.Some? { return Finished(failure), []; }
      calls := calls + [Invocation(name.value, args)];
      match m.run(args)
      case Panics(text) => return Panicking(text), [];
      case NoResults => return Finished(None), [];
      case Returned(values, error) =>
        if !reply { return Finished(None), []; }
        failure, output := WriteResults(values);
        return Finished(if failure.Some? then failure else error), output;
    }

    /** The argument loop: one buffer is reused, and the first failure ends it. */
    method ReadArgs(input: Source, params: seq<Type>) returns (failure: Option<bytes>, args: seq<Value>)
      modifies input
      ensures Decoded(if failure.Some? then Failed(failure.value) else Success, args, input.data)
        == DecodeAll(codec, params, old(input.data), false)
    {
      args := [];
      DecodeNone(codec, params, input.data, false, []);
      for i := 0 to |params|
        invariant DecodeAll(codec, params, old(input.data), false)
               == After(args, DecodeAll(codec, params[i..], input.data, false))
      {
        DecodeFrom(codec, params, i, input.data, false, args);
        var size := input.ReadNumber();
        if size.Fail? { return Some(size.error.Message()), args; }
        var raw := input.Copy(ToInt(size.value));
        if raw.Fail? { return Some(raw.error.Message()), args; }
        match codec.decode(raw.value, params[i])
        case Err(text) => return Some(text), args;
        case Ok(v) => args := args + [v];
      }
      DecodeNone(codec, params, input.data, false, args);
      failure := None;
    }

    /** The result loop: what was encoded before a failure stays in the output. */
    method WriteResults(values: seq<Value>) returns (failure: Option<bytes>, output: bytes)
      ensures (output, failure) == EncodeAll(codec, values)
    {
      output := [];
      assert values[0..] == values;
      assert [] + EncodeAll(codec, values).0 == EncodeAll(codec, values).0;
      for i := 0 to |values|
        invariant EncodeAll(codec, values) == (output + EncodeAll(codec, values[i..]).0, EncodeAll(codec, values[i..]).1)
      {
        EncodeFrom(codec, values, i);
        match codec.encode(values[i])
        case Err(text) =>
          assert output + [] == output;
          return Some(text), output;
        case Ok(raw) =>
          Regroup(output, U64(|raw|), raw, EncodeAll(codec, values[i + 1..]).0);
          output := output + U64(|raw|) + raw;
      }
      assert output + [] == output;
      failure := None;
    }
  }

  // ----- what the client's bytes make the dispatcher do -----

  /** Calling the named method directly on the caller's own arguments. */
  function Direct(codec: Codec, table: Table, name: bytes, args: seq<Value>, reply: bool): (Verdict, bytes, seq<Invocation>)
  {
    if name !in table then (Finished(Some(NotRegistered(name))), [], [])
    else if |args| < |table[name].params| then (Finished(Some(EOF.Message())), [], [])
    else
      var taken := args[..|table[name].params|];
      var (verdict, out) := Results(codec, table[name].run(taken), reply);
      (verdict, out, [Invocation(name, taken)])
  }

  /**
   * Dispatching the payload built by the client calls the method of that name once, with exactly the first
   * arguments that it takes; with too few arguments, or for an unknown name, it calls nothing.
   */
  lemma DispatchIsDirect(codec: Codec, table: Table, name: slice, args: seq<Value>, reply: bool)
    requires Encodes(codec, args)
    requires name in table ==> Typed(codec, args, table[name].params)
    ensures Dispatched(codec, table, Payload(codec, name, args), reply) == Direct(codec, table, name, args, reply)
  {
    ReadChunkAt(name, EncodeAll(codec, args).0);
    if name in table {
      DecodeEncoded(codec, args, table[name].params, false);
    }
  }

  /**
   * On any input at most one method is called, and an error before the call leaves the output empty. A one-way
   * request makes the same calls, writes nothing, and drops what the method returns.
   */
  lemma AtMostOneCall(codec: Codec, table: Table, input: bytes, reply: bool)
    ensures
      var (verdict, out, made) := Dispatched(codec, table, input, reply);
      && |made| <= 1
      && (made == [] ==> verdict.Finished? && verdict.error.Some? && out == [])
      && (made != [] ==> made[0].name in table && |made[0].args| == |table[made[0].name].params|)
      && made == Dispatched(codec, table, input, true).2
      && (!reply ==> out == [])
      && (!reply && made != [] && !table[made[0].name].run(made[0].args).Panics? ==> verdict == Finished(None))
  {
    match ReadChunk(input)
    case Fail(_) =>
    case Got(name, rest) =>
      if name in table {
        DecodedLength(codec, table[name].params, rest, false);
      }
  }

  /** Bytes in which the name is cut short: the reader's error is reported and nothing is called. */
  lemma NameCutShort(codec: Codec, table: Table, input: bytes, reply: bool)
    requires |input| < 8 || |input| - 8 < Word(input[..8]) < TWO63
    ensures Dispatched(codec, table, input, reply)
         == (Finished(Some(if 0 < |input| < 8 then UnexpectedEOF.Message() else EOF.Message())), [], [])
  {
    if |input| >= 8 { BigEndian(0, input[..8]); }
  }

  lemma {:induction false} DecodedLength(codec: Codec, types: seq<Type>, s: bytes, grows: bool)
    ensures DecodeAll(codec, types, s, grows).status.Success? ==> |DecodeAll(codec, types, s, grows).values| == |types|
    ensures !grows ==> !DecodeAll(codec, types, s, grows).status.Panicked?
  {
    if types != [] {
      var one := DecodeOne(codec, types[0], s, grows);
      if one.status.Success? { DecodedLength(codec, types[1..], one.rest, grows); }
    }
  }

  // ----- any arguments -----

  /** On a name and any chunks: each parameter is decoded from the chunk at its position, and then the method is called. */
  lemma DispatchOnChunks(codec: Codec, table: Table, name: slice, raws: seq<slice>, more: bytes, reply: bool)
    requires name in table && (|table[name].params| <= |raws| || more == [])
    ensures
      var (status, args) := DecodeRaws(codec, table[name].params, raws);
      Dispatched(codec, table, Chunk(name) + (Chunks(raws) + more), reply) ==
        if status.Failed? then (Finished(Some(status.text)), [], [])
        else
          var (verdict, out) := Results(codec, table[name].run(args), reply);
          (verdict, out, [Invocation(name, args)])
  {
    ReadChunkAt(name, Chunks(raws) + more);
    DecodeChunks(codec, table[name].params, raws, more, false);
  }

  /**
   * An argument that does not decode: whatever its bytes, and whatever follows, the codec's error is the
   * dispatcher's, nothing is written, and the method is not called.
   */
  lemma UndecodableArgument(codec: Codec, table: Table, name: slice, raws: seq<slice>, k: nat, text: bytes, more: bytes, reply: bool)
    requires name in table && (|table[name].params| <= |raws| || more == [])
    requires DecodeUpTo(codec, table[name].params, raws, k) && k < |raws| && k < |table[name].params|
    requires codec.decode(raws[k], table[name].params[k]) == Err(text)
    ensures Dispatched(codec, table, Chunk(name) + (Chunks(raws) + more), reply) == (Finished(Some(text)), [], [])
  {
    DispatchOnChunks(codec, table, name, raws, more, reply);
    DecodeRawsMeaning(codec, table[name].params, raws, k);
  }

  /** The client's payload is such a name and such chunks, the encodings of its arguments. */
  lemma PayloadIsChunks(codec: Codec, name: slice, args: seq<Value>)
    requires Encodes(codec, args)
    ensures Payload(codec, name, args) == Chunk(name) + (Chunks(Raws(codec, args)) + [])
  {
    EncodeIsChunks(codec, args);
    assert Chunks(Raws(codec, args)) + [] == Chunks(Raws(codec, args));
  }

  /** An unknown name is answered with an error that says so. */
  lemma UnknownName(codec: Codec, table: Table, name: slice, rest: bytes, reply: bool)
    requires name !in table
    ensures Dispatched(codec, table, Chunk(name) + rest, reply)
         == (Finished(Some([110, 97, 109, 101, 32, 34] + name + [34] + Text(" is not registered"))), [], [])
  {
    ReadChunkAt(name, rest);
    NotRegisteredText(name);
  }

  lemma NotRegisteredText(name: bytes)
    ensures NotRegistered(name) == [110, 97, 109, 101, 32, 34] + name + [34] + Text(" is not registered")
  {
    TextBefore();
    TextAfter();
    var after := Text(" is not registered");
    assert [110, 97, 109, 101, 32, 34] + name + ([34] + after) == [110, 97, 109, 101, 32, 34] + name + [34] + after;
  }

  lemma TextBefore()
    ensures Text("name \"") == [110, 97, 109, 101, 32, 34]
  {
  }

  lemma TextAfter()
    ensures Text("\" is not registered") == [34] + Text(" is not registered")
  {
  }
}
