/** Optional values, and values or an error's text. */
module Wrappers {
  import Bytes

  datatype Option<+T> = None | Some(value: T)
  datatype Result<+T> = Ok(value: T) | Err(text: Bytes.bytes)
}

/** The codec, and readers and writers as Go's `io` package has them. */
module Codecs {
  import opened Bytes
  import opened GoInts
  import opened Wrappers

  /** Go values that are sent, and the types they are decoded into. */
  type Value(==, !new)
  type Type(==, !new)

  /** `codec.Codec`, about which nothing is assumed. */
  datatype Codec = Codec(encode: Value -> Result<slice>, decode: (bytes, Type) -> Result<Value>)

  /** Encoding `v` and decoding it as `t` gives back `v`. */
  ghost predicate RoundTrips(codec: Codec, v: Value, t: Type)
  {
    codec.encode(v).Ok? && codec.decode(codec.encode(v).value, t) == Ok(v)
  }

  /** Values one after the other, each preceded by its length, up to the first that does not encode. */
  function EncodeAll(codec: Codec, values: seq<Value>): (bytes, Option<bytes>)
  {
    if values == [] then ([], None)
    else match codec.encode(values[0])
      case Err(text) => ([], Some(text))
      case Ok(raw) => var (rest, error) := EncodeAll(codec, values[1..]); (Chunk(raw) + rest, error)
  }

  /** How a decoding loop ends. */
  datatype Status = Success | Failed(text: bytes) | Panicked

  datatype Decoded = Decoded(status: Status, values: seq<Value>, rest: bytes)

  datatype Item = Item(status: Status, value: Option<Value>, rest: bytes)

  /**
   * One round of a decoding loop. `grows` tells whether a length of 2^63 or more panics, as the client's
   * `Grow` does, or is taken for an empty value, as the server's `CopyN` does.
   */
  function DecodeOne(codec: Codec, t: Type, s: bytes, grows: bool): (r: Item)
    ensures r.status.Success? <==> r.value.Some?
  {
    match ReadU64(s)
    case Fail(e) => Item(Failed(e.Message()), None, [])
    case Got(size, s1) =>
      if grows && ToInt(size) < 0 then Item(Panicked, None, s1)
      else match CopyN(s1, ToInt(size))
        case Fail(e) => Item(Failed(e.Message()), None, [])
        case Got(raw, s2) =>
          match codec.decode(raw, t)
          case Err(text) => Item(Failed(text), None, s2)
          case Ok(v) => Item(Success, Some(v), s2)
  }

  /** A decoding loop over `types`, up to the first value that cannot be had. */
  function DecodeAll(codec: Codec, types: seq<Type>, s: bytes, grows: bool): Decoded
  {
    if types == [] then Decoded(Success, [], s)
    else
      var one := DecodeOne(codec, types[0], s, grows);
      if !one.status.Success? then Decoded(one.status, [], one.rest)
      else
        var d := DecodeAll(codec, types[1..], one.rest, grows);
        Decoded(d.status, [one.value.value] + d.values, d.rest)
  }

  lemma EncodeFrom(codec: Codec, values: seq<Value>, i: nat)
    requires i < |values|
    ensures EncodeAll(codec, values[i..]) ==
      match codec.encode(values[i])
      case Err(text) => ([], Some(text))
      case Ok(raw) => (Chunk(raw) + EncodeAll(codec, values[i + 1..]).0, EncodeAll(codec, values[i + 1..]).1)
  {
    assert values[i..][1..] == values[i + 1..];
  }

  /** A decoding loop that has delivered `values` already. */
  function After(values: seq<Value>, d: Decoded): Decoded
  {
    Decoded(d.status, values + d.values, d.rest)
  }

  lemma DecodeFrom(codec: Codec, types: seq<Type>, i: nat, s: bytes, grows: bool, values: seq<Value>)
    requires i < |types|
    ensures
      var one := DecodeOne(codec, types[i], s, grows);
      After(values, DecodeAll(codec, types[i..], s, grows)) ==
        if !one.status.Success? then Decoded(one.status, values, one.rest)
        else After(values + [one.value.value], DecodeAll(codec, types[i + 1..], one.rest, grows))
  {
    assert types[i..][1..] == types[i + 1..];
    assert values + [] == values;
    var one := DecodeOne(codec, types[i], s, grows);
    if one.status.Success? {
      var d := DecodeAll(codec, types[i + 1..], one.rest, grows);
      assert values + ([one.value.value] + d.values) == values + [one.value.value] + d.values;
    }
  }

  lemma DecodeNone(codec: Codec, types: seq<Type>, s: bytes, grows: bool, values: seq<Value>)
    ensures After(values, DecodeAll(codec, types[|types|..], s, grows)) == Decoded(Success, values, s)
    ensures After([], DecodeAll(codec, types[0..], s, grows)) == DecodeAll(codec, types, s, grows)
  {
    assert types[0..] == types;
    assert values + [] == values;
    assert [] + DecodeAll(codec, types, s, grows).values == DecodeAll(codec, types, s, grows).values;
  }

  lemma Regroup<T>(a: seq<T>, b: seq<T>, c: seq<T>, d: seq<T>)
    ensures a + (b + c + d) == (a + b + c) + d
  {
  }

  /** Every one of the values is encoded. */
  ghost predicate Encodes(codec: Codec, values: seq<Value>)
  {
    forall i | 0 <= i < |values| :: codec.encode(values[i]).Ok?
  }

  lemma {:induction false} EncodesMeaning(codec: Codec, values: seq<Value>)
    ensures EncodeAll(codec, values).1 == None <==> Encodes(codec, values)
  {
    if values != [] {
      EncodesMeaning(codec, values[1..]);
      if Encodes(codec, values) {
        forall i | 0 <= i < |values| - 1 ensures codec.encode(values[1..][i]).Ok? { assert values[1..][i] == values[i + 1]; }
      }
      if codec.encode(values[0]).Ok? && Encodes(codec, values[1..]) {
        forall i | 0 <= i < |values| ensures codec.encode(values[i]).Ok? { assert i > 0 ==> values[1..][i - 1] == values[i]; }
      }
    }
  }

  // ----- what a decoding loop makes of any chunks -----

  /** Byte slices one after the other, each preceded by its length. */
  function Chunks(raws: seq<slice>): bytes
  {
    if raws == [] then [] else Chunk(raws[0]) + Chunks(raws[1..])
  }

  /** Decoding slices one by one, up to the first that does not decode or is missing. */
  function DecodeRaws(codec: Codec, types: seq<Type>, raws: seq<slice>): (Status, seq<Value>)
  {
    if types == [] then (Success, [])
    else if raws == [] then (Failed(EOF.Message()), [])
    else match codec.decode(raws[0], types[0])
      case Err(text) => (Failed(text), [])
      case Ok(v) => var (status, values) := DecodeRaws(codec, types[1..], raws[1..]); (status, [v] + values)
  }

  /** The slices in front of position `k` decode. */
  ghost predicate DecodeUpTo(codec: Codec, types: seq<Type>, raws: seq<slice>, k: nat)
  {
    k <= |types| && k <= |raws| && forall i | 0 <= i < k :: codec.decode(raws[i], types[i]).Ok?
  }

  /**
   * What that gives, by position: when the first `k` slices decode, all is well if there are no more types; if
   * slice `k` does not decode its error is the loop's, and if there is none the error is EOF; what was decoded
   * before is delivered in each case.
   */
  lemma {:induction false} DecodeRawsMeaning(codec: Codec, types: seq<Type>, raws: seq<slice>, k: nat)
    requires DecodeUpTo(codec, types, raws, k)
    ensures var (status, values) := DecodeRaws(codec, types, raws);
      && |values| >= k && (forall i | 0 <= i < k :: codec.decode(raws[i], types[i]) == Ok(values[i]))
      && (k == |types| ==> status == Success && |values| == k)
      && (k < |types| && k < |raws| && codec.decode(raws[k], types[k]).Err? ==>
            status == Failed(codec.decode(raws[k], types[k]).text) && |values| == k)
      && (k < |types| && k == |raws| ==> status == Failed([69, 79, 70]) && |values| == k)
  {
    ErrorMessages();
    if k > 0 {
      assert codec.decode(raws[0], types[0]).Ok?;
      assert forall i | 0 <= i < k - 1 :: raws[1..][i] == raws[i + 1] && types[1..][i] == types[i + 1];
      DecodeRawsMeaning(codec, types[1..], raws[1..], k - 1);
      var (status, values) := DecodeRaws(codec, types, raws);
      forall i | 0 <= i < k ensures codec.decode(raws[i], types[i]) == Ok(values[i]) {
        if i > 0 { assert values[i] == values[1..][i - 1] && raws[1..][i - 1] == raws[i] && types[1..][i - 1] == types[i]; }
      }
    }
  }

  /** One round of a decoding loop on any bytes, exactly. */
  lemma ItemMeaning(codec: Codec, t: Type, s: bytes, grows: bool)
    ensures s == [] ==> DecodeOne(codec, t, s, grows).status == Failed(EOF.Message())
    ensures 0 < |s| < 8 ==> DecodeOne(codec, t, s, grows).status == Failed(UnexpectedEOF.Message())
    ensures |s| >= 8 ==>
      var n, one := Word(s[..8]), DecodeOne(codec, t, s, grows);
      && (n >= TWO63 && grows ==> one.status == Panicked)
      && (|s| - 8 < n < TWO63 ==> one.status == Failed(EOF.Message()))
      && (n <= |s| - 8 && n < TWO63 ==>
            match codec.decode(s[8..8 + n], t)
            case Err(text) => one.status == Failed(text)
            case Ok(v) => one == Item(Success, Some(v), s[8 + n..]))
      && (n >= TWO63 && !grows ==>
            match codec.decode([], t)
            case Err(text) => one.status == Failed(text)
            case Ok(v) => one == Item(Success, Some(v), s[8..]))
  {
    if |s| >= 8 {
      BigEndian(0, s[..8]);
      var n := Word(s[..8]);
      if n <= |s| - 8 && n < TWO63 {
        assert s[8..][..n] == s[8..8 + n] && s[8..][n..] == s[8 + n..];
      }
    }
  }

  /**
   * A decoding loop on chunks does with each what decoding it by itself gives. What follows the chunks is not
   * looked at if there are enough of them.
   */
  lemma {:induction false} DecodeChunks(codec: Codec, types: seq<Type>, raws: seq<slice>, more: bytes, grows: bool)
    requires |types| <= |raws| || more == []
    ensures var d := DecodeAll(codec, types, Chunks(raws) + more, grows);
            (d.status, d.values) == DecodeRaws(codec, types, raws)
  {
    if types == [] {
    } else if raws == [] {
      assert Chunks(raws) + more == [];
    } else {
      FirstChunk(codec, types[0], raws[0], Chunks(raws[1..]) + more, grows);
      assert Chunks(raws) + more == Chunk(raws[0]) + (Chunks(raws[1..]) + more);
      DecodeChunks(codec, types[1..], raws[1..], more, grows);
    }
  }

  lemma FirstChunk(codec: Codec, t: Type, raw: slice, rest: bytes, grows: bool)
    ensures var one := DecodeOne(codec, t, Chunk(raw) + rest, grows);
            match codec.decode(raw, t)
            case Err(text) => one.status == Failed(text)
            case Ok(v) => one == Item(Success, Some(v), rest)
  {
    ReadU64At(|raw|, raw + rest);
    assert Chunk(raw) + rest == U64(|raw|) + (raw + rest);
    assert (raw + rest)[..|raw|] == raw && (raw + rest)[|raw|..] == rest;
    assert raw == [] ==> raw + rest == rest;
  }

  /** The encodings of values. */
  ghost function Raws(codec: Codec, values: seq<Value>): (raws: seq<slice>)
    requires Encodes(codec, values)
    ensures |raws| == |values| && forall i | 0 <= i < |raws| :: raws[i] == codec.encode(values[i]).value
  {
    seq(|values|, i requires 0 <= i < |values| && codec.encode(values[i]).Ok? => codec.encode(values[i]).value)
  }

  lemma {:induction false} EncodeIsChunks(codec: Codec, values: seq<Value>)
    requires Encodes(codec, values)
    ensures EncodeAll(codec, values).0 == Chunks(Raws(codec, values))
  {
    if values != [] {
      assert codec.encode(values[0]).Ok?;
      forall i | 0 <= i < |values| - 1 ensures codec.encode(values[1..][i]).Ok? { assert values[1..][i] == values[i + 1]; }
      EncodeIsChunks(codec, values[1..]);
      assert Raws(codec, values)[1..] == Raws(codec, values[1..]);
    }
  }

  /** Decoding the encodings of values, whatever the types. */
  lemma DecodeAnyEncoded(codec: Codec, values: seq<Value>, types: seq<Type>, grows: bool)
    requires Encodes(codec, values)
    ensures var d := DecodeAll(codec, types, EncodeAll(codec, values).0, grows);
            (d.status, d.values) == DecodeRaws(codec, types, Raws(codec, values))
  {
    EncodeIsChunks(codec, values);
    DecodeChunks(codec, types, Raws(codec, values), [], grows);
    assert Chunks(Raws(codec, values)) + [] == Chunks(Raws(codec, values));
  }

  /** When the values survive encoding, decoding gives the first ones back, or fails with EOF when there are fewer. */
  lemma DecodeTyped(codec: Codec, values: seq<Value>, types: seq<Type>)
    requires Encodes(codec, values) && Typed(codec, values, types)
    ensures DecodeRaws(codec, types, Raws(codec, values))
         == if |types| <= |values| then (Success, values[..|types|]) else (Failed(EOF.Message()), values)
  {
    DecodeAnyEncoded(codec, values, types, true);
    DecodeEncoded(codec, values, types, true);
  }

  /** The values and their types match, as far as both go. */
  ghost predicate Typed(codec: Codec, values: seq<Value>, types: seq<Type>)
  {
    forall i | 0 <= i < |values| && i < |types| :: RoundTrips(codec, values[i], types[i])
  }

  /**
   * What a decoding loop makes of encoded values: with at least as many values as targets it delivers
   * exactly the first ones, and the bytes of the others are left; with fewer it fails with EOF.
   */
  lemma {:induction false} DecodeEncoded(codec: Codec, values: seq<Value>, types: seq<Type>, grows: bool)
    requires Encodes(codec, values) && Typed(codec, values, types)
    ensures var d := DecodeAll(codec, types, EncodeAll(codec, values).0, grows);
            if |types| <= |values|
            then d == Decoded(Success, values[..|types|], EncodeAll(codec, values[|types|..]).0)
            else d == Decoded(Failed(EOF.Message()), values, [])
  {
    if types == [] {
      assert values[..0] == [] && values[0..] == values;
    } else if values != [] {
      assert RoundTrips(codec, values[0], types[0]);
      TailsMatch(codec, values, types);
      DecodeEncoded(codec, values[1..], types[1..], grows);
      DecodeStep(codec, values[0], types, EncodeAll(codec, values[1..]).0, grows);
      FirstAndRest(values, |types|);
    }
  }

  lemma FirstAndRest<T>(s: seq<T>, n: nat)
    requires s != [] && n > 0
    ensures s == [s[0]] + s[1..]
    ensures n <= |s| ==> s[..n] == [s[0]] + s[1..][..n - 1] && s[1..][n - 1..] == s[n..]
  {
  }

  lemma TailsMatch(codec: Codec, values: seq<Value>, types: seq<Type>)
    requires Encodes(codec, values) && Typed(codec, values, types) && values != [] && types != []
    ensures Encodes(codec, values[1..]) && Typed(codec, values[1..], types[1..])
  {
    forall i | 0 <= i < |values| - 1 && i < |types| - 1 ensures RoundTrips(codec, values[1..][i], types[1..][i]) {
      assert RoundTrips(codec, values[i + 1], types[i + 1]);
    }
    forall i | 0 <= i < |values| - 1 ensures codec.encode(values[1..][i]).Ok? { assert codec.encode(values[i + 1]).Ok?; }
  }

  lemma DecodeStep(codec: Codec, v: Value, types: seq<Type>, rest: bytes, grows: bool)
    requires types != [] && RoundTrips(codec, v, types[0])
    ensures var d := DecodeAll(codec, types[1..], rest, grows);
            DecodeAll(codec, types, Chunk(codec.encode(v).value) + rest, grows) == Decoded(d.status, [v] + d.values, d.rest)
  {
    var raw := codec.encode(v).value;
    ReadU64At(|raw|, raw + rest);
    assert Chunk(raw) + rest == U64(|raw|) + (raw + rest);
    ReadChunkAt(raw, rest);
  }
}

module IO {
  import opened Bytes

  /** A reader over what is left of a stream. */
  class Source {
    var data: bytes

    constructor (data: bytes)
      ensures this.data == data
    {
      this.data := data;
    }

    method ReadNumber() returns (r: Read<GoInts.u64>)
      modifies this
      ensures r == ReadU64(old(data))
      ensures data == if r.Got? then r.rest else []
    {
      r := ReadU64(data);
      data := if r.Got? then r.rest else [];
    }

    method Copy(n: int) returns (r: Read<bytes>)
      modifies this
      ensures r == CopyN(old(data), n)
      ensures data == if r.Got? then r.rest else []
    {
      r := CopyN(data, n);
      data := if r.Got? then r.rest else [];
    }
  }

  function Min(a: nat, b: nat): nat { if a < b then a else b }

  /** A writer that takes `room` more bytes and then breaks. */
  class Sink {
    var sent: bytes
    var room: nat

    constructor (room: nat)
      ensures sent == [] && this.room == room
    {
      this.sent := [];
      this.room := room;
    }

    method Write(b: bytes) returns (ok: bool)
      modifies this
      ensures Wrote(old(sent), old(room), b, sent, room, ok)
    {
      var n := Min(|b|, room);
      sent := sent + b[..n];
      room := room - n;
      ok := n == |b|;
    }
  }

  /** As much of `b` was written as there was room for. */
  ghost predicate Wrote(sent: bytes, room: nat, b: bytes, sent': bytes, room': nat, ok: bool)
  {
    && sent' == sent + b[..Min(|b|, room)]
    && room' == room - Min(|b|, room)
    && (ok <==> |b| <= room)
  }

  lemma WroteBoth(sent: bytes, room: nat, a: bytes, sent1: bytes, room1: nat, b: bytes, sent2: bytes, room2: nat, ok: bool)
    requires Wrote(sent, room, a, sent1, room1, true) && Wrote(sent1, room1, b, sent2, room2, ok)
    ensures Wrote(sent, room, a + b, sent2, room2, ok)
  {
    assert (a + b)[..Min(|a + b|, room)] == a + b[..Min(|b|, room1)];
  }

  lemma WroteFirst(sent: bytes, room: nat, a: bytes, sent1: bytes, room1: nat, b: bytes)
    requires Wrote(sent, room, a, sent1, room1, false)
    ensures Wrote(sent, room, a + b, sent1, room1, false)
  {
    assert (a + b)[..room] == a[..room];
  }
}
