/**
 The decoder and the encoder as objects that consume their source and append to
 their output, proved against the functions of `BerDer`.
 */
module BerDerObject {
  import opened Common
  import opened BerDer

  class BerDecoder {
    const framing: Framing
    var pushed: Object
    var source: Bytes

    function Value(): Decoder
      reads this
    {
      Decoder(pushed, source)
    }

    constructor (framing: Framing, source: Bytes)
      ensures this.framing == framing && Value() == Decoder(Nothing, source)
    {
      this.framing, this.source, pushed := framing, source, Nothing;
    }

    method GetNextObject() returns (r: Result<Object>)
      modifies this
      ensures Step(r, Value()) == old(GetNext(framing, Value()))
    {
      if pushed.IsSet() {
        r := Ok(pushed);
        pushed := Nothing;
      } else if source == [] {
        r := Ok(Nothing);
        pushed := Nothing;
      } else {
        match Split(framing, source)
        case None =>
          r := Err(Malformed);
          source := framing.residue(source);
        case Some((o, rest)) =>
          r := Ok(o);
          pushed, source := Nothing, rest;
      }
    }

    method PushBack(o: Object) returns (r: Result<()>)
      modifies this
      ensures Step(r, Value()) == old(BerDer.PushBack(Value(), o))
    {
      if pushed.IsSet() {
        return Err(DoublePush);
      }
      pushed := o;
      r := Ok(());
    }

    method PeekNextObject() returns (r: Result<Object>)
      modifies this
      ensures Step(r, Value()) == old(Peek(framing, Value()))
    {
      if pushed.IsSet() {
        return Ok(pushed);
      }
      r := GetNextObject();
      if r.Ok? {
        pushed := r.value;
      }
    }

    method DecodeValue<T>(c: Codec<T>, t: nat, k: nat) returns (r: Result<T>)
      modifies this
      ensures Step(r, Value()) == old(Decode(framing, c, Value(), t, k))
    {
      var o := GetNextObject();
      if o.Err? {
        return Err(o.error);
      } else if !o.value.IsA(t, k) {
        return Err(BadTag);
      }
      var v := c.decode(o.value.value);
      r := if v.None? then Err(BadValue) else Ok(v.value);
    }

    method DecodeOptional<T>(c: Codec<T>, t: nat, k: nat, default: T) returns (r: Result<T>)
      modifies this
      ensures Step(r, Value()) == old(BerDer.DecodeOptional(framing, c, Value(), t, k, default))
    {
      var o := GetNextObject();
      if o.Err? {
        return Err(o.error);
      }
      if o.value.IsA(t, k) {
        if k == EXPLICIT_CONTEXT_SPECIFIC {
          var inner := new BerDecoder(framing, o.value.value);
          r := inner.DecodeValue(c, c.typeTag, c.classTag);
          if r.Ok? && MoreItems(inner.Value()) {
            r := Err(TrailingData);
          }
        } else {
          var p := PushBack(o.value);
          if p.Err? {
            return Err(p.error);
          }
          r := DecodeValue(c, t, k);
        }
      } else {
        var p := PushBack(o.value);
        r := if p.Err? then Err(p.error) else Ok(default);
      }
    }

    method DecodeOptionalImplicit<T>(c: Codec<T>, t: nat, k: nat, realType: nat, realClass: nat, default: T)
      returns (r: Result<T>)
      modifies this
      ensures Step(r, Value())
              == old(BerDer.DecodeOptionalImplicit(framing, c, Value(), t, k, realType, realClass, default))
    {
      var o := GetNextObject();
      if o.Err? {
        return Err(o.error);
      }
      if o.value.IsA(t, k) {
        var p := PushBack(Object(realType, realClass, o.value.value));
        if p.Err? {
          return Err(p.error);
        }
        r := DecodeValue(c, realType, realClass);
      } else {
        var p := PushBack(o.value);
        r := if p.Err? then Err(p.error) else Ok(default);
      }
    }

    /** Appends to `values` until the list ends or an element does not decode. */
    method DecodeList<T>(c: Codec<T>, t: nat, k: nat, values: seq<T>) returns (r: Result<()>, out: seq<T>)
      modifies this
      ensures ListStep(r, out, Value()) == old(BerDer.DecodeList(framing, c, Value(), t, k, values))
    {
      out := values;
      var o := GetNextObject();
      if o.Err? {
        return Err(o.error), out;
      } else if !o.value.IsA(t, framing.consClass(k)) {
        return Err(BadTag), out;
      }
      var list := new BerDecoder(framing, o.value.value);
      ghost var goal := DecodeItems(framing, c, o.value.value, values);
      ghost var mine := Value();
      while MoreItems(list.Value())
        invariant Value() == mine && fresh(list) && list.framing == framing
        invariant list.pushed == Nothing && DecodeItems(framing, c, list.source, out) == goal
        decreases |list.source|
      {
        var v := list.DecodeValue(c, c.typeTag, c.classTag);
        if v.Err? {
          return Err(v.error), out;
        }
        out := out + [v.value];
      }
      r := Ok(());
    }

    method DecodeOptionalList<T>(c: Codec<T>, t: nat, k: nat, values: seq<T>)
      returns (found: Result<bool>, out: seq<T>)
      modifies this
      ensures var (wanted, l) := old(BerDer.DecodeOptionalList(framing, c, Value(), t, k, values));
              found == wanted && out == l.values && Value() == l.decoder
    {
      out := values;
      var o := PeekNextObject();
      if o.Err? {
        return Err(o.error), out;
      }
      if o.value.IsA(t, k) {
        var r;
        r, out := DecodeList(c, t, k, values);
        return if r.Err? then Err(r.error) else Ok(true), out;
      }
      found := Ok(false);
    }

    /** Reads the source to its end, byte by byte, past any object pushed back. */
    method RawBytes() returns (out: Bytes)
      modifies this
      ensures (out, Value()) == old(BerDer.RawBytes(Value()))
      ensures (forall o: Tagged :: framing.write(o) != []) ==>
                (out == old(RestBytes(framing, Value())) <==> !old(pushed).IsSet())
    {
      out := [];
      while source != []
        invariant out + source == old(source) && pushed == old(pushed)
        decreases |source|
      {
        out := out + [source[0]];
        source := source[1..];
      }
      assert out + source == out;
      if forall o: Tagged :: framing.write(o) != [] {
        RawBytesMissPushed(framing, old(Value()));
      }
    }
  }

  class DerEncoder {
    const framing: Framing
    var out: Bytes

    constructor (framing: Framing)
      ensures this.framing == framing && out == []
    {
      this.framing, out := framing, [];
    }

    method RawBytes(bytes: Bytes)
      modifies this
      ensures out == old(out) + bytes
    {
      out := out + bytes;
    }

    method EncodeValue<T>(c: Codec<T>, v: T)
      requires c.typeTag != NO_OBJECT
      modifies this
      ensures out == old(out) + Encode(framing, c, v)
    {
      RawBytes(framing.write(Object(c.typeTag, c.classTag, c.encode(v))));
    }

    method EncodeOptional<T(==)>(c: Codec<T>, v: T, default: T)
      requires c.typeTag != NO_OBJECT
      modifies this
      ensures out == old(out) + BerDer.EncodeOptional(framing, c, v, default)
    {
      if v != default {
        EncodeValue(c, v);
      }
    }

    method EncodeList<T>(c: Codec<T>, vs: seq<T>)
      requires c.typeTag != NO_OBJECT
      modifies this
      ensures out == old(out) + BerDer.EncodeList(framing, c, vs)
    {
      var i := 0;
      while i != |vs|
        invariant 0 <= i <= |vs|
        invariant out + BerDer.EncodeList(framing, c, vs[i..]) == old(out) + BerDer.EncodeList(framing, c, vs)
      {
        assert vs[i..][0] == vs[i] && vs[i..][1..] == vs[i + 1..];
        EncodeValue(c, vs[i]);
        i := i + 1;
      }
    }

    method EncodeIf(pred: bool, other: DerEncoder)
      modifies this
      ensures out == old(out) + if pred then old(other.out) else []
    {
      if pred {
        RawBytes(other.out);
      }
    }
  }
}
