/**
 The combinators of the BER decoder and the DER encoder (vendors/ber_dec.h and
 vendors/der_enc.h), over an abstract framing of tagged objects.

 A decoder is a byte source with one slot for an object that was read and
 pushed back.  Every operation says which decoder it leaves behind, also when
 it throws.
 */
module BerDer {
  import opened Common

  const NO_OBJECT: nat := 0xFF00
  const UNIVERSAL: nat := 0x00
  const CONSTRUCTED: nat := 0x20
  const EXPLICIT_CONTEXT_SPECIFIC: nat := 0xA0

  datatype Object = Object(typeTag: nat, classTag: nat, value: Bytes) {
    predicate IsSet() { typeTag != NO_OBJECT }

    predicate IsA(t: nat, c: nat) { typeTag == t && classTag == c }
  }

  const Nothing := Object(NO_OBJECT, UNIVERSAL, [])

  type Tagged = o: Object | o.IsSet() witness Object(0, 0, [])

  /**
   How objects are laid out in bytes (section 8.1 of ITU-T X.690), left abstract:
   `read` takes the first object off nonempty input, `residue` is what a failed
   read leaves of it, `write` lays an object out, and `consClass` is the class tag
   a constructed object of a class carries.
   */
  datatype Framing = Framing(
    read: Bytes -> Option<(Tagged, Bytes)>,
    residue: Bytes -> Bytes,
    write: Tagged -> Bytes,
    consClass: nat -> nat)

  /** The class with the constructed bit set (section 8.1.2.5 of ITU-T X.690). */
  function Constructed(k: nat): nat {
    if k / CONSTRUCTED % 2 == 1 then k else k + CONSTRUCTED
  }

  datatype Error = BadTag | BadValue | Malformed | TrailingData | DoublePush

  datatype Result<+T> = Ok(value: T) | Err(error: Error)

  datatype Decoder = Decoder(pushed: Object, source: Bytes)

  /** An operation's result and the decoder it leaves. */
  datatype Step<+T> = Step(result: Result<T>, decoder: Decoder)

  /** How values of a type are tagged and encoded by default. */
  datatype Codec<!T> = Codec(typeTag: nat, classTag: nat, encode: T -> Bytes, decode: Bytes -> Option<T>)

  // ----- the stream a decoder stands for

  datatype Stream = Ended | Broken | More(head: Tagged, tail: Stream)

  /** The first object of the source and the bytes after it; a read that consumes nothing is malformed. */
  function Split(f: Framing, source: Bytes): (r: Option<(Tagged, Bytes)>)
    ensures r.Some? ==> |r.value.1| < |source|
  {
    if source == [] then None
    else
      var r := f.read(source);
      if r.Some? && |r.value.1| < |source| then r else None
  }

  function Parse(f: Framing, source: Bytes): Stream
    decreases |source|
  {
    if source == [] then Ended
    else match Split(f, source)
      case None => Broken
      case Some((o, rest)) => More(o, Parse(f, rest))
  }

  /** The object pushed back, if any, then everything in the source. */
  function View(f: Framing, d: Decoder): Stream {
    if d.pushed.IsSet() then More(d.pushed, Parse(f, d.source)) else Parse(f, d.source)
  }

  // ----- decoding

  /** `get_next_object`: at the end of the data an object that is not set. */
  function GetNext(f: Framing, d: Decoder): Step<Object> {
    if d.pushed.IsSet() then Step(Ok(d.pushed), d.(pushed := Nothing))
    else if d.source == [] then Step(Ok(Nothing), d.(pushed := Nothing))
    else match Split(f, d.source)
      case None => Step(Err(Malformed), d.(source := f.residue(d.source)))
      case Some((o, rest)) => Step(Ok(o), Decoder(Nothing, rest))
  }

  function PushBack(d: Decoder, o: Object): Step<()> {
    if d.pushed.IsSet() then Step(Err(DoublePush), d) else Step(Ok(()), d.(pushed := o))
  }

  function Peek(f: Framing, d: Decoder): Step<Object> {
    if d.pushed.IsSet() then Step(Ok(d.pushed), d)
    else
      var s := GetNext(f, d);
      if s.result.Err? then s else Step(s.result, s.decoder.(pushed := s.result.value))
  }

  /** `decode` of one value under the given tag. */
  function Decode<T>(f: Framing, c: Codec<T>, d: Decoder, t: nat, k: nat): Step<T> {
    var s := GetNext(f, d);
    if s.result.Err? then Step(Err(s.result.error), s.decoder)
    else if !s.result.value.IsA(t, k) then Step(Err(BadTag), s.decoder)
    else match c.decode(s.result.value.value)
      case None => Step(Err(BadValue), s.decoder)
      case Some(v) => Step(Ok(v), s.decoder)
  }

  predicate MoreItems(d: Decoder) {
    d.pushed.IsSet() || d.source != []
  }

  /** `BER_Decoder(obj).decode(out).verify_end()` on the contents of an explicit tag. */
  function DecodeInner<T>(f: Framing, c: Codec<T>, contents: Bytes): Result<T> {
    var s := Decode(f, c, Decoder(Nothing, contents), c.typeTag, c.classTag);
    if s.result.Ok? && MoreItems(s.decoder) then Err(TrailingData) else s.result
  }

  /** `decode_optional`, and with the real type as codec `decode_optional_string`. */
  function DecodeOptional<T>(f: Framing, c: Codec<T>, d: Decoder, t: nat, k: nat, default: T): Step<T> {
    var s := GetNext(f, d);
    if s.result.Err? then Step(Err(s.result.error), s.decoder)
    else
      var o := s.result.value;
      if o.IsA(t, k) && k == EXPLICIT_CONTEXT_SPECIFIC then Step(DecodeInner(f, c, o.value), s.decoder)
      else
        var p := PushBack(s.decoder, o);
        if p.result.Err? then Step(Err(p.result.error), p.decoder)
        else if o.IsA(t, k) then Decode(f, c, p.decoder, t, k)
        else Step(Ok(default), p.decoder)
  }

  /** `decode_optional_implicit`: a match is retagged before it is pushed back and decoded. */
  function DecodeOptionalImplicit<T>(f: Framing, c: Codec<T>, d: Decoder, t: nat, k: nat,
                                     realType: nat, realClass: nat, default: T): Step<T> {
    var s := GetNext(f, d);
    if s.result.Err? then Step(Err(s.result.error), s.decoder)
    else
      var o := s.result.value;
      var o' := if o.IsA(t, k) then Object(realType, realClass, o.value) else o;
      var p := PushBack(s.decoder, o');
      if p.result.Err? then Step(Err(p.result.error), p.decoder)
      else if o.IsA(t, k) then Decode(f, c, p.decoder, realType, realClass)
      else Step(Ok(default), p.decoder)
  }

  datatype ListStep<T> = ListStep(result: Result<()>, values: seq<T>, decoder: Decoder)

  /** The loop over the contents of a list: values decoded before an error are kept. */
  function DecodeItems<T>(f: Framing, c: Codec<T>, contents: Bytes, values: seq<T>): (r: (Result<()>, seq<T>))
    decreases |contents|
  {
    if contents == [] then (Ok(()), values)
    else
      var s := Decode(f, c, Decoder(Nothing, contents), c.typeTag, c.classTag);
      if s.result.Err? then (Err(s.result.error), values)
      else DecodeItems(f, c, s.decoder.source, values + [s.result.value])
  }

  /** `decode_list`, appending to `values`. */
  function DecodeList<T>(f: Framing, c: Codec<T>, d: Decoder, t: nat, k: nat, values: seq<T>): ListStep<T> {
    var s := GetNext(f, d);
    if s.result.Err? then ListStep(Err(s.result.error), values, s.decoder)
    else if !s.result.value.IsA(t, f.consClass(k)) then ListStep(Err(BadTag), values, s.decoder)
    else
      var r := DecodeItems(f, c, s.result.value.value, values);
      ListStep(r.0, r.1, s.decoder)
  }

  /** `decode_optional_list`: whether the list was there, beside what `decode_list` did. */
  function DecodeOptionalList<T>(f: Framing, c: Codec<T>, d: Decoder, t: nat, k: nat, values: seq<T>)
    : (Result<bool>, ListStep<T>)
  {
    var p := Peek(f, d);
    if p.result.Err? then (Err(p.result.error), ListStep(Err(p.result.error), values, p.decoder))
    else if p.result.value.IsA(t, k) then
      var l := DecodeList(f, c, p.decoder, t, k, values);
      (if l.result.Err? then Err(l.result.error) else Ok(true), l)
    else (Ok(false), ListStep(Ok(()), values, p.decoder))
  }

  // ----- look-ahead

  /** A read that met malformed data, wherever it left the source. */
  function Failed<T>(f: Framing, d: Decoder): Step<T> {
    Step(Err(Malformed), d.(source := f.residue(d.source)))
  }

  lemma GetNextView(f: Framing, d: Decoder)
    ensures var s := GetNext(f, d);
            && (s.result.Err? <==> View(f, d).Broken?)
            && (s.result.Err? ==> s == Failed(f, d))
            && (s.result.Ok? ==> !s.decoder.pushed.IsSet())
            && (s.result.Ok? && s.result.value.IsSet() ==> View(f, d) == More(s.result.value, View(f, s.decoder)))
            && (s.result.Ok? && !s.result.value.IsSet() ==>
                  s.result.value == Nothing && View(f, d) == Ended && View(f, s.decoder) == Ended)
  {
  }

  /** The next object of a stream that is not broken, `Nothing` at its end. */
  function Next(v: Stream): Object {
    if v.More? then v.head else Nothing
  }

  /**
   An optional element: never a double push-back; when the next object does not
   carry the tag, the default and the same stream, also at the end of the data;
   when it does, exactly that object is consumed, whether or not it decodes.
   */
  lemma OptionalFrame<T>(f: Framing, c: Codec<T>, d: Decoder, t: nat, k: nat, default: T)
    ensures var s := DecodeOptional(f, c, d, t, k, default);
            var v := View(f, d);
            && s.result != Err(DoublePush)
            && (v.Broken? ==> s == Failed(f, d))
            && (!v.Broken? && !Next(v).IsA(t, k) ==> s.result == Ok(default) && View(f, s.decoder) == v)
            && (v.More? && v.head.IsA(t, k) ==> View(f, s.decoder) == v.tail && !s.decoder.pushed.IsSet())
  {
    GetNextView(f, d);
  }

  /** What a matching optional element of class `k` with this value decodes to. */
  function Matched<T>(f: Framing, c: Codec<T>, k: nat, value: Bytes): Result<T> {
    if k == EXPLICIT_CONTEXT_SPECIFIC then DecodeInner(f, c, value)
    else match c.decode(value) case None => Err(BadValue) case Some(x) => Ok(x)
  }

  /** What a matching optional element decodes to. */
  lemma OptionalMatch<T>(f: Framing, c: Codec<T>, d: Decoder, t: nat, k: nat, default: T)
    requires View(f, d).More? && View(f, d).head.IsA(t, k)
    ensures var o := View(f, d).head;
            DecodeOptional(f, c, d, t, k, default).result == Matched(f, c, k, o.value)
  {
    GetNextView(f, d);
  }

  /** The same for the implicitly tagged form; a match is consumed whenever the real tag is a tag at all. */
  lemma OptionalImplicitFrame<T>(f: Framing, c: Codec<T>, d: Decoder, t: nat, k: nat, realType: nat, realClass: nat,
                                 default: T)
    ensures var s := DecodeOptionalImplicit(f, c, d, t, k, realType, realClass, default);
            var v := View(f, d);
            && s.result != Err(DoublePush)
            && (!v.Broken? && !Next(v).IsA(t, k) ==> s.result == Ok(default) && View(f, s.decoder) == v)
            && (v.Broken? ==> s == Failed(f, d))
            && (v.More? && v.head.IsA(t, k) && realType != NO_OBJECT ==>
                  && View(f, s.decoder) == v.tail && !s.decoder.pushed.IsSet()
                  && s.result == (match c.decode(v.head.value) case None => Err(BadValue) case Some(x) => Ok(x)))
  {
    GetNextView(f, d);
  }

  /** Peeking does not move the stream, and a second look sees the same object. */
  lemma PeekFrame(f: Framing, d: Decoder)
    ensures var p := Peek(f, d);
            && (p.result.Err? <==> View(f, d).Broken?)
            && (p.result.Err? ==> p == Failed(f, d))
            && (p.result.Ok? ==>
                  && View(f, p.decoder) == View(f, d)
                  && p.result.value == Next(View(f, d)) && Peek(f, p.decoder) == p)
  {
    GetNextView(f, d);
  }

  // ----- lists, item by item

  /** The object decodes under the codec's own tag. */
  predicate IsItem<T>(c: Codec<T>, o: Object) {
    o.IsA(c.typeTag, c.classTag) && c.decode(o.value).Some?
  }

  /** A whole stream of items. */
  predicate AllItems<T>(c: Codec<T>, v: Stream) {
    v.Ended? || (v.More? && IsItem(c, v.head) && AllItems(c, v.tail))
  }

  /** The items before the first object that is none, or before the end. */
  function LeadingItems<T>(c: Codec<T>, v: Stream): seq<T> {
    if v.More? && IsItem(c, v.head) then [c.decode(v.head.value).value] + LeadingItems(c, v.tail) else []
  }

  /** What is wrong with the first object that is no item. */
  function FirstError<T>(c: Codec<T>, v: Stream): Error
    requires !AllItems(c, v)
  {
    if v.Broken? then Malformed
    else if IsItem(c, v.head) then FirstError(c, v.tail)
    else if v.head.IsA(c.typeTag, c.classTag) then BadValue
    else BadTag
  }

  /** One value: what is next decides, and is consumed even if it does not decode. */
  lemma DecodeExact<T>(f: Framing, c: Codec<T>, d: Decoder, t: nat, k: nat)
    requires t != NO_OBJECT
    ensures var s, v := Decode(f, c, d, t, k), View(f, d);
            if v.Broken? then s == Failed(f, d)
            else if v.Ended? then s.result == Err(BadTag) && View(f, s.decoder) == Ended
            else
              && View(f, s.decoder) == v.tail && !s.decoder.pushed.IsSet()
              && s.result == if !v.head.IsA(t, k) then Err(BadTag)
                             else if c.decode(v.head.value).None? then Err(BadValue)
                             else Ok(c.decode(v.head.value).value)
  {
    GetNextView(f, d);
  }

  /**
   The loop over the contents of a list succeeds exactly if they are whole and every
   object is an item; it appends the items before the first that is none, and fails
   with what is wrong with that one.
   */
  lemma {:induction false} DecodeItemsExact<T>(f: Framing, c: Codec<T>, contents: Bytes, values: seq<T>)
    ensures var r, v := DecodeItems(f, c, contents, values), Parse(f, contents);
            && r.1 == values + LeadingItems(c, v)
            && r.0 == if AllItems(c, v) then Ok(()) else Err(FirstError(c, v))
    decreases |contents|
  {
    var v := Parse(f, contents);
    if v.More? && IsItem(c, v.head) {
      var rest := GetNext(f, Decoder(Nothing, contents)).decoder.source;
      var x := c.decode(v.head.value).value;
      DecodeItemsExact(f, c, rest, values + [x]);
      assert values + [x] + LeadingItems(c, v.tail) == values + ([x] + LeadingItems(c, v.tail));
    } else {
      assert values + [] == values;
    }
  }

  /** `decode_list` in terms of the stream: one constructed object is consumed, and its items are appended. */
  lemma DecodeListExact<T>(f: Framing, c: Codec<T>, d: Decoder, t: nat, k: nat, values: seq<T>)
    requires t != NO_OBJECT
    ensures var l, v := DecodeList(f, c, d, t, k, values), View(f, d);
            if v.Broken? then l.result == Err(Malformed) && l.values == values
            else if v.Ended? then l.result == Err(BadTag) && l.values == values && View(f, l.decoder) == Ended
            else
              var items := Parse(f, v.head.value);
              && View(f, l.decoder) == v.tail && !l.decoder.pushed.IsSet()
              && if !v.head.IsA(t, f.consClass(k)) then l.result == Err(BadTag) && l.values == values
                 else
                   && l.values == values + LeadingItems(c, items)
                   && l.result == if AllItems(c, items) then Ok(()) else Err(FirstError(c, items))
  {
    GetNextView(f, d);
    if View(f, d).More? {
      DecodeItemsExact(f, c, View(f, d).head.value, values);
    }
  }

  /** Pushing back fails exactly if an object is already pushed; otherwise that object is next again. */
  lemma PushBackExact(f: Framing, d: Decoder, o: Object)
    ensures var p := PushBack(d, o);
            if d.pushed.IsSet() then p == Step(Err(DoublePush), d)
            else
              && p.result == Ok(())
              && (o.IsSet() ==>
                    && View(f, p.decoder) == More(o, View(f, d))
                    && GetNext(f, p.decoder) == Step(Ok(o), d.(pushed := Nothing)))
              && (!o.IsSet() ==> View(f, p.decoder) == View(f, d))
  {
  }

  /** After a look at an object, nothing can be pushed back until it was read. */
  lemma PeekedCannotPush(f: Framing, d: Decoder, o: Object)
    requires View(f, d).More?
    ensures PushBack(Peek(f, d).decoder, o).result == Err(DoublePush)
  {
    GetNextView(f, d);
  }

  // ----- optional lists

  /**
   An optional list: absent, it changes neither the stream nor the list; present,
   it does what `decode_list` would have done without the look-ahead.
   */
  lemma OptionalListFrame<T>(f: Framing, c: Codec<T>, d: Decoder, t: nat, k: nat, values: seq<T>)
    requires !View(f, d).Broken?
    ensures var (found, l) := DecodeOptionalList(f, c, d, t, k, values);
            var v := View(f, d);
            if Next(v).IsA(t, k) then
              && l == DecodeList(f, c, d, t, k, values)
              && (found == Ok(true) <==> l.result.Ok?)
            else found == Ok(false) && l.values == values && View(f, l.decoder) == v
  {
    GetNextView(f, d);
    PeekFrame(f, d);
  }

  /**
   The look-ahead wants class `k` and the list a constructed object of class `k`:
   a list is found exactly when the next object carries the tag, the class is its
   own constructed class, and its contents are whole and every item decodes.
   */
  lemma OptionalListFound<T>(f: Framing, c: Codec<T>, d: Decoder, t: nat, k: nat, values: seq<T>)
    requires View(f, d).More?
    ensures var o := View(f, d).head;
            DecodeOptionalList(f, c, d, t, k, values).0 == Ok(true)
            <==> o.IsA(t, k) && f.consClass(k) == k && AllItems(c, Parse(f, o.value))
  {
    GetNextView(f, d);
    PeekFrame(f, d);
    DecodeItemsExact(f, c, View(f, d).head.value, values);
  }

  /** With the constructed bit of the standard and the default class, no list is ever found. */
  lemma UniversalListNeverFound<T>(f: Framing, c: Codec<T>, d: Decoder, t: nat, values: seq<T>)
    requires f.consClass(UNIVERSAL) == Constructed(UNIVERSAL)
    ensures DecodeOptionalList(f, c, d, t, UNIVERSAL, values).0 != Ok(true)
  {
    PeekFrame(f, d);
    GetNextView(f, d);
    if View(f, d).More? {
      OptionalListFound(f, c, d, t, UNIVERSAL, values);
    } else if View(f, d).Ended? {
      OptionalListFrame(f, c, d, t, UNIVERSAL, values);
    }
  }

  // ----- raw bytes

  /** All bytes the decoder still stands for. */
  function RestBytes(f: Framing, d: Decoder): Bytes {
    (if d.pushed.IsSet() then f.write(d.pushed) else []) + d.source
  }

  /** `raw_bytes`: everything left in the source. */
  function RawBytes(d: Decoder): (Bytes, Decoder) {
    (d.source, d.(source := []))
  }

  /** `raw_bytes` returns the rest of the stream exactly when nothing was pushed back. */
  lemma RawBytesMissPushed(f: Framing, d: Decoder)
    requires forall o: Tagged :: f.write(o) != []
    ensures RawBytes(d).0 == RestBytes(f, d) <==> !d.pushed.IsSet()
    ensures RestBytes(f, RawBytes(d).1) == if d.pushed.IsSet() then f.write(d.pushed) else []
  {
    if d.pushed.IsSet() {
      assert |RestBytes(f, d)| == |f.write(d.pushed)| + |d.source|;
      assert f.write(d.pushed) != [];
      assert f.write(d.pushed) + [] == f.write(d.pushed);
    } else {
      assert [] + d.source == d.source;
    }
  }

  // ----- encoding and round trips

  /** What is written can be read back, whatever follows. */
  ghost predicate WellFramed(f: Framing) {
    && (forall o: Tagged :: f.write(o) != [])
    && (forall o: Tagged, rest: Bytes {:trigger f.read(f.write(o) + rest)} ::
          f.read(f.write(o) + rest) == Some((o, rest)))
  }

  ghost predicate Inverse<T(!new)>(c: Codec<T>) {
    c.typeTag != NO_OBJECT && forall v: T :: c.decode(c.encode(v)) == Some(v)
  }

  /** `encode` of one value under its default tag. */
  function Encode<T>(f: Framing, c: Codec<T>, v: T): Bytes
    requires c.typeTag != NO_OBJECT
  {
    f.write(Object(c.typeTag, c.classTag, c.encode(v)))
  }

  function EncodeList<T>(f: Framing, c: Codec<T>, vs: seq<T>): Bytes
    requires c.typeTag != NO_OBJECT
  {
    if vs == [] then [] else Encode(f, c, vs[0]) + EncodeList(f, c, vs[1..])
  }

  function EncodeOptional<T(==)>(f: Framing, c: Codec<T>, v: T, default: T): Bytes
    requires c.typeTag != NO_OBJECT
  {
    if v != default then Encode(f, c, v) else []
  }

  lemma SplitWritten(f: Framing, o: Tagged, rest: Bytes)
    requires WellFramed(f)
    ensures Split(f, f.write(o) + rest) == Some((o, rest))
    ensures f.write(o) + rest != []
  {
    assert f.write(o) != [];
    assert |f.write(o) + rest| == |f.write(o)| + |rest|;
    assert f.read(f.write(o) + rest) == Some((o, rest));
  }

  lemma {:induction false} DecodeItemsInverse<T(!new)>(f: Framing, c: Codec<T>, vs: seq<T>, done: seq<T>)
    requires WellFramed(f) && Inverse(c)
    ensures DecodeItems(f, c, EncodeList(f, c, vs), done) == (Ok(()), done + vs)
    decreases |vs|
  {
    if vs == [] {
      assert done + vs == done;
    } else {
      var o: Tagged := Object(c.typeTag, c.classTag, c.encode(vs[0]));
      SplitWritten(f, o, EncodeList(f, c, vs[1..]));
      DecodeItemsInverse(f, c, vs[1..], done + [vs[0]]);
      assert done + [vs[0]] + vs[1..] == done + vs;
    }
  }

  /**
   A list encoded inside a constructed object comes back whole: `decode_list`
   appends exactly the original values and consumes exactly that object.
   */
  lemma ListRoundTrip<T(!new)>(f: Framing, c: Codec<T>, vs: seq<T>, t: nat, k: nat, rest: Bytes, values: seq<T>)
    requires WellFramed(f) && Inverse(c) && t != NO_OBJECT
    ensures var o: Tagged := Object(t, f.consClass(k), EncodeList(f, c, vs));
            DecodeList(f, c, Decoder(Nothing, f.write(o) + rest), t, k, values)
            == ListStep(Ok(()), values + vs, Decoder(Nothing, rest))
  {
    var o: Tagged := Object(t, f.consClass(k), EncodeList(f, c, vs));
    SplitWritten(f, o, rest);
    DecodeItemsInverse(f, c, vs, values);
  }

  /**
   A list written inside a constructed object and read as optional: whole and in
   order if the class is its own constructed class, otherwise not found, with list
   and stream as they were.
   */
  lemma OptionalListRoundTrip<T(!new)>(f: Framing, c: Codec<T>, vs: seq<T>, t: nat, k: nat, rest: Bytes,
                                       values: seq<T>)
    requires WellFramed(f) && Inverse(c) && t != NO_OBJECT
    ensures var o: Tagged := Object(t, f.consClass(k), EncodeList(f, c, vs));
            var d := Decoder(Nothing, f.write(o) + rest);
            var (found, l) := DecodeOptionalList(f, c, d, t, k, values);
            if f.consClass(k) == k then
              found == Ok(true) && l == ListStep(Ok(()), values + vs, Decoder(Nothing, rest))
            else found == Ok(false) && l.values == values && View(f, l.decoder) == View(f, d)
  {
    var o: Tagged := Object(t, f.consClass(k), EncodeList(f, c, vs));
    SplitWritten(f, o, rest);
    assert View(f, Decoder(Nothing, f.write(o) + rest)) == More(o, Parse(f, rest));
    OptionalListFrame(f, c, Decoder(Nothing, f.write(o) + rest), t, k, values);
    ListRoundTrip(f, c, vs, t, k, rest, values);
  }

  /** The default arguments: a sequence that was written is not found again. */
  lemma DefaultListIsLost<T(!new)>(f: Framing, c: Codec<T>, vs: seq<T>, t: nat, rest: Bytes, values: seq<T>)
    requires WellFramed(f) && Inverse(c) && t != NO_OBJECT && f.consClass(UNIVERSAL) == Constructed(UNIVERSAL)
    ensures var o: Tagged := Object(t, f.consClass(UNIVERSAL), EncodeList(f, c, vs));
            var d := Decoder(Nothing, f.write(o) + rest);
            var (found, l) := DecodeOptionalList(f, c, d, t, UNIVERSAL, values);
            found == Ok(false) && l.values == values && View(f, l.decoder) == View(f, d)
  {
    OptionalListRoundTrip(f, c, vs, t, UNIVERSAL, rest, values);
  }

  /** The contents of an explicit tag are one whole object that carries the codec's tag and stands for `v`. */
  predicate Wraps<T(==)>(f: Framing, c: Codec<T>, contents: Bytes, v: T) {
    var p := Parse(f, contents);
    p.More? && p.tail.Ended? && p.head.IsA(c.typeTag, c.classTag) && c.decode(p.head.value) == Some(v)
  }

  lemma InnerReadsWrapped<T(!new)>(f: Framing, c: Codec<T>, contents: Bytes, v: T)
    requires c.typeTag != NO_OBJECT
    ensures DecodeInner(f, c, contents) == Ok(v) <==> Wraps(f, c, contents, v)
  {
    var d := Decoder(Nothing, contents);
    GetNextView(f, d);
    var rest := GetNext(f, d).decoder;
    assert MoreItems(rest) <==> !View(f, rest).Ended? by {
      assert rest.source != [] ==> !Parse(f, rest.source).Ended?;
    }
  }

  /** What is wrong with the contents of an explicit tag that do not decode. */
  lemma InnerErrors<T>(f: Framing, c: Codec<T>, contents: Bytes)
    requires c.typeTag != NO_OBJECT
    ensures var v, r := Parse(f, contents), DecodeInner(f, c, contents);
            if v.Broken? then r == Err(Malformed)
            else if v.Ended? || !v.head.IsA(c.typeTag, c.classTag) then r == Err(BadTag)
            else if c.decode(v.head.value).None? then r == Err(BadValue)
            else if v.tail.Ended? then r == Ok(c.decode(v.head.value).value)
            else r == Err(TrailingData)
  {
    DecodeExact(f, c, Decoder(Nothing, contents), c.typeTag, c.classTag);
    var rest := GetNext(f, Decoder(Nothing, contents)).decoder;
    assert MoreItems(rest) <==> !View(f, rest).Ended? by {
      assert rest.source != [] ==> !Parse(f, rest.source).Ended?;
    }
  }

  /** How the value of an object under the codec's own tag must read for it to stand for `v`. */
  predicate StandsFor<T(==)>(f: Framing, c: Codec<T>, value: Bytes, v: T) {
    if c.classTag == EXPLICIT_CONTEXT_SPECIFIC then Wraps(f, c, value, v) else c.decode(value) == Some(v)
  }

  /** What follows an omitted default cannot be mistaken for the optional element. */
  predicate DefaultIsSafe<T(==)>(f: Framing, c: Codec<T>, default: T, rest: Bytes) {
    var v := Parse(f, rest);
    !v.Broken? && (Next(v).IsA(c.typeTag, c.classTag) ==> StandsFor(f, c, Next(v).value, default))
  }

  /**
   What was written can be read back under its own tag: always, but for the
   explicit class, where the value's encoding must itself be one wrapped object.
   */
  predicate WrittenIsSafe<T(==)>(f: Framing, c: Codec<T>, v: T) {
    c.classTag == EXPLICIT_CONTEXT_SPECIFIC ==> Wraps(f, c, c.encode(v), v)
  }

  /**
   `encode_optional` then `decode_optional` returns the value exactly when it was
   written and is safe to read, or it was the omitted default and what follows is
   not taken for another value of it.
   */
  lemma OptionalRoundTrip<T(!new)>(f: Framing, c: Codec<T>, v: T, default: T, rest: Bytes)
    requires WellFramed(f) && Inverse(c)
    ensures DecodeOptional(f, c, Decoder(Nothing, EncodeOptional(f, c, v, default) + rest), c.typeTag, c.classTag,
                           default).result == Ok(v)
            <==> if v != default then WrittenIsSafe(f, c, v) else DefaultIsSafe(f, c, default, rest)
  {
    var d := Decoder(Nothing, EncodeOptional(f, c, v, default) + rest);
    if v != default {
      var o: Tagged := Object(c.typeTag, c.classTag, c.encode(v));
      SplitWritten(f, o, rest);
      assert View(f, d) == More(o, Parse(f, rest));
      OptionalMatch(f, c, d, c.typeTag, c.classTag, default);
      InnerReadsWrapped(f, c, c.encode(v), v);
    } else {
      assert d.source == rest;
      OptionalFrame(f, c, d, c.typeTag, c.classTag, default);
      if View(f, d).More? && View(f, d).head.IsA(c.typeTag, c.classTag) {
        OptionalMatch(f, c, d, c.typeTag, c.classTag, default);
        InnerReadsWrapped(f, c, View(f, d).head.value, default);
      }
    }
  }
}
