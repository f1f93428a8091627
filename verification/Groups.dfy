/** The grammar is unambiguous, and the skipper does not enforce the rule on groups (Protocol Buffers encoding, section
    "Groups"): that a group ends with the field number that it starts with. */
module Groups {
  import opened Wrappers
  import opened Words
  import opened Varint
  import opened Wire
  import opened Grammar
  import opened Codec
  import opened Decoding
  import opened Encoding

  // ---------- Fields can be told apart ----------

  function Content(f: WireField): seq<u8> {
    match f
    case VarintField(_, value) => value
    case Fixed64(_, bytes) => bytes
    case LenField(_, len, payload) => len + payload
    case GroupField(_, body, end) => AllBytes(body) + end
    case Fixed32(_, bytes) => bytes
  }

  lemma SplitUnique(a: seq<u8>, x: seq<u8>, b: seq<u8>, y: seq<u8>)
    requires a + x == b + y && |a| == |b|
    ensures a == b && x == y
  {
    assert (a + x)[..|a|] == a && (b + y)[..|b|] == b;
    assert (a + x)[|a|..] == x && (b + y)[|b|..] == y;
  }

  lemma VarintUnique(a: seq<u8>, x: seq<u8>, b: seq<u8>, y: seq<u8>)
    requires IsVarint(a) && IsVarint(b) && a + x == b + y
    ensures a == b && x == y
  {
    VarintAtStart(a, x);
    VarintAtStart(b, y);
    SplitUnique(a, x, b, y);
  }

  lemma LenUnique(len: seq<u8>, payload: seq<u8>, x: seq<u8>, len': seq<u8>, payload': seq<u8>, y: seq<u8>)
    requires IsVarint(len) && IsVarint(len') && (len + payload) + x == (len' + payload') + y
    requires ToInt64(Value(len)) == |payload| && ToInt64(Value(len')) == |payload'|
    ensures len == len' && payload == payload' && x == y
  {
    Assoc(len, payload, x);
    Assoc(len', payload', y);
    VarintUnique(len, payload + x, len', payload' + y);
    SplitUnique(payload, x, payload', y);
  }

  lemma TagThenContent(f: WireField, x: seq<u8>)
    ensures Bytes(f) + x == f.tag + (Content(f) + x)
  {
    if f.LenField? {
      Assoc(f.tag, f.len, f.payload);
    } else if f.GroupField? {
      Assoc(f.tag, AllBytes(f.body), f.end);
    }
    Assoc(f.tag, Content(f), x);
  }

  lemma TagUnique(f: WireField, x: seq<u8>, g: WireField, y: seq<u8>)
    requires WellFormed(f) && WellFormed(g) && Bytes(f) + x == Bytes(g) + y
    ensures f.tag == g.tag && Content(f) + x == Content(g) + y
  {
    TagThenContent(f, x);
    TagThenContent(g, y);
    VarintUnique(f.tag, Content(f) + x, g.tag, Content(g) + y);
  }

  /** No well-formed field is a proper prefix of another one, and no two are written alike. */
  lemma {:induction false} FieldUnique(f: WireField, x: seq<u8>, g: WireField, y: seq<u8>)
    requires WellFormed(f) && WellFormed(g) && Bytes(f) + x == Bytes(g) + y
    ensures f == g && x == y
    decreases f, 0
  {
    TagUnique(f, x, g, y);
    match f
    case VarintField(tag, value) => VarintUnique(value, x, g.value, y);
    case Fixed64(tag, bytes) => SplitUnique(bytes, x, g.bytes, y);
    case LenField(tag, len, payload) => LenUnique(len, payload, x, g.len, g.payload, y);
    case GroupField(tag, body, end) => BodyUnique(body, end, x, g.body, g.end, y);
    case Fixed32(tag, bytes) => SplitUnique(bytes, x, g.bytes, y);
  }

  /** The fields of a group, up to the tag that ends it. */
  lemma {:induction false} BodyUnique(fs: seq<WireField>, end: seq<u8>, x: seq<u8>,
                                      gs: seq<WireField>, end': seq<u8>, y: seq<u8>)
    requires AllWellFormed(fs) && IsTag(end, 4) && AllWellFormed(gs) && IsTag(end', 4)
    requires (AllBytes(fs) + end) + x == (AllBytes(gs) + end') + y
    ensures fs == gs && end == end' && x == y
    decreases fs, 1
  {
    FirstOfBody(fs, end, x);
    FirstOfBody(gs, end', y);
    if fs == [] {
      VarintUnique(end, x, end', y);
    } else {
      var rest, rest' := AllBytes(fs[1..]) + end, AllBytes(gs[1..]) + end';
      FieldUnique(fs[0], rest + x, gs[0], rest' + y);
      SplitUnique(Bytes(fs[0]), rest + x, Bytes(gs[0]), rest' + y);
      BodyUnique(fs[1..], end, x, gs[1..], end', y);
    }
  }

  /** The wire type at the start says whether another field comes. */
  lemma FirstOfBody(fs: seq<WireField>, end: seq<u8>, x: seq<u8>)
    requires AllWellFormed(fs) && IsTag(end, 4)
    ensures var s := (AllBytes(fs) + end) + x;
            && s != [] && (WireType(s) == 4 <==> fs == [])
            && (if fs == [] then s == end + x else s == Bytes(fs[0]) + ((AllBytes(fs[1..]) + end) + x))
  {
    if fs == [] {
      assert [] + end == end;
      VarintAtStart(end, x);
    } else {
      var f, rest := fs[0], AllBytes(fs[1..]);
      Assoc(Bytes(f), rest, end);
      Assoc(Bytes(f), rest + end, x);
      TagThenContent(f, (rest + end) + x);
      VarintAtStart(f.tag, Content(f) + ((rest + end) + x));
    }
  }

  /** So what the skipper accepts is one field and no other. */
  lemma FieldAtStartIsUnique(s: seq<u8>, f: WireField, g: WireField)
    requires StartsWithField(s, f) && StartsWithField(s, g)
    ensures f == g
  {
    RestFrom(s, 0, Bytes(f));
    RestFrom(s, 0, Bytes(g));
    assert s[0..] == s;
    FieldUnique(f, s[|Bytes(f)|..], g, s[|Bytes(g)|..]);
  }

  /** And what the decoder accepts is one sequence of fields and no other. */
  lemma {:induction false} FieldsUnique(fs: seq<WireField>, gs: seq<WireField>)
    requires AllWellFormed(fs) && AllWellFormed(gs) && AllBytes(fs) == AllBytes(gs)
    ensures fs == gs
  {
    if fs != [] && gs != [] {
      FieldUnique(fs[0], AllBytes(fs[1..]), gs[0], AllBytes(gs[1..]));
      FieldsUnique(fs[1..], gs[1..]);
    } else if fs != [] {
      BytesNonEmpty(fs[0]);
    } else if gs != [] {
      BytesNonEmpty(gs[0]);
    }
  }

  // ---------- The rule on groups ----------

  /** Every group, at any depth, ends with the field number that it starts with. */
  ghost predicate Matched(f: WireField)
    requires WellFormed(f)
  {
    f.GroupField? ==>
      FieldNumber(f.tag) == FieldNumber(f.end) && forall i :: 0 <= i < |f.body| ==> Matched(f.body[i])
  }

  /** Every field, at any depth, has a field number that the decoder would not reject. */
  ghost predicate Numbered(f: WireField)
    requires WellFormed(f)
  {
    && 0 < FieldNumber(f.tag)
    && (f.GroupField? ==> forall i :: 0 <= i < |f.body| ==> Numbered(f.body[i]))
  }

  ghost predicate StartsWithMatched(s: seq<u8>) {
    exists g :: StartsWithField(s, g) && Matched(g)
  }

  ghost predicate StartsWithNumbered(s: seq<u8>) {
    exists g :: StartsWithField(s, g) && Numbered(g)
  }

  /** The skipper accepts any well-formed field, and is right about the rule on groups, and about the numbers inside
      them, exactly if it is this field that keeps to them. */
  lemma SkipperIsRightIff(s: seq<u8>, f: WireField)
    requires IsSlice(s) && StartsWithField(s, f)
    ensures Skip(SkipItem, s, 0, 0) == Skipped(|Bytes(f)|, None)
    ensures StartsWithMatched(s) <==> Matched(f)
    ensures StartsWithNumbered(s) <==> Numbered(f)
  {
    SkipIsOneField(s);
    forall g | StartsWithField(s, g) ensures g == f {
      FieldAtStartIsUnique(s, f, g);
    }
  }

  ghost predicate ConsistsOf(s: seq<u8>, fs: seq<WireField>) {
    AllLegal(fs) && AllBytes(fs) == s
  }

  ghost predicate AllMatched(fs: seq<WireField>)
    requires AllWellFormed(fs)
  {
    forall i :: 0 <= i < |fs| ==> Matched(fs[i])
  }

  ghost predicate ConsistsOfMatched(s: seq<u8>) {
    exists gs :: ConsistsOf(s, gs) && AllMatched(gs)
  }

  /** So the decoder is right about a whole message exactly if all of its groups keep to the rule. */
  lemma DecoderIsRightIff(s: seq<u8>, m: Msg, fs: seq<WireField>)
    requires IsSlice(s) && ConsistsOf(s, fs)
    ensures Unmarshaled(s, m).err.None? && (ConsistsOfMatched(s) <==> AllMatched(fs))
  {
    UnmarshalMergesFields(s, m);
    forall gs | ConsistsOf(s, gs) ensures gs == fs {
      FieldsUnique(fs, gs);
    }
  }

  /** Field 3 starts a group and field 4 ends it: the decoder passes over it. */
  lemma MismatchIsAccepted(m: Msg)
    ensures Unmarshaled([0x1B, 0x24], m) == Decoded(m, None) && !StartsWithMatched([0x1B, 0x24])
  {
    var f := GroupField([0x1B], [], [0x24]);
    OneByteTag(0x1B);
    OneByteTag(0x24);
    assert Bytes(f) == [0x1B, 0x24] && StartsWithField(Bytes(f), f);
    UnknownFieldAlone(f, m);
    SkipperIsRightIff(Bytes(f), f);
  }

  function ZeroInside(): WireField {
    GroupField([0x1B], [VarintField([0x00], [0x00])], [0x1C])
  }

  lemma ZeroInsideIsLegal()
    ensures var f := ZeroInside();
            Legal(f) && Number(f) == 3 && FieldNumber(f.end) == 3 && !Numbered(f) && Matched(f)
  {
    OneByteTag(0x1B);
    OneByteTag(0x00);
    OneByteTag(0x1C);
    var f := ZeroInside();
    assert WellFormed(f.body[0]) && !Numbered(f.body[0]);
  }

  /** And so it does if there is a field with the number 0 inside. */
  lemma NumberZeroIsAccepted(m: Msg)
    ensures Unmarshaled([0x1B, 0x00, 0x00, 0x1C], m) == Decoded(m, None)
    ensures StartsWithMatched([0x1B, 0x00, 0x00, 0x1C]) && !StartsWithNumbered([0x1B, 0x00, 0x00, 0x1C])
  {
    var f := ZeroInside();
    ZeroInsideIsLegal();
    assert f.body[1..] == [] && AllBytes(f.body) == [0x00, 0x00] + [];
    assert Bytes(f) == [0x1B, 0x00, 0x00, 0x1C] && StartsWithField(Bytes(f), f);
    UnknownFieldAlone(f, m);
    SkipperIsRightIff(Bytes(f), f);
  }
}
