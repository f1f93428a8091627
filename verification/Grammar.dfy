/** The message format as a grammar (Protocol Buffers encoding, sections "Message Structure", "Length-Delimited
    Records" and "Groups"), and the skipper's correctness with respect to it: it accepts exactly one field. The first
    part shows that it passes over a field at any depth, the second that it passes over nothing else; each follows the
    structure of the field, with a lemma for the simple fields and one for groups. The skipper's reader of items is
    passed as a parameter, which keeps the proofs about its loop apart from those about items. */
module Grammar {
  import opened Wrappers
  import opened Words
  import opened Varint
  import opened Wire

  /** A field with the bytes of its tag, lengths and values as they stand on the wire; any varint may be longer
      than it needs to be. */
  datatype WireField =
    | VarintField(tag: seq<u8>, value: seq<u8>)
    | Fixed64(tag: seq<u8>, bytes: seq<u8>)
    | LenField(tag: seq<u8>, len: seq<u8>, payload: seq<u8>)
    | GroupField(tag: seq<u8>, body: seq<WireField>, end: seq<u8>)
    | Fixed32(tag: seq<u8>, bytes: seq<u8>)

  predicate IsVarint(bs: seq<u8>) {
    VarintExtent(bs, 0) == Extent(|bs|, None)
  }

  predicate IsTag(bs: seq<u8>, wireType: nat) {
    IsVarint(bs) && WireType(bs) == wireType
  }

  ghost predicate WellFormed(f: WireField)
    decreases f
  {
    match f
    case VarintField(tag, value) => IsTag(tag, 0) && IsVarint(value)
    case Fixed64(tag, bytes) => IsTag(tag, 1) && |bytes| == 8
    case LenField(tag, len, payload) => IsTag(tag, 2) && IsVarint(len) && ToInt64(Value(len)) == |payload|
    case GroupField(tag, body, end) =>
      IsTag(tag, 3) && IsTag(end, 4) && forall i :: 0 <= i < |body| ==> WellFormed(body[i])
    case Fixed32(tag, bytes) => IsTag(tag, 5) && |bytes| == 4
  }

  ghost predicate AllWellFormed(fs: seq<WireField>) {
    forall i :: 0 <= i < |fs| ==> WellFormed(fs[i])
  }

  function Bytes(f: WireField): seq<u8>
    decreases f, 0
  {
    match f
    case VarintField(tag, value) => tag + value
    case Fixed64(tag, bytes) => tag + bytes
    case LenField(tag, len, payload) => tag + len + payload
    case GroupField(tag, body, end) => tag + AllBytes(body) + end
    case Fixed32(tag, bytes) => tag + bytes
  }

  function AllBytes(fs: seq<WireField>): seq<u8>
    decreases fs, 1
  {
    if fs == [] then [] else Bytes(fs[0]) + AllBytes(fs[1..])
  }

  // ---------- The skipper accepts fields ----------

  /** A varint at the start of some bytes is read in full. */
  lemma VarintAtStart(bs: seq<u8>, rest: seq<u8>)
    requires IsVarint(bs)
    ensures VarintExtent(bs + rest, 0) == Extent(|bs|, None)
    ensures (bs + rest)[..|bs|] == bs && (bs + rest)[|bs|..] == rest
    ensures 0 < |bs| && bs + rest != []
  {
    ExtentIsLocal(bs, rest, 0);
  }

  lemma SkipLenField(tag: seq<u8>, len: seq<u8>, payload: seq<u8>, rest: seq<u8>, depth: nat)
    requires WellFormed(LenField(tag, len, payload))
    ensures SkipItem(tag + len + payload + rest, depth) == Item(|tag + len + payload|, 0, None)
  {
    var after := len + (payload + rest);
    Assoc(tag + len, payload, rest);
    Assoc(tag, len, payload + rest);
    VarintAtStart(tag, after);
    VarintAtStart(len, payload + rest);
  }

  lemma SkipVarintField(tag: seq<u8>, value: seq<u8>, rest: seq<u8>, depth: nat)
    requires WellFormed(VarintField(tag, value))
    ensures SkipItem(tag + value + rest, depth) == Item(|tag + value|, 0, None)
  {
    Assoc(tag, value, rest);
    VarintAtStart(tag, value + rest);
    VarintAtStart(value, rest);
  }

  /** A tag alone decides what follows a fixed-size field, and what a group's delimiters do. */
  lemma SkipTag(tag: seq<u8>, rest: seq<u8>, depth: nat)
    requires IsVarint(tag)
    ensures tag + rest != []
    ensures IsTag(tag, 1) ==> SkipItem(tag + rest, depth) == Item(|tag| + 8, 0, None)
    ensures IsTag(tag, 5) ==> SkipItem(tag + rest, depth) == Item(|tag| + 4, 0, None)
    ensures IsTag(tag, 3) ==> SkipItem(tag + rest, depth) == Item(|tag|, 1, None)
    ensures IsTag(tag, 4) && depth > 0 ==> SkipItem(tag + rest, depth) == Item(|tag|, -1, None)
  {
    VarintAtStart(tag, rest);
  }

  /** The extent of a field that is not a group. */
  lemma SkipSimple(f: WireField, rest: seq<u8>, depth: nat)
    requires WellFormed(f) && !f.GroupField?
    ensures SkipItem(Bytes(f) + rest, depth) == Item(|Bytes(f)|, 0, None)
  {
    match f
    case VarintField(tag, value) => SkipVarintField(tag, value, rest, depth);
    case LenField(tag, len, payload) => SkipLenField(tag, len, payload, rest, depth);
    case Fixed64(tag, bytes) =>
      Assoc(tag, bytes, rest);
      SkipTag(tag, bytes + rest, depth);
    case Fixed32(tag, bytes) =>
      Assoc(tag, bytes, rest);
      SkipTag(tag, bytes + rest, depth);
  }

  /** These bytes stand at index i of s. */
  predicate StandsAt(s: seq<u8>, i: nat, bs: seq<u8>) {
    i + |bs| <= |s| && forall k :: 0 <= k < |bs| ==> bs[k] == s[i + k]
  }

  lemma StandsSplit(s: seq<u8>, i: nat, a: seq<u8>, b: seq<u8>)
    ensures StandsAt(s, i, a + b) <==> StandsAt(s, i, a) && StandsAt(s, i + |a|, b)
  {
    if StandsAt(s, i, a + b) {
      assert forall k :: 0 <= k < |a| ==> a[k] == (a + b)[k];
      assert forall k :: 0 <= k < |b| ==> b[k] == (a + b)[|a| + k];
    }
  }

  lemma RestFrom(s: seq<u8>, i: nat, bs: seq<u8>)
    requires StandsAt(s, i, bs)
    ensures s[i..] == bs + s[i + |bs|..]
  {
    assert s[i..i + |bs|] == bs;
  }

  /** The skipper at index i gets to index j at the same depth, and stops there if that depth is zero. */
  ghost predicate Passes(read: Reader, s: seq<u8>, i: nat, j: nat, depth: nat) {
    Skip(read, s, i, depth) == if depth == 0 then Skipped(j, None) else Skip(read, s, j, depth)
  }

  /** One item takes the skipper from index i to index j. */
  lemma SkipStep(read: Reader, s: seq<u8>, i: nat, depth: nat, delta: int, j: nat)
    requires i < j <= |s| < TWO_63 && depth + delta >= 0 && read(s[i..], depth) == Item(j - i, delta, None)
    ensures Skip(read, s, i, depth)
         == if depth + delta == 0 then Skipped(j, None) else Skip(read, s, j, depth + delta)
  {
  }

  lemma SkipStart(read: Reader, s: seq<u8>, i: nat, tag: seq<u8>, depth: nat)
    requires ReadsItems(read) && |s| < TWO_63 && StandsAt(s, i, tag) && IsTag(tag, 3)
    ensures Skip(read, s, i, depth) == Skip(read, s, i + |tag|, depth + 1)
  {
    RestFrom(s, i, tag);
    SkipTag(tag, s[i + |tag|..], depth);
    assert read(s[i..], depth) == SkipItem(s[i..], depth);
    SkipStep(read, s, i, depth, 1, i + |tag|);
  }

  lemma SkipEnd(read: Reader, s: seq<u8>, i: nat, tag: seq<u8>, depth: nat)
    requires ReadsItems(read) && |s| < TWO_63 && StandsAt(s, i, tag) && IsTag(tag, 4) && depth > 0
    ensures Skip(read, s, i, depth)
         == if depth == 1 then Skipped(i + |tag|, None) else Skip(read, s, i + |tag|, depth - 1)
  {
    RestFrom(s, i, tag);
    SkipTag(tag, s[i + |tag|..], depth);
    assert read(s[i..], depth) == SkipItem(s[i..], depth);
    SkipStep(read, s, i, depth, -1, i + |tag|);
  }

  lemma BytesNonEmpty(f: WireField)
    requires WellFormed(f)
    ensures Bytes(f) != []
  {
  }

  lemma SkipSimpleField(read: Reader, s: seq<u8>, i: nat, f: WireField, depth: nat, j: nat)
    requires ReadsItems(read) && WellFormed(f) && !f.GroupField? && |s| < TWO_63 && StandsAt(s, i, Bytes(f))
    requires j == i + |Bytes(f)|
    ensures Passes(read, s, i, j, depth)
  {
    var bs := Bytes(f);
    BytesNonEmpty(f);
    RestFrom(s, i, bs);
    SkipSimple(f, s[j..], depth);
    assert read(s[i..], depth) == SkipItem(s[i..], depth);
    SkipStep(read, s, i, depth, 0, j);
  }

  lemma SkipGroup(read: Reader, s: seq<u8>, i: nat, tag: seq<u8>, endAt: nat, end: seq<u8>, depth: nat,
                  j: nat)
    requires ReadsItems(read) && |s| < TWO_63 && j == endAt + |end|
    requires IsTag(tag, 3) && IsTag(end, 4) && StandsAt(s, i, tag) && StandsAt(s, endAt, end)
    requires Passes(read, s, i + |tag|, endAt, depth + 1)
    ensures Passes(read, s, i, j, depth)
  {
    SkipStart(read, s, i, tag, depth);
    SkipEnd(read, s, endAt, end, depth + 1);
  }

  lemma GroupStandsAt(s: seq<u8>, i: nat, f: WireField)
    requires f.GroupField? && WellFormed(f) && StandsAt(s, i, Bytes(f))
    ensures IsTag(f.tag, 3) && IsTag(f.end, 4) && AllWellFormed(f.body)
    ensures StandsAt(s, i, f.tag) && StandsAt(s, i + |f.tag|, AllBytes(f.body))
    ensures StandsAt(s, i + |f.tag| + |AllBytes(f.body)|, f.end)
    ensures |Bytes(f)| == |f.tag| + |AllBytes(f.body)| + |f.end|
  {
    StandsSplit(s, i, f.tag + AllBytes(f.body), f.end);
    StandsSplit(s, i, f.tag, AllBytes(f.body));
  }

  lemma FirstStandsAt(s: seq<u8>, i: nat, fs: seq<WireField>)
    requires fs != [] && AllWellFormed(fs) && StandsAt(s, i, AllBytes(fs))
    ensures WellFormed(fs[0]) && AllWellFormed(fs[1..])
    ensures StandsAt(s, i, Bytes(fs[0])) && StandsAt(s, i + |Bytes(fs[0])|, AllBytes(fs[1..]))
    ensures |AllBytes(fs)| == |Bytes(fs[0])| + |AllBytes(fs[1..])|
  {
    StandsSplit(s, i, Bytes(fs[0]), AllBytes(fs[1..]));
  }

  lemma PassesBoth(read: Reader, s: seq<u8>, i: nat, j: nat, k: nat, depth: nat)
    requires depth > 0 && Passes(read, s, i, j, depth) && Passes(read, s, j, k, depth)
    ensures Passes(read, s, i, k, depth)
  {
  }

  /** Inside a group the skipper passes over any well-formed field, which ends at index j; outside, it stops after
      it. */
  lemma {:induction false} SkipField(read: Reader, s: seq<u8>, i: nat, f: WireField, depth: nat, j: nat)
    requires ReadsItems(read) && WellFormed(f) && |s| < TWO_63 && StandsAt(s, i, Bytes(f)) && j == i + |Bytes(f)|
    ensures Passes(read, s, i, j, depth)
    decreases f, 0
  {
    if f.GroupField? {
      GroupStandsAt(s, i, f);
      SkipGroupParts(read, s, i, f.tag, f.body, f.end, depth, j);
    } else {
      SkipSimpleField(read, s, i, f, depth, j);
    }
  }

  lemma {:induction false} SkipGroupParts(read: Reader, s: seq<u8>, i: nat, tag: seq<u8>, body: seq<WireField>,
                                          end: seq<u8>, depth: nat, j: nat)
    requires ReadsItems(read) && |s| < TWO_63 && IsTag(tag, 3) && AllWellFormed(body) && IsTag(end, 4)
    requires StandsAt(s, i, tag) && StandsAt(s, i + |tag|, AllBytes(body))
    requires StandsAt(s, i + |tag| + |AllBytes(body)|, end) && j == i + |tag| + |AllBytes(body)| + |end|
    ensures Passes(read, s, i, j, depth)
    decreases body, 2
  {
    var endAt := i + |tag| + |AllBytes(body)|;
    SkipFields(read, s, i + |tag|, body, depth + 1, endAt);
    SkipGroup(read, s, i, tag, endAt, end, depth, j);
  }

  lemma {:induction false} SkipFields(read: Reader, s: seq<u8>, i: nat, fs: seq<WireField>, depth: nat, j: nat)
    requires ReadsItems(read) && AllWellFormed(fs) && depth > 0 && |s| < TWO_63 && StandsAt(s, i, AllBytes(fs))
    requires j == i + |AllBytes(fs)|
    ensures Passes(read, s, i, j, depth)
    decreases fs, 1
  {
    if fs != [] {
      FirstStandsAt(s, i, fs);
      var k := i + |Bytes(fs[0])|;
      SkipField(read, s, i, fs[0], depth, k);
      SkipFields(read, s, k, fs[1..], depth, j);
      PassesBoth(read, s, i, k, j, depth);
    }
  }

  // ---------- The skipper accepts only fields ----------

  lemma {:induction false} ExtentOfPrefix(s: seq<u8>, k: nat)
    requires VarintExtent(s, k).err.None?
    ensures VarintExtent(s[..VarintExtent(s, k).used], k) == VarintExtent(s, k)
  {
    if s[0] >= 0x80 {
      var n := VarintExtent(s[1..], k + 1).used;
      ExtentOfPrefix(s[1..], k + 1);
      assert s[..n + 1][1..] == s[1..][..n];
    }
  }

  /** A varint at the start of s, cut off from what follows. */
  lemma PrefixIsVarint(s: seq<u8>)
    requires VarintExtent(s, 0).err.None?
    ensures var n := VarintExtent(s, 0).used;
            IsVarint(s[..n]) && WireType(s[..n]) == WireType(s)
  {
    ExtentOfPrefix(s, 0);
  }

  lemma ParseLenField(s: seq<u8>) returns (f: WireField)
    requires VarintExtent(s, 0).err.None? && WireType(s) == 2
    requires SkipItem(s, 0).err.None? && SkipItem(s, 0).used <= |s|
    ensures WellFormed(f) && f.LenField? && Bytes(f) == s[..SkipItem(s, 0).used]
    ensures f.tag == s[..VarintExtent(s, 0).used]
  {
    var n := VarintExtent(s, 0).used;
    var l := VarintExtent(s[n..], 0).used;
    PrefixIsVarint(s);
    PrefixIsVarint(s[n..]);
    var end := SkipItem(s, 0).used;
    f := LenField(s[..n], s[n..][..l], s[n + l..end]);
    assert s[..end] == s[..n] + s[n..][..l] + s[n + l..end];
  }

  lemma ParseVarintField(s: seq<u8>) returns (f: WireField)
    requires VarintExtent(s, 0).err.None? && WireType(s) == 0
    requires SkipItem(s, 0).err.None?
    ensures WellFormed(f) && f.VarintField? && Bytes(f) == s[..SkipItem(s, 0).used]
    ensures f.tag == s[..VarintExtent(s, 0).used]
  {
    var n := VarintExtent(s, 0).used;
    var l := VarintExtent(s[n..], 0).used;
    PrefixIsVarint(s);
    PrefixIsVarint(s[n..]);
    f := VarintField(s[..n], s[n..][..l]);
    assert s[..n + l] == s[..n] + s[n..][..l];
  }

  /** An item that leaves the depth alone is a field. */
  lemma ParseSimpleField(s: seq<u8>, depth: nat) returns (f: WireField)
    requires SkipItem(s, depth).err.None? && SkipItem(s, depth).delta == 0 && SkipItem(s, depth).used <= |s|
    ensures WellFormed(f) && !f.GroupField? && Bytes(f) == s[..SkipItem(s, depth).used]
  {
    var n := VarintExtent(s, 0).used;
    PrefixIsVarint(s);
    match WireType(s) {
      case 0 => f := ParseVarintField(s);
      case 2 => f := ParseLenField(s);
      case 1 =>
        f := Fixed64(s[..n], s[n..n + 8]);
        assert s[..n + 8] == s[..n] + s[n..n + 8];
      case 5 =>
        f := Fixed32(s[..n], s[n..n + 4]);
        assert s[..n + 4] == s[..n] + s[n..n + 4];
    }
  }

  /** An item that changes the depth is the start or the end of a group. */
  lemma ParseDelimiter(s: seq<u8>, depth: nat)
    requires SkipItem(s, depth).err.None? && SkipItem(s, depth).delta != 0
    ensures var item := SkipItem(s, depth);
            && item.used <= |s|
            && (if item.delta == 1 then IsTag(s[..item.used], 3)
                else item.delta == -1 && depth > 0 && IsTag(s[..item.used], 4))
  {
    PrefixIsVarint(s);
  }

  /** The skipper at index i comes to an item it can read, which ends within s. */
  ghost predicate Unfolds(read: Reader, s: seq<u8>, i: nat, depth: nat, item: Item) {
    && i < |s| && item == SkipItem(s[i..], depth)
    && item.err.None? && depth + item.delta >= 0 && 0 < item.used && i + item.used <= |s|
    && Skip(read, s, i, depth)
       == if depth + item.delta == 0 then Skipped(i + item.used, None)
          else Skip(read, s, i + item.used, depth + item.delta)
  }

  /** The item read at index i, if the skipper succeeds and stays within s. */
  lemma SkipUnfolds(read: Reader, s: seq<u8>, i: nat, depth: nat) returns (item: Item)
    requires ReadsItems(read) && |s| < TWO_63
    requires Skip(read, s, i, depth).err.None? && Skip(read, s, i, depth).end <= |s|
    ensures Unfolds(read, s, i, depth, item)
  {
    assert read(s[i..], depth) == SkipItem(s[i..], depth);
    item := read(s[i..], depth);
  }

  /** From inside a group the skipper passes over some fields and the end of the group. */
  ghost predicate LeavesGroup(read: Reader, s: seq<u8>, i: nat, depth: nat, fs: seq<WireField>, end: seq<u8>)
    requires depth > 0
  {
    var endAt := i + |AllBytes(fs)|;
    var j := endAt + |end|;
    && AllWellFormed(fs) && StandsAt(s, i, AllBytes(fs))
    && IsTag(end, 4) && StandsAt(s, endAt, end)
    && Skip(read, s, i, depth) == if depth == 1 then Skipped(j, None) else Skip(read, s, j, depth - 1)
  }

  /** The skipper passes over one field at index i. */
  ghost predicate PassesField(read: Reader, s: seq<u8>, i: nat, depth: nat, f: WireField) {
    && WellFormed(f) && StandsAt(s, i, Bytes(f))
    && Passes(read, s, i, i + |Bytes(f)|, depth)
  }

  lemma PrependField(read: Reader, s: seq<u8>, i: nat, j: nat, depth: nat, f: WireField, fs: seq<WireField>,
                     end: seq<u8>)
    requires depth > 0 && PassesField(read, s, i, depth, f) && j == i + |Bytes(f)|
    requires LeavesGroup(read, s, j, depth, fs, end)
    ensures LeavesGroup(read, s, i, depth, [f] + fs, end)
  {
    assert ([f] + fs)[1..] == fs;
    StandsSplit(s, i, Bytes(f), AllBytes(fs));
  }

  lemma GroupOfParts(s: seq<u8>, i: nat, tag: seq<u8>, body: seq<WireField>, end: seq<u8>)
    requires StandsAt(s, i, tag) && StandsAt(s, i + |tag|, AllBytes(body))
    requires StandsAt(s, i + |tag| + |AllBytes(body)|, end)
    requires IsTag(tag, 3) && IsTag(end, 4) && AllWellFormed(body)
    ensures WellFormed(GroupField(tag, body, end)) && StandsAt(s, i, Bytes(GroupField(tag, body, end)))
    ensures |Bytes(GroupField(tag, body, end))| == |tag| + |AllBytes(body)| + |end|
  {
    assert Bytes(GroupField(tag, body, end)) == tag + AllBytes(body) + end;
    StandsSplit(s, i, tag, AllBytes(body));
    StandsSplit(s, i, tag + AllBytes(body), end);
  }

  lemma CloseGroup(read: Reader, s: seq<u8>, i: nat, j: nat, depth: nat, body: seq<WireField>, end: seq<u8>)
    requires i < j <= |s| && IsTag(s[i..j], 3)
    requires Skip(read, s, i, depth) == Skip(read, s, j, depth + 1) && LeavesGroup(read, s, j, depth + 1, body, end)
    ensures PassesField(read, s, i, depth, GroupField(s[i..j], body, end))
    ensures |Bytes(GroupField(s[i..j], body, end))| > 0
  {
    var tag := s[i..j];
    assert i + |tag| == j && StandsAt(s, i, tag);
    GroupOfParts(s, i, tag, body, end);
  }

  lemma LeaveGroup(read: Reader, s: seq<u8>, i: nat, j: nat, depth: nat)
    requires depth > 0 && i < j <= |s| && IsTag(s[i..j], 4)
    requires Skip(read, s, i, depth) == if depth == 1 then Skipped(j, None) else Skip(read, s, j, depth - 1)
    ensures LeavesGroup(read, s, i, depth, [], s[i..j])
  {
  }

  lemma ParseSimple(read: Reader, s: seq<u8>, i: nat, depth: nat, item: Item) returns (f: WireField)
    requires Unfolds(read, s, i, depth, item) && item.delta == 0
    ensures PassesField(read, s, i, depth, f) && |Bytes(f)| > 0
  {
    f := ParseSimpleField(s[i..], depth);
  }

  lemma DelimiterAt(read: Reader, s: seq<u8>, i: nat, depth: nat, item: Item)
    requires Unfolds(read, s, i, depth, item) && item.delta != 0
    ensures var tag := s[i..i + item.used];
            if item.delta == 1 then IsTag(tag, 3) else item.delta == -1 && depth > 0 && IsTag(tag, 4)
  {
    ParseDelimiter(s[i..], depth);
    assert s[i..][..item.used] == s[i..i + item.used];
  }

  /** What the skipper finds at index i: a field that is not a group, or a delimiter which ends at index j. */
  datatype Found = Simple(field: WireField) | Start(j: nat) | End(j: nat)

  lemma FindItem(read: Reader, s: seq<u8>, i: nat, depth: nat) returns (found: Found)
    requires ReadsItems(read) && |s| < TWO_63
    requires Skip(read, s, i, depth).err.None? && Skip(read, s, i, depth).end <= |s|
    ensures match found
            case Simple(f) => PassesField(read, s, i, depth, f) && |Bytes(f)| > 0
            case Start(j) =>
              i < j <= |s| && IsTag(s[i..j], 3) && Skip(read, s, i, depth) == Skip(read, s, j, depth + 1)
            case End(j) =>
              i < j <= |s| && depth > 0 && IsTag(s[i..j], 4)
              && Skip(read, s, i, depth) == if depth == 1 then Skipped(j, None) else Skip(read, s, j, depth - 1)
  {
    var item := SkipUnfolds(read, s, i, depth);
    if item.delta == 0 {
      var f := ParseSimple(read, s, i, depth, item);
      return Simple(f);
    }
    DelimiterAt(read, s, i, depth, item);
    return if item.delta == 1 then Start(i + item.used) else End(i + item.used);
  }

  /** The group that starts at index i with a tag that ends at index j. */
  lemma {:induction false} ParseGroup(read: Reader, s: seq<u8>, i: nat, j: nat, depth: nat) returns (f: WireField)
    requires ReadsItems(read) && |s| < TWO_63 && i < j <= |s| && IsTag(s[i..j], 3)
    requires Skip(read, s, i, depth) == Skip(read, s, j, depth + 1)
    requires Skip(read, s, i, depth).err.None? && Skip(read, s, i, depth).end <= |s|
    ensures PassesField(read, s, i, depth, f) && |Bytes(f)| > 0
    decreases |s| - i, 0
  {
    var body, end := ParseFields(read, s, j, depth + 1);
    f := GroupField(s[i..j], body, end);
    CloseGroup(read, s, i, j, depth, body, end);
  }

  lemma {:induction false} ParseFields(read: Reader, s: seq<u8>, i: nat, depth: nat)
    returns (fs: seq<WireField>, end: seq<u8>)
    requires ReadsItems(read) && depth > 0 && |s| < TWO_63
    requires Skip(read, s, i, depth).err.None? && Skip(read, s, i, depth).end <= |s|
    ensures LeavesGroup(read, s, i, depth, fs, end)
    decreases |s| - i, 1
  {
    var found := FindItem(read, s, i, depth);
    if found.End? {
      LeaveGroup(read, s, i, found.j, depth);
      return [], s[i..found.j];
    }
    var f: WireField;
    if found.Start? {
      f := ParseGroup(read, s, i, found.j, depth);
    } else {
      f := found.field;
    }
    var j := i + |Bytes(f)|;
    assert Passes(read, s, i, j, depth);
    fs, end := ParseFields(read, s, j, depth);
    PrependField(read, s, i, j, depth, f, fs, end);
    fs := [f] + fs;
  }

  lemma ParseField(read: Reader, s: seq<u8>) returns (f: WireField)
    requires ReadsItems(read) && |s| < TWO_63
    requires Skip(read, s, 0, 0).err.None? && Skip(read, s, 0, 0).end <= |s|
    ensures PassesField(read, s, 0, 0, f)
  {
    var found := FindItem(read, s, 0, 0);
    if found.Start? {
      f := ParseGroup(read, s, 0, found.j, 0);
    } else {
      f := found.field;
    }
  }

  /** A well-formed field stands at the start of s. */
  ghost predicate StartsWithField(s: seq<u8>, f: WireField) {
    WellFormed(f) && StandsAt(s, 0, Bytes(f))
  }

  lemma SkipsOneField(read: Reader, s: seq<u8>)
    requires ReadsItems(read) && |s| < TWO_63
    ensures var r := Skip(read, s, 0, 0);
            && (r.err.None? && r.end <= |s| <==> exists f :: StartsWithField(s, f))
            && (forall f :: StartsWithField(s, f) ==> r == Skipped(|Bytes(f)|, None))
  {
    var r := Skip(read, s, 0, 0);
    forall f | StartsWithField(s, f) ensures r == Skipped(|Bytes(f)|, None) && |Bytes(f)| <= |s| {
      SkipField(read, s, 0, f, 0, |Bytes(f)|);
    }
    if r.err.None? && r.end <= |s| {
      var f := ParseField(read, s);
      assert StartsWithField(s, f);
    }
  }
}
