/** Splitting raw RLP without decoding it, as package rlp does. */
module RlpRaw {
  import opened Bytes
  import opened Lineage
  import opened Rlp

  datatype Kind = ByteKind | StringKind | ListKind

  datatype RawError = UnexpectedEOF | CanonSize | ValueTooLarge

  /** `Panic` is an index out of range. */
  datatype Reading = Found(kind: Kind, tagSize: nat, contentSize: nat) | Failed(error: RawError) | Panic

  datatype SizeReading = Size(size: nat) | SizeFailed(error: RawError)

  function ReadSize(b: seq<Byte>, slen: nat): (r: SizeReading)
    requires slen > 0
  {
    if slen > |b| then SizeFailed(UnexpectedEOF)
    else
      var s := Value(b[..slen]);
      if s < 56 || b[0] == 0 then SizeFailed(CanonSize) else Size(s)
  }

  function ReadKind(buf: seq<Byte>): (r: Reading) {
    if |buf| == 0 then Failed(UnexpectedEOF)
    else
      var b := buf[0];
      if b < 0x80 then Bounded(buf, ByteKind, 0, 1)
      else if b < 0xb8 then
        if b - 0x80 == 1 && |buf| < 2 then Panic
        else if b - 0x80 == 1 && buf[1] < 128 then Failed(CanonSize)
        else Bounded(buf, StringKind, 1, b - 0x80)
      else if b < 0xc0 then LongReading(buf, StringKind, b - 0xb7)
      else if b < 0xf8 then Bounded(buf, ListKind, 1, b - 0xc0)
      else LongReading(buf, ListKind, b - 0xf7)
  }

  function LongReading(buf: seq<Byte>, k: Kind, slen: nat): (r: Reading)
    requires |buf| > 0 && slen > 0
  {
    match ReadSize(buf[1..], slen)
    case SizeFailed(e) => Failed(e)
    case Size(n) => Bounded(buf, k, slen + 1, n)
  }

  /** Rejects values larger than the input. */
  function Bounded(buf: seq<Byte>, k: Kind, tagSize: nat, contentSize: nat): (r: Reading) {
    if contentSize > |buf| - tagSize then Failed(ValueTooLarge) else Found(k, tagSize, contentSize)
  }

  /** What each failure means: the input ends before the length field does, a value is not written
      in its shortest form, or it is longer than the input. */
  lemma {:induction false} FailureKinds(buf: seq<Byte>)
    ensures var r := ReadKind(buf);
            var field := if buf == [] then 0 else if 0xb8 <= buf[0] < 0xc0 then buf[0] - 0xb7
                         else if buf[0] >= 0xf8 then buf[0] - 0xf7 else 0;
            var cut := buf == [] || |buf| < 1 + field;
            var long := !cut && field > 0;
            var loose := if long then buf[1] == 0 || Value(buf[1..1 + field]) < 56
                         else |buf| >= 2 && buf[0] == 0x81 && buf[1] < 0x80;
            && (r == Failed(UnexpectedEOF) <==> cut)
            && (r == Failed(CanonSize) <==> !cut && loose)
            && (long && !loose ==> (r == Failed(ValueTooLarge) <==> 1 + field + Value(buf[1..1 + field]) > |buf|))
  {
    if buf != [] {
      var field := if 0xb8 <= buf[0] < 0xc0 then buf[0] - 0xb7 else if buf[0] >= 0xf8 then buf[0] - 0xf7 else 0;
      if field > 0 && |buf| >= 1 + field {
        assert buf[1..][..field] == buf[1..1 + field];
        assert buf[1..][0] == buf[1];
      }
    }
  }

  datatype Splitting =
    | Split(kind: Kind, content: seq<Byte>, rest: seq<Byte>)
    | NotSplit(rest: seq<Byte>, error: RawError)
    | SplitPanic

  function SplitValue(b: seq<Byte>): (r: Splitting) {
    match ReadKind(b)
    case Found(k, ts, cs) => if ts + cs <= |b| then Split(k, b[ts..ts + cs], b[ts + cs..]) else SplitPanic
    case Failed(e) => NotSplit(b, e)
    case Panic => SplitPanic
  }

  // ---- What is accepted ----

  ghost predicate StartsWith(buf: seq<Byte>, p: seq<Byte>) {
    |p| <= |buf| && buf[..|p|] == p
  }

  /** `buf` starts with the tag `Encode` writes for content of this kind and size, and
      the content is all there. */
  ghost predicate WellTagged(buf: seq<Byte>, k: Kind, ts: nat, cs: nat) {
    && ts + cs <= |buf|
    && match k
       case ByteKind => ts == 0 && cs == 1 && buf[0] < 0x80
       case StringKind => cs < TWO_64 && ts == |Tag(STRING, cs)| && StartsWith(buf, Tag(STRING, cs))
         && !(cs == 1 && buf[1] < 0x80)
       case ListKind => cs < TWO_64 && ts == |Tag(LIST, cs)| && StartsWith(buf, Tag(LIST, cs))
  }

  ghost function TagBase(k: Kind): (b: Byte) {
    if k == StringKind then STRING else LIST
  }

  /** A tag's first byte tells the kind and whether a length field follows. */
  lemma {:induction false} TagFirstByte(short: Byte, n: nat)
    requires short == STRING || short == LIST
    requires n < TWO_64
    ensures |Tag(short, n)| >= 1
    ensures n < 56 ==> Tag(short, n) == [short + n]
    ensures n >= 56 ==> 1 <= |BigEndian(n)| <= 8 && Tag(short, n) == [short + 55 + |BigEndian(n)|] + BigEndian(n)
  {
    if n >= 56 {
      LengthBytes(n);
      LowIsExact(short + 55 + |BigEndian(n)|);
    } else {
      LowIsExact(short + n);
    }
  }

  lemma {:induction false} LowIsExact(n: nat)
    requires n < 256
    ensures Low(n) == n
  {
  }

  lemma {:induction false} MinimalLength(b: seq<Byte>)
    requires 1 <= |b| <= 8 && b[0] != 0
    ensures BigEndian(Value(b)) == b && Value(b) < TWO_64
  {
    BigEndianOfValue(b);
    ValueBound(b);
    Pow256Of8();
    Pow256Monotone(|b|, 8);
  }

  /** A length field that is accepted is the minimal one. */
  lemma {:induction false} LongReadingSound(buf: seq<Byte>, k: Kind, slen: nat)
    requires |buf| > 0 && 1 <= slen <= 8 && k != ByteKind && buf[0] == TagBase(k) + 55 + slen
    requires LongReading(buf, k, slen).Found?
    ensures var r := LongReading(buf, k, slen);
            && r.kind == k && 56 <= r.contentSize < TWO_64 && r.tagSize + r.contentSize <= |buf|
            && r.tagSize == |Tag(TagBase(k), r.contentSize)| && StartsWith(buf, Tag(TagBase(k), r.contentSize))
  {
    var b := buf[1..][..slen];
    MinimalLength(b);
    TagFirstByte(TagBase(k), Value(b));
    assert buf[..1 + slen] == [buf[0]] + b;
  }

  /** A minimal length field is accepted. */
  lemma {:induction false} LongReadingComplete(buf: seq<Byte>, k: Kind, cs: nat)
    requires k != ByteKind && 56 <= cs < TWO_64
    requires StartsWith(buf, Tag(TagBase(k), cs)) && |Tag(TagBase(k), cs)| + cs <= |buf|
    ensures LongReading(buf, k, |BigEndian(cs)|) == Found(k, |Tag(TagBase(k), cs)|, cs)
  {
    var b, tag := BigEndian(cs), Tag(TagBase(k), cs);
    LengthBytes(cs);
    TagFirstByte(TagBase(k), cs);
    assert buf[1..][..|b|] == buf[..|tag|][1..] == b;
    assert buf[1..][0] == b[0];
  }

  lemma {:induction false} Pow256Monotone(a: nat, b: nat)
    requires a <= b
    ensures Pow256(a) <= Pow256(b)
    decreases b - a
  {
    if a < b {
      Pow256Monotone(a, b - 1);
    }
  }

  lemma {:induction false} AcceptsSound(buf: seq<Byte>, k: Kind, ts: nat, cs: nat)
    requires ReadKind(buf) == Found(k, ts, cs)
    ensures WellTagged(buf, k, ts, cs)
  {
    var b := buf[0];
    if 0xb8 <= b < 0xc0 {
      LongReadingSound(buf, StringKind, b - 0xb7);
    } else if b >= 0xf8 {
      LongReadingSound(buf, ListKind, b - 0xf7);
    } else {
      assert buf[..1] == [b];
    }
  }

  lemma {:induction false} AcceptsComplete(buf: seq<Byte>, k: Kind, ts: nat, cs: nat)
    requires WellTagged(buf, k, ts, cs)
    ensures ReadKind(buf) == Found(k, ts, cs)
  {
    if k != ByteKind {
      TagFirstByte(TagBase(k), cs);
      assert buf[0] == buf[..ts][0] == Tag(TagBase(k), cs)[0];
      if cs >= 56 {
        LongReadingComplete(buf, k, cs);
      }
    }
  }

  /** `readKind` accepts exactly the inputs that carry the one tag `Encode` writes. */
  lemma {:induction false} AcceptsExactly(buf: seq<Byte>, k: Kind, ts: nat, cs: nat)
    ensures ReadKind(buf) == Found(k, ts, cs) <==> WellTagged(buf, k, ts, cs)
  {
    if ReadKind(buf) == Found(k, ts, cs) {
      AcceptsSound(buf, k, ts, cs);
    } else if WellTagged(buf, k, ts, cs) {
      AcceptsComplete(buf, k, ts, cs);
    }
  }

  /** The only input that makes `readKind` index out of range is the single byte 0x81. */
  lemma {:induction false} PanicsExactly(buf: seq<Byte>)
    ensures ReadKind(buf).Panic? <==> buf == [0x81]
    ensures SplitValue(buf).SplitPanic? <==> buf == [0x81]
  {
    assert |buf| == 1 ==> buf == [buf[0]];
    match ReadKind(buf)
    case Found(k, ts, cs) => AcceptsExactly(buf, k, ts, cs);
    case _ =>
  }

  ghost function KindOf(x: Item): (k: Kind) {
    match x
    case Str(t) => if |t| == 1 && t[0] <= 0x7f then ByteKind else StringKind
    case List(_) => ListKind
  }

  ghost function ContentOf(x: Item): (c: seq<Byte>) {
    match x
    case Str(t) => t
    case List(xs) => EncodeAll(xs)
  }

  /** Splitting an encoding followed by anything returns the content and the rest. */
  lemma {:induction false} SplitOfEncode(x: Item, rest: seq<Byte>)
    requires Sized(x)
    ensures SplitValue(Encode(x) + rest) == Split(KindOf(x), ContentOf(x), rest)
    ensures ReadKind(Encode(x) + rest) == Found(KindOf(x), |Encode(x)| - |ContentOf(x)|, |ContentOf(x)|)
  {
    var buf, c := Encode(x) + rest, ContentOf(x);
    var ts := |Encode(x)| - |c|;
    if KindOf(x) != ByteKind {
      var tag := Tag(TagBase(KindOf(x)), |c|);
      assert Encode(x) == tag + c;
      assert buf[..ts] == tag;
      if |c| == 1 && |tag| == 1 {
        assert buf[1] == c[0];
      }
    }
    AcceptsExactly(buf, KindOf(x), ts, |c|);
    assert buf[ts..ts + |c|] == c;
    assert buf[ts + |c|..] == rest;
  }

  /** Conversely, what was split is an encoding: a string's bytes encode back to the
      input, a list's bytes stand behind the one prefix for their length. */
  lemma {:induction false} SplitIsEncoding(b: seq<Byte>)
    requires SplitValue(b).Split?
    ensures var r := SplitValue(b);
            b == (if r.kind == ListKind then Tag(LIST, |r.content|) + r.content else Encode(Str(r.content))) + r.rest
  {
    var f := ReadKind(b);
    AcceptsExactly(b, f.kind, f.tagSize, f.contentSize);
    var ts, cs := f.tagSize, f.contentSize;
    assert b == b[..ts] + b[ts..ts + cs] + b[ts + cs..];
    if f.kind == StringKind && cs == 1 {
      assert b[ts..ts + cs][0] == b[1];
    }
  }

  // ---- Counting ----

  /** The number of values a raw string splits into; `None` on any error or panic. */
  ghost function Count(b: seq<Byte>): (n: Option<nat>) {
    if b == [] then Some(0)
    else
      match SplitValue(b)
      case Split(_, _, rest) => (if |rest| < |b| then var n := Count(rest); if n.None? then None else Some(n.value + 1)
        else None)
      case _ => None
  }

  lemma {:induction false} SplitShrinks(b: seq<Byte>)
    ensures SplitValue(b).Split? ==> |SplitValue(b).rest| < |b|
  {
    match ReadKind(b)
    case Found(k, ts, cs) => AcceptsExactly(b, k, ts, cs);
    case _ =>
  }

  /** One value, and the values behind it. */
  lemma {:induction false} CountNext(b: seq<Byte>, k: Kind, content: seq<Byte>, rest: seq<Byte>)
    requires |b| > |rest| && SplitValue(b) == Split(k, content, rest)
    ensures Count(b) == var c := Count(rest); if c.None? then None else Some(c.value + 1)
  {
  }

  method CountValues(input: seq<Byte>) returns (n: Option<nat>)
    ensures n == Count(input)
  {
    var b := input;
    var i := 0;
    while |b| > 0
      invariant Count(input) == var c := Count(b); if c.None? then None else Some(i + c.value)
      decreases |b|
    {
      SplitShrinks(b);
      var r := ReadKind(b);
      if !r.Found? {
        return None;
      }
      AcceptsExactly(b, r.kind, r.tagSize, r.contentSize);
      CountNext(b, r.kind, b[r.tagSize..r.tagSize + r.contentSize], b[r.tagSize + r.contentSize..]);
      b := b[r.tagSize + r.contentSize..];
      i := i + 1;
    }
    return Some(i);
  }

  /** A concatenation of encodings counts as many values as were encoded. */
  lemma {:induction false} CountOfEncodings(xs: seq<Item>)
    requires SizedAll(xs)
    ensures Count(EncodeAll(xs)) == Some(|xs|)
    decreases |xs|
  {
    if xs != [] {
      var rest := EncodeAll(xs[1..]);
      CountOfEncodings(xs[1..]);
      SplitOfEncode(xs[0], rest);
      EncodeNonEmpty(xs[0]);
      CountNext(Encode(xs[0]) + rest, KindOf(xs[0]), ContentOf(xs[0]), rest);
    }
  }
}
