/** Recursive length prefix: the encoder and position-based decoder of package common. */
module Rlp {
  import opened Bytes
  import opened Lineage

  /** What is encoded: byte strings and lists of values. */
  datatype Item = Str(bytes: seq<Byte>) | List(items: seq<Item>)

  /** What the decoder hands back: a lone byte below 0x80 comes back as a byte. */
  datatype Decoded = AByte(byte: Byte) | AString(bytes: seq<Byte>) | AList(items: seq<Decoded>)

  /** A Go conversion to `byte`. */
  function Low(n: nat): (b: Byte) {
    n % 256
  }

  /** The prefix for `length` bytes of content: `short` is 0x80 for strings, 0xc0 for lists. */
  function Tag(short: Byte, length: nat): (t: seq<Byte>) {
    if length < 56 then [Low(short + length)]
    else var b := BigEndian(length); [Low(short + 55 + |b|)] + b
  }

  const STRING: Byte := 0x80
  const LIST: Byte := 0xc0

  function Encode(x: Item): (e: seq<Byte>)
    decreases x, 0
  {
    match x
    case Str(t) => if |t| == 1 && t[0] <= 0x7f then t else Tag(STRING, |t|) + t
    case List(xs) => var b := EncodeAll(xs); Tag(LIST, |b|) + b
  }

  function EncodeAll(xs: seq<Item>): (e: seq<Byte>)
    decreases xs
  {
    if xs == [] then [] else Encode(xs[0]) + EncodeAll(xs[1..])
  }

  /** The number of bytes `i` needs, by repeated shifting. */
  method IntLen(i: nat) returns (length: nat)
    ensures length == |BigEndian(i)|
  {
    length := 0;
    var rest := i;
    while rest > 0
      invariant length + |BigEndian(rest)| == |BigEndian(i)|
    {
      rest := rest / 256;
      length := length + 1;
    }
  }

  /** The list prefix as the generic slice path builds it: count the length bytes by
      shifting, then fill them in from the low end. */
  method SliceTag(blen: nat) returns (t: seq<Byte>)
    requires blen < TWO_64
    ensures t == Tag(LIST, blen)
  {
    if blen < 56 {
      return [Low(LIST + blen)];
    }
    var ilen := IntLen(blen);
    ghost var want := BigEndian(blen);
    var bytes := new Byte[ilen];
    var rest := blen;
    for i := 0 to ilen
      invariant BigEndian(rest) == want[..ilen - i]
      invariant forall j | ilen - i <= j < ilen :: bytes[j] == want[j]
    {
      assert BigEndian(rest)[ilen - i - 1] == rest % 256;
      bytes[ilen - i - 1] := rest % 256;
      rest := rest / 256;
    }
    assert bytes[..] == want;
    t := [Low(LIST + 55 + ilen)] + bytes[..];
  }

  /** Big enough for memory: every payload length fits in 64 bits. */
  predicate Sized(x: Item)
    decreases x, 0
  {
    match x
    case Str(t) => |t| < TWO_64
    case List(xs) => |EncodeAll(xs)| < TWO_64 && SizedAll(xs)
  }

  predicate SizedAll(xs: seq<Item>)
    decreases xs
  {
    xs != [] ==> Sized(xs[0]) && SizedAll(xs[1..])
  }

  function View(x: Item): (d: Decoded)
    decreases x, 0
  {
    match x
    case Str(t) => if |t| == 1 && t[0] <= 0x7f then AByte(t[0]) else AString(t)
    case List(xs) => AList(ViewAll(xs))
  }

  function ViewAll(xs: seq<Item>): (ds: seq<Decoded>)
    decreases xs
  {
    if xs == [] then [] else [View(xs[0])] + ViewAll(xs[1..])
  }

  // ---- Decoding ----

  /** A value and the position after it; `None` stands for an index panic. */
  type Parse<T> = Option<(T, nat)>

  function Slice(data: seq<Byte>, lo: nat, hi: nat): (s: Option<seq<Byte>>) {
    if lo <= hi <= |data| then Some(data[lo..hi]) else None
  }

  ghost function DecodeAt(data: seq<Byte>, pos: nat): (r: Parse<Decoded>)
    ensures r.Some? ==> pos < r.value.1 <= |data|
    decreases |data| - pos, 1
  {
    if pos >= |data| then None
    else
      var c := data[pos];
      if c <= 0x7f then Some((AByte(c), pos + 1))
      else if c <= 0xb7 then
        var s := Slice(data, pos + 1, pos + 1 + (c - 0x80));
        if s.None? then None else Some((AString(s.value), pos + 1 + (c - 0x80)))
      else if c <= 0xbf then
        var l := Slice(data, pos + 1, pos + 1 + (c - 0xb7));
        if l.None? then None
        else
          var start := pos + 1 + (c - 0xb7);
          var s := Slice(data, start, start + Value(l.value));
          if s.None? then None else Some((AString(s.value), start + Value(l.value)))
      else if c <= 0xf7 then
        DecodeList(data, pos + 1, c - 0xc0)
      else
        var l := Slice(data, pos + 1, pos + 1 + (c - 0xf7));
        if l.None? then None else DecodeList(data, pos + 1 + (c - 0xf7), Value(l.value))
  }

  ghost function DecodeList(data: seq<Byte>, pos: nat, size: nat): (r: Parse<Decoded>)
    requires pos <= |data|
    ensures r.Some? ==> pos <= r.value.1 <= |data|
    decreases |data| - pos, 3
  {
    var items := DecodeItems(data, pos, size);
    if items.None? then None else Some((AList(items.value.0), items.value.1))
  }

  /** Decodes items until at least `size` bytes are consumed. */
  ghost function DecodeItems(data: seq<Byte>, pos: nat, size: int): (r: Parse<seq<Decoded>>)
    requires pos <= |data|
    ensures r.Some? ==> pos <= r.value.1 <= |data|
    decreases |data| - pos, 2
  {
    if size <= 0 then Some(([], pos))
    else
      var first := DecodeAt(data, pos);
      if first.None? then None
      else
        var rest := DecodeItems(data, first.value.1, size - (first.value.1 - pos));
        if rest.None? then None else Some(([first.value.0] + rest.value.0, rest.value.1))
  }

  ghost function Prepend(ds: seq<Decoded>, r: Parse<seq<Decoded>>): (j: Parse<seq<Decoded>>) {
    if r.None? then None else Some((ds + r.value.0, r.value.1))
  }

  lemma {:induction false} PrependStep(ds: seq<Decoded>, d: Decoded, r: Parse<seq<Decoded>>)
    ensures Prepend(ds, Prepend([d], r)) == Prepend(ds + [d], r)
    ensures Prepend([], r) == r
  {
    if r.Some? {
      assert ds + ([d] + r.value.0) == ds + [d] + r.value.0;
      assert [] + r.value.0 == r.value.0;
    }
  }

  /** Decodes list items from `start` until `size` bytes are consumed. */
  method DecodeLoop(data: seq<Byte>, start: nat, size: nat) returns (r: Parse<Decoded>)
    requires start <= |data|
    ensures r == DecodeList(data, start, size)
    decreases |data| - start, 1
  {
    var slice: seq<Decoded> := [];
    var pos := start;
    var i := 0;
    PrependStep([], AByte(0), DecodeItems(data, start, size));
    while i < size
      invariant start <= pos <= |data| && i == pos - start
      invariant DecodeItems(data, start, size) == Prepend(slice, DecodeItems(data, pos, size - i))
      decreases |data| - pos
    {
      var obj := Decode(data, pos);
      if obj.None? {
        return None;
      }
      PrependStep(slice, obj.value.0, DecodeItems(data, obj.value.1, size - i - (obj.value.1 - pos)));
      slice := slice + [obj.value.0];
      i := i + (obj.value.1 - pos);
      pos := obj.value.1;
    }
    assert slice + [] == slice;
    return Some((AList(slice), pos));
  }

  method Decode(data: seq<Byte>, pos: nat) returns (r: Parse<Decoded>)
    ensures r == DecodeAt(data, pos)
    decreases |data| - pos, 0
  {
    if pos >= |data| {
      return None;
    }
    var c := data[pos];
    if c <= 0x7f {
      return Some((AByte(c), pos + 1));
    } else if c <= 0xb7 {
      var end := pos + 1 + (c - 0x80);
      var s := Slice(data, pos + 1, end);
      return if s.None? then None else Some((AString(s.value), end));
    } else if c <= 0xbf {
      var start := pos + 1 + (c - 0xb7);
      var l := Slice(data, pos + 1, start);
      if l.None? {
        return None;
      }
      var end := start + Value(l.value);
      var s := Slice(data, start, end);
      return if s.None? then None else Some((AString(s.value), end));
    } else if c <= 0xf7 {
      r := DecodeLoop(data, pos + 1, c - 0xc0);
    } else {
      var start := pos + 1 + (c - 0xf7);
      var l := Slice(data, pos + 1, start);
      if l.None? {
        return None;
      }
      r := DecodeLoop(data, start, Value(l.value));
    }
  }

  // ---- Round trip ----

  ghost predicate Occurs(data: seq<Byte>, pos: nat, e: seq<Byte>) {
    pos + |e| <= |data| && data[pos..pos + |e|] == e
  }

  lemma {:induction false} OccursParts(data: seq<Byte>, pos: nat, a: seq<Byte>, b: seq<Byte>)
    requires Occurs(data, pos, a + b)
    ensures Occurs(data, pos, a) && Occurs(data, pos + |a|, b)
    ensures a != [] ==> data[pos] == a[0]
  {
    var w := data[pos..pos + |a + b|];
    assert data[pos..pos + |a|] == w[..|a|] == a;
    assert data[pos + |a|..pos + |a| + |b|] == w[|a|..] == b;
  }

  /** A way to read a value at a position. */
  type Reader = nat -> Parse<Decoded>

  ghost function Decoder(data: seq<Byte>): (at: Reader) {
    (pos: nat) => DecodeAt(data, pos)
  }

  /** Wherever `e` occurs in `data`, reading yields `d` and stops right after it. */
  ghost predicate Yields(at: Reader, data: seq<Byte>, e: seq<Byte>, d: Decoded) {
    |e| > 0 && forall pos: nat {:trigger Occurs(data, pos, e)} ::
                 Occurs(data, pos, e) ==> at(pos) == Some((d, pos + |e|))
  }

  ghost predicate AllYield(at: Reader, data: seq<Byte>, es: seq<seq<Byte>>, ds: seq<Decoded>) {
    |es| == |ds| && forall i | 0 <= i < |es| :: Yields(at, data, es[i], ds[i])
  }

  ghost function Flat(es: seq<seq<Byte>>): (b: seq<Byte>) {
    if es == [] then [] else es[0] + Flat(es[1..])
  }

  /** The values `ds` are read one behind the other from exactly `size` bytes. */
  ghost predicate Row(at: Reader, pos: nat, size: int, ds: seq<Decoded>)
    decreases |ds|
  {
    if ds == [] then size == 0
    else
      var first := at(pos);
      && first.Some? && first.value.0 == ds[0] && size > 0
      && Row(at, first.value.1, size - (first.value.1 - pos), ds[1..])
  }

  lemma {:induction false} YieldsAt(at: Reader, data: seq<Byte>, pos: nat, e: seq<Byte>, rest: seq<Byte>, d: Decoded)
    requires Yields(at, data, e, d) && Occurs(data, pos, e + rest)
    ensures at(pos) == Some((d, pos + |e|)) && |e| > 0 && Occurs(data, pos + |e|, rest)
  {
    OccursParts(data, pos, e, rest);
  }

  lemma {:induction false} AllButFirst(at: Reader, data: seq<Byte>, es: seq<seq<Byte>>, ds: seq<Decoded>)
    requires AllYield(at, data, es, ds) && es != []
    ensures Yields(at, data, es[0], ds[0]) && AllYield(at, data, es[1..], ds[1..])
  {
  }

  /** Encodings that lie next to each other are a row of their values. */
  lemma {:induction false} FlatIsRow(at: Reader, data: seq<Byte>, pos: nat, es: seq<seq<Byte>>, ds: seq<Decoded>)
    requires AllYield(at, data, es, ds) && Occurs(data, pos, Flat(es))
    ensures Row(at, pos, |Flat(es)|, ds)
    decreases |es|
  {
    if es != [] {
      AllButFirst(at, data, es, ds);
      YieldsAt(at, data, pos, es[0], Flat(es[1..]), ds[0]);
      FlatIsRow(at, data, pos + |es[0]|, es[1..], ds[1..]);
    }
  }

  /** The item loop reads a row. */
  lemma {:induction false} ItemsFind(data: seq<Byte>, pos: nat, size: int, ds: seq<Decoded>)
    requires Row(Decoder(data), pos, size, ds) && pos <= |data|
    ensures DecodeItems(data, pos, size) == Some((ds, pos + size)) && size >= 0
    decreases |ds|
  {
    if ds != [] {
      var next := Decoder(data)(pos).value.1;
      ItemsFind(data, next, size - (next - pos), ds[1..]);
      assert ds == [ds[0]] + ds[1..];
    }
  }

  /** A list prefix with a row behind it is a list. */
  lemma {:induction false} ListFinds(data: seq<Byte>, pos: nat, n: nat, ds: seq<Decoded>)
    requires n < TWO_64 && Occurs(data, pos, Tag(LIST, n)) && Row(Decoder(data), pos + |Tag(LIST, n)|, n, ds)
    ensures Decoder(data)(pos) == Some((AList(ds), pos + |Tag(LIST, n)| + n))
  {
    ListPrefix(n, data, pos);
    ItemsFind(data, pos + |Tag(LIST, n)|, n, ds);
  }

  /** Wherever `tag` and `b` occur, `ds` are read from behind the tag. */
  ghost predicate RowBehind(at: Reader, data: seq<Byte>, tag: seq<Byte>, b: seq<Byte>, ds: seq<Decoded>) {
    forall pos: nat {:trigger Occurs(data, pos, tag + b)} ::
      Occurs(data, pos, tag + b) ==> Occurs(data, pos, tag) && Row(at, pos + |tag|, |b|, ds)
  }

  lemma {:induction false} FlatBehind(at: Reader, data: seq<Byte>, tag: seq<Byte>, es: seq<seq<Byte>>,
                                      ds: seq<Decoded>)
    requires AllYield(at, data, es, ds)
    ensures RowBehind(at, data, tag, Flat(es), ds)
  {
    var b := Flat(es);
    forall pos: nat | Occurs(data, pos, tag + b)
      ensures Occurs(data, pos, tag) && Row(at, pos + |tag|, |b|, ds)
    {
      OccursParts(data, pos, tag, b);
      FlatIsRow(at, data, pos + |tag|, es, ds);
    }
  }

  lemma {:induction false} ListYields(data: seq<Byte>, b: seq<Byte>, ds: seq<Decoded>)
    requires |b| < TWO_64 && RowBehind(Decoder(data), data, Tag(LIST, |b|), b, ds)
    ensures Yields(Decoder(data), data, Tag(LIST, |b|) + b, AList(ds))
  {
    forall pos: nat | Occurs(data, pos, Tag(LIST, |b|) + b)
      ensures Decoder(data)(pos) == Some((AList(ds), pos + |Tag(LIST, |b|) + b|))
    {
      ListFinds(data, pos, |b|, ds);
    }
  }

  lemma {:induction false} StringYields(data: seq<Byte>, t: seq<Byte>)
    requires |t| < TWO_64
    ensures Yields(Decoder(data), data, Tag(STRING, |t|) + t, AString(t))
  {
    forall pos: nat | Occurs(data, pos, Tag(STRING, |t|) + t)
      ensures DecodeAt(data, pos) == Some((AString(t), pos + |Tag(STRING, |t|) + t|))
    {
      StringFinds(t, data, pos);
    }
  }

  lemma {:induction false} ByteYields(data: seq<Byte>, t: seq<Byte>)
    requires |t| == 1 && t[0] <= 0x7f
    ensures Yields(Decoder(data), data, t, AByte(t[0]))
  {
    forall pos: nat | Occurs(data, pos, t)
      ensures DecodeAt(data, pos) == Some((AByte(t[0]), pos + 1))
    {
      assert data[pos] == data[pos..pos + 1][0];
    }
  }

  lemma {:induction false} EncodeNonEmpty(x: Item)
    ensures |Encode(x)| > 0
  {
  }

  ghost function Encodings(xs: seq<Item>): (es: seq<seq<Byte>>) {
    if xs == [] then [] else [Encode(xs[0])] + Encodings(xs[1..])
  }

  lemma {:induction false} EncodeAllFlat(xs: seq<Item>)
    ensures EncodeAll(xs) == Flat(Encodings(xs))
  {
    if xs != [] {
      EncodeAllFlat(xs[1..]);
      assert Encodings(xs)[1..] == Encodings(xs[1..]);
    }
  }

  /** The encoding of a value yields its view. */
  lemma {:induction false} EncodingYields(x: Item, data: seq<Byte>, at: Reader)
    requires Sized(x) && at == Decoder(data)
    ensures Yields(at, data, Encode(x), View(x))
    decreases x, 1
  {
    match x
    case Str(t) =>
      if |t| == 1 && t[0] <= 0x7f {
        ByteYields(data, t);
      } else {
        StringYields(data, t);
      }
    case List(xs) =>
      ItemsYield(xs, data, at);
      EncodeAllFlat(xs);
      FlatBehind(at, data, Tag(LIST, |EncodeAll(xs)|), Encodings(xs), ViewAll(xs));
      ListYields(data, EncodeAll(xs), ViewAll(xs));
  }

  lemma {:induction false} ItemsYield(xs: seq<Item>, data: seq<Byte>, at: Reader)
    requires SizedAll(xs) && at == Decoder(data)
    ensures AllYield(at, data, Encodings(xs), ViewAll(xs))
    decreases xs, 0
  {
    if xs != [] {
      EncodingYields(xs[0], data, at);
      ItemsYield(xs[1..], data, at);
      MoreYield(at, data, Encode(xs[0]), View(xs[0]), Encodings(xs[1..]), ViewAll(xs[1..]));
    }
  }

  lemma {:induction false} MoreYield(at: Reader, data: seq<Byte>, e: seq<Byte>, d: Decoded, es: seq<seq<Byte>>,
                                     ds: seq<Decoded>)
    requires Yields(at, data, e, d) && AllYield(at, data, es, ds)
    ensures AllYield(at, data, [e] + es, [d] + ds)
  {
  }

  /** Wherever the encoding of a value occurs, decoding yields that value and stops
      right after it. */
  lemma {:induction false} DecodeFinds(x: Item, data: seq<Byte>, pos: nat)
    requires Sized(x) && Occurs(data, pos, Encode(x))
    ensures DecodeAt(data, pos) == Some((View(x), pos + |Encode(x)|))
  {
    EncodingYields(x, data, Decoder(data));
  }

  /** A list prefix sends the decoder to the items after it. */
  lemma {:induction false} ListPrefix(n: nat, data: seq<Byte>, pos: nat)
    requires n < TWO_64 && Occurs(data, pos, Tag(LIST, n))
    ensures DecodeAt(data, pos) == DecodeList(data, pos + |Tag(LIST, n)|, n)
  {
    if n < 56 {
      ShortTag(LIST, n, data, pos);
      ReadShortList(data, pos, n);
    } else {
      LongTag(LIST, n, data, pos);
      ReadLongList(data, pos, BigEndian(n), n);
    }
  }

  lemma {:induction false} ReadShortList(data: seq<Byte>, pos: nat, n: nat)
    requires n < 56 && pos < |data| && data[pos] == LIST + n
    ensures DecodeAt(data, pos) == DecodeList(data, pos + 1, n)
  {
  }

  lemma {:induction false} ReadLongList(data: seq<Byte>, pos: nat, b: seq<Byte>, n: nat)
    requires 1 <= |b| <= 8 && pos < |data| && data[pos] == LIST + 55 + |b|
    requires Slice(data, pos + 1, pos + 1 + |b|) == Some(b) && Value(b) == n
    ensures DecodeAt(data, pos) == DecodeList(data, pos + 1 + |b|, n)
  {
  }

  lemma {:induction false} ReadShortString(data: seq<Byte>, pos: nat, t: seq<Byte>)
    requires |t| < 56 && pos < |data| && data[pos] == STRING + |t| && Occurs(data, pos + 1, t)
    ensures DecodeAt(data, pos) == Some((AString(t), pos + 1 + |t|))
  {
  }

  lemma {:induction false} ReadLongString(data: seq<Byte>, pos: nat, b: seq<Byte>, t: seq<Byte>)
    requires 1 <= |b| <= 8 && pos < |data| && data[pos] == STRING + 55 + |b|
    requires Slice(data, pos + 1, pos + 1 + |b|) == Some(b) && Value(b) == |t| && Occurs(data, pos + 1 + |b|, t)
    ensures DecodeAt(data, pos) == Some((AString(t), pos + 1 + |b| + |t|))
  {
  }

  /** A short prefix read back. */
  lemma {:induction false} ShortTag(short: Byte, n: nat, data: seq<Byte>, pos: nat)
    requires short == STRING || short == LIST
    requires n < 56 && Occurs(data, pos, Tag(short, n))
    ensures |Tag(short, n)| == 1 && pos < |data| && data[pos] == short + n
  {
    assert data[pos] == data[pos..pos + 1][0];
  }

  /** A long prefix read back: its first byte and the length it spells. */
  lemma {:induction false} LongTag(short: Byte, n: nat, data: seq<Byte>, pos: nat)
    requires short == STRING || short == LIST
    requires 56 <= n < TWO_64 && Occurs(data, pos, Tag(short, n))
    ensures 1 <= |BigEndian(n)| <= 8 && data[pos] == short + 55 + |BigEndian(n)|
    ensures |Tag(short, n)| == 1 + |BigEndian(n)|
    ensures Slice(data, pos + 1, pos + 1 + |BigEndian(n)|) == Some(BigEndian(n)) && Value(BigEndian(n)) == n
  {
    var b := BigEndian(n);
    LengthBytes(n);
    OccursParts(data, pos, [Low(short + 55 + |b|)], b);
  }

  lemma {:induction false} StringFinds(t: seq<Byte>, data: seq<Byte>, pos: nat)
    requires |t| < TWO_64 && Occurs(data, pos, Tag(STRING, |t|) + t)
    ensures DecodeAt(data, pos) == Some((AString(t), pos + |Tag(STRING, |t|)| + |t|))
  {
    OccursParts(data, pos, Tag(STRING, |t|), t);
    if |t| < 56 {
      ShortTag(STRING, |t|, data, pos);
      ReadShortString(data, pos, t);
    } else {
      LongTag(STRING, |t|, data, pos);
      ReadLongString(data, pos, BigEndian(|t|), t);
    }
  }

  /** Decoding an encoding returns the value and its exact length. */
  lemma {:induction false} RoundTrip(x: Item)
    requires Sized(x)
    ensures DecodeAt(Encode(x), 0) == Some((View(x), |Encode(x)|))
  {
    assert Encode(x)[0..|Encode(x)|] == Encode(x);
    DecodeFinds(x, Encode(x), 0);
  }

  /** The view loses nothing: different values have different views, hence different encodings. */
  lemma {:induction false} ViewInjective(x: Item, y: Item)
    requires View(x) == View(y)
    ensures x == y
    decreases x, 0
  {
    match (x, y)
    case (List(xs), List(ys)) => ViewAllInjective(xs, ys);
    case _ =>
  }

  lemma {:induction false} ViewAllInjective(xs: seq<Item>, ys: seq<Item>)
    requires ViewAll(xs) == ViewAll(ys)
    ensures xs == ys
    decreases xs
  {
    if xs != [] && ys != [] {
      assert ViewAll(xs)[0] == View(xs[0]) && ViewAll(ys)[0] == View(ys[0]);
      assert ViewAll(xs)[1..] == ViewAll(xs[1..]) && ViewAll(ys)[1..] == ViewAll(ys[1..]);
      ViewInjective(xs[0], ys[0]);
      ViewAllInjective(xs[1..], ys[1..]);
      assert xs == [xs[0]] + xs[1..] && ys == [ys[0]] + ys[1..];
    }
  }

  lemma {:induction false} EncodeInjective(x: Item, y: Item)
    requires Sized(x) && Sized(y) && Encode(x) == Encode(y)
    ensures x == y
  {
    RoundTrip(x);
    RoundTrip(y);
    ViewInjective(x, y);
  }

  // ---- Input that breaks off ----

  /** A list that decodes has consumed at least as many bytes as it announced. */
  lemma {:induction false} ItemsConsume(data: seq<Byte>, pos: nat, size: int)
    requires pos <= |data| && pos + size > |data|
    ensures DecodeItems(data, pos, size) == None
    decreases |data| - pos
  {
    if size > 0 {
      var first := DecodeAt(data, pos);
      if first.Some? {
        ItemsConsume(data, first.value.1, size - (first.value.1 - pos));
      }
    }
  }

  lemma {:induction false} ListBreaksOff(data: seq<Byte>, n: nat)
    requires n < TWO_64 && 0 < |data| < |Tag(LIST, n)| + n
    requires forall i | 0 <= i < |data| && i < |Tag(LIST, n)| :: data[i] == Tag(LIST, n)[i]
    ensures DecodeAt(data, 0) == None
  {
    if n < 56 {
      assert data[0] == LIST + n;
      ItemsConsume(data, 1, n);
    } else {
      LengthBytes(n);
      var b := BigEndian(n);
      assert data[0] == LIST + 55 + |b|;
      if |data| >= 1 + |b| {
        assert data[1..1 + |b|] == b;
        ItemsConsume(data, 1 + |b|, n);
      }
    }
  }

  lemma {:induction false} StringBreaksOff(data: seq<Byte>, n: nat)
    requires n < TWO_64 && 0 < |data| < |Tag(STRING, n)| + n
    requires forall i | 0 <= i < |data| && i < |Tag(STRING, n)| :: data[i] == Tag(STRING, n)[i]
    ensures DecodeAt(data, 0) == None
  {
    if n < 56 {
      assert data[0] == STRING + n;
    } else {
      LengthBytes(n);
      var b := BigEndian(n);
      assert data[0] == STRING + 55 + |b|;
      if |data| >= 1 + |b| {
        assert data[1..1 + |b|] == b;
      }
    }
  }

  /** No encoding cut short is decoded: the decoder indexes out of range. */
  lemma {:induction false} TruncatedPanics(x: Item, n: nat)
    requires Sized(x) && n < |Encode(x)|
    ensures DecodeAt(Encode(x)[..n], 0) == None
  {
    if n > 0 {
      match x
      case Str(t) => StringBreaksOff(Encode(x)[..n], |t|);
      case List(xs) => ListBreaksOff(Encode(x)[..n], |EncodeAll(xs)|);
    }
  }
}
