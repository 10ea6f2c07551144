/** RLPx framing: how a message becomes a sealed frame and comes back. */
module Frames {
  import opened Bytes
  import opened Lineage
  import opened Rlp
  import opened RlpRaw

  const MAX_UINT24 := 0xffffff
  const TWO_32 := 0x1_0000_0000

  /** The keyed primitives of one connection: the CTR key stream by position, the MAC
      block cipher, and the sum of a running Keccak hash over its transcript. */
  datatype Cipher = Cipher(stream: nat -> Byte, block: seq<Byte> -> seq<Byte>, sum: seq<Byte> -> seq<Byte>)

  ghost predicate Proper(c: Cipher) {
    && (forall s :: |c.block(s)| == 16)
    && (forall s :: |c.sum(s)| == 32)
  }

  /** One direction of a connection: key-stream position and MAC transcript. */
  datatype Half = Half(pos: nat, mac: seq<Byte>)

  datatype Msg = Msg(code: nat, size: nat, payload: seq<Byte>)

  // ---- Pieces ----

  function Zeros(n: nat): (z: seq<Byte>)
    ensures |z| == n
  {
    seq(n, _ => 0)
  }

  function XorSeq(a: seq<Byte>, b: seq<Byte>): (r: seq<Byte>)
    requires |a| <= |b|
    ensures |r| == |a|
  {
    seq(|a|, i requires 0 <= i < |a| => Xor(a[i], b[i]))
  }

  function KeyStream(c: Cipher, pos: nat, data: seq<Byte>): (r: seq<Byte>)
    ensures |r| == |data|
  {
    seq(|data|, i requires 0 <= i < |data| => Xor(data[i], c.stream(pos + i)))
  }

  lemma {:induction false} KeyStreamTwice(c: Cipher, pos: nat, data: seq<Byte>)
    ensures KeyStream(c, pos, KeyStream(c, pos, data)) == data
  {
    var once := KeyStream(c, pos, data);
    forall i | 0 <= i < |data|
      ensures KeyStream(c, pos, once)[i] == data[i]
    {
      XorTwice(data[i], c.stream(pos + i));
    }
  }

  function PutInt24(v: nat): (b: seq<Byte>)
    ensures |b| == 3
  {
    [v / 65536 % 256, v / 256 % 256, v % 256]
  }

  function ReadInt24(b: seq<Byte>): (v: nat)
    requires |b| >= 3
  {
    var high: int, mid: int, low: int := b[0], b[1], b[2];
    65536 * high + 256 * mid + low
  }

  lemma {:induction false} Int24RoundTrip(v: nat, rest: seq<Byte>)
    requires v <= MAX_UINT24
    ensures ReadInt24(PutInt24(v) + rest) == v
  {
    var b := PutInt24(v) + rest;
    assert b[0] == v / 65536 % 256 && b[1] == v / 256 % 256 && b[2] == v % 256;
    assert v / 256 / 256 == v / 65536;
  }

  const ZERO_HEADER: seq<Byte> := [0xc2, 0x80, 0x80]

  function FrameHead(fsize: nat): (h: seq<Byte>)
    ensures |h| == 16
  {
    PutInt24(fsize) + ZERO_HEADER + Zeros(10)
  }

  function Padding(fsize: nat): (n: nat)
    ensures n < 16 && (fsize + n) % 16 == 0
  {
    if fsize % 16 > 0 then 16 - fsize % 16 else 0
  }

  /** Reseeds the MAC with the encrypted seed; returns the transcript and the tag. */
  function UpdateMac(c: Cipher, mac: seq<Byte>, seed: seq<Byte>): (r: (seq<Byte>, seq<Byte>))
    requires |c.block(c.sum(mac))| <= |seed|
  {
    var mac' := mac + XorSeq(c.block(c.sum(mac)), seed);
    var sum := c.sum(mac');
    (mac', if |sum| >= 16 then sum[..16] else sum)
  }

  /** The message code as the rlp package writes it. */
  function CodeBytes(code: nat): (b: seq<Byte>) {
    Encode(Str(BigEndian(code)))
  }

  /** The rlp package's reading of an unsigned 64-bit integer at the front of `b`. */
  function ReadCode(b: seq<Byte>): (r: Option<(nat, seq<Byte>)>) {
    match SplitValue(b)
    case Split(ByteKind, content, rest) => if content == [] || content[0] == 0 then None else Some((content[0], rest))
    case Split(StringKind, content, rest) =>
      if |content| > 8 || (|content| > 0 && content[0] == 0) then None else Some((Value(content), rest))
    case _ => None
  }

  /** Any minimal string of at most eight bytes is read as its value. */
  lemma {:induction false} MinimalRead(b: seq<Byte>, rest: seq<Byte>)
    requires |b| <= 8 && (|b| > 0 ==> b[0] != 0)
    ensures ReadCode(Encode(Str(b)) + rest) == Some((Value(b), rest))
  {
    var buf := Encode(Str(b)) + rest;
    SplitOfEncode(Str(b), rest);
    ReadOfSplit(buf, KindOf(Str(b)), b, rest);
  }

  /** A message code is read back from in front of anything. */
  lemma {:induction false} CodeRoundTrip(code: nat, rest: seq<Byte>)
    requires code < TWO_64
    ensures ReadCode(CodeBytes(code) + rest) == Some((code, rest))
  {
    if code > 0 {
      LengthBytes(code);
    }
    MinimalRead(BigEndian(code), rest);
  }

  lemma {:induction false} ReadOfSplit(buf: seq<Byte>, k: Kind, content: seq<Byte>, rest: seq<Byte>)
    requires SplitValue(buf) == Split(k, content, rest) && k != ListKind
    requires |content| <= 8 && (|content| > 0 ==> content[0] != 0) && (k == ByteKind ==> |content| == 1)
    ensures ReadCode(buf) == Some((Value(content), rest))
  {
    if |content| == 1 {
      assert Value(content[..0]) == 0;
    }
  }

  /** Only what was written as a code is read as one: no leading zeros, at most eight bytes, and
      nothing longer than necessary. */
  lemma {:induction false} CodeReadIsCanonical(b: seq<Byte>)
    requires ReadCode(b).Some?
    ensures var (code, rest) := ReadCode(b).value; code < TWO_64 && b == CodeBytes(code) + rest
  {
    var content, rest := CodeContent(b);
    ContentIsMinimal(content);
  }

  /** What is read is the value of a minimal string that stands at the front. */
  lemma {:induction false} CodeContent(b: seq<Byte>) returns (content: seq<Byte>, rest: seq<Byte>)
    requires ReadCode(b).Some?
    ensures ReadCode(b) == Some((Value(content), rest)) && b == Encode(Str(content)) + rest
    ensures |content| <= 8 && (|content| > 0 ==> content[0] != 0)
  {
    var sp := SplitValue(b);
    content, rest := sp.content, sp.rest;
    SplitIsEncoding(b);
    if sp.kind == ByteKind {
      ByteContent(b);
    }
  }

  lemma {:induction false} ByteContent(b: seq<Byte>)
    requires SplitValue(b).Split? && SplitValue(b).kind == ByteKind
    ensures |SplitValue(b).content| == 1 && Value(SplitValue(b).content) == SplitValue(b).content[0]
  {
    var content := SplitValue(b).content;
    AcceptsExactly(b, ByteKind, 0, 1);
    assert content == [content[0]] && Value(content[..0]) == 0;
  }

  lemma {:induction false} ContentIsMinimal(content: seq<Byte>)
    requires |content| <= 8 && (|content| > 0 ==> content[0] != 0)
    ensures BigEndian(Value(content)) == content && Value(content) < TWO_64
  {
    if content != [] {
      MinimalLength(content);
    }
  }

  lemma {:induction false} CodeLength(code: nat)
    requires code < TWO_64
    ensures 1 <= |CodeBytes(code)| <= 9
  {
    if code > 0 {
      LengthBytes(code);
    }
  }

  // ---- Writing ----

  /** The frame size as computed in 32-bit arithmetic. */
  function FrameSize(msg: Msg): (n: nat) {
    (|CodeBytes(msg.code)| + msg.size) % TWO_32
  }

  function FrameBody(msg: Msg): (b: seq<Byte>) {
    CodeBytes(msg.code) + msg.payload + Zeros(Padding(FrameSize(msg)))
  }

  /** The encrypted header with its MAC, and the state after it. */
  ghost function SealedHead(c: Cipher, st: Half, fsize: nat): (r: (seq<Byte>, Half))
    requires Proper(c)
  {
    var head := KeyStream(c, st.pos, FrameHead(fsize));
    var u := UpdateMac(c, st.mac, head);
    (head + u.1, Half(st.pos + 16, u.0))
  }

  /** The encrypted body with its MAC, and the state after it. */
  ghost function SealedBody(c: Cipher, st: Half, plain: seq<Byte>): (r: (seq<Byte>, Half))
    requires Proper(c)
  {
    var body := KeyStream(c, st.pos, plain);
    var mac := st.mac + body;
    var u := UpdateMac(c, mac, c.sum(mac));
    (body + u.1, Half(st.pos + |body|, u.0))
  }

  /** The bytes of a frame and the state after sending it. */
  ghost function Sealed(c: Cipher, st: Half, msg: Msg): (r: (seq<Byte>, Half))
    requires Proper(c)
  {
    var h := SealedHead(c, st, FrameSize(msg));
    var b := SealedBody(c, h.1, FrameBody(msg));
    (h.0 + b.0, b.1)
  }

  // ---- Reading ----

  datatype ReadError = ShortRead | BadHeaderMac | BadFrameMac | BadCode

  datatype ReadResult = Received(msg: Msg, rest: seq<Byte>, state: Half) | ReadFailed(error: ReadError)

  function RoundUp16(n: nat): (r: nat) {
    n + Padding(n)
  }

  ghost function Opened(c: Cipher, st: Half, input: seq<Byte>): (r: ReadResult)
    requires Proper(c)
  {
    if |input| < 32 then ReadFailed(ShortRead)
    else
      var h := OpenedSize(c, st, input[..16], input[16..32]);
      if h.None? then ReadFailed(BadHeaderMac) else OpenedBody(c, h.value.1, h.value.0, input[32..])
  }

  /** The frame size an authentic header spells, and the state after it. */
  ghost function OpenedSize(c: Cipher, st: Half, head: seq<Byte>, tag: seq<Byte>): (r: Option<(nat, Half)>)
    requires Proper(c) && |head| == 16
  {
    var u := UpdateMac(c, st.mac, head);
    if u.1 != tag then None else Some((ReadInt24(KeyStream(c, st.pos, head)), Half(st.pos + 16, u.0)))
  }

  ghost function OpenedBody(c: Cipher, st: Half, fsize: nat, input: seq<Byte>): (r: ReadResult)
    requires Proper(c)
  {
    var rsize := RoundUp16(fsize);
    if |input| < rsize + 16 then ReadFailed(ShortRead)
    else
      var body := input[..rsize];
      var mac2 := st.mac + body;
      var (mac3, bodyMac) := UpdateMac(c, mac2, c.sum(mac2));
      if bodyMac != input[rsize..rsize + 16] then ReadFailed(BadFrameMac)
      else
        var r := ReadCode(KeyStream(c, st.pos, body)[..fsize]);
        if r.None? then ReadFailed(BadCode)
        else Received(Msg(r.value.0, |r.value.1|, r.value.1), input[rsize + 16..], Half(st.pos + rsize, mac3))
  }

  // ---- Round trip ----

  lemma {:induction false} OpenedHead(c: Cipher, st: Half, fsize: nat, rest: seq<Byte>)
    requires Proper(c) && fsize <= MAX_UINT24
    ensures Opened(c, st, SealedHead(c, st, fsize).0 + rest) == OpenedBody(c, SealedHead(c, st, fsize).1, fsize, rest)
  {
    var head := KeyStream(c, st.pos, FrameHead(fsize));
    var u := UpdateMac(c, st.mac, head);
    var input := head + u.1 + rest;
    assert input[..16] == head && input[16..32] == u.1 && input[32..] == rest;
    KeyStreamTwice(c, st.pos, FrameHead(fsize));
    Int24RoundTrip(fsize, ZERO_HEADER + Zeros(10));
    assert FrameHead(fsize) == PutInt24(fsize) + (ZERO_HEADER + Zeros(10));
  }

  lemma {:induction false} BodyContent(msg: Msg)
    requires |msg.payload| == msg.size && |CodeBytes(msg.code)| + msg.size < TWO_32
    ensures |FrameBody(msg)| == RoundUp16(FrameSize(msg))
    ensures FrameBody(msg)[..FrameSize(msg)] == CodeBytes(msg.code) + msg.payload
  {
  }

  lemma {:induction false} Parts(a: seq<Byte>, b: seq<Byte>, rest: seq<Byte>)
    ensures var s := a + b + rest;
            s[..|a|] == a && s[|a|..|a| + |b|] == b && s[|a| + |b|..] == rest
  {
  }

  /** A sealed body is authentic and decrypts to the padded content. */
  lemma {:induction false} OpenedPlain(c: Cipher, st: Half, fsize: nat, plain: seq<Byte>, rest: seq<Byte>)
    requires Proper(c) && |plain| == RoundUp16(fsize)
    ensures var b := SealedBody(c, st, plain);
            var r := ReadCode(plain[..fsize]);
            OpenedBody(c, st, fsize, b.0 + rest)
            == if r.None? then ReadFailed(BadCode) else Received(Msg(r.value.0, |r.value.1|, r.value.1), rest, b.1)
  {
    var body := KeyStream(c, st.pos, plain);
    var mac := st.mac + body;
    Parts(body, UpdateMac(c, mac, c.sum(mac)).1, rest);
    KeyStreamTwice(c, st.pos, plain);
  }

  /** A frame read with the state it was written with returns the message, leaves the
      bytes after it, and ends in the writer's state. */
  lemma {:induction false} FrameRoundTrip(c: Cipher, st: Half, msg: Msg, rest: seq<Byte>)
    requires Proper(c) && msg.code < TWO_64 && |msg.payload| == msg.size
    requires |CodeBytes(msg.code)| + msg.size <= MAX_UINT24
    ensures Opened(c, st, Sealed(c, st, msg).0 + rest) == Received(msg, rest, Sealed(c, st, msg).1)
  {
    SmallFrame(msg);
    SealedOpens(c, st, FrameSize(msg), FrameBody(msg), rest);
    CodeRoundTrip(msg.code, msg.payload);
  }

  lemma {:induction false} SmallFrame(msg: Msg)
    requires |msg.payload| == msg.size && |CodeBytes(msg.code)| + msg.size <= MAX_UINT24
    ensures FrameSize(msg) <= MAX_UINT24 && |FrameBody(msg)| == RoundUp16(FrameSize(msg))
    ensures FrameBody(msg)[..FrameSize(msg)] == CodeBytes(msg.code) + msg.payload
  {
    BodyContent(msg);
  }

  /** A sealed header and body are read back together. */
  lemma {:induction false} SealedOpens(c: Cipher, st: Half, fsize: nat, plain: seq<Byte>, rest: seq<Byte>)
    requires Proper(c) && fsize <= MAX_UINT24 && |plain| == RoundUp16(fsize)
    ensures var h := SealedHead(c, st, fsize);
            var b := SealedBody(c, h.1, plain);
            var r := ReadCode(plain[..fsize]);
            Opened(c, st, h.0 + b.0 + rest)
            == if r.None? then ReadFailed(BadCode) else Received(Msg(r.value.0, |r.value.1|, r.value.1), rest, b.1)
  {
    var h := SealedHead(c, st, fsize);
    var b := SealedBody(c, h.1, plain);
    Regroup(h.0, b.0, rest);
    OpenedHead(c, st, fsize, b.0 + rest);
    OpenedPlain(c, h.1, fsize, plain, rest);
  }

  /** The frame a reader takes in is as long as the size field says, so a message whose
      length wrapped around 32 bits is never read back. */
  lemma {:induction false} OpenedFitsSize(c: Cipher, st: Half, fsize: nat, input: seq<Byte>)
    requires Proper(c)
    ensures var r := OpenedBody(c, st, fsize, input); r.Received? ==> |r.msg.payload| <= fsize
  {
    var rsize := RoundUp16(fsize);
    if |input| >= rsize + 16 {
      var content := KeyStream(c, st.pos, input[..rsize])[..fsize];
      if SplitValue(content).Split? {
        SplitShrinks(content);
      }
    }
  }

  lemma {:induction false} WrappedNotRead(c: Cipher, st: Half, msg: Msg, rest: seq<Byte>)
    requires Proper(c) && FrameSize(msg) <= MAX_UINT24 && FrameSize(msg) < |msg.payload|
    ensures var r := Opened(c, st, Sealed(c, st, msg).0 + rest); r.Received? ==> r.msg != msg
  {
    var h := SealedHead(c, st, FrameSize(msg));
    var b := SealedBody(c, h.1, FrameBody(msg));
    Regroup(h.0, b.0, rest);
    OpenedHead(c, st, FrameSize(msg), b.0 + rest);
    OpenedFitsSize(c, h.1, FrameSize(msg), b.0 + rest);
  }

  /** The frame size wraps exactly when the sum leaves 32 bits, and is then tiny. */
  lemma {:induction false} WrappedSize(msg: Msg)
    requires msg.code < TWO_64 && msg.size < TWO_32
    ensures |CodeBytes(msg.code)| + msg.size < TWO_32 ==> FrameSize(msg) == |CodeBytes(msg.code)| + msg.size
    ensures |CodeBytes(msg.code)| + msg.size >= TWO_32 ==> FrameSize(msg) < 9 < msg.size
  {
    CodeLength(msg.code);
  }

  /** A message the writer accepts is read back exactly when its frame size did not
      wrap: the size test is made after the 32-bit addition. */
  lemma {:induction false} ReadBackIffNoWrap(c: Cipher, st: Half, msg: Msg, rest: seq<Byte>)
    requires Proper(c) && msg.code < TWO_64 && |msg.payload| == msg.size < TWO_32
    requires FrameSize(msg) <= MAX_UINT24
    ensures Opened(c, st, Sealed(c, st, msg).0 + rest) == Received(msg, rest, Sealed(c, st, msg).1)
            <==> |CodeBytes(msg.code)| + msg.size < TWO_32
  {
    WrappedSize(msg);
    if |CodeBytes(msg.code)| + msg.size < TWO_32 {
      FrameRoundTrip(c, st, msg, rest);
    } else {
      WrappedNotRead(c, st, msg, rest);
    }
  }

  /** A message of 2³² - 1 zero bytes: its frame size wraps to 0, so the writer accepts it, and
      it is not read back. */
  lemma {:induction false} WrappingMessage(c: Cipher, st: Half, rest: seq<Byte>)
    requires Proper(c)
    ensures var msg := Msg(0, TWO_32 - 1, Zeros(TWO_32 - 1));
            && FrameSize(msg) == 0
            && Opened(c, st, Sealed(c, st, msg).0 + rest) != Received(msg, rest, Sealed(c, st, msg).1)
  {
    WrapsToZero(c, st, Msg(0, TWO_32 - 1, Zeros(TWO_32 - 1)), rest);
  }

  lemma {:induction false} CodeOfZero(code: nat)
    requires code == 0
    ensures |CodeBytes(code)| == 1
  {
  }

  lemma {:induction false} WrapsToZero(c: Cipher, st: Half, msg: Msg, rest: seq<Byte>)
    requires Proper(c) && msg.code == 0 && msg.size == |msg.payload| == TWO_32 - 1
    ensures FrameSize(msg) == 0
    ensures Opened(c, st, Sealed(c, st, msg).0 + rest) != Received(msg, rest, Sealed(c, st, msg).1)
  {
    CodeOfZero(msg.code);
    WrapsExactly(|CodeBytes(msg.code)|, msg.size);
    ReadBackIffNoWrap(c, st, msg, rest);
  }

  lemma {:induction false} WrapsExactly(n: nat, size: nat)
    requires n == 1 && size == TWO_32 - 1
    ensures (n + size) % TWO_32 == 0
  {
  }

  // ---- Whole conversations ----

  ghost predicate Sendable(msg: Msg) {
    msg.code < TWO_64 && |msg.payload| == msg.size && |CodeBytes(msg.code)| + msg.size <= MAX_UINT24
  }

  /** Ways to write a message and to read one. */
  type Sealing = (Half, Msg) -> (seq<Byte>, Half)
  type Opening = (Half, seq<Byte>) -> ReadResult

  ghost function Sealer(c: Cipher): (seal: Sealing)
    requires Proper(c)
  {
    (st: Half, msg: Msg) => Sealed(c, st, msg)
  }

  ghost function Opener(c: Cipher): (open: Opening)
    requires Proper(c)
  {
    (st: Half, input: seq<Byte>) => Opened(c, st, input)
  }

  /** Writes messages in a row. */
  ghost function SealAll(seal: Sealing, st: Half, msgs: seq<Msg>): (r: (seq<Byte>, Half))
    decreases |msgs|
  {
    if msgs == [] then ([], st)
    else
      var first := seal(st, msgs[0]);
      var rest := SealAll(seal, first.1, msgs[1..]);
      (first.0 + rest.0, rest.1)
  }

  /** Reads `n` messages in a row. */
  ghost function OpenAll(open: Opening, st: Half, input: seq<Byte>, n: nat): (r: Option<(seq<Msg>, seq<Byte>, Half)>)
    decreases n
  {
    if n == 0 then Some(([], input, st))
    else
      match open(st, input)
      case ReadFailed(_) => None
      case Received(msg, rest, st') =>
        var more := OpenAll(open, st', rest, n - 1);
        if more.None? then None else Some(([msg] + more.value.0, more.value.1, more.value.2))
  }

  ghost function SealedAll(c: Cipher, st: Half, msgs: seq<Msg>): (r: (seq<Byte>, Half))
    requires Proper(c)
  {
    SealAll(Sealer(c), st, msgs)
  }

  ghost function OpenedAll(c: Cipher, st: Half, input: seq<Byte>, n: nat): (r: Option<(seq<Msg>, seq<Byte>, Half)>)
    requires Proper(c)
  {
    OpenAll(Opener(c), st, input, n)
  }

  /** What is written is read back, wherever it stands. */
  ghost predicate Faithful(seal: Sealing, open: Opening) {
    forall st, msg, rest {:trigger open(st, seal(st, msg).0 + rest)} ::
      Sendable(msg) ==> open(st, seal(st, msg).0 + rest) == Received(msg, rest, seal(st, msg).1)
  }

  lemma {:induction false} AllReadBack(seal: Sealing, open: Opening, st: Half, msgs: seq<Msg>, rest: seq<Byte>)
    requires Faithful(seal, open) && forall i | 0 <= i < |msgs| :: Sendable(msgs[i])
    ensures OpenAll(open, st, SealAll(seal, st, msgs).0 + rest, |msgs|) == Some((msgs, rest, SealAll(seal, st, msgs).1))
    decreases |msgs|
  {
    if msgs == [] {
      assert [] + rest == rest;
    } else {
      var first := seal(st, msgs[0]);
      var more := SealAll(seal, first.1, msgs[1..]);
      Regroup(first.0, more.0, rest);
      assert open(st, first.0 + (more.0 + rest)) == Received(msgs[0], more.0 + rest, first.1);
      AllReadBack(seal, open, first.1, msgs[1..], rest);
      FirstAndRest(msgs);
    }
  }

  /** Every conversation is read back message by message, and both ends stay in step. */
  lemma {:induction false} ConversationRoundTrip(c: Cipher, st: Half, msgs: seq<Msg>, rest: seq<Byte>)
    requires Proper(c) && forall i | 0 <= i < |msgs| :: Sendable(msgs[i])
    ensures OpenedAll(c, st, SealedAll(c, st, msgs).0 + rest, |msgs|) == Some((msgs, rest, SealedAll(c, st, msgs).1))
  {
    forall s, msg, more | Sendable(msg)
      ensures Opener(c)(s, Sealer(c)(s, msg).0 + more) == Received(msg, more, Sealer(c)(s, msg).1)
    {
      FrameRoundTrip(c, s, msg, more);
    }
    AllReadBack(Sealer(c), Opener(c), st, msgs, rest);
  }

  lemma {:induction false} Regroup(a: seq<Byte>, b: seq<Byte>, c: seq<Byte>)
    ensures a + b + c == a + (b + c)
  {
  }

  lemma {:induction false} FirstAndRest(msgs: seq<Msg>)
    requires msgs != []
    ensures [msgs[0]] + msgs[1..] == msgs
  {
  }
}
