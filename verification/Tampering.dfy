/** What happens to frames that are not the ones that were sent: forged tags, cut frames,
    altered bytes and replays; and that no byte of the key stream is used twice. */
module Tampering {
  import opened Bytes
  import opened Rlp
  import opened Frames

  /** Two different transcripts with the same 16-byte tag. */
  ghost predicate Collide(c: Cipher, x: seq<Byte>, y: seq<Byte>)
    requires Proper(c)
  {
    x != y && c.sum(x)[..16] == c.sum(y)[..16]
  }

  // ---- Forged tags ----

  /** A header is refused unless its tag is the one the transcript demands. */
  lemma {:induction false} ForgedHead(c: Cipher, st: Half, head: seq<Byte>, tag: seq<Byte>, rest: seq<Byte>)
    requires Proper(c) && |head| == |tag| == 16 && tag != UpdateMac(c, st.mac, head).1
    ensures Opened(c, st, head + tag + rest) == ReadFailed(BadHeaderMac)
  {
    Parts(head, tag, rest);
  }

  /** The tag of a body in the state after its header. */
  ghost function BodyTag(c: Cipher, st: Half, body: seq<Byte>): (tag: seq<Byte>)
    requires Proper(c)
  {
    UpdateMac(c, st.mac + body, c.sum(st.mac + body)).1
  }

  /** A body is refused unless its tag is the one the transcript demands. */
  lemma {:induction false} ForgedBody(c: Cipher, st: Half, fsize: nat, body: seq<Byte>, tag: seq<Byte>, rest: seq<Byte>)
    requires Proper(c) && |body| == RoundUp16(fsize) && |tag| == 16 && tag != BodyTag(c, st, body)
    ensures OpenedBody(c, st, fsize, body + tag + rest) == ReadFailed(BadFrameMac)
  {
    Parts(body, tag, rest);
  }

  /** A genuine header, any body of its size and a wrong tag: refused. */
  lemma {:induction false} ForgedFrame(c: Cipher, st: Half, fsize: nat, body: seq<Byte>, tag: seq<Byte>,
                                       rest: seq<Byte>)
    requires Proper(c) && fsize <= MAX_UINT24 && |body| == RoundUp16(fsize) && |tag| == 16
    requires tag != BodyTag(c, SealedHead(c, st, fsize).1, body)
    ensures Opened(c, st, SealedHead(c, st, fsize).0 + (body + tag + rest)) == ReadFailed(BadFrameMac)
  {
    OpenedHead(c, st, fsize, body + tag + rest);
    ForgedBody(c, SealedHead(c, st, fsize).1, fsize, body, tag, rest);
  }

  // ---- Cut frames ----

  lemma {:induction false} TakeJoin(a: seq<Byte>, b: seq<Byte>, n: nat)
    requires |a| <= n <= |a| + |b|
    ensures (a + b)[..n] == a + b[..n - |a|]
  {
  }

  lemma {:induction false} ShortBody(c: Cipher, st: Half, fsize: nat, input: seq<Byte>)
    requires Proper(c) && fsize <= MAX_UINT24 && |input| < RoundUp16(fsize) + 16
    ensures Opened(c, st, SealedHead(c, st, fsize).0 + input) == ReadFailed(ShortRead)
  {
    OpenedHead(c, st, fsize, input);
  }

  lemma {:induction false} CutAt(c: Cipher, st: Half, fsize: nat, b: seq<Byte>, n: nat)
    requires Proper(c) && fsize <= MAX_UINT24 && |b| == RoundUp16(fsize) + 16 && n < 32 + |b|
    ensures Opened(c, st, (SealedHead(c, st, fsize).0 + b)[..n]) == ReadFailed(ShortRead)
  {
    if n >= 32 {
      TakeJoin(SealedHead(c, st, fsize).0, b, n);
      ShortBody(c, st, fsize, b[..n - 32]);
    }
  }

  /** No proper prefix of a frame is taken for a message. */
  lemma {:induction false} CutFrame(c: Cipher, st: Half, msg: Msg, n: nat)
    requires Proper(c) && Sendable(msg) && n < |Sealed(c, st, msg).0|
    ensures Opened(c, st, Sealed(c, st, msg).0[..n]) == ReadFailed(ShortRead)
  {
    SmallFrame(msg);
    CutAt(c, st, FrameSize(msg), SealedBody(c, SealedHead(c, st, FrameSize(msg)).1, FrameBody(msg)).0, n);
  }

  // ---- Altered bytes ----

  lemma {:induction false} XorDiffers(k: seq<Byte>, a: seq<Byte>, b: seq<Byte>)
    requires |k| == |a| == |b| && a != b
    ensures XorSeq(k, a) != XorSeq(k, b)
  {
    var i :| 0 <= i < |a| && a[i] != b[i];
    assert XorSeq(k, a)[i] == Xor(k[i], a[i]) && XorSeq(k, b)[i] == Xor(k[i], b[i]);
    if Xor(k[i], a[i]) == Xor(k[i], b[i]) {
      XorCancel(k[i], a[i], b[i]);
    }
  }

  lemma {:induction false} JoinDiffers(a: seq<Byte>, b: seq<Byte>, x: seq<Byte>, y: seq<Byte>)
    requires |a| == |b| && (a != b || x != y)
    ensures a + x != b + y
  {
    assert (a + x)[..|a|] == a && (b + y)[..|b|] == b;
    assert (a + x)[|a|..] == x && (b + y)[|b|..] == y;
  }

  /** An altered header that still carries a genuine one's tag means a collision. */
  lemma {:induction false} AlteredHead(c: Cipher, st: Half, head: seq<Byte>, other: seq<Byte>, rest: seq<Byte>)
    returns (x: seq<Byte>, y: seq<Byte>)
    requires Proper(c) && |head| == |other| == 16 && head != other
    requires Opened(c, st, other + UpdateMac(c, st.mac, head).1 + rest) != ReadFailed(BadHeaderMac)
    ensures Collide(c, x, y)
  {
    var tag := UpdateMac(c, st.mac, head).1;
    if tag != UpdateMac(c, st.mac, other).1 {
      ForgedHead(c, st, other, tag, rest);
    }
    var key := c.block(c.sum(st.mac));
    XorDiffers(key, head, other);
    x, y := st.mac + XorSeq(key, head), st.mac + XorSeq(key, other);
    JoinDiffers(st.mac, st.mac, XorSeq(key, head), XorSeq(key, other));
  }

  /** An altered body that still carries a genuine one's tag means a collision. */
  lemma {:induction false} AlteredBody(c: Cipher, st: Half, fsize: nat, body: seq<Byte>, other: seq<Byte>,
                                       rest: seq<Byte>)
    returns (x: seq<Byte>, y: seq<Byte>)
    requires Proper(c) && fsize <= MAX_UINT24 && |body| == |other| == RoundUp16(fsize) && body != other
    requires var h := SealedHead(c, st, fsize);
             Opened(c, st, h.0 + (other + BodyTag(c, h.1, body) + rest)) != ReadFailed(BadFrameMac)
    ensures Collide(c, x, y)
  {
    var h := SealedHead(c, st, fsize);
    var tag := BodyTag(c, h.1, body);
    if tag != BodyTag(c, h.1, other) {
      ForgedFrame(c, st, fsize, other, tag, rest);
    }
    x, y := SameBodyTag(c, h.1.mac, body, other);
  }

  lemma {:induction false} SameBodyTag(c: Cipher, mac: seq<Byte>, body: seq<Byte>, other: seq<Byte>)
    returns (x: seq<Byte>, y: seq<Byte>)
    requires Proper(c) && |body| == |other| && body != other
    requires BodyTag(c, Half(0, mac), body) == BodyTag(c, Half(0, mac), other)
    ensures Collide(c, x, y)
  {
    var a, b := mac + body, mac + other;
    JoinDiffers(mac, mac, body, other);
    var u, v := XorSeq(c.block(c.sum(a)), c.sum(a)), XorSeq(c.block(c.sum(b)), c.sum(b));
    x, y := a + u, b + v;
    JoinDiffers(a, b, u, v);
  }

  /** A frame read a second time is refused, or the transcripts before and after it collide. */
  lemma {:induction false} ReplayedFrame(c: Cipher, st: Half, msg: Msg, rest: seq<Byte>)
    returns (x: seq<Byte>, y: seq<Byte>)
    requires Proper(c) && Sendable(msg)
    requires Opened(c, Sealed(c, st, msg).1, Sealed(c, st, msg).0 + rest) != ReadFailed(BadHeaderMac)
    ensures Collide(c, x, y)
  {
    var f := Sealed(c, st, msg);
    var head := KeyStream(c, st.pos, FrameHead(FrameSize(msg)));
    var tag := UpdateMac(c, st.mac, head).1;
    var more := SealedBody(c, SealedHead(c, st, FrameSize(msg)).1, FrameBody(msg)).0;
    Regroup(head + tag, more, rest);
    TranscriptGrows(c, st, msg);
    if tag != UpdateMac(c, f.1.mac, head).1 {
      ForgedHead(c, f.1, head, tag, more + rest);
    }
    x := st.mac + XorSeq(c.block(c.sum(st.mac)), head);
    y := f.1.mac + XorSeq(c.block(c.sum(f.1.mac)), head);
  }

  /** Every frame makes the transcript longer. */
  lemma {:induction false} TranscriptGrows(c: Cipher, st: Half, msg: Msg)
    requires Proper(c)
    ensures |Sealed(c, st, msg).1.mac| == |st.mac| + 32 + |FrameBody(msg)|
  {
  }

  // ---- The key stream ----

  lemma {:induction false} KeyStreamJoin(c: Cipher, pos: nat, a: seq<Byte>, b: seq<Byte>)
    ensures KeyStream(c, pos, a + b) == KeyStream(c, pos, a) + KeyStream(c, pos + |a|, b)
  {
    var whole, rest := KeyStream(c, pos, a + b), KeyStream(c, pos + |a|, b);
    forall i | |a| <= i < |a| + |b|
      ensures whole[i] == rest[i - |a|]
    {
      assert (a + b)[i] == b[i - |a|];
    }
  }

  lemma {:induction false} SealedIsStream(c: Cipher, st: Half, fsize: nat, body: seq<Byte>)
    requires Proper(c)
    ensures var h := SealedHead(c, st, fsize);
            var b := SealedBody(c, h.1, body);
            var f, plain := h.0 + b.0, FrameHead(fsize) + body;
            && |f| == |plain| + 32 && b.1.pos == st.pos + |plain|
            && f[..16] + f[32..|f| - 16] == KeyStream(c, st.pos, plain)
  {
    var h := SealedHead(c, st, fsize);
    var b := SealedBody(c, h.1, body);
    var head, text := KeyStream(c, st.pos, FrameHead(fsize)), KeyStream(c, h.1.pos, body);
    KeyStreamJoin(c, st.pos, FrameHead(fsize), body);
    Layout(head, UpdateMac(c, st.mac, head).1, text, BodyTag(c, h.1, text));
  }

  /** Without its two tags a frame is header and body under one stretch of the key stream, and
      the next frame goes on where it ends. */
  lemma {:induction false} FrameIsStream(c: Cipher, st: Half, msg: Msg)
    requires Proper(c)
    ensures var f, plain := Sealed(c, st, msg), FrameHead(FrameSize(msg)) + FrameBody(msg);
            && |f.0| == |plain| + 32 && f.1.pos == st.pos + |plain|
            && f.0[..16] + f.0[32..|f.0| - 16] == KeyStream(c, st.pos, plain)
  {
    SealedIsStream(c, st, FrameSize(msg), FrameBody(msg));
  }

  lemma {:induction false} Layout(a: seq<Byte>, s: seq<Byte>, b: seq<Byte>, t: seq<Byte>)
    requires |a| == |s| == |t| == 16
    ensures var f := a + s + (b + t); f[..16] == a && f[32..|f| - 16] == b
  {
  }

  /** The clear text of a conversation. */
  ghost function Clear(msgs: seq<Msg>): (b: seq<Byte>) {
    if msgs == [] then [] else FrameHead(FrameSize(msgs[0])) + FrameBody(msgs[0]) + Clear(msgs[1..])
  }

  /** Over a whole conversation the key stream moves on by exactly the clear text, so no byte
      of it is used twice. */
  lemma {:induction false} ConversationMovesOn(c: Cipher, st: Half, msgs: seq<Msg>)
    requires Proper(c)
    ensures SealedAll(c, st, msgs).1.pos == st.pos + |Clear(msgs)|
    decreases |msgs|
  {
    if msgs != [] {
      FrameIsStream(c, st, msgs[0]);
      ConversationMovesOn(c, Sealed(c, st, msgs[0]).1, msgs[1..]);
    }
  }

  // ---- What stands on the wire ----

  /** The frame size is big-endian, and behind it stands the RLP list of two empty strings. */
  lemma {:induction false} HeadLayout(fsize: nat)
    requires fsize <= MAX_UINT24
    ensures var h := FrameHead(fsize);
            && Value(h[..3]) == fsize && h[3..6] == Encode(List([Str([]), Str([])])) && h[6..] == Zeros(10)
  {
    var h := FrameHead(fsize);
    assert h[..3] == PutInt24(fsize);
    ValueOfThree(PutInt24(fsize));
    Int24RoundTrip(fsize, []);
    assert PutInt24(fsize) + [] == PutInt24(fsize);
    TwoEmptyStrings();
  }

  lemma {:induction false} ValueOfThree(b: seq<Byte>)
    requires |b| == 3
    ensures Value(b) == ReadInt24(b)
  {
    assert b[..2][..1] == b[..1] && b[..1][..0] == [];
    assert Value(b[..1]) == b[0] && Value(b[..2]) == 256 * Value(b[..1]) + b[1];
  }

  lemma {:induction false} TwoEmptyStrings()
    ensures Encode(List([Str([]), Str([])])) == ZERO_HEADER
  {
    var e: Item := Str([]);
    assert Encode(e) == [0x80];
    assert [e, e][1..] == [e] && [e][1..] == [];
    assert EncodeAll([e]) == [0x80] + [];
    assert EncodeAll([e, e]) == [0x80] + EncodeAll([e]);
  }
}
