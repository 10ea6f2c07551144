/** The frame reader and writer of an RLPx connection, updating their cipher and MAC
    state in place. */
module FrameRW {
  import opened Bytes
  import opened Lineage
  import opened Frames

  class FrameRW {
    const cipher: Cipher

    var encPos: nat
    var decPos: nat
    var egressMAC: seq<Byte>
    var ingressMAC: seq<Byte>

    /** What was written to the connection, and what is still to be read from it. */
    var sent: seq<Byte>
    var inbox: seq<Byte>

    ghost function Egress(): (h: Half)
      reads this
    {
      Half(encPos, egressMAC)
    }

    ghost function Ingress(): (h: Half)
      reads this
    {
      Half(decPos, ingressMAC)
    }

    constructor (cipher: Cipher, egress: seq<Byte>, ingress: seq<Byte>)
      requires Proper(cipher)
      ensures this.cipher == cipher && Egress() == Half(0, egress) && Ingress() == Half(0, ingress)
      ensures sent == [] && inbox == []
    {
      this.cipher, encPos, decPos, egressMAC, ingressMAC, sent, inbox := cipher, 0, 0, egress, ingress, [], [];
    }

    /** Encrypts with the outgoing key stream. */
    method Encrypt(data: seq<Byte>) returns (out: seq<Byte>)
      modifies this`encPos
      ensures out == KeyStream(cipher, old(encPos), data) && encPos == old(encPos) + |data|
    {
      out := [];
      for i := 0 to |data|
        invariant out == KeyStream(cipher, old(encPos), data)[..i]
        invariant encPos == old(encPos) + i
      {
        out := out + [Xor(data[i], cipher.stream(encPos))];
        encPos := encPos + 1;
      }
    }

    /** Decrypts with the incoming key stream. */
    method Decrypt(data: seq<Byte>) returns (out: seq<Byte>)
      modifies this`decPos
      ensures out == KeyStream(cipher, old(decPos), data) && decPos == old(decPos) + |data|
    {
      out := [];
      for i := 0 to |data|
        invariant out == KeyStream(cipher, old(decPos), data)[..i]
        invariant decPos == old(decPos) + i
      {
        out := out + [Xor(data[i], cipher.stream(decPos))];
        decPos := decPos + 1;
      }
    }

    /** The reseeded transcript and the 16-byte tag, with the byte-wise loop. */
    method Reseed(mac: seq<Byte>, seed: seq<Byte>) returns (mac': seq<Byte>, tag: seq<Byte>)
      requires Proper(cipher) && |seed| >= 16
      ensures (mac', tag) == UpdateMac(cipher, mac, seed)
    {
      var aesbuf := cipher.block(cipher.sum(mac));
      ghost var whole := XorSeq(aesbuf, seed);
      var buf: seq<Byte> := [];
      for i := 0 to |aesbuf|
        invariant buf == whole[..i]
      {
        buf := buf + [Xor(aesbuf[i], seed[i])];
      }
      assert buf == whole;
      mac' := mac + buf;
      tag := cipher.sum(mac')[..16];
    }

    method WriteHead(fsize: nat)
      requires Proper(cipher)
      modifies this`encPos, this`egressMAC, this`sent
      ensures var h := SealedHead(cipher, old(Egress()), fsize); Egress() == h.1 && sent == old(sent) + h.0
    {
      var head := Encrypt(FrameHead(fsize));
      var tag;
      egressMAC, tag := Reseed(egressMAC, head);
      sent := sent + (head + tag);
    }

    method WriteBody(plain: seq<Byte>)
      requires Proper(cipher)
      modifies this`encPos, this`egressMAC, this`sent
      ensures var b := SealedBody(cipher, old(Egress()), plain); Egress() == b.1 && sent == old(sent) + b.0
    {
      var body := Encrypt(plain);
      egressMAC := egressMAC + body;
      var tag;
      egressMAC, tag := Reseed(egressMAC, cipher.sum(egressMAC));
      sent := sent + (body + tag);
    }

    /** Sends one message as one frame, unless its 32-bit frame size exceeds 24 bits. */
    method WriteMsg(msg: Msg) returns (ok: bool)
      requires Proper(cipher)
      modifies this`encPos, this`egressMAC, this`sent
      ensures ok <==> FrameSize(msg) <= MAX_UINT24
      ensures !ok ==> Egress() == old(Egress()) && sent == old(sent)
      ensures ok ==> var f := Sealed(cipher, old(Egress()), msg); Egress() == f.1 && sent == old(sent) + f.0
    {
      var ptype := CodeBytes(msg.code);
      var fsize := (|ptype| + msg.size) % TWO_32;
      if fsize > MAX_UINT24 {
        return false;
      }
      WriteHead(fsize);
      WriteBody(ptype + msg.payload + Zeros(Padding(fsize)));
      return true;
    }

    method ReadBody(fsize: nat) returns (r: Option<Msg>)
      requires Proper(cipher)
      modifies this`decPos, this`ingressMAC, this`inbox
      ensures var o := OpenedBody(cipher, old(Ingress()), fsize, old(inbox));
              && (r.Some? <==> o.Received?)
              && (r.Some? ==> r.value == o.msg && inbox == o.rest && Ingress() == o.state)
    {
      var rsize := RoundUp16(fsize);
      if |inbox| < rsize + 16 {
        return None;
      }
      var framebuf := inbox[..rsize];
      var theirs := inbox[rsize..rsize + 16];
      inbox := inbox[rsize + 16..];
      ingressMAC := ingressMAC + framebuf;
      var tag;
      ingressMAC, tag := Reseed(ingressMAC, cipher.sum(ingressMAC));
      if tag != theirs {
        return None;
      }
      var plain := Decrypt(framebuf);
      var code := ReadCode(plain[..fsize]);
      if code.None? {
        return None;
      }
      return Some(Msg(code.value.0, |code.value.1|, code.value.1));
    }

    method ReadSize(headbuf: seq<Byte>, theirs: seq<Byte>) returns (fsize: Option<nat>)
      requires Proper(cipher) && |headbuf| == 16
      modifies this`decPos, this`ingressMAC
      ensures var o := OpenedSize(cipher, old(Ingress()), headbuf, theirs);
              && (fsize.Some? <==> o.Some?)
              && (fsize.Some? ==> fsize.value == o.value.0 && Ingress() == o.value.1)
    {
      var tag;
      ingressMAC, tag := Reseed(ingressMAC, headbuf);
      if tag != theirs {
        return None;
      }
      var head := Decrypt(headbuf);
      return Some(ReadInt24(head));
    }

    /** Receives one message; a bad MAC or a short read yields nothing. */
    method ReadMsg() returns (r: Option<Msg>)
      requires Proper(cipher)
      modifies this`decPos, this`ingressMAC, this`inbox
      ensures var o := Opened(cipher, old(Ingress()), old(inbox));
              && (r.Some? <==> o.Received?)
              && (r.Some? ==> r.value == o.msg && inbox == o.rest && Ingress() == o.state)
    {
      if |inbox| < 32 {
        return None;
      }
      var fsize := ReadSize(inbox[..16], inbox[16..32]);
      if fsize.None? {
        return None;
      }
      inbox := inbox[32..];
      r := ReadBody(fsize.value);
    }
  }
}
