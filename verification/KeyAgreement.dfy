/** What the secrets of a connection depend on: two handshakes that agree on a key without
    sharing the ephemeral agreement and both nonces have found a hash collision. */
module KeyAgreement {
  import opened Bytes
  import opened Lineage
  import opened Frames
  import opened Handshake
  import opened Tampering

  ghost predicate HashCollision(k: Crypto, x: Data, y: Data) {
    x != y && k.keccak(x) == k.keccak(y)
  }

  /** What goes into the secrets of one session. */
  datatype Session = Session(ecdhe: Data, initNonce: Data, respNonce: Data, auth: Data, resp: Data)

  ghost function SecretsOf(k: Crypto, initiator: bool, s: Session): (r: Secrets) {
    DeriveSecrets(k, initiator, s.ecdhe, s.initNonce, s.respNonce, s.auth, s.resp)
  }

  ghost predicate Sized(s: Session) {
    |s.ecdhe| == |s.initNonce| == |s.respNonce| == SHA_LEN
  }

  ghost predicate SameInputs(s: Session, t: Session) {
    s.ecdhe == t.ecdhe && s.initNonce == t.initNonce && s.respNonce == t.respNonce
  }

  /** The nonces come back out of the shared hash. */
  lemma {:induction false} SharedDiffers(k: Crypto, s: Session, t: Session) returns (x: Data, y: Data)
    requires Sized(s) && Sized(t) && Lawful(k) && !SameInputs(s, t)
    requires k.keccak(s.ecdhe + k.keccak(s.respNonce + s.initNonce))
             == k.keccak(t.ecdhe + k.keccak(t.respNonce + t.initNonce))
    ensures HashCollision(k, x, y)
  {
    x, y := s.ecdhe + k.keccak(s.respNonce + s.initNonce), t.ecdhe + k.keccak(t.respNonce + t.initNonce);
    if s.ecdhe != t.ecdhe {
      JoinDiffers(s.ecdhe, t.ecdhe, k.keccak(s.respNonce + s.initNonce), k.keccak(t.respNonce + t.initNonce));
    } else if x == y {
      JoinSame(s.ecdhe, k.keccak(s.respNonce + s.initNonce), k.keccak(t.respNonce + t.initNonce));
      x, y := s.respNonce + s.initNonce, t.respNonce + t.initNonce;
      JoinDiffers(s.respNonce, t.respNonce, s.initNonce, t.initNonce);
    }
  }

  lemma {:induction false} JoinSame(a: Data, x: Data, y: Data)
    requires a + x == a + y
    ensures x == y
  {
    assert (a + x)[|a|..] == x && (a + y)[|a|..] == y;
  }

  /** Equal AES keys come from the same agreement and nonces. */
  lemma {:induction false} AesDiffers(k: Crypto, s: Session, t: Session, a: bool, b: bool) returns (x: Data, y: Data)
    requires Sized(s) && Sized(t) && Lawful(k) && !SameInputs(s, t)
    requires SecretsOf(k, a, s).aes == SecretsOf(k, b, t).aes
    ensures HashCollision(k, x, y)
  {
    var u := k.keccak(s.ecdhe + k.keccak(s.respNonce + s.initNonce));
    var v := k.keccak(t.ecdhe + k.keccak(t.respNonce + t.initNonce));
    x, y := s.ecdhe + u, t.ecdhe + v;
    if s.ecdhe != t.ecdhe {
      JoinDiffers(s.ecdhe, t.ecdhe, u, v);
    } else if x == y {
      JoinSame(s.ecdhe, u, v);
      x, y := SharedDiffers(k, s, t);
    }
  }

  /** Equal MAC keys do as well. */
  lemma {:induction false} MacDiffers(k: Crypto, s: Session, t: Session, a: bool, b: bool) returns (x: Data, y: Data)
    requires Sized(s) && Sized(t) && Lawful(k) && !SameInputs(s, t)
    requires SecretsOf(k, a, s).mac == SecretsOf(k, b, t).mac
    ensures HashCollision(k, x, y)
  {
    var u, v := SecretsOf(k, a, s).aes, SecretsOf(k, b, t).aes;
    x, y := s.ecdhe + u, t.ecdhe + v;
    if s.ecdhe != t.ecdhe {
      JoinDiffers(s.ecdhe, t.ecdhe, u, v);
    } else if x == y {
      JoinSame(s.ecdhe, u, v);
      x, y := AesDiffers(k, s, t, a, b);
    }
  }

  // ---- The MAC transcripts ----

  /** The two directions of one side start from different transcripts if the nonces differ. */
  lemma {:induction false} TranscriptsDiffer(k: Crypto, s: Session, a: bool)
    requires Sized(s) && Lawful(k) && s.initNonce != s.respNonce
    ensures SecretsOf(k, a, s).egressMac != SecretsOf(k, a, s).ingressMac
  {
    var mac := SecretsOf(k, a, s).mac;
    XorDiffers(mac, s.initNonce, s.respNonce);
    JoinDiffers(XorSeq(mac, s.respNonce), XorSeq(mac, s.initNonce), s.auth, s.resp);
  }

  /** Under one MAC key equal outgoing transcripts of the dialer come from the same listener
      nonce and the same first packet; the incoming ones from the same dialer nonce and reply. */
  lemma {:induction false} TranscriptsBind(k: Crypto, s: Session, t: Session)
    requires Sized(s) && Sized(t) && Lawful(k) && SecretsOf(k, true, s).mac == SecretsOf(k, true, t).mac
    ensures SecretsOf(k, true, s).egressMac == SecretsOf(k, true, t).egressMac
            <==> s.respNonce == t.respNonce && s.auth == t.auth
    ensures SecretsOf(k, true, s).ingressMac == SecretsOf(k, true, t).ingressMac
            <==> s.initNonce == t.initNonce && s.resp == t.resp
  {
    var mac := SecretsOf(k, true, s).mac;
    MaskedJoin(mac, s.respNonce, t.respNonce, s.auth, t.auth);
    MaskedJoin(mac, s.initNonce, t.initNonce, s.resp, t.resp);
  }

  lemma {:induction false} MaskedJoin(mac: Data, m: Data, n: Data, p: Data, q: Data)
    requires |mac| == |m| == |n|
    ensures XorSeq(mac, m) + p == XorSeq(mac, n) + q <==> m == n && p == q
  {
    if m != n {
      XorDiffers(mac, m, n);
      JoinDiffers(XorSeq(mac, m), XorSeq(mac, n), p, q);
    } else if p != q {
      JoinDiffers(XorSeq(mac, m), XorSeq(mac, n), p, q);
    }
  }

  // ---- Whole handshakes ----

  /** The session two parties agree on. */
  ghost function SessionOf(k: Crypto, i: Initiator, r: Receiver): (s: Session) {
    Session(k.agree(i.randomPrv, k.pub(r.randomPrv)), i.nonce, r.nonce, AuthPacket(k, i),
            RespPacket(k, r, k.pub(i.prv), !i.eip8))
  }

  /** Both sides derive their secrets from the agreement of the two ephemeral keys, both
      nonces and both packets. */
  lemma {:induction false} HandshakeDerives(k: Crypto, i: Initiator, r: Receiver, early: Data, late: Data)
    requires Compatible(k, i, r)
    ensures var a := Receive(k, r, AuthPacket(k, i) + early);
            && a.Some? && a.value.secrets == SecretsOf(k, false, SessionOf(k, i, r))
            && a.value.reply == SessionOf(k, i, r).resp
    ensures var f := Finish(k, i, SessionOf(k, i, r).resp + late);
            f.Some? && f.value.0 == SecretsOf(k, true, SessionOf(k, i, r))
  {
    AuthArrives(k, i, r, early);
    RespArrives(k, i, r, late);
    assert k.agree(i.randomPrv, k.pub(r.randomPrv)) == k.agree(r.randomPrv, k.pub(i.randomPrv));
    assert k.agree(r.prv, k.pub(i.prv)) == k.agree(i.prv, k.pub(r.prv));
  }

  /** Two handshakes with different ephemeral agreements or different nonces end with different
      AES keys and different MAC keys, or with a hash collision in hand. */
  lemma {:induction false} FreshKeys(k: Crypto, i: Initiator, r: Receiver, j: Initiator, q: Receiver)
    returns (x: Data, y: Data)
    requires Compatible(k, i, r) && Compatible(k, j, q)
    requires !SameInputs(SessionOf(k, i, r), SessionOf(k, j, q))
    requires var a, b := Receive(k, r, AuthPacket(k, i)), Finish(k, j, SessionOf(k, j, q).resp);
             a.Some? && b.Some? && (a.value.secrets.aes == b.value.0.aes || a.value.secrets.mac == b.value.0.mac)
    ensures HashCollision(k, x, y)
  {
    HandshakeDerives(k, i, r, [], []);
    HandshakeDerives(k, j, q, [], []);
    assert AuthPacket(k, i) + [] == AuthPacket(k, i);
    assert SessionOf(k, j, q).resp + [] == SessionOf(k, j, q).resp;
    var s, t := SessionOf(k, i, r), SessionOf(k, j, q);
    if SecretsOf(k, false, s).aes == SecretsOf(k, true, t).aes {
      x, y := AesDiffers(k, s, t, false, true);
    } else {
      x, y := MacDiffers(k, s, t, false, true);
    }
  }

  /** The key stream is the AES key's alone, the tags are the MAC key's alone. */
  lemma {:induction false} KeysSeparate(k: Crypto, s: Secrets, t: Secrets)
    ensures s.aes == t.aes ==> forall pos :: SessionCipher(k, s).stream(pos) == SessionCipher(k, t).stream(pos)
    ensures s.mac == t.mac ==> forall d :: SessionCipher(k, s).block(d) == SessionCipher(k, t).block(d)
    ensures forall d :: SessionCipher(k, s).sum(d) == k.keccak(d)
  {
  }

  // ---- What the first message proves ----

  lemma {:induction false} MaskDiffers(a: Data, b: Data, n: Data)
    requires |a| == |b| == |n| && a != b
    ensures XorSeq(a, n) != XorSeq(b, n)
  {
    var p :| 0 <= p < |a| && a[p] != b[p];
    assert XorSeq(a, n)[p] == Xor(a[p], n[p]) && XorSeq(b, n)[p] == Xor(b[p], n[p]);
    XorTwice(a[p], n[p]);
    XorTwice(b[p], n[p]);
  }

  /** The signature covers the agreement of the static keys masked with the nonce: one signature
      for two agreements under one nonce, or for two nonces under one agreement, means that two
      different texts have the same signature. */
  lemma {:induction false} AuthBinds(k: Crypto, i: Initiator, j: Initiator) returns (x: Data, y: Data)
    requires Lawful(k) && i.randomPrv == j.randomPrv && |i.nonce| == |j.nonce| == SHA_LEN
    requires MakeAuth(k, i).signature == MakeAuth(k, j).signature
    requires var s, t := k.agree(i.prv, i.remotePub), k.agree(j.prv, j.remotePub);
             (s != t && i.nonce == j.nonce) || (s == t && i.nonce != j.nonce)
    ensures x != y && k.sign(i.randomPrv, x) == k.sign(i.randomPrv, y)
  {
    var s, t := k.agree(i.prv, i.remotePub), k.agree(j.prv, j.remotePub);
    x, y := XorSeq(s, i.nonce), XorSeq(t, j.nonce);
    if s != t {
      MaskDiffers(s, t, i.nonce);
    } else {
      XorDiffers(s, i.nonce, j.nonce);
    }
  }
}
