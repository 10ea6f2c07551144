/** The RLPx encryption handshake, in its plain and EIP-8 packet forms, and the
    connection secrets both ends derive from it. */
module Handshake {
  import opened Bytes
  import opened Lineage
  import opened Rlp
  import opened RlpRaw
  import opened Frames

  const SIG_LEN := 65
  const PUB_LEN := 64
  const SHA_LEN := 32
  const AUTH_MSG_LEN := 194
  const AUTH_RESP_LEN := 97
  const ECIES_OVERHEAD := 113
  const ENC_AUTH_MSG_LEN := 307
  const ENC_AUTH_RESP_LEN := 210

  type Data = seq<Byte>

  /** The primitives the handshake calls; `seed` is the randomness of one encryption. */
  datatype Crypto = Crypto(
    pub: Data -> Data,
    agree: (Data, Data) -> Data,
    sign: (Data, Data) -> Data,
    recover: (Data, Data) -> Option<Data>,
    encrypt: (Data, nat, Data, Data) -> Data,
    decrypt: (Data, Data, Data) -> Option<Data>,
    keccak: Data -> Data,
    stream: (Data, nat) -> Byte,
    block: (Data, Data) -> Data)

  /** The equations the protocol needs of its primitives. */
  ghost predicate Lawful(k: Crypto) {
    && (forall a, b :: k.agree(a, k.pub(b)) == k.agree(b, k.pub(a)))
    && (forall a, p :: |k.agree(a, p)| == SHA_LEN)
    && (forall a :: |k.pub(a)| == PUB_LEN)
    && (forall a, m :: |k.sign(a, m)| == SIG_LEN && k.recover(m, k.sign(a, m)) == Some(k.pub(a)))
    && (forall p, seed, m, s :: |k.encrypt(p, seed, m, s)| == |m| + ECIES_OVERHEAD)
    && (forall a, seed, m, s :: k.decrypt(a, k.encrypt(k.pub(a), seed, m, s), s) == Some(m))
    && (forall m :: |k.keccak(m)| == SHA_LEN)
    && (forall key, m :: |k.block(key, m)| == 16)
  }

  // ---- Messages ----

  datatype AuthMsg = AuthMsg(signature: Data, initiatorPubkey: Data, nonce: Data)

  datatype RespMsg = RespMsg(randomPubkey: Data, nonce: Data)

  ghost predicate AuthShape(m: AuthMsg) {
    |m.signature| == SIG_LEN && |m.initiatorPubkey| == PUB_LEN && |m.nonce| == SHA_LEN
  }

  ghost predicate RespShape(m: RespMsg) {
    |m.randomPubkey| == PUB_LEN && |m.nonce| == SHA_LEN
  }

  function PlainAuth(m: AuthMsg, randomHash: Data): (b: Data) {
    m.signature + randomHash + m.initiatorPubkey + m.nonce + [0]
  }

  function ParsePlainAuth(b: Data): (m: Option<AuthMsg>) {
    if |b| < 193 then None else Some(AuthMsg(b[..65], b[97..161], b[161..193]))
  }

  function PlainResp(m: RespMsg): (b: Data) {
    m.randomPubkey + m.nonce + [0]
  }

  function ParsePlainResp(b: Data): (m: Option<RespMsg>) {
    if |b| < 96 then None else Some(RespMsg(b[..64], b[64..96]))
  }

  lemma {:induction false} PlainAuthRoundTrip(m: AuthMsg, h: Data)
    requires AuthShape(m) && |h| == SHA_LEN
    ensures |PlainAuth(m, h)| == AUTH_MSG_LEN && ParsePlainAuth(PlainAuth(m, h)) == Some(m)
  {
    var b := PlainAuth(m, h);
    assert b[..65] == m.signature && b[97..161] == m.initiatorPubkey && b[161..193] == m.nonce;
  }

  lemma {:induction false} PlainRespRoundTrip(m: RespMsg)
    requires RespShape(m)
    ensures |PlainResp(m)| == AUTH_RESP_LEN && ParsePlainResp(PlainResp(m)) == Some(m)
  {
    var b := PlainResp(m);
    assert b[..64] == m.randomPubkey && b[64..96] == m.nonce;
  }

  /** A struct of byte arrays followed by the version number, as an RLP list. */
  function StructItems(fields: seq<Data>): (xs: seq<Item>) {
    if fields == [] then [Str([4])] else [Str(fields[0])] + StructItems(fields[1..])
  }

  /** Reads byte arrays of the given sizes off a list's content, then the version;
      whatever follows is ignored. */
  function ParseFields(content: Data, sizes: seq<nat>): (r: Option<seq<Data>>) {
    if sizes == [] then (if ReadCode(content).Some? then Some([]) else None)
    else
      match SplitValue(content)
      case Split(StringKind, field, rest) =>
        (if |field| != sizes[0] then None
         else var more := ParseFields(rest, sizes[1..]); if more.None? then None else Some([field] + more.value))
      case _ => None
  }

  function ParseStruct(b: Data, sizes: seq<nat>): (r: Option<seq<Data>>) {
    match SplitValue(b)
    case Split(ListKind, content, _) => ParseFields(content, sizes)
    case _ => None
  }

  ghost predicate Shaped(fields: seq<Data>, sizes: seq<nat>) {
    |fields| == |sizes| && forall i | 0 <= i < |fields| :: |fields[i]| == sizes[i] && 1 < sizes[i] < 56 + 200
  }

  lemma {:induction false} FieldsRoundTrip(fields: seq<Data>, sizes: seq<nat>)
    requires Shaped(fields, sizes)
    ensures SizedAll(StructItems(fields))
    ensures ParseFields(EncodeAll(StructItems(fields)), sizes) == Some(fields)
    decreases |fields|
  {
    if fields == [] {
      var xs := StructItems(fields);
      assert xs[1..] == [] && EncodeAll(xs) == Encode(Str([4])) + [];
      SplitOfEncode(Str([4]), []);
    } else {
      var xs := StructItems(fields);
      assert xs[0] == Str(fields[0]) && xs[1..] == StructItems(fields[1..]);
      FieldsRoundTrip(fields[1..], sizes[1..]);
      SplitOfEncode(Str(fields[0]), EncodeAll(xs[1..]));
      assert fields == [fields[0]] + fields[1..];
    }
  }

  /** A struct followed by any padding is parsed back. */
  lemma {:induction false} StructRoundTrip(fields: seq<Data>, sizes: seq<nat>, pad: Data)
    requires Shaped(fields, sizes) && |EncodeAll(StructItems(fields))| < TWO_64
    ensures ParseStruct(Encode(List(StructItems(fields))) + pad, sizes) == Some(fields)
  {
    FieldsRoundTrip(fields, sizes);
    SplitOfEncode(List(StructItems(fields)), pad);
  }

  // ---- Packets ----

  function Uint16(n: nat): (b: Data)
    ensures |b| == 2
  {
    [n / 256 % 256, n % 256]
  }

  function ReadUint16(b: Data): (n: nat)
    requires |b| == 2
  {
    var high: int, low: int := b[0], b[1];
    256 * high + low
  }

  /** The size of an EIP-8 packet is written big-endian. */
  lemma {:induction false} Uint16IsBigEndian(n: nat)
    requires n < 65536
    ensures Value(Uint16(n)) == n && ReadUint16(Uint16(n)) == n
  {
    var b := Uint16(n);
    assert b[..1][..0] == [] && Value(b[..1]) == b[0];
  }

  function SealPlain(k: Crypto, remotePub: Data, seed: nat, plain: Data): (p: Data) {
    k.encrypt(remotePub, seed, plain, [])
  }

  function SealEip8(k: Crypto, remotePub: Data, seed: nat, encoded: Data, padding: nat): (p: Data) {
    var buf := encoded + Zeros(padding);
    var prefix := Uint16(|buf| + ECIES_OVERHEAD);
    prefix + k.encrypt(remotePub, seed, buf, prefix)
  }

  /** A packet read off the connection: its clear text, the packet itself, what follows. */
  datatype PacketRead =
    | PlainPacket(clear: Data, packet: Data, rest: Data)
    | Eip8Packet(clear: Data, packet: Data, rest: Data)
    | NoPacket

  function ReadPacket(k: Crypto, prv: Data, plainSize: nat, input: Data): (r: PacketRead)
    requires plainSize >= 2
  {
    if |input| < plainSize then NoPacket
    else
      var plain := k.decrypt(prv, input[..plainSize], []);
      if plain.Some? then PlainPacket(plain.value, input[..plainSize], input[plainSize..])
      else
        var size := ReadUint16(input[..2]);
        if size < plainSize || |input| < size + 2 then NoPacket
        else
          var dec := k.decrypt(prv, input[2..size + 2], input[..2]);
          if dec.None? then NoPacket else Eip8Packet(dec.value, input[..size + 2], input[size + 2..])
  }

  /** The reader takes exactly a plain packet off the connection. */
  lemma {:induction false} PlainPacketRead(k: Crypto, prv: Data, seed: nat, plain: Data, rest: Data)
    requires Lawful(k)
    ensures var packet := SealPlain(k, k.pub(prv), seed, plain);
            ReadPacket(k, prv, |plain| + ECIES_OVERHEAD, packet + rest) == PlainPacket(plain, packet, rest)
  {
    var packet := SealPlain(k, k.pub(prv), seed, plain);
    assert (packet + rest)[..|packet|] == packet && (packet + rest)[|packet|..] == rest;
  }

  /** The reader takes exactly an EIP-8 packet off the connection if and only if its first
      bytes do not happen to be a valid plain ciphertext, which it tries first; otherwise it
      takes just those bytes for a plain packet. */
  lemma {:induction false} Eip8PacketRead(k: Crypto, prv: Data, seed: nat, encoded: Data, padding: nat, plainSize: nat,
                                          rest: Data)
    requires Lawful(k)
    requires 2 <= plainSize <= |encoded| + padding + ECIES_OVERHEAD < 65536
    ensures var packet := SealEip8(k, k.pub(prv), seed, encoded, padding);
            var plain := k.decrypt(prv, packet[..plainSize], []);
            && (ReadPacket(k, prv, plainSize, packet + rest) == Eip8Packet(encoded + Zeros(padding), packet, rest)
                <==> plain.None?)
            && (plain.Some? ==> ReadPacket(k, prv, plainSize, packet + rest)
                                == PlainPacket(plain.value, packet[..plainSize], packet[plainSize..] + rest))
  {
    var buf := encoded + Zeros(padding);
    var prefix := Uint16(|buf| + ECIES_OVERHEAD);
    var enc := k.encrypt(k.pub(prv), seed, buf, prefix);
    var packet := prefix + enc;
    var input := packet + rest;
    var size := |buf| + ECIES_OVERHEAD;
    assert input[..plainSize] == packet[..plainSize];
    assert input[plainSize..] == packet[plainSize..] + rest;
    assert input[..2] == prefix && ReadUint16(prefix) == size;
    assert input[2..size + 2] == enc && input[..size + 2] == packet && input[size + 2..] == rest;
  }

  /** A packet that claims to be smaller than a plain one is refused, unless it is a plain one. */
  lemma {:induction false} UndersizedRefused(k: Crypto, prv: Data, plainSize: nat, n: nat, rest: Data)
    requires plainSize >= 2 && n < plainSize < 65536
    requires |rest| + 2 >= plainSize && k.decrypt(prv, (Uint16(n) + rest)[..plainSize], []).None?
    ensures ReadPacket(k, prv, plainSize, Uint16(n) + rest) == NoPacket
  {
    assert (Uint16(n) + rest)[..2] == Uint16(n);
    Uint16IsBigEndian(n);
  }

  /** An EIP-8 packet that breaks off is not read. */
  lemma {:induction false} CutPacket(k: Crypto, prv: Data, seed: nat, encoded: Data, padding: nat, plainSize: nat,
                                     n: nat)
    requires Lawful(k) && 2 <= plainSize <= |encoded| + padding + ECIES_OVERHEAD < 65536
    requires var packet := SealEip8(k, k.pub(prv), seed, encoded, padding);
             n < |packet| && (n >= plainSize ==> k.decrypt(prv, packet[..plainSize], []).None?)
    ensures ReadPacket(k, prv, plainSize, SealEip8(k, k.pub(prv), seed, encoded, padding)[..n]) == NoPacket
  {
    var packet := SealEip8(k, k.pub(prv), seed, encoded, padding);
    var size := |encoded| + padding + ECIES_OVERHEAD;
    assert |packet| == size + 2;
    if n >= plainSize {
      assert packet[..n][..plainSize] == packet[..plainSize];
      assert packet[..n][..2] == Uint16(size);
      Uint16IsBigEndian(size);
    }
  }

  /** Primitives that satisfy every equation, with a decryption that accepts whatever is long
      enough. */
  function Lax(): (k: Crypto) {
    Crypto(
      (prv: Data) => Zeros(PUB_LEN),
      (prv: Data, pub: Data) => Zeros(SHA_LEN),
      (prv: Data, m: Data) => Zeros(SIG_LEN),
      (m: Data, sig: Data) => Some(Zeros(PUB_LEN)),
      (pub: Data, seed: nat, m: Data, s: Data) => m + Zeros(ECIES_OVERHEAD),
      (prv: Data, c: Data, s: Data) =>
        if |c| < ECIES_OVERHEAD then None else Some(c[..|c| - ECIES_OVERHEAD]),
      (m: Data) => Zeros(SHA_LEN),
      (key: Data, n: nat) => 0,
      (key: Data, m: Data) => Zeros(16))
  }

  lemma {:induction false} LaxLawful()
    ensures Lawful(Lax())
  {
    var k := Lax();
    forall a, seed, m, s
      ensures k.decrypt(a, k.encrypt(k.pub(a), seed, m, s), s) == Some(m)
    {
      var c := m + Zeros(ECIES_OVERHEAD);
      assert c[..|c| - ECIES_OVERHEAD] == m;
    }
  }

  /** Under these every EIP-8 packet is taken for a plain one. */
  lemma {:induction false} Eip8TakenForPlain(prv: Data, seed: nat, encoded: Data, padding: nat, rest: Data)
    requires ENC_AUTH_MSG_LEN <= |encoded| + padding + ECIES_OVERHEAD < 65536
    ensures Lawful(Lax())
    ensures var packet := SealEip8(Lax(), Lax().pub(prv), seed, encoded, padding);
            ReadPacket(Lax(), prv, ENC_AUTH_MSG_LEN, packet + rest)
            == PlainPacket(packet[..AUTH_MSG_LEN], packet[..ENC_AUTH_MSG_LEN], packet[ENC_AUTH_MSG_LEN..] + rest)
  {
    LaxLawful();
    Eip8PacketRead(Lax(), prv, seed, encoded, padding, ENC_AUTH_MSG_LEN, rest);
    var packet := SealEip8(Lax(), Lax().pub(prv), seed, encoded, padding);
    assert packet[..ENC_AUTH_MSG_LEN][..AUTH_MSG_LEN] == packet[..AUTH_MSG_LEN];
  }

  // ---- The two parties ----

  datatype Secrets = Secrets(aes: Data, mac: Data, egressMac: Data, ingressMac: Data)

  function XorData(a: Data, b: Data): (r: Data) {
    if |a| <= |b| then XorSeq(a, b) else []
  }

  function DeriveSecrets(k: Crypto, initiator: bool, ecdhe: Data, initNonce: Data, respNonce: Data, auth: Data,
                         authResp: Data): (s: Secrets) {
    var shared := k.keccak(ecdhe + k.keccak(respNonce + initNonce));
    var aes := k.keccak(ecdhe + shared);
    var mac := k.keccak(ecdhe + aes);
    var mac1 := XorData(mac, respNonce) + auth;
    var mac2 := XorData(mac, initNonce) + authResp;
    if initiator then Secrets(aes, mac, mac1, mac2) else Secrets(aes, mac, mac2, mac1)
  }

  /** Everything random or configured on the dialing side. */
  datatype Initiator = Initiator(prv: Data, remotePub: Data, nonce: Data, randomPrv: Data, eip8: bool, seed: nat,
                                 padding: nat)

  /** Everything random on the listening side. */
  datatype Receiver = Receiver(prv: Data, nonce: Data, randomPrv: Data, seed: nat, padding: nat)

  function MakeAuth(k: Crypto, i: Initiator): (m: AuthMsg) {
    AuthMsg(k.sign(i.randomPrv, XorData(k.agree(i.prv, i.remotePub), i.nonce)), k.pub(i.prv), i.nonce)
  }

  function AuthPacket(k: Crypto, i: Initiator): (p: Data) {
    var m := MakeAuth(k, i);
    if i.eip8 then SealEip8(k, i.remotePub, i.seed,
      Encode(List(StructItems([m.signature, m.initiatorPubkey, m.nonce]))), i.padding)
    else SealPlain(k, i.remotePub, i.seed, PlainAuth(m, k.keccak(k.pub(i.randomPrv))))
  }

  function ParseAuth(r: PacketRead): (m: Option<AuthMsg>) {
    match r
    case PlainPacket(clear, _, _) => ParsePlainAuth(clear)
    case Eip8Packet(clear, _, _) =>
      (var f := ParseStruct(clear, [SIG_LEN, PUB_LEN, SHA_LEN]);
       if f.Some? && |f.value| == 3 then Some(AuthMsg(f.value[0], f.value[1], f.value[2])) else None)
    case NoPacket => None
  }

  function ParseResp(r: PacketRead): (m: Option<RespMsg>) {
    match r
    case PlainPacket(clear, _, _) => ParsePlainResp(clear)
    case Eip8Packet(clear, _, _) =>
      (var f := ParseStruct(clear, [PUB_LEN, SHA_LEN]);
       if f.Some? && |f.value| == 2 then Some(RespMsg(f.value[0], f.value[1])) else None)
    case NoPacket => None
  }

  /** What the listening side ends up with: the reply it sent, its secrets, the peer's
      identity, and the bytes it did not touch. */
  datatype Accepted = Accepted(reply: Data, secrets: Secrets, remoteId: Data, rest: Data)

  function RespPacket(k: Crypto, r: Receiver, remotePub: Data, plain: bool): (p: Data) {
    var m := RespMsg(k.pub(r.randomPrv), r.nonce);
    if plain then SealPlain(k, remotePub, r.seed, PlainResp(m))
    else SealEip8(k, remotePub, r.seed, Encode(List(StructItems([m.randomPubkey, m.nonce]))), r.padding)
  }

  function Receive(k: Crypto, r: Receiver, input: Data): (o: Option<Accepted>) {
    var read := ReadPacket(k, r.prv, ENC_AUTH_MSG_LEN, input);
    var m := ParseAuth(read);
    if m.None? || read.NoPacket? then None
    else
      var token := k.agree(r.prv, m.value.initiatorPubkey);
      var remoteRandom := k.recover(XorData(token, m.value.nonce), m.value.signature);
      if remoteRandom.None? then None
      else
        var reply := RespPacket(k, r, m.value.initiatorPubkey, read.PlainPacket?);
        var ecdhe := k.agree(r.randomPrv, remoteRandom.value);
        Some(Accepted(reply, DeriveSecrets(k, false, ecdhe, m.value.nonce, r.nonce, read.packet, reply),
                      m.value.initiatorPubkey, read.rest))
  }

  /** The dialing side after the reply came back. */
  function Finish(k: Crypto, i: Initiator, input: Data): (o: Option<(Secrets, Data)>) {
    var read := ReadPacket(k, i.prv, ENC_AUTH_RESP_LEN, input);
    var m := ParseResp(read);
    if m.None? || read.NoPacket? then None
    else
      var ecdhe := k.agree(i.randomPrv, m.value.randomPubkey);
      Some((DeriveSecrets(k, true, ecdhe, i.nonce, m.value.nonce, AuthPacket(k, i), read.packet), read.rest))
  }

  // ---- Both ends agree ----

  function Front(d: Data, n: nat): (f: Data) {
    if n <= |d| then d[..n] else d
  }

  /** Well-formed randomness on both sides, and no EIP-8 packet whose first bytes pass
      for a plain one. */
  ghost predicate Compatible(k: Crypto, i: Initiator, r: Receiver) {
    && Lawful(k)
    && i.remotePub == k.pub(r.prv)
    && |i.nonce| == SHA_LEN && |r.nonce| == SHA_LEN
    && 100 <= i.padding < 300 && 100 <= r.padding < 300
    && (i.eip8 ==> k.decrypt(r.prv, Front(AuthPacket(k, i), ENC_AUTH_MSG_LEN), []).None?)
    && (i.eip8 ==> k.decrypt(i.prv, Front(RespPacket(k, r, k.pub(i.prv), false), ENC_AUTH_RESP_LEN), []).None?)
  }

  lemma {:induction false} EncodedLength(fields: seq<Data>, sizes: seq<nat>)
    requires Shaped(fields, sizes)
    ensures fields == [] ==> |EncodeAll(StructItems(fields))| == 1
    ensures fields != [] ==>
              |EncodeAll(StructItems(fields))|
                == (if |fields[0]| < 56 then 1 else 2) + |fields[0]| + |EncodeAll(StructItems(fields[1..]))|
  {
    var xs := StructItems(fields);
    if fields == [] {
      assert xs[1..] == [] && EncodeAll(xs) == Encode(Str([4])) + [];
    } else {
      assert xs[0] == Str(fields[0]) && xs[1..] == StructItems(fields[1..]);
      OneLengthByte(|fields[0]|);
    }
  }

  lemma {:induction false} OneLengthByte(n: nat)
    requires 0 < n < 256
    ensures |BigEndian(n)| == 1
  {
    assert BigEndian(n / 256) == [];
  }

  lemma {:induction false} AuthLength(fields: seq<Data>)
    requires Shaped(fields, [SIG_LEN, PUB_LEN, SHA_LEN])
    ensures |EncodeAll(StructItems(fields))| == 167 && |Encode(List(StructItems(fields)))| == 169
  {
    var sizes := [SIG_LEN, PUB_LEN, SHA_LEN];
    EncodedLength(fields, sizes);
    EncodedLength(fields[1..], sizes[1..]);
    EncodedLength(fields[1..][1..], sizes[1..][1..]);
    EncodedLength([], []);
    assert fields[1..][1..][1..] == [];
    OneLengthByte(167);
  }

  lemma {:induction false} AuthFields(m: AuthMsg, padding: nat)
    requires AuthShape(m)
    ensures var fields := [m.signature, m.initiatorPubkey, m.nonce];
            && |Encode(List(StructItems(fields)))| == 169
            && ParseStruct(Encode(List(StructItems(fields))) + Zeros(padding), [SIG_LEN, PUB_LEN, SHA_LEN])
               == Some(fields)
  {
    var fields: seq<Data> := [m.signature, m.initiatorPubkey, m.nonce];
    AuthLength(fields);
    StructRoundTrip(fields, [SIG_LEN, PUB_LEN, SHA_LEN], Zeros(padding));
  }

  lemma {:induction false} RespLength(fields: seq<Data>)
    requires Shaped(fields, [PUB_LEN, SHA_LEN])
    ensures |EncodeAll(StructItems(fields))| == 100 && |Encode(List(StructItems(fields)))| == 102
  {
    var sizes := [PUB_LEN, SHA_LEN];
    EncodedLength(fields, sizes);
    EncodedLength(fields[1..], sizes[1..]);
    EncodedLength([], []);
    assert fields[1..][1..] == [];
    OneLengthByte(100);
  }

  lemma {:induction false} RespFields(m: RespMsg, padding: nat)
    requires RespShape(m)
    ensures var fields := [m.randomPubkey, m.nonce];
            && |Encode(List(StructItems(fields)))| == 102
            && ParseStruct(Encode(List(StructItems(fields))) + Zeros(padding), [PUB_LEN, SHA_LEN]) == Some(fields)
  {
    var fields: seq<Data> := [m.randomPubkey, m.nonce];
    RespLength(fields);
    StructRoundTrip(fields, [PUB_LEN, SHA_LEN], Zeros(padding));
  }

  /** The listener reads the dialer's message and exactly its packet, in either form. */
  lemma {:induction false} AuthArrives(k: Crypto, i: Initiator, r: Receiver, rest: Data)
    requires Compatible(k, i, r)
    ensures var read := ReadPacket(k, r.prv, ENC_AUTH_MSG_LEN, AuthPacket(k, i) + rest);
            && !read.NoPacket? && read.packet == AuthPacket(k, i) && read.rest == rest
            && (read.PlainPacket? <==> !i.eip8)
            && ParseAuth(read) == Some(MakeAuth(k, i))
  {
    var m := MakeAuth(k, i);
    if i.eip8 {
      AuthFields(m, i.padding);
      Eip8PacketRead(k, r.prv, i.seed, Encode(List(StructItems([m.signature, m.initiatorPubkey, m.nonce]))), i.padding,
        ENC_AUTH_MSG_LEN, rest);
    } else {
      var h := k.keccak(k.pub(i.randomPrv));
      PlainAuthRoundTrip(m, h);
      PlainPacketRead(k, r.prv, i.seed, PlainAuth(m, h), rest);
    }
  }

  lemma {:induction false} RespArrives(k: Crypto, i: Initiator, r: Receiver, rest: Data)
    requires Compatible(k, i, r)
    ensures var packet := RespPacket(k, r, k.pub(i.prv), !i.eip8);
            var read := ReadPacket(k, i.prv, ENC_AUTH_RESP_LEN, packet + rest);
            && !read.NoPacket? && read.packet == packet && read.rest == rest
            && ParseResp(read) == Some(RespMsg(k.pub(r.randomPrv), r.nonce))
  {
    var m := RespMsg(k.pub(r.randomPrv), r.nonce);
    if i.eip8 {
      RespFields(m, r.padding);
      Eip8PacketRead(k, i.prv, r.seed, Encode(List(StructItems([m.randomPubkey, m.nonce]))), r.padding,
        ENC_AUTH_RESP_LEN, rest);
    } else {
      PlainRespRoundTrip(m);
      PlainPacketRead(k, i.prv, r.seed, PlainResp(m), rest);
    }
  }

  /** Both sides complete, consume exactly each other's packet, learn each other's
      identity, and hold mirrored secrets: one side's outgoing MAC is the other's
      incoming MAC, and the keys are equal. */
  lemma {:induction false} HandshakeMirrors(k: Crypto, i: Initiator, r: Receiver, early: Data, late: Data)
    requires Compatible(k, i, r)
    ensures var a := Receive(k, r, AuthPacket(k, i) + early);
            && a.Some? && a.value.remoteId == k.pub(i.prv) && a.value.rest == early
            && var f := Finish(k, i, a.value.reply + late);
               && f.Some? && f.value.1 == late
               && f.value.0.aes == a.value.secrets.aes && f.value.0.mac == a.value.secrets.mac
               && f.value.0.egressMac == a.value.secrets.ingressMac
               && f.value.0.ingressMac == a.value.secrets.egressMac
  {
    AuthArrives(k, i, r, early);
    RespArrives(k, i, r, late);
    assert k.agree(i.randomPrv, k.pub(r.randomPrv)) == k.agree(r.randomPrv, k.pub(i.randomPrv));
    assert k.agree(r.prv, k.pub(i.prv)) == k.agree(i.prv, k.pub(r.prv));
  }

  // ---- From handshake to frames ----

  ghost function SessionCipher(k: Crypto, s: Secrets): (c: Cipher) {
    Cipher(pos => k.stream(s.aes, pos), data => k.block(s.mac, data), data => k.keccak(data))
  }

  /** After the handshake whatever one side sends, the other side reads, in both
      directions and in step. */
  lemma {:induction false} SessionsAgree(k: Crypto, i: Initiator, r: Receiver, out: seq<Msg>, back: seq<Msg>,
                                         rest: Data)
    requires Compatible(k, i, r)
    requires forall n | 0 <= n < |out| :: Sendable(out[n])
    requires forall n | 0 <= n < |back| :: Sendable(back[n])
    ensures var a := Receive(k, r, AuthPacket(k, i));
            && a.Some?
            && var f := Finish(k, i, a.value.reply);
               && f.Some?
               && var mine, theirs := f.value.0, a.value.secrets;
                  var ci, cr := SessionCipher(k, mine), SessionCipher(k, theirs);
                  && Proper(ci) && Proper(cr)
                  && var sent := SealedAll(ci, Half(0, mine.egressMac), out);
                     var echo := SealedAll(cr, Half(0, theirs.egressMac), back);
                     && OpenedAll(cr, Half(0, theirs.ingressMac), sent.0 + rest, |out|) == Some((out, rest, sent.1))
                     && OpenedAll(ci, Half(0, mine.ingressMac), echo.0 + rest, |back|) == Some((back, rest, echo.1))
  {
    HandshakeMirrors(k, i, r, [], []);
    var auth := AuthPacket(k, i);
    assert auth + [] == auth;
    var a := Receive(k, r, auth);
    assert a.value.reply + [] == a.value.reply;
    var f := Finish(k, i, a.value.reply);
    var mine, theirs := f.value.0, a.value.secrets;
    var ci, cr := SessionCipher(k, mine), SessionCipher(k, theirs);
    assert Proper(ci) && Proper(cr);
    ConversationRoundTrip(ci, Half(0, mine.egressMac), out, rest);
    ConversationRoundTrip(cr, Half(0, theirs.egressMac), back, rest);
  }
}
