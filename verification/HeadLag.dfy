/** A concrete import sequence after which the header head trails the block head. */
module HeadLag {
  import opened Lineage
  import opened Validator
  import opened Uncles
  import opened TxIndex
  import opened ChainSpec
  import opened ChainManager

  const EMPTY := Body([], [])
  const ROOT := Header(1, ZERO_HASH, 0, 0, 131072, 10000, 0, 0, [])
  const LONE := Header(2, 1, 1, 100, 131072, 10000, 0, 0, [])
  const LOW := Header(3, 1, 1, 100, 131072, 10000, 0, 7, [])
  const HIGH := Header(4, 3, 2, 200, 131072, 10000, 0, 7, [])

  const NOW := 10000

  ghost const HASHED: iset<Header> := iset{ROOT, LONE, LOW, HIGH}

  function AnySeal(h: Header): bool {
    true
  }

  /** A database without transactions or uncles. */
  ghost predicate Plain(c: Chain) {
    forall h | h in c.bodies :: c.bodies[h] == EMPTY
  }

  lemma {:induction false} PlainOnce(c: Chain, b: Block)
    requires Plain(c) && b.body == EMPTY
    ensures Once(AttachBodies(c, b), NewLine(c, b))
    ensures Accepted(AnySeal, c.headers, c.bodies, b)
  {
    assert forall t, m :: !At(AttachBodies(c, b), NewLine(c, b), t, m);
  }

  lemma {:induction false} HeadersValid()
    ensures ValidateHeader(AnySeal, LONE, ROOT, NOW, false, false) == HeaderOk
    ensures ValidateHeader(AnySeal, LOW, ROOT, NOW, false, false) == HeaderOk
    ensures ValidateHeader(AnySeal, HIGH, LOW, NOW, false, false) == HeaderOk
  {
    assert CalcDifficulty(100, 0, 0, 131072) == 131072;
    assert CalcDifficulty(200, 100, 1, 131072) == 131072;
  }

  /** Imports a header without transactions or uncles. */
  method ImportPlain(bc: BlockChain, b: Header)
    requires Inv(bc.Around(), bc.State()) && bc.pow == AnySeal && Plain(bc.State())
    requires b in bc.world && Attachable(bc.headers, b) && b.gasUsed <= b.gasLimit
    requires ValidateHeader(AnySeal, b, bc.headers[b.parentHash], NOW, false, false) == HeaderOk
    modifies bc
    ensures Inv(bc.Around(), bc.State()) && Plain(bc.State())
    ensures bc.headers == old(bc.headers)[b.hash := b]
    ensures bc.tds == old(bc.tds)[b.hash := Td(old(bc.State()), b.parentHash) + b.difficulty]
    ensures var won := Wins(old(bc.State()), Block(b, EMPTY), false);
            && bc.currentBlock == (if won then b else old(bc.currentBlock))
            && (won ==>
                  && Fits(bc.Around(), old(bc.State()), Block(b, EMPTY))
                  && ImportedCanon(old(bc.State()), Block(b, EMPTY), bc.State()))
            && (!won ==> bc.canon == old(bc.canon))
  {
    PlainOnce(bc.State(), Block(b, EMPTY));
    ValidBlockIsValidUncle(AnySeal, b, bc.headers[b.parentHash], NOW);
    var status := bc.Commit(Block(b, EMPTY), false);
  }

  /** A database without transactions or uncles that accepts any seal, in good order. */
  ghost predicate Good(bc: BlockChain)
    reads bc
  {
    bc.pow == AnySeal && Inv(bc.Around(), bc.State()) && Plain(bc.State())
  }

  /** `b` is stored; it may have become the head, and numbers above it keep their names. */
  ghost predicate Added(c: Chain, b: Header, c': Chain) {
    && c'.headers == c.headers[b.hash := b] && c'.tds == c.tds[b.hash := Td(c, b.parentHash) + b.difficulty]
    && c'.head == (if Wins(c, Block(b, EMPTY), false) then b else c.head)
    && (b.parentHash == c.head.hash ==> c'.head == b)
    && forall n: nat | n > b.number :: GetCanonicalHash(c'.canon, n) == GetCanonicalHash(c.canon, n)
  }

  lemma {:induction false} HigherKept(s: Setting, c: Chain, b: Block, c': Chain)
    requires Linked(c.headers, s.genesis) && Attachable(c.headers, b.header) && ImportedCanon(c, b, c')
    ensures forall n: nat | n > b.header.number :: GetCanonicalHash(c'.canon, n) == GetCanonicalHash(c.canon, n)
  {
    NewLineShape(s.genesis, c, b);
  }

  method Import(bc: BlockChain, b: Header)
    requires Good(bc) && b in bc.world && Attachable(bc.headers, b) && b.gasUsed <= b.gasLimit
    requires ValidateHeader(AnySeal, b, bc.headers[b.parentHash], NOW, false, false) == HeaderOk
    modifies bc
    ensures Good(bc) && Added(old(bc.State()), b, bc.State())
  {
    ghost var c := bc.State();
    ImportPlain(bc, b);
    if Wins(c, Block(b, EMPTY), false) {
      HigherKept(bc.Around(), c, Block(b, EMPTY), bc.State());
    }
  }

  /** Of two equally heavy children of the head the first to arrive stays the head. */
  method TwoArrive(bc: BlockChain, a: Header, b: Header)
    requires Good(bc) && a in bc.world && b in bc.world && a.hash != b.hash && a.difficulty == b.difficulty > 0
    requires Attachable(bc.headers, a) && Attachable(bc.headers, b)
    requires a.gasUsed <= a.gasLimit && b.gasUsed <= b.gasLimit
    requires a.parentHash == b.parentHash == bc.currentBlock.hash && bc.headers[a.parentHash] == bc.currentBlock
    requires ValidateHeader(AnySeal, a, bc.currentBlock, NOW, false, false) == HeaderOk
    requires ValidateHeader(AnySeal, b, bc.currentBlock, NOW, false, false) == HeaderOk
    requires a.parentHash in bc.tds
    modifies bc
    ensures Good(bc) && bc.currentBlock == a
    ensures bc.headers == old(bc.headers)[a.hash := a][b.hash := b]
    ensures var td := old(bc.tds)[a.parentHash] + a.difficulty; bc.tds == old(bc.tds)[a.hash := td][b.hash := td]
  {
    Import(bc, a);
    Import(bc, b);
  }

  /** Block 1 arrives, then a rival of equal weight, which loses the draw. */
  method LoneWins() returns (bc: BlockChain)
    ensures fresh(bc) && Good(bc) && bc.world == HASHED && bc.genesis == ROOT
    ensures bc.currentBlock == LONE && bc.headers == map[1 := ROOT, 2 := LONE, 3 := LOW]
    ensures bc.tds == map[1 := 131072, 2 := 262144, 3 := 262144]
  {
    bc := new BlockChain(ROOT, AnySeal, HASHED);
    HeadersValid();
    TwoArrive(bc, LONE, LOW);
  }

  /** Block 1 arrives, then a rival block 1 of equal weight that loses the draw, then
      block 2 on top of the rival: the block head is block 2, while the header head
      and the fast head are left below it. */
  method ReorgLeavesHeaderHeadBehind() returns (head: Header, headHeader: Header, headFast: Header)
    ensures head == HIGH && headHeader.number < head.number && headFast == headHeader
  {
    var bc := LoneWins();
    ghost var c := bc.State();
    HeadNamed(bc.Around(), c);
    HeadersValid();
    ImportPlain(bc, HIGH);
    HeadersFollowIff(bc.Around(), c, Block(HIGH, EMPTY), bc.State());
    return bc.currentBlock, bc.currentHeader, bc.currentFastBlock;
  }

  lemma {:induction false} HeadNamed(s: Setting, c: Chain)
    requires Inv(s, c)
    ensures GetCanonicalHash(c.canon, c.head.number) == c.head.hash
  {
    LineageShape(c.headers, s.genesis, c.head.hash);
  }
}
