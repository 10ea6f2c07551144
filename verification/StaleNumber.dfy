/** Runs to a heavier but shorter chain, after which the number map still names the
    abandoned blocks above the head; and two concrete chains that do it. */
module StaleNumber {
  import opened Bytes
  import opened Lineage
  import opened Validator
  import opened Uncles
  import opened TxIndex
  import opened ChainSpec
  import opened ChainManager
  import opened HeadLag

  // ---- Importing one chain after another ----

  ghost predicate Link(hs: seq<Header>, i: nat)
    requires 0 < i < |hs|
  {
    && hs[i].parentHash == hs[i - 1].hash && hs[i].number == i && hs[i].hash != ZERO_HASH
    && ValidateHeader(AnySeal, hs[i], hs[i - 1], NOW, false, false) == HeaderOk && hs[i].gasUsed <= hs[i].gasLimit
  }

  /** A valid chain from a genesis on. */
  ghost predicate Line(hs: seq<Header>) {
    && |hs| > 0 && hs[0].number == 0 && hs[0].parentHash == ZERO_HASH && hs[0].hash != ZERO_HASH
    && forall i {:trigger Link(hs, i)} | 0 < i < |hs| :: Link(hs, i)
  }

  /** Two chains that share just the genesis. */
  ghost predicate Rivals(slow: seq<Header>, fast: seq<Header>) {
    && Line(slow) && Line(fast) && slow[0] == fast[0]
    && (forall i, j | 0 <= i < j < |slow| :: slow[i].hash != slow[j].hash)
    && (forall i, j | 0 <= i < j < |fast| :: fast[i].hash != fast[j].hash)
    && (forall i, j | 0 <= i < |slow| && 0 < j < |fast| :: slow[i].hash != fast[j].hash)
  }

  ghost function Members(slow: seq<Header>, fast: seq<Header>): (world: iset<Header>) {
    iset h | h in slow || h in fast
  }

  /** The total difficulty at height `i`. */
  ghost function WorkAt(hs: seq<Header>, i: nat): (w: int)
    requires i < |hs|
  {
    if i == 0 then hs[0].difficulty else WorkAt(hs, i - 1) + hs[i].difficulty
  }

  /** `hs` is stored up to `i` and no further, with its total difficulty. */
  ghost predicate StoredTo(c: Chain, hs: seq<Header>, i: nat)
    requires i < |hs|
  {
    && hs[i].hash in c.headers && c.headers[hs[i].hash] == hs[i] && Td(c, hs[i].hash) == WorkAt(hs, i)
    && forall j | i < j < |hs| :: hs[j].hash !in c.headers
  }

  /** The first chain is stored up to `i`, its block `i` is the head, and nothing of the second. */
  ghost predicate Climbing(c: Chain, slow: seq<Header>, fast: seq<Header>, i: nat)
    requires i < |slow| && |fast| > 0
  {
    StoredTo(c, slow, i) && c.head == slow[i] && StoredTo(c, fast, 0)
  }

  /** The second chain is stored up to `i`; the map names the top of the first. */
  ghost predicate Overtaking(c: Chain, slow: seq<Header>, fast: seq<Header>, i: nat)
    requires i < |fast| && |slow| > 0
  {
    var top := slow[|slow| - 1];
    && StoredTo(c, fast, i) && StoredTo(c, slow, |slow| - 1)
    && (c.head == top || c.head == fast[i])
    && GetCanonicalHash(c.canon, |slow| - 1) == top.hash
  }

  lemma {:induction false} ClimbStep(c: Chain, slow: seq<Header>, fast: seq<Header>, i: nat, c': Chain)
    requires Rivals(slow, fast) && i + 1 < |slow| && Climbing(c, slow, fast, i)
    requires Added(c, slow[i + 1], c')
    ensures Climbing(c', slow, fast, i + 1)
  {
    assert Link(slow, i + 1);
  }

  lemma {:induction false} OvertakeStep(c: Chain, slow: seq<Header>, fast: seq<Header>, i: nat, c': Chain)
    requires Rivals(slow, fast) && i + 1 < |fast| < |slow| && Overtaking(c, slow, fast, i)
    requires Added(c, fast[i + 1], c')
    ensures Overtaking(c', slow, fast, i + 1)
  {
    assert Link(fast, i + 1);
  }

  /** Imports the next block of the first chain on top of the head. */
  method Climb(bc: BlockChain, slow: seq<Header>, fast: seq<Header>, i: nat)
    requires Good(bc) && bc.world == Members(slow, fast)
    requires Rivals(slow, fast) && i + 1 < |slow| && Climbing(bc.State(), slow, fast, i)
    modifies bc
    ensures Good(bc) && Climbing(bc.State(), slow, fast, i + 1)
  {
    assert Link(slow, i + 1);
    ghost var c := bc.State();
    Import(bc, slow[i + 1]);
    ClimbStep(c, slow, fast, i, bc.State());
  }

  /** Imports the next block of the second chain. */
  method Overtake(bc: BlockChain, slow: seq<Header>, fast: seq<Header>, i: nat)
    requires Good(bc) && bc.world == Members(slow, fast)
    requires Rivals(slow, fast) && i + 1 < |fast| < |slow| && Overtaking(bc.State(), slow, fast, i)
    modifies bc
    ensures Good(bc) && Overtaking(bc.State(), slow, fast, i + 1)
  {
    assert Link(fast, i + 1);
    ghost var c := bc.State();
    Import(bc, fast[i + 1]);
    OvertakeStep(c, slow, fast, i, bc.State());
  }

  /** Imports the first chain; its top is then the head and named. */
  method ClimbAll(bc: BlockChain, slow: seq<Header>, fast: seq<Header>)
    requires Rivals(slow, fast) && bc.world == Members(slow, fast) && Good(bc) && Climbing(bc.State(), slow, fast, 0)
    modifies bc
    ensures Good(bc) && Overtaking(bc.State(), slow, fast, 0)
  {
    for i := 0 to |slow| - 1
      invariant Good(bc) && Climbing(bc.State(), slow, fast, i)
    {
      Climb(bc, slow, fast, i);
    }
    assert |slow| > 1 ==> Link(slow, |slow| - 1);
    HeadNamed(bc.Around(), bc.State());
  }

  method OvertakeAll(bc: BlockChain, slow: seq<Header>, fast: seq<Header>)
    requires Rivals(slow, fast) && |fast| < |slow| && bc.world == Members(slow, fast)
    requires Good(bc) && Overtaking(bc.State(), slow, fast, 0)
    modifies bc
    ensures Good(bc) && Overtaking(bc.State(), slow, fast, |fast| - 1)
  {
    for i := 0 to |fast| - 1
      invariant Good(bc) && Overtaking(bc.State(), slow, fast, i)
    {
      Overtake(bc, slow, fast, i);
    }
  }

  /** After a chain and then a shorter but heavier rival are imported, the head is the top of
      the rival, and the map still names the top of the abandoned chain. */
  method Abandon(slow: seq<Header>, fast: seq<Header>) returns (bc: BlockChain)
    requires Rivals(slow, fast) && Injective(Members(slow, fast)) && |fast| < |slow|
    requires WorkAt(fast, |fast| - 1) > WorkAt(slow, |slow| - 1)
    ensures fresh(bc) && Good(bc) && bc.currentBlock == fast[|fast| - 1]
    ensures GetCanonicalHash(bc.canon, |slow| - 1) == slow[|slow| - 1].hash
  {
    bc := new BlockChain(slow[0], AnySeal, Members(slow, fast));
    ClimbAll(bc, slow, fast);
    OvertakeAll(bc, slow, fast);
    HeavierIsHead(bc.State(), fast[|fast| - 1], slow[|slow| - 1]);
  }

  lemma {:induction false} HeavierIsHead(c: Chain, a: Header, b: Header)
    requires Heaviest(c) && a.hash in c.headers && Td(c, a.hash) > Td(c, b.hash)
    ensures c.head != b
  {
  }

  // ---- Two such chains: slow blocks get lighter, fast blocks get heavier ----

  const START := 1_048_576
  const LONG := 53
  const SHORT := 52

  function SlowDifficulty(i: nat): (d: nat) {
    if i == 0 then START else CalcDifficulty(100 * i, 100 * (i - 1), i - 1, SlowDifficulty(i - 1))
  }

  function FastDifficulty(i: nat): (d: nat) {
    if i == 0 then START else CalcDifficulty(i, i - 1, i - 1, FastDifficulty(i - 1))
  }

  function SlowBlock(i: nat): (b: Header) {
    Header(i + 1, i, i, 100 * i, SlowDifficulty(i), 10000, 0, 0, [])
  }

  function FastBlock(i: nat): (b: Header) {
    if i == 0 then SlowBlock(0)
    else Header(1000 + i, if i == 1 then 1 else 999 + i, i, i, FastDifficulty(i), 10000, 0, 0, [])
  }

  function SlowLine(n: nat): (hs: seq<Header>) {
    seq(n + 1, i requires 0 <= i => SlowBlock(i))
  }

  function FastLine(n: nat): (hs: seq<Header>) {
    seq(n + 1, i requires 0 <= i => FastBlock(i))
  }

  lemma {:induction false} SmallTime(t: nat)
    requires t <= NOW
    ensures t % TWO_64 == t
  {
  }

  /** A successor with the right time and difficulty passes. */
  lemma {:induction false} NextValid(b: Header, parent: Header)
    requires parent.time < b.time <= NOW && b.number == parent.number + 1
    requires b.gasLimit == parent.gasLimit == 10000 && b.extra == []
    requires b.difficulty == CalcDifficulty(b.time, parent.time, parent.number, parent.difficulty)
    ensures ValidateHeader(AnySeal, b, parent, NOW, false, false) == HeaderOk
  {
    SmallTime(b.time);
    SmallTime(parent.time);
    assert GasLimitOk(10000, 10000);
  }

  lemma {:induction false} SlowLineValid(n: nat)
    requires n <= LONG
    ensures Line(SlowLine(n))
  {
    var hs := SlowLine(n);
    forall i | 0 < i < |hs|
      ensures Link(hs, i)
    {
      NextValid(SlowBlock(i), SlowBlock(i - 1));
    }
  }

  lemma {:induction false} FastLinked(hs: seq<Header>, n: nat, i: nat)
    requires hs == FastLine(n) && 0 < i <= n <= LONG
    ensures Link(hs, i)
  {
    var b, parent := FastBlock(i), FastBlock(i - 1);
    assert parent.time == parent.number == i - 1 && parent.difficulty == FastDifficulty(i - 1);
    NextValid(b, parent);
  }

  lemma {:induction false} FastLineValid(n: nat)
    requires n <= LONG
    ensures Line(FastLine(n))
  {
    var hs := FastLine(n);
    forall i | 0 < i < |hs|
      ensures Link(hs, i)
    {
      FastLinked(hs, n, i);
    }
  }

  lemma {:induction false} LinesApart(n: nat, m: nat)
    requires n <= LONG && m <= LONG
    ensures Rivals(SlowLine(n), FastLine(m)) && Injective(Members(SlowLine(n), FastLine(m)))
  {
    SlowLineValid(n);
    FastLineValid(m);
    var slow, fast := SlowLine(n), FastLine(m);
    forall a, b | a in Members(slow, fast) && b in Members(slow, fast) && a.hash == b.hash
      ensures a == b
    {
      var i := HeightOf(slow, fast, n, m, a);
      var j := HeightOf(slow, fast, n, m, b);
    }
  }

  lemma {:induction false} HeightOf(slow: seq<Header>, fast: seq<Header>, n: nat, m: nat, a: Header) returns (i: nat)
    requires slow == SlowLine(n) && fast == FastLine(m) && a in Members(slow, fast) && n <= LONG
    ensures (i <= n && a == SlowBlock(i)) || (0 < i && a == FastBlock(i))
  {
    if a in slow {
      i :| i < |slow| && slow[i] == a;
    } else {
      assert slow[0] == FastBlock(0) && slow[0] in slow;
      i :| i < |fast| && fast[i] == a;
    }
  }

  lemma {:induction false} SlowStep(i: nat, d: nat)
    requires 0 < i <= LONG && START - 512 * (i - 1) <= d <= START - 256 * (i - 1)
    ensures START - 512 * i <= CalcDifficulty(100 * i, 100 * (i - 1), i - 1, d) <= START - 256 * i
  {
    NoExponentialTerm(100 * i, 100 * (i - 1), i - 1, d);
  }

  lemma {:induction false} FastStep(i: nat, d: nat)
    requires 0 < i <= LONG && d >= START + 512 * (i - 1)
    ensures CalcDifficulty(i, i - 1, i - 1, d) >= START + 512 * i
  {
    NoExponentialTerm(i, i - 1, i - 1, d);
  }

  lemma {:induction false} SlowBounds(i: nat)
    requires i <= LONG
    ensures START - 512 * i <= SlowDifficulty(i) <= START - 256 * i
  {
    if i > 0 {
      SlowBounds(i - 1);
      SlowStep(i, SlowDifficulty(i - 1));
    }
  }

  lemma {:induction false} FastBound(i: nat)
    requires i <= LONG
    ensures FastDifficulty(i) >= START + 512 * i
  {
    if i > 0 {
      FastBound(i - 1);
      FastStep(i, FastDifficulty(i - 1));
    }
  }

  lemma {:induction false} SlowWork(n: nat, i: nat)
    requires i <= n <= LONG
    ensures WorkAt(SlowLine(n), i) <= (i + 1) * START - 128 * (i * (i + 1))
  {
    if i > 0 {
      SlowWork(n, i - 1);
      SlowBounds(i);
      assert i * (i + 1) == (i - 1) * i + 2 * i;
    }
  }

  lemma {:induction false} FastWork(n: nat, i: nat)
    requires i <= n <= LONG
    ensures WorkAt(FastLine(n), i) >= (i + 1) * START + 256 * (i * (i + 1))
  {
    if i > 0 {
      FastWork(n, i - 1);
      FastBound(i);
      assert i * (i + 1) == (i - 1) * i + 2 * i;
    }
  }

  lemma {:induction false} TwoLines(long: nat, short: nat, slow: seq<Header>, fast: seq<Header>)
    requires long == LONG && short == SHORT && slow == SlowLine(long) && fast == FastLine(short)
    ensures Rivals(slow, fast) && Injective(Members(slow, fast)) && |fast| < |slow| == long + 1
    ensures WorkAt(fast, |fast| - 1) > WorkAt(slow, |slow| - 1)
    ensures slow[|slow| - 1].hash != ZERO_HASH && fast[|fast| - 1].number == short
  {
    LinesApart(long, short);
    SlowWork(long, long);
    FastWork(short, short);
  }

  lemma {:induction false} NotExact(c: Chain, n: nat)
    requires Named(c, n) && n > c.head.number
    ensures !NamedExactly(c)
  {
  }

  /** Fifty-three slow blocks, then fifty-two fast ones on the same genesis: the head is block
      52, and the map still names the abandoned block 53. */
  method ShorterChainLeavesStaleNumber() returns (bc: BlockChain)
    ensures fresh(bc) && Good(bc) && bc.currentBlock.number == SHORT
    ensures Named(bc.State(), LONG) && !NamedExactly(bc.State())
  {
    var long, short := LONG, SHORT;
    var slow, fast := SlowLine(long), FastLine(short);
    TwoLines(long, short, slow, fast);
    bc := Abandon(slow, fast);
    NotExact(bc.State(), long);
  }
}
