/** What the block database holds, what every import keeps true of it, and what
    follows for whole runs of imports. */
module ChainSpec {
  import opened Lineage
  import opened Validator
  import opened Uncles
  import opened TxIndex

  /** The database and the in-memory heads, as one value. */
  datatype Chain = Chain(
    headers: Headers,
    bodies: Bodies,
    tds: map<Hash, int>,
    canon: map<nat, Hash>,
    txIndex: Index,
    head: Header,
    headHeader: Header,
    headFast: Header)

  /** The fixed surroundings: the genesis, the seal check, the headers ever hashed. */
  datatype Setting = Setting(genesis: Header, pow: Header -> bool, world: iset<Header>)

  datatype Status = CanonBlock | SideBlock

  function GetCanonicalHash(canon: map<nat, Hash>, n: nat): (h: Hash) {
    if n in canon then canon[n] else ZERO_HASH
  }

  ghost function Genesis(s: Setting): (c: Chain) {
    var g := s.genesis;
    Chain(map[g.hash := g], map[g.hash := Body([], [])], map[g.hash := g.difficulty], map[0 := g.hash], map[], g, g, g)
  }

  /** The recorded total difficulty. */
  function Td(c: Chain, h: Hash): (td: int) {
    if h in c.tds then c.tds[h] else 0
  }

  /** Blocks are stored whole, linked, and were validated before they were stored. */
  ghost predicate Stored(s: Setting, c: Chain) {
    && Verified(s.world, s.pow, c.headers, c.bodies, s.genesis)
    && c.bodies[s.genesis.hash].txs == []
    && c.tds.Keys == c.headers.Keys
    && c.head.hash in c.headers
    && c.headers[c.head.hash] == c.head
    && forall h {:trigger Sound(s, c.headers, c.headers[h])} | h in c.headers && c.headers[h] != s.genesis ::
       Sound(s, c.headers, c.headers[h])
  }

  /** A non-genesis header that passed validation, carries a valid seal and used no more gas
      than it may. */
  ghost predicate Sound(s: Setting, hs: Headers, b: Header) {
    && b.parentHash in hs && ValidateHeader(s.pow, b, hs[b.parentHash], 0, true, true) == HeaderOk
    && b.gasUsed <= b.gasLimit
  }

  /** Recorded total difficulty is the sum of difficulties down to the genesis. */
  ghost predicate Weighed(c: Chain) {
    forall h {:trigger WeightOk(c, h)} | h in c.headers :: WeightOk(c, h)
  }

  ghost predicate WeightOk(c: Chain, h: Hash) {
    Td(c, h) == Work(LineageOf(c.headers, h))
  }

  /** No stored block is heavier than the head. */
  ghost predicate Heaviest(c: Chain) {
    forall h {:trigger Td(c, h)} | h in c.headers :: Td(c, h) <= Td(c, c.head.hash)
  }

  /** The number map up to the head is the head's parent chain. */
  ghost predicate Canonical(c: Chain) {
    && (forall n | 0 <= n < |LineageOf(c.headers, c.head.hash)| ::
       GetCanonicalHash(c.canon, n) == LineageOf(c.headers, c.head.hash)[n].hash)
    && (forall n: nat :: GetCanonicalHash(c.canon, n) != ZERO_HASH ==> GetCanonicalHash(c.canon, n) in c.headers)
  }

  ghost predicate OnceEverywhere(c: Chain) {
    forall h {:trigger Once(c.bodies, LineageOf(c.headers, h))} | h in c.headers ::
      Once(c.bodies, LineageOf(c.headers, h))
  }

  /** Everything every reachable block database satisfies. */
  ghost predicate Inv(s: Setting, c: Chain) {
    && Stored(s, c)
    && Weighed(c)
    && Heaviest(c)
    && Canonical(c)
    && OnceEverywhere(c)
    && Exact(c.txIndex, c.bodies, LineageOf(c.headers, c.head.hash))
  }

  lemma {:induction false} GenesisStored(s: Setting)
    requires Injective(s.world) && s.genesis in s.world
    requires s.genesis.number == 0 && s.genesis.parentHash == ZERO_HASH && s.genesis.hash != ZERO_HASH
    ensures Stored(s, Genesis(s))
  {
    var c, g := Genesis(s), s.genesis;
    forall h | h in c.headers
      ensures Placed(c.headers, g, h)
    {
    }
    assert Linked(c.headers, g);
    forall h | h in c.headers
      ensures Judged(s.world, s.pow, c.headers, c.bodies, g, h)
    {
    }
  }

  lemma {:induction false} GenesisInv(s: Setting)
    requires Injective(s.world) && s.genesis in s.world
    requires s.genesis.number == 0 && s.genesis.parentHash == ZERO_HASH && s.genesis.hash != ZERO_HASH
    ensures Inv(s, Genesis(s))
  {
    var c, g := Genesis(s), s.genesis;
    GenesisStored(s);
    var l := LineageOf(c.headers, g.hash);
    assert l == [g];
    assert l[..0] == [] && Work(l) == g.difficulty;
  }

  // ---- One import ----

  ghost function AttachHeaders(c: Chain, b: Block): (hs: Headers) {
    c.headers[b.header.hash := b.header]
  }

  ghost function AttachBodies(c: Chain, b: Block): (bs: Bodies) {
    c.bodies[b.header.hash := b.body]
  }

  /** A block that passed validation against `c` and is not stored yet. */
  ghost predicate Fits(s: Setting, c: Chain, b: Block) {
    && Attachable(c.headers, b.header)
    && Hashed(s.world, b)
    && Accepted(s.pow, c.headers, c.bodies, b)
    && Sound(s, c.headers, b.header)
  }

  ghost function NewLine(c: Chain, b: Block): (l: seq<Header>) {
    LineageOf(AttachHeaders(c, b), b.header.hash)
  }

  /** The new block's chain is its parent's chain with the block on top. */
  lemma {:induction false} NewLineShape(g: Header, c: Chain, b: Block)
    requires Linked(c.headers, g) && Attachable(c.headers, b.header)
    ensures NewLine(c, b) == LineageOf(c.headers, b.header.parentHash) + [b.header]
    ensures |NewLine(c, b)| == b.header.number + 1
  {
    AttachExtendsLineage(c.headers, g, b.header);
    LineageShape(c.headers, g, b.header.parentHash);
  }

  /** `f` is the highest number at which the two chains agree. */
  ghost predicate IsFork(lo: seq<Header>, ln: seq<Header>, f: nat) {
    && f < |lo| && f + 1 < |ln|
    && lo[..f + 1] == ln[..f + 1]
    && (f + 1 < |lo| ==> lo[f + 1].hash != ln[f + 1].hash)
  }

  /** `after` is the number map `before` overwritten with the chain `l` above number `f`. */
  ghost predicate Renumbered(before: map<nat, Hash>, after: map<nat, Hash>, l: seq<Header>, f: int) {
    forall n: nat :: GetCanonicalHash(after, n) == if f < n < |l| then l[n].hash else GetCanonicalHash(before, n)
  }

  /** The fork choice: strictly heavier wins, equal weight is decided by the draw. */
  ghost predicate Wins(c: Chain, b: Block, coin: bool) {
    var externTd := Td(c, b.header.parentHash) + b.header.difficulty;
    externTd > Td(c, c.head.hash) || (externTd == Td(c, c.head.hash) && coin)
  }

  /** The fork choice compares the work of the two chains, genesis to top. */
  lemma {:induction false} WinsByWork(s: Setting, c: Chain, b: Block, coin: bool)
    requires Stored(s, c) && Weighed(c) && Attachable(c.headers, b.header)
    ensures var mine, theirs := Work(LineageOf(c.headers, c.head.hash)), Work(NewLine(c, b));
            Wins(c, b, coin) <==> theirs > mine || (theirs == mine && coin)
  {
    NewLineShape(s.genesis, c, b);
    assert WeightOk(c, b.header.parentHash) && WeightOk(c, c.head.hash);
    var l := NewLine(c, b);
    assert l[..|l| - 1] == LineageOf(c.headers, b.header.parentHash);
  }

  /** The database with `b` stored but neither heads nor indexes touched. */
  ghost function WithBlock(c: Chain, b: Block): (c': Chain) {
    c.(headers := AttachHeaders(c, b), bodies := AttachBodies(c, b),
       tds := c.tds[b.header.hash := Td(c, b.header.parentHash) + b.header.difficulty])
  }

  /** The database after `b` lost the fork choice. */
  ghost predicate ImportedSide(c: Chain, b: Block, c': Chain) {
    && c' == WithBlock(c, b)
    && Td(c', b.header.hash) <= Td(c, c.head.hash)
  }

  /** The database after `b` won the fork choice and became the head. */
  ghost predicate ImportedCanon(c: Chain, b: Block, c': Chain) {
    var l := NewLine(c, b);
    && c'.headers == AttachHeaders(c, b) && c'.bodies == AttachBodies(c, b)
    && c'.tds == c.tds[b.header.hash := Td(c, b.header.parentHash) + b.header.difficulty]
    && c'.head == b.header
    && Td(c', b.header.hash) >= Td(c, c.head.hash)
    && Renumbered(c.canon, c'.canon, l, -1)
    && Exact(c'.txIndex, c'.bodies, l)
    && HeadersMoved(LineageOf(c.headers, c.head.hash), l, c'.headHeader, c'.headFast)
  }

  /** The header head and the fast head sit right above the fork point. */
  ghost predicate HeadersMoved(lo: seq<Header>, ln: seq<Header>, headHeader: Header, headFast: Header) {
    exists f: nat :: IsFork(lo, ln, f) && headHeader == headFast == ln[f + 1]
  }

  /** The database `c'` after storing `b` in `c` with the given status. */
  ghost predicate Imported(c: Chain, b: Block, status: Status, c': Chain) {
    match status
    case SideBlock => ImportedSide(c, b, c')
    case CanonBlock => ImportedCanon(c, b, c')
  }

  /** Storing a block that fits keeps storage, links and validity. */
  lemma {:induction false} AttachKeepsStored(s: Setting, c: Chain, b: Block, c': Chain)
    requires Stored(s, c) && Fits(s, c, b)
    requires c'.headers == AttachHeaders(c, b) && c'.bodies == AttachBodies(c, b) && c'.tds.Keys == c'.headers.Keys
    requires c'.head.hash in c'.headers && c'.headers[c'.head.hash] == c'.head
    ensures Stored(s, c')
  {
    AttachKeepsVerified(s.world, s.pow, c.headers, c.bodies, s.genesis, b);
    assert b.header.hash != s.genesis.hash;
    forall h | h in c'.headers && c'.headers[h] != s.genesis
      ensures Sound(s, c'.headers, c'.headers[h])
    {
      if h != b.header.hash {
        assert Placed(c.headers, s.genesis, h);
        assert Sound(s, c.headers, c.headers[h]);
      }
    }
  }

  /** A chain of old headers reads the same bodies after a block is attached. */
  lemma {:induction false} AttachKeepsAt(g: Header, c: Chain, b: Block, h: Hash)
    requires Linked(c.headers, g) && b.header.hash !in c.headers && h in c.headers
    ensures forall t, m ::
             At(AttachBodies(c, b), LineageOf(c.headers, h), t, m) <==> At(c.bodies, LineageOf(c.headers, h), t, m)
  {
    LineageShape(c.headers, g, h);
  }

  lemma {:induction false} AttachKeepsWeighed(g: Header, c: Chain, b: Block, c': Chain)
    requires Linked(c.headers, g) && Attachable(c.headers, b.header) && c.tds.Keys == c.headers.Keys
    requires Weighed(c)
    requires c'.headers == AttachHeaders(c, b)
    requires c'.tds == c.tds[b.header.hash := Td(c, b.header.parentHash) + b.header.difficulty]
    ensures Weighed(c')
  {
    forall h | h in c'.headers
      ensures WeightOk(c', h)
    {
      if h != b.header.hash {
        assert WeightOk(c, h);
        AttachKeepsLineage(c.headers, g, b.header, h);
      } else {
        var l := NewLine(c, b);
        AttachExtendsLineage(c.headers, g, b.header);
        assert WeightOk(c, b.header.parentHash);
        assert l[..|l| - 1] == LineageOf(c.headers, b.header.parentHash);
      }
    }
  }

  lemma {:induction false} AttachKeepsOnce(g: Header, c: Chain, b: Block, c': Chain)
    requires Linked(c.headers, g) && Attachable(c.headers, b.header)
    requires OnceEverywhere(c)
    requires c'.headers == AttachHeaders(c, b) && c'.bodies == AttachBodies(c, b)
    requires Once(AttachBodies(c, b), NewLine(c, b))
    ensures OnceEverywhere(c')
  {
    forall h | h in c'.headers
      ensures Once(c'.bodies, LineageOf(c'.headers, h))
    {
      if h != b.header.hash {
        AttachKeepsAt(g, c, b, h);
        AttachKeepsLineage(c.headers, g, b.header, h);
        assert Once(c.bodies, LineageOf(c.headers, h));
      }
    }
  }

  lemma {:induction false} SideKeepsRest(s: Setting, c: Chain, b: Block, c': Chain)
    requires Inv(s, c) && Attachable(c.headers, b.header)
    requires ImportedSide(c, b, c')
    ensures Heaviest(c') && Canonical(c') && Exact(c'.txIndex, c'.bodies, LineageOf(c'.headers, c'.head.hash))
    ensures Td(c', c'.head.hash) == Td(c, c.head.hash)
  {
    AttachKeepsLineage(c.headers, s.genesis, b.header, c.head.hash);
    AttachKeepsAt(s.genesis, c, b, c.head.hash);
    forall h | h in c'.headers
      ensures Td(c', h) <= Td(c', c'.head.hash)
    {
      assert h != b.header.hash ==> Td(c', h) == Td(c, h);
    }
  }

  lemma {:induction false} CanonKeepsRest(s: Setting, c: Chain, b: Block, c': Chain)
    requires Linked(c.headers, s.genesis) && Attachable(c.headers, b.header)
    requires Heaviest(c) && Canonical(c)
    requires ImportedCanon(c, b, c')
    ensures Heaviest(c') && Canonical(c') && Exact(c'.txIndex, c'.bodies, LineageOf(c'.headers, c'.head.hash))
    ensures Td(c', c'.head.hash) >= Td(c, c.head.hash)
  {
    var l := NewLine(c, b);
    AttachKeepsLinked(c.headers, s.genesis, b.header);
    LineageShape(AttachHeaders(c, b), s.genesis, b.header.hash);
    forall h | h in c'.headers
      ensures Td(c', h) <= Td(c', c'.head.hash)
    {
      assert h != b.header.hash ==> Td(c', h) == Td(c, h);
    }
  }

  lemma {:induction false} StorageAfter(s: Setting, c: Chain, b: Block, status: Status, c': Chain)
    requires Stored(s, c) && Weighed(c) && Fits(s, c, b) && Imported(c, b, status, c')
    ensures Stored(s, c') && Weighed(c')
  {
    AttachKeepsStored(s, c, b, c');
    AttachKeepsWeighed(s.genesis, c, b, c');
  }

  /** Importing a block keeps every invariant, whichever way the fork choice went. */
  lemma {:induction false} ImportKeepsInv(s: Setting, c: Chain, b: Block, status: Status, c': Chain)
    requires Inv(s, c) && Fits(s, c, b) && Imported(c, b, status, c')
    requires Once(AttachBodies(c, b), NewLine(c, b))
    ensures Inv(s, c')
    ensures Td(c, c.head.hash) <= Td(c', c'.head.hash)
  {
    if status == SideBlock {
      SideKeepsRest(s, c, b, c');
    } else {
      CanonKeepsRest(s, c, b, c');
    }
    StorageAfter(s, c, b, status, c');
    AttachKeepsOnce(s.genesis, c, b, c');
  }

  // ---- Whole runs ----

  /** One step of a run: nothing changes, or one validated block is imported. */
  ghost predicate Step(s: Setting, c: Chain, c': Chain) {
    || c' == c
    || exists b, status ::
         && Stored(s, c) && Fits(s, c, b)
         && Once(AttachBodies(c, b), NewLine(c, b))
         && Imported(c, b, status, c')
  }

  ghost predicate Run(s: Setting, run: seq<Chain>) {
    && |run| > 0
    && run[0] == Genesis(s)
    && forall i | 0 <= i < |run| - 1 :: Step(s, run[i], run[i + 1])
  }

  /** Every database reached by block imports from the genesis satisfies the invariant. */
  lemma {:induction false} RunKeepsInv(s: Setting, run: seq<Chain>, i: nat)
    requires Injective(s.world) && s.genesis in s.world
    requires s.genesis.number == 0 && s.genesis.parentHash == ZERO_HASH && s.genesis.hash != ZERO_HASH
    requires Run(s, run) && i < |run|
    ensures Inv(s, run[i])
  {
    if i == 0 {
      GenesisInv(s);
    } else {
      RunKeepsInv(s, run, i - 1);
      StepKeepsInv(s, run[i - 1], run[i]);
    }
  }

  lemma {:induction false} StepKeepsInv(s: Setting, c: Chain, c': Chain)
    requires Inv(s, c) && Step(s, c, c')
    ensures Inv(s, c') && Td(c, c.head.hash) <= Td(c', c'.head.hash)
  {
    if c' != c {
      var b, status :|
        && Stored(s, c) && Fits(s, c, b)
        && Once(AttachBodies(c, b), NewLine(c, b))
        && Imported(c, b, status, c');
      ImportKeepsInv(s, c, b, status, c');
    }
  }

  /** The head's total difficulty never decreases over a run. */
  lemma {:induction false} RunHeadMonotone(s: Setting, run: seq<Chain>, i: nat, j: nat)
    requires Injective(s.world) && s.genesis in s.world
    requires s.genesis.number == 0 && s.genesis.parentHash == ZERO_HASH && s.genesis.hash != ZERO_HASH
    requires Run(s, run) && i <= j < |run|
    ensures Inv(s, run[i]) && Inv(s, run[j])
    ensures Td(run[i], run[i].head.hash) <= Td(run[j], run[j].head.hash)
    decreases j - i
  {
    RunKeepsInv(s, run, i);
    if i < j {
      StepKeepsInv(s, run[i], run[i + 1]);
      RunHeadMonotone(s, run, i + 1, j);
    }
  }

  /** Total difficulty grows by at least the minimum difficulty per block of height. */
  lemma {:induction false} HeavyEnough(s: Setting, c: Chain, h: Hash)
    requires Stored(s, c) && Weighed(c) && h in c.headers
    ensures Td(c, h) >= s.genesis.difficulty + MINIMUM_DIFFICULTY * c.headers[h].number
    decreases c.headers[h].number
  {
    assert Placed(c.headers, s.genesis, h) && WeightOk(c, h);
    var l := LineageOf(c.headers, h);
    LineageShape(c.headers, s.genesis, h);
    if c.headers[h] == s.genesis {
      assert Work(l) == s.genesis.difficulty by {
        assert l[..|l| - 1] == [];
      }
    } else {
      var p := c.headers[h].parentHash;
      assert Sound(s, c.headers, c.headers[h]);
      LineageShape(c.headers, s.genesis, p);
      HeavyEnough(s, c, p);
      assert WeightOk(c, p);
      assert l[..|l| - 1] == LineageOf(c.headers, p);
    }
  }

  /** Every stored block leaves room for a successor: its gas limit is at least the minimum,
      and it used no more. */
  lemma {:induction false} StoredIsRoomy(s: Setting, c: Chain, h: Hash)
    requires Stored(s, c) && Roomy(s.genesis) && h in c.headers
    ensures Roomy(c.headers[h])
  {
    if c.headers[h] != s.genesis {
      assert Sound(s, c.headers, c.headers[h]);
    }
  }

  /** A stored strict descendant of the head would outweigh it, so there is none. */
  lemma {:induction false} HeadHasNoDescendant(s: Setting, c: Chain, h: Hash)
    requires Stored(s, c) && Weighed(c) && Heaviest(c)
    requires h in c.headers && c.headers[h].number > c.head.number
    ensures var l := LineageOf(c.headers, h);
            c.head.number < |l| && l[c.head.number].hash != c.head.hash
  {
    var l := LineageOf(c.headers, h);
    var n := c.head.number;
    LineageShape(c.headers, s.genesis, h);
    LineagePrefix(c.headers, s.genesis, h, n);
    forall i | n + 1 <= i < |l|
      ensures l[i].difficulty > 0
    {
      assert Sound(s, c.headers, c.headers[l[i].hash]);
    }
    WorkGrows(l, n + 1);
    assert WeightOk(c, h) && WeightOk(c, c.head.hash);
    assert Td(c, h) <= Td(c, c.head.hash);
  }

  // ---- Numbers above the head ----

  /** The number map names a block at `n`. */
  ghost predicate Named(c: Chain, n: nat) {
    GetCanonicalHash(c.canon, n) != ZERO_HASH
  }

  /** The map names exactly the numbers up to the head. */
  ghost predicate NamedExactly(c: Chain) {
    forall n: nat :: Named(c, n) <==> n <= c.head.number
  }

  lemma {:induction false} NamedUpToHead(s: Setting, c: Chain, n: nat)
    requires Stored(s, c) && Canonical(c) && n <= c.head.number
    ensures Named(c, n)
  {
    var l := LineageOf(c.headers, c.head.hash);
    LineageShape(c.headers, s.genesis, c.head.hash);
    ZeroNotStored(c.headers, s.genesis);
    assert l[n].hash in c.headers;
  }

  /** No entry is ever deleted: a canonical import names the numbers up to the new head and
      keeps whatever was named above it, so the map ends at the new head exactly when it
      named nothing above it before. */
  lemma {:induction false} CanonNamesIff(s: Setting, c: Chain, b: Block, c': Chain)
    requires Inv(s, c) && Fits(s, c, b) && ImportedCanon(c, b, c') && Once(AttachBodies(c, b), NewLine(c, b))
    ensures forall n: nat :: Named(c', n) <==> n <= c'.head.number || Named(c, n)
    ensures NamedExactly(c') <==> forall n: nat | Named(c, n) :: n <= b.header.number
  {
    ImportKeepsInv(s, c, b, CanonBlock, c');
    NewLineShape(s.genesis, c, b);
    forall n: nat
      ensures Named(c', n) <==> n <= c'.head.number || Named(c, n)
    {
      if n <= c'.head.number {
        NamedUpToHead(s, c', n);
      } else {
        assert GetCanonicalHash(c'.canon, n) == GetCanonicalHash(c.canon, n);
      }
    }
  }

  /** Some head up to step `i` of the run stood at `n` or higher. */
  ghost predicate Reached(run: seq<Chain>, i: nat, n: nat) {
    exists j :: 0 <= j <= i && j < |run| && n <= run[j].head.number
  }

  lemma {:induction false} StepNames(s: Setting, c: Chain, c': Chain, n: nat)
    requires Inv(s, c) && Step(s, c, c')
    ensures Named(c', n) <==> n <= c'.head.number || Named(c, n)
  {
    if c' == c {
      if n <= c.head.number {
        NamedUpToHead(s, c, n);
      }
    } else {
      var b, status :|
        && Stored(s, c) && Fits(s, c, b)
        && Once(AttachBodies(c, b), NewLine(c, b))
        && Imported(c, b, status, c');
      if status == CanonBlock {
        CanonNamesIff(s, c, b, c');
      } else if n <= c.head.number {
        NamedUpToHead(s, c, n);
      }
    }
  }

  /** Over any run the map names a number exactly when some head so far stood there or higher. */
  lemma {:induction false} RunNamesIff(s: Setting, run: seq<Chain>, i: nat, n: nat)
    requires Injective(s.world) && s.genesis in s.world
    requires s.genesis.number == 0 && s.genesis.parentHash == ZERO_HASH && s.genesis.hash != ZERO_HASH
    requires Run(s, run) && i < |run|
    ensures Named(run[i], n) <==> Reached(run, i, n)
  {
    if i == 0 {
      assert n == 0 ==> n <= run[0].head.number;
    } else {
      RunNamesIff(s, run, i - 1, n);
      RunKeepsInv(s, run, i - 1);
      StepNames(s, run[i - 1], run[i], n);
    }
  }

  /** The map ends at the head exactly when no earlier head stood higher. */
  lemma {:induction false} RunNamedExactlyIff(s: Setting, run: seq<Chain>, i: nat)
    requires Injective(s.world) && s.genesis in s.world
    requires s.genesis.number == 0 && s.genesis.parentHash == ZERO_HASH && s.genesis.hash != ZERO_HASH
    requires Run(s, run) && i < |run|
    ensures NamedExactly(run[i]) <==> forall j | 0 <= j <= i :: run[j].head.number <= run[i].head.number
  {
    forall n: nat
      ensures Named(run[i], n) <==> Reached(run, i, n)
    {
      RunNamesIff(s, run, i, n);
    }
    forall j | 0 <= j <= i
      ensures Named(run[i], run[j].head.number)
    {
      assert Reached(run, i, run[j].head.number);
    }
  }

  // ---- The header head after a reorganisation ----

  /** The parent of the imported block lies on the canonical chain. */
  ghost predicate ParentCanonical(c: Chain, b: Block) {
    && b.header.parentHash in c.headers
    && c.headers[b.header.parentHash].number <= c.head.number
    && GetCanonicalHash(c.canon, c.headers[b.header.parentHash].number) == b.header.parentHash
  }

  lemma {:induction false} ForkAtLeast(lo: seq<Header>, ln: seq<Header>, f: nat, n: nat)
    requires IsFork(lo, ln, f) && n < |lo| && n < |ln| && lo[..n + 1] == ln[..n + 1]
    ensures n <= f
  {
    var k := if f < n then f + 1 else 0;
    assert lo[..n + 1][k] == ln[..n + 1][k];
  }

  /** On chains: the fork is at the block below the top exactly when the other chain passes there. */
  lemma {:induction false} ForkAtParent(hs: Headers, g: Header, a: Hash, p: Hash, top: Header, f: nat)
    requires Linked(hs, g) && a in hs && p in hs
    requires IsFork(LineageOf(hs, a), LineageOf(hs, p) + [top], f)
    ensures f <= hs[p].number
    ensures f == hs[p].number <==>
            hs[p].number < |LineageOf(hs, a)| && LineageOf(hs, a)[hs[p].number].hash == p
  {
    var lo, lp := LineageOf(hs, a), LineageOf(hs, p);
    var ln, n := lp + [top], hs[p].number;
    LineageShape(hs, g, a);
    LineageShape(hs, g, p);
    assert lo[..f + 1][f] == ln[..f + 1][f];
    if n < |lo| && lo[n].hash == p {
      SharedPrefix(hs, g, a, p, n);
      assert ln[..n + 1] == lp[..n + 1];
      ForkAtLeast(lo, ln, f, n);
    }
  }

  /** The header head and the fast-sync head follow the new head exactly when the
      new branch is one block long, that is, when its parent was canonical. */
  lemma {:induction false} HeadersFollowIff(s: Setting, c: Chain, b: Block, c': Chain)
    requires Inv(s, c) && Fits(s, c, b) && ImportedCanon(c, b, c')
    ensures c'.headHeader == c'.head <==> ParentCanonical(c, b)
    ensures c'.headFast == c'.headHeader
    ensures !ParentCanonical(c, b) ==> c'.headHeader.number < c'.head.number
  {
    var lo, ln := LineageOf(c.headers, c.head.hash), NewLine(c, b);
    NewLineShape(s.genesis, c, b);
    LineageShape(c.headers, s.genesis, c.head.hash);
    LineageShape(c.headers, s.genesis, b.header.parentHash);
    var f: nat :| IsFork(lo, ln, f) && c'.headHeader == c'.headFast == ln[f + 1];
    ForkAtParent(c.headers, s.genesis, c.head.hash, b.header.parentHash, b.header, f);
  }
}
