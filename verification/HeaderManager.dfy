/** Header-only operation: the number map follows the heaviest header chain exactly. */
module HeaderManager {
  import opened Lineage
  import opened ChainSpec

  datatype HeaderDb = HeaderDb(headers: Headers, tds: map<Hash, int>, canon: map<nat, Hash>, head: Header)

  function TdOf(d: HeaderDb, h: Hash): (td: int) {
    if h in d.tds then d.tds[h] else 0
  }

  ghost predicate TdTrue(d: HeaderDb, h: Hash) {
    TdOf(d, h) == Work(LineageOf(d.headers, h))
  }

  /** The number map names the chain `l` and nothing else. */
  ghost predicate Numbers(canon: map<nat, Hash>, l: seq<Header>) {
    forall n: nat :: GetCanonicalHash(canon, n) == if n < |l| then l[n].hash else ZERO_HASH
  }

  /** What every header database reached by header writes satisfies. */
  ghost predicate HeaderInv(g: Header, d: HeaderDb) {
    && Linked(d.headers, g)
    && d.tds.Keys == d.headers.Keys
    && d.head.hash in d.headers && d.headers[d.head.hash] == d.head
    && (forall h {:trigger TdTrue(d, h)} | h in d.headers :: TdTrue(d, h))
    && (forall h {:trigger TdOf(d, h)} | h in d.headers :: TdOf(d, h) <= TdOf(d, d.head.hash))
    && Numbers(d.canon, LineageOf(d.headers, d.head.hash))
  }

  ghost function WithHeader(d: HeaderDb, b: Header): (d': HeaderDb) {
    d.(headers := d.headers[b.hash := b], tds := d.tds[b.hash := TdOf(d, b.parentHash) + b.difficulty])
  }

  /** The database after writing `b`; `won` says whether it became the head. */
  ghost predicate Wrote(d: HeaderDb, b: Header, won: bool, d': HeaderDb) {
    var stored := WithHeader(d, b);
    && d'.headers == stored.headers && d'.tds == stored.tds
    && (won ==> d'.head == b && TdOf(stored, b.hash) >= TdOf(d, d.head.hash))
    && (!won ==> d'.head == d.head && TdOf(stored, b.hash) <= TdOf(d, d.head.hash))
    && Numbers(d'.canon, LineageOf(stored.headers, d'.head.hash))
  }

  lemma {:induction false} WroteKeepsTd(g: Header, d: HeaderDb, b: Header, d': HeaderDb, h: Hash)
    requires Linked(d.headers, g) && d.tds.Keys == d.headers.Keys && Attachable(d.headers, b)
    requires forall x {:trigger TdTrue(d, x)} | x in d.headers :: TdTrue(d, x)
    requires d'.headers == WithHeader(d, b).headers && d'.tds == WithHeader(d, b).tds && h in d'.headers
    ensures TdTrue(d', h)
  {
    if h != b.hash {
      AttachKeepsLineage(d.headers, g, b, h);
      assert TdTrue(d, h);
    } else {
      AttachExtendsLineage(d.headers, g, b);
      assert TdTrue(d, b.parentHash);
      var l := LineageOf(d'.headers, b.hash);
      assert l[..|l| - 1] == LineageOf(d.headers, b.parentHash);
    }
  }

  /** Writing a header keeps the invariant and never makes the head lighter. */
  lemma {:induction false} WroteKeepsInv(g: Header, d: HeaderDb, b: Header, won: bool, d': HeaderDb)
    requires HeaderInv(g, d) && Attachable(d.headers, b) && Wrote(d, b, won, d')
    ensures HeaderInv(g, d')
    ensures TdOf(d, d.head.hash) <= TdOf(d', d'.head.hash)
  {
    AttachKeepsLinked(d.headers, g, b);
    assert Placed(d.headers, g, d.head.hash);
    forall h | h in d'.headers
      ensures TdTrue(d', h) && TdOf(d', h) <= TdOf(d', d'.head.hash)
    {
      WroteKeepsTd(g, d, b, d', h);
      assert h != b.hash ==> TdOf(d', h) == TdOf(d, h);
    }
  }

  ghost function GenesisHeaders(g: Header): (d: HeaderDb) {
    HeaderDb(map[g.hash := g], map[g.hash := g.difficulty], map[0 := g.hash], g)
  }

  lemma {:induction false} GenesisHeadersInv(g: Header)
    requires g.number == 0 && g.parentHash == ZERO_HASH && g.hash != ZERO_HASH
    ensures HeaderInv(g, GenesisHeaders(g))
  {
    var d := GenesisHeaders(g);
    forall h | h in d.headers
      ensures Placed(d.headers, g, h)
    {
    }
    var l := LineageOf(d.headers, g.hash);
    assert l == [g] && l[..0] == [] && Work(l) == g.difficulty;
  }

  ghost predicate HeaderRun(g: Header, run: seq<HeaderDb>) {
    && |run| > 0
    && run[0] == GenesisHeaders(g)
    && forall i | 0 <= i < |run| - 1 :: HeaderStep(run[i], run[i + 1])
  }

  ghost predicate HeaderStep(d: HeaderDb, d': HeaderDb) {
    || d' == d
    || exists b, won :: Attachable(d.headers, b) && Wrote(d, b, won, d')
  }

  /** Over every run of header writes the number map has domain exactly 0 up to the
      head's number, the head is heaviest, and its total difficulty never falls. */
  lemma {:induction false} HeaderRunKeepsInv(g: Header, run: seq<HeaderDb>, i: nat)
    requires g.number == 0 && g.parentHash == ZERO_HASH && g.hash != ZERO_HASH
    requires HeaderRun(g, run) && i < |run|
    ensures HeaderInv(g, run[i])
    ensures forall j | 0 <= j <= i :: TdOf(run[j], run[j].head.hash) <= TdOf(run[i], run[i].head.hash)
  {
    if i == 0 {
      GenesisHeadersInv(g);
    } else {
      HeaderRunKeepsInv(g, run, i - 1);
      assert HeaderStep(run[i - 1], run[i]);
      if run[i] != run[i - 1] {
        var b, won :| Attachable(run[i - 1].headers, b) && Wrote(run[i - 1], b, won, run[i]);
        WroteKeepsInv(g, run[i - 1], b, won, run[i]);
      }
    }
  }

  // ---- The two rewriting loops ----

  /** The number map while the new chain `ln` is being written: entries above its top
      are gone, entries above number `k` and below the top already name the chain. */
  ghost predicate Rewriting(before: map<nat, Hash>, canon: map<nat, Hash>, lp: seq<Header>, k: int) {
    forall n: nat :: GetCanonicalHash(canon, n) ==
      if k < n < |lp| then lp[n].hash else if n > |lp| then ZERO_HASH else GetCanonicalHash(before, n)
  }

  /** When the walk meets the old chain, the map with the new top is the new chain. */
  lemma {:induction false} MetOldChain(g: Header, hs: Headers, before: map<nat, Hash>, canon: map<nat, Hash>, a: Hash,
                                       p: Hash, k: nat, top: Header)
    requires Linked(hs, g) && a in hs && p in hs
    requires Numbers(before, LineageOf(hs, a))
    requires top.number == |LineageOf(hs, p)|
    requires k < |LineageOf(hs, p)| && Rewriting(before, canon, LineageOf(hs, p), k)
    requires GetCanonicalHash(canon, k) == LineageOf(hs, p)[k].hash
    ensures Numbers(canon[top.number := top.hash], LineageOf(hs, p) + [top])
  {
    var lo, lp := LineageOf(hs, a), LineageOf(hs, p);
    LineageShape(hs, g, a);
    LineageShape(hs, g, p);
    ZeroNotStored(hs, g);
    SharedPrefix(hs, g, a, p, k);
    var ln, canon' := lp + [top], canon[top.number := top.hash];
    forall n: nat
      ensures GetCanonicalHash(canon', n) == if n < |ln| then ln[n].hash else ZERO_HASH
    {
      assert n != |lp| ==> GetCanonicalHash(canon', n) == GetCanonicalHash(canon, n);
      if n <= k {
        assert lo[..k + 1][n] == lp[..k + 1][n];
      }
    }
  }

  lemma {:induction false} DroppedNumber(canon: map<nat, Hash>, i: nat)
    ensures forall n: nat ::
             GetCanonicalHash(canon - {i}, n) == if n == i then ZERO_HASH else GetCanonicalHash(canon, n)
  {
  }

  class HeaderChain {
    const genesis: Header

    var headers: Headers
    var tds: map<Hash, int>
    var canon: map<nat, Hash>
    var currentHeader: Header

    ghost function State(): (d: HeaderDb)
      reads this
    {
      HeaderDb(headers, tds, canon, currentHeader)
    }

    constructor (genesis: Header)
      requires genesis.number == 0 && genesis.parentHash == ZERO_HASH && genesis.hash != ZERO_HASH
      ensures this.genesis == genesis && State() == GenesisHeaders(genesis) && HeaderInv(genesis, State())
    {
      this.genesis := genesis;
      headers, tds, canon := map[genesis.hash := genesis], map[genesis.hash := genesis.difficulty],
        map[0 := genesis.hash];
      currentHeader := genesis;
      new;
      GenesisHeadersInv(genesis);
    }

    /** Deletes the number assignments above `number`. */
    method DropAbove(number: nat, ghost l: seq<Header>)
      requires Numbers(canon, l) && forall n | 0 <= n < |l| :: l[n].hash != ZERO_HASH
      modifies this`canon
      ensures forall n: nat ::
               GetCanonicalHash(canon, n) == if n > number then ZERO_HASH else GetCanonicalHash(old(canon), n)
    {
      ghost var before := canon;
      var i := number + 1;
      while GetCanonicalHash(canon, i) != ZERO_HASH
        invariant i >= number + 1
        invariant forall n: nat ::
                   GetCanonicalHash(canon, n) == if number < n < i then ZERO_HASH else GetCanonicalHash(before, n)
        decreases |l| - i
      {
        DroppedNumber(canon, i);
        canon := canon - {i};
        i := i + 1;
      }
    }

    /** Points the number map at the chain of `header`. */
    method Renumber(header: Header)
      requires HeaderInv(genesis, State()) && Attachable(headers, header)
      modifies this`canon
      ensures Numbers(canon, LineageOf(headers, header.parentHash) + [header])
    {
      ghost var before := canon;
      ghost var lo, lp := LineageOf(headers, currentHeader.hash), LineageOf(headers, header.parentHash);
      LineageShape(headers, genesis, currentHeader.hash);
      LineageShape(headers, genesis, header.parentHash);
      ZeroNotStored(headers, genesis);
      DropAbove(header.number, lo);
      var head := headers[header.parentHash];
      while GetCanonicalHash(canon, head.number) != head.hash
        invariant head.number < |lp| && head == lp[head.number]
        invariant Rewriting(before, canon, lp, head.number)
        decreases head.number
      {
        LineageParent(headers, genesis, header.parentHash, head.number);
        canon := canon[head.number := head.hash];
        head := headers[head.parentHash];
      }
      MetOldChain(genesis, headers, before, canon, currentHeader.hash, header.parentHash, head.number, header);
      canon := canon[header.number := header.hash];
    }

    /** Writes a header whose parent is known; `coin` breaks ties. */
    method WriteHeader(header: Header, coin: bool) returns (ok: bool)
      requires HeaderInv(genesis, State())
      requires header.parentHash in tds ==> Attachable(headers, header)
      modifies this
      ensures ok <==> header.parentHash in old(tds)
      ensures !ok ==> State() == old(State())
      ensures HeaderInv(genesis, State())
      ensures ok ==>
                var externTd := TdOf(old(State()), header.parentHash) + header.difficulty;
                var localTd := TdOf(old(State()), old(currentHeader).hash);
                Wrote(old(State()), header, externTd > localTd || (externTd == localTd && coin), State())
    {
      if header.parentHash !in tds {
        return false;
      }
      ghost var d := State();
      var localTd := tds[currentHeader.hash];
      var externTd := header.difficulty + tds[header.parentHash];
      var won := externTd > localTd || (externTd == localTd && coin);
      AttachExtendsLineage(headers, genesis, header);
      AttachKeepsLineage(headers, genesis, header, currentHeader.hash);
      if won {
        Renumber(header);
        currentHeader := header;
      }
      tds := tds[header.hash := externTd];
      headers := headers[header.hash := header];
      WroteKeepsInv(genesis, d, header, won, State());
      return true;
    }
  }
}
