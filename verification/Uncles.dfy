/** Uncle verification over the seven-block ancestor window, and what it implies
    along whole chains. */
module Uncles {
  import opened Lineage
  import opened Validator

  datatype Body = Body(txs: seq<Hash>, uncles: seq<Header>)

  datatype Block = Block(header: Header, body: Body)

  type Bodies = map<Hash, Body>

  const WINDOW := 7
  const MAX_UNCLES := 2

  /** A block is found only when both its header and its body are stored. */
  function GetBlock(hs: Headers, bodies: Bodies, h: Hash): (b: Option<Block>) {
    if h in hs && h in bodies then Some(Block(hs[h], bodies[h])) else None
  }

  /** The block under `h` and up to `n - 1` of its ancestors, newest first. */
  ghost function AncestorBlocks(hs: Headers, bodies: Bodies, h: Hash, n: nat): (bs: seq<Block>)
    ensures |bs| <= n
    decreases n
  {
    if n == 0 || h !in hs || h !in bodies then []
    else [Block(hs[h], bodies[h])] + AncestorBlocks(hs, bodies, hs[h].parentHash, n - 1)
  }

  method GetBlocksFromHash(hs: Headers, bodies: Bodies, hash: Hash, n: nat) returns (blocks: seq<Block>)
    ensures blocks == AncestorBlocks(hs, bodies, hash, n)
  {
    blocks := [];
    var h := hash;
    var i := 0;
    while i < n
      invariant 0 <= i <= n
      invariant blocks + AncestorBlocks(hs, bodies, h, n - i) == AncestorBlocks(hs, bodies, hash, n)
    {
      var block := GetBlock(hs, bodies, h);
      if block.None? {
        break;
      }
      blocks := blocks + [block.value];
      h := block.value.header.parentHash;
      i := i + 1;
    }
  }

  datatype UncleVerdict =
    | UnclesOk
    | TooManyUncles
    | UncleNotUnique(index: nat)
    | UncleIsAncestor(index: nat)
    | UncleParentNotAncestor(index: nat)
    | UncleHeaderInvalid(index: nat, why: HeaderVerdict)

  ghost predicate IsUncleOf(win: seq<Block>, h: Hash) {
    exists k, j :: 0 <= k < |win| && 0 <= j < |win[k].body.uncles| && win[k].body.uncles[j].hash == h
  }

  ghost predicate IsBlockOf(win: seq<Block>, h: Hash) {
    exists k :: 0 <= k < |win| && win[k].header.hash == h
  }

  /** The verdict on the `i`-th uncle taken alone, stated without any accumulated set. */
  ghost function UncleFault(pow: Header -> bool, win: seq<Block>, b: Block, i: nat): (v: UncleVerdict)
    requires i < |b.body.uncles|
  {
    var u := b.body.uncles[i];
    if || IsUncleOf(win, u.hash) || u.hash == b.header.hash
       || exists j :: 0 <= j < i && b.body.uncles[j].hash == u.hash then
      UncleNotUnique(i)
    else if IsBlockOf(win, u.hash) then
      UncleIsAncestor(i)
    else if !(IsBlockOf(win, u.parentHash) || u.parentHash == b.header.hash) || u.parentHash == b.header.parentHash then
      UncleParentNotAncestor(i)
    else
      var p := if u.parentHash == b.header.hash then b.header else LastWith(win, u.parentHash);
      var why := ValidateHeader(pow, u, p, 0, true, true);
      if why.HeaderOk? then UnclesOk else UncleHeaderInvalid(i, why)
  }

  /** The header the ancestor map holds under `h`. */
  ghost function LastWith(win: seq<Block>, h: Hash): (p: Header)
    requires IsBlockOf(win, h)
    ensures p.hash == h
  {
    if win[|win| - 1].header.hash == h then win[|win| - 1].header else LastWith(win[..|win| - 1], h)
  }

  /** The verdict on a block's uncles: the first fault in list order. */
  ghost predicate IsVerdict(pow: Header -> bool, win: seq<Block>, b: Block, v: UncleVerdict) {
    if |b.body.uncles| > MAX_UNCLES then v == TooManyUncles
    else if v == UnclesOk then AllFaultless(pow, win, b, |b.body.uncles|)
    else exists i :: 0 <= i < |b.body.uncles| && AllFaultless(pow, win, b, i) && v == UncleFault(pow, win, b, i)
  }

  ghost predicate AllFaultless(pow: Header -> bool, win: seq<Block>, b: Block, n: nat)
    requires n <= |b.body.uncles|
  {
    forall i | 0 <= i < n :: UncleFault(pow, win, b, i) == UnclesOk
  }

  /** There is only one verdict. */
  lemma {:induction false} VerdictUnique(pow: Header -> bool, win: seq<Block>, b: Block, u: UncleVerdict,
                                         v: UncleVerdict)
    requires IsVerdict(pow, win, b, u) && IsVerdict(pow, win, b, v)
    ensures u == v
  {
    if |b.body.uncles| <= MAX_UNCLES && u != UnclesOk && v != UnclesOk {
      var i :| 0 <= i < |b.body.uncles| && AllFaultless(pow, win, b, i) && u == UncleFault(pow, win, b, i);
      var j :| 0 <= j < |b.body.uncles| && AllFaultless(pow, win, b, j) && v == UncleFault(pow, win, b, j);
      assert i == j;
    }
  }

  /** The uncle set and the ancestor map the validator fills from the window. */
  method CollectWindow(win: seq<Block>) returns (uncles: set<Hash>, ancestors: map<Hash, Header>)
    ensures forall h :: h in uncles <==> IsUncleOf(win, h)
    ensures forall h :: h in ancestors <==> IsBlockOf(win, h)
    ensures forall h | h in ancestors :: ancestors[h] == LastWith(win, h)
  {
    uncles, ancestors := {}, map[];
    for k := 0 to |win|
      invariant forall h :: h in uncles <==> IsUncleOf(win[..k], h)
      invariant forall h :: h in ancestors <==> IsBlockOf(win[..k], h)
      invariant forall h | h in ancestors :: ancestors[h] == LastWith(win[..k], h)
    {
      ancestors := ancestors[win[k].header.hash := win[k].header];
      var us := win[k].body.uncles;
      ghost var before := uncles;
      for j := 0 to |us|
        invariant forall h :: h in uncles <==> h in before || exists i :: 0 <= i < j && us[i].hash == h
      {
        uncles := uncles + {us[j].hash};
      }
      assert win[..k + 1] == win[..k] + [win[k]];
      forall h
        ensures IsUncleOf(win[..k + 1], h) <==> IsUncleOf(win[..k], h) || exists i :: 0 <= i < |us| && us[i].hash == h
      {
        UncleOfSnoc(win[..k], win[k], h);
      }
      forall h
        ensures IsBlockOf(win[..k + 1], h) <==> IsBlockOf(win[..k], h) || win[k].header.hash == h
      {
        BlockOfSnoc(win[..k], win[k], h);
      }
      assert win[..k + 1][..k] == win[..k];
    }
    assert win[..|win|] == win;
  }

  lemma {:induction false} UncleOfSnoc(win: seq<Block>, b: Block, h: Hash)
    ensures IsUncleOf(win + [b], h)
            <==> IsUncleOf(win, h) || exists i :: 0 <= i < |b.body.uncles| && b.body.uncles[i].hash == h
  {
    var ext := win + [b];
    if IsUncleOf(win, h) {
      var k, j :| 0 <= k < |win| && 0 <= j < |win[k].body.uncles| && win[k].body.uncles[j].hash == h;
      assert ext[k] == win[k];
    }
    if i :| 0 <= i < |b.body.uncles| && b.body.uncles[i].hash == h {
      assert ext[|win|] == b;
    }
  }

  lemma {:induction false} BlockOfSnoc(win: seq<Block>, b: Block, h: Hash)
    ensures IsBlockOf(win + [b], h) <==> IsBlockOf(win, h) || b.header.hash == h
  {
    var ext := win + [b];
    if IsBlockOf(win, h) {
      var k :| 0 <= k < |win| && win[k].header.hash == h;
      assert ext[k] == win[k];
    }
    assert ext[|win|] == b;
  }

  /** Judges one uncle against the accumulated uncle set and ancestor map. */
  method CheckUncle(pow: Header -> bool, uncles: set<Hash>, ancestors: map<Hash, Header>, b: Block, i: nat,
                    ghost win: seq<Block>)
    returns (v: UncleVerdict)
    requires i < |b.body.uncles|
    requires forall h ::
              h in uncles
              <==> IsUncleOf(win, h) || h == b.header.hash || exists j :: 0 <= j < i && b.body.uncles[j].hash == h
    requires forall h :: h in ancestors <==> IsBlockOf(win, h) || h == b.header.hash
    requires forall h | h in ancestors :: ancestors[h] == if h == b.header.hash then b.header else LastWith(win, h)
    ensures v == UncleFault(pow, win, b, i)
  {
    var u := b.body.uncles[i];
    if u.hash in uncles {
      return UncleNotUnique(i);
    }
    if u.hash in ancestors {
      return UncleIsAncestor(i);
    }
    if u.parentHash !in ancestors || u.parentHash == b.header.parentHash {
      return UncleParentNotAncestor(i);
    }
    var why := ValidateHeader(pow, u, ancestors[u.parentHash], 0, true, true);
    return if why.HeaderOk? then UnclesOk else UncleHeaderInvalid(i, why);
  }

  method VerifyUncles(pow: Header -> bool, hs: Headers, bodies: Bodies, b: Block) returns (v: UncleVerdict)
    ensures IsVerdict(pow, AncestorBlocks(hs, bodies, b.header.parentHash, WINDOW), b, v)
  {
    if |b.body.uncles| > MAX_UNCLES {
      return TooManyUncles;
    }
    var win := GetBlocksFromHash(hs, bodies, b.header.parentHash, WINDOW);
    v := VerifyAgainst(pow, win, b);
  }

  /** The loop over the uncles, against a given window. */
  method VerifyAgainst(pow: Header -> bool, win: seq<Block>, b: Block) returns (v: UncleVerdict)
    requires |b.body.uncles| <= MAX_UNCLES
    ensures IsVerdict(pow, win, b, v)
  {
    var uncles, ancestors := CollectWindow(win);
    ghost var inWindow := uncles;
    ancestors := ancestors[b.header.hash := b.header];
    uncles := uncles + {b.header.hash};
    var us := b.body.uncles;
    for i := 0 to |us|
      invariant AllFaultless(pow, win, b, i)
      invariant forall h ::
                 h in uncles <==> h in inWindow || h == b.header.hash || exists j :: 0 <= j < i && us[j].hash == h
    {
      v := CheckUncle(pow, uncles, ancestors, b, i, win);
      if v != UnclesOk {
        return;
      }
      uncles := uncles + {us[i].hash};
    }
    return UnclesOk;
  }

  // ---- What verification implies along whole chains ----

  /** Hashing is injective on the headers that ever occur. */
  ghost predicate Injective(world: iset<Header>) {
    forall a, b :: a in world && b in world && a.hash == b.hash ==> a == b
  }

  /** Every header a block mentions has been hashed, and no uncle is built on the
      block that includes it (a block's hash covers its uncles). */
  ghost predicate Hashed(world: iset<Header>, b: Block) {
    && b.header in world
    && forall i | 0 <= i < |b.body.uncles| :: b.body.uncles[i] in world && b.body.uncles[i].parentHash != b.header.hash
  }

  function BodyOf(bodies: Bodies, h: Hash): (b: Body) {
    if h in bodies then bodies[h] else Body([], [])
  }

  /** The top `n` blocks of a chain, newest first. */
  ghost function TopBlocks(bodies: Bodies, l: seq<Header>, n: nat): (bs: seq<Block>) {
    seq(Min(n, |l|), k requires 0 <= k < |l| => Block(l[|l| - 1 - k], BodyOf(bodies, l[|l| - 1 - k].hash)))
  }

  /** The uncles of `b` are faultless against the seven blocks it is built on. */
  ghost predicate Accepted(pow: Header -> bool, hs: Headers, bodies: Bodies, b: Block) {
    IsVerdict(pow, TopBlocks(bodies, LineageOf(hs, b.header.parentHash), WINDOW), b, UnclesOk)
  }

  /** A block is accepted exactly when the validator's verdict says so. */
  lemma {:induction false} VerdictDecides(pow: Header -> bool, hs: Headers, bodies: Bodies, g: Header, b: Block,
                                          v: UncleVerdict)
    requires Linked(hs, g) && bodies.Keys == hs.Keys && b.header.parentHash in hs
    requires IsVerdict(pow, AncestorBlocks(hs, bodies, b.header.parentHash, WINDOW), b, v)
    ensures v == UnclesOk <==> Accepted(pow, hs, bodies, b)
  {
    WindowIsLineage(hs, bodies, g, b.header.parentHash, WINDOW);
  }

  /** A block store whose every block above the genesis had its uncles verified. */
  ghost predicate Verified(world: iset<Header>, pow: Header -> bool, hs: Headers, bodies: Bodies, g: Header) {
    && Injective(world)
    && Linked(hs, g)
    && bodies.Keys == hs.Keys
    && bodies[g.hash].uncles == []
    && forall h {:trigger Judged(world, pow, hs, bodies, g, h)} | h in hs :: Judged(world, pow, hs, bodies, g, h)
  }

  ghost predicate Judged(world: iset<Header>, pow: Header -> bool, hs: Headers, bodies: Bodies, g: Header, h: Hash)
    requires h in hs && h in bodies
  {
    var b := Block(hs[h], bodies[h]);
    Hashed(world, b) && (hs[h] != g ==> Accepted(pow, hs, bodies, b))
  }

  lemma {:induction false} TopBlocksSnoc(bodies: Bodies, l: seq<Header>, h: Header, n: nat)
    ensures TopBlocks(bodies, l + [h], n + 1) == [Block(h, BodyOf(bodies, h.hash))] + TopBlocks(bodies, l, n)
  {
    var big, small := TopBlocks(bodies, l + [h], n + 1), TopBlocks(bodies, l, n);
    forall k | 1 <= k < |big|
      ensures big[k] == small[k - 1]
    {
      assert (l + [h])[|l| - k] == l[|l| - k];
    }
  }

  /** The blocks the validator collects are the top of the lineage. */
  lemma {:induction false} WindowIsLineage(hs: Headers, bodies: Bodies, g: Header, h: Hash, n: nat)
    requires Linked(hs, g) && bodies.Keys == hs.Keys && h in hs
    ensures AncestorBlocks(hs, bodies, h, n) == TopBlocks(bodies, LineageOf(hs, h), n)
    decreases n
  {
    assert Placed(hs, g, h);
    LineageShape(hs, g, h);
    if n > 0 {
      if hs[h].number > 0 {
        WindowIsLineage(hs, bodies, g, hs[h].parentHash, n - 1);
        TopBlocksSnoc(bodies, LineageOf(hs, hs[h].parentHash), hs[h], n - 1);
      } else {
        ZeroNotStored(hs, g);
        TopBlocksSnoc(bodies, [], hs[h], n - 1);
        assert [] + [hs[h]] == [hs[h]];
      }
    }
  }

  /** Attaching a block leaves every older window alone. */
  lemma {:induction false} AttachKeepsWindow(hs: Headers, bodies: Bodies, g: Header, b: Block, h: Hash, n: nat)
    requires Linked(hs, g) && Attachable(hs, b.header) && h in hs
    ensures TopBlocks(bodies[b.header.hash := b.body], LineageOf(hs[b.header.hash := b.header], h), n)
            == TopBlocks(bodies, LineageOf(hs, h), n)
  {
    AttachKeepsLineage(hs, g, b.header, h);
    LineageShape(hs, g, h);
    var l := LineageOf(hs, h);
    assert forall k | 0 <= k < |l| :: BodyOf(bodies[b.header.hash := b.body], l[k].hash) == BodyOf(bodies, l[k].hash);
  }

  /** Storing a block whose uncles were verified keeps the store verified. */
  lemma {:induction false} AttachKeepsVerified(world: iset<Header>, pow: Header -> bool, hs: Headers, bodies: Bodies,
                                               g: Header, b: Block)
    requires Verified(world, pow, hs, bodies, g)
    requires Attachable(hs, b.header) && Hashed(world, b) && Accepted(pow, hs, bodies, b)
    ensures Verified(world, pow, hs[b.header.hash := b.header], bodies[b.header.hash := b.body], g)
  {
    var hs', bodies' := hs[b.header.hash := b.header], bodies[b.header.hash := b.body];
    AttachKeepsLinked(hs, g, b.header);
    forall h | h in hs'
      ensures Judged(world, pow, hs', bodies', g, h)
    {
      if h == b.header.hash {
        AttachKeepsWindow(hs, bodies, g, b, b.header.parentHash, WINDOW);
      } else {
        assert Judged(world, pow, hs, bodies, g, h);
        assert Placed(hs, g, h);
        if hs[h] != g {
          AttachKeepsWindow(hs, bodies, g, b, hs[h].parentHash, WINDOW);
        }
      }
    }
  }

  /** The `i`-th uncle of the block at number `n` of a lineage. */
  ghost function UncleAt(bodies: Bodies, l: seq<Header>, n: nat, i: nat): (u: Header)
    requires UnclePos(bodies, l, n, i)
  {
    bodies[l[n].hash].uncles[i]
  }

  ghost predicate UnclePos(bodies: Bodies, l: seq<Header>, n: nat, i: nat) {
    n < |l| && l[n].hash in bodies && i < |bodies[l[n].hash].uncles|
  }

  /** The window below the block at number `n` of a lineage. */
  lemma {:induction false} WindowBelow(hs: Headers, bodies: Bodies, g: Header, h: Hash, n: nat, depth: nat)
    requires Linked(hs, g) && h in hs && 0 < n < |LineageOf(hs, h)|
    ensures var l := LineageOf(hs, h);
           TopBlocks(bodies, LineageOf(hs, l[n].parentHash), depth) == TopBlocks(bodies, l[..n], depth)
  {
    LineageShape(hs, g, h);
    LineagePrefix(hs, g, h, n - 1);
    LineageParent(hs, g, h, n);
  }

  /** A faultless uncle repeats no block and no uncle of its window, nor its own block. */
  lemma {:induction false} FaultlessFresh(pow: Header -> bool, bodies: Bodies, l: seq<Header>, depth: nat, b: Block,
                                          i: nat)
    requires i < |b.body.uncles| && UncleFault(pow, TopBlocks(bodies, l, depth), b, i) == UnclesOk
    ensures var u := b.body.uncles[i];
            && b.header.hash != u.hash
            && (forall j | 0 <= j < i :: b.body.uncles[j].hash != u.hash)
            && (forall k | |l| - depth <= k < |l| && 0 <= k :: l[k].hash != u.hash)
            && (forall k, j | |l| - depth <= k < |l| && 0 <= k && UnclePos(bodies, l, k, j) ::
               UncleAt(bodies, l, k, j).hash != u.hash)
  {
    var win := TopBlocks(bodies, l, depth);
    forall k | |l| - depth <= k < |l| && 0 <= k
      ensures l[k].hash != b.body.uncles[i].hash
      ensures forall j | UnclePos(bodies, l, k, j) :: UncleAt(bodies, l, k, j).hash != b.body.uncles[i].hash
    {
      assert win[|l| - 1 - k] == Block(l[k], BodyOf(bodies, l[k].hash));
    }
  }

  /** A faultless uncle hangs off a block of its window other than the topmost. */
  lemma {:induction false} FaultlessNearby(pow: Header -> bool, bodies: Bodies, l: seq<Header>, depth: nat, b: Block,
                                           i: nat)
    requires i < |b.body.uncles| && UncleFault(pow, TopBlocks(bodies, l, depth), b, i) == UnclesOk
    requires |l| > 0 && b.header.parentHash == l[|l| - 1].hash && b.body.uncles[i].parentHash != b.header.hash
    requires forall k | 0 <= k < |l| :: l[k].number == k
    ensures var u := b.body.uncles[i];
            && 1 <= |l| - u.number < depth
            && u.number >= 1
            && u.parentHash == l[u.number - 1].hash
            && Obeys(pow, u, l[u.number - 1], 0, true, true)
  {
    var win := TopBlocks(bodies, l, depth);
    var u := b.body.uncles[i];
    LastIsMember(win, u.parentHash);
    var k :| 0 <= k < |win| && win[k].header == LastWith(win, u.parentHash);
    assert win[k].header == l[|l| - 1 - k];
  }

  lemma {:induction false} LastOnLine(bodies: Bodies, l: seq<Header>, depth: nat, p: nat)
    requires |l| - depth <= p < |l| && forall j, k | 0 <= j < k < |l| :: l[j].hash != l[k].hash
    ensures IsBlockOf(TopBlocks(bodies, l, depth), l[p].hash)
    ensures LastWith(TopBlocks(bodies, l, depth), l[p].hash) == l[p]
  {
    var win := TopBlocks(bodies, l, depth);
    assert win[|l| - 1 - p].header == l[p];
    LastIsMember(win, l[p].hash);
    var k :| 0 <= k < |win| && win[k].header == LastWith(win, l[p].hash);
    assert win[k].header == l[|l| - 1 - k];
  }

  /** The uncle repeats none of the seven blocks below its includer, none of their uncles, no
      earlier uncle of the same block, and not the block itself. */
  ghost predicate Fresh(bodies: Bodies, l: seq<Header>, b: Block, i: nat)
    requires i < |b.body.uncles|
  {
    var u := b.body.uncles[i];
    && u.hash != b.header.hash
    && (forall j | 0 <= j < i :: b.body.uncles[j].hash != u.hash)
    && (forall k | |l| - 7 <= k < |l| && 0 <= k :: l[k].hash != u.hash)
    && (forall k, j | |l| - 7 <= k < |l| && 0 <= k && 0 <= j < |BodyOf(bodies, l[k].hash).uncles| ::
          BodyOf(bodies, l[k].hash).uncles[j].hash != u.hash)
  }

  /** The uncle is a valid successor of one of the seven blocks below its includer other than
      the topmost. */
  ghost predicate Hangs(pow: Header -> bool, l: seq<Header>, u: Header) {
    exists p :: 0 <= p && |l| - 7 <= p < |l| - 1 && u.parentHash == l[p].hash && Obeys(pow, u, l[p], 0, true, true)
  }

  lemma {:induction false} InWindow(bodies: Bodies, l: seq<Header>, h: Hash)
    ensures IsBlockOf(TopBlocks(bodies, l, WINDOW), h)
            <==> exists p :: 0 <= p && |l| - 7 <= p < |l| && l[p].hash == h
  {
    var win := TopBlocks(bodies, l, WINDOW);
    if p :| 0 <= p && |l| - 7 <= p < |l| && l[p].hash == h {
      assert win[|l| - 1 - p].header == l[p];
    }
    if k :| 0 <= k < |win| && win[k].header.hash == h {
      assert win[k].header == l[|l| - 1 - k];
    }
  }

  lemma {:induction false} UncleInWindow(bodies: Bodies, l: seq<Header>, h: Hash)
    ensures IsUncleOf(TopBlocks(bodies, l, WINDOW), h)
            <==> exists p, j :: 0 <= p && |l| - 7 <= p < |l| && 0 <= j < |BodyOf(bodies, l[p].hash).uncles|
                                && BodyOf(bodies, l[p].hash).uncles[j].hash == h
  {
    var win := TopBlocks(bodies, l, WINDOW);
    if p, j :| 0 <= p && |l| - 7 <= p < |l| && 0 <= j < |BodyOf(bodies, l[p].hash).uncles|
               && BodyOf(bodies, l[p].hash).uncles[j].hash == h {
      assert win[|l| - 1 - p].body == BodyOf(bodies, l[p].hash);
    }
    if k, j :| 0 <= k < |win| && 0 <= j < |win[k].body.uncles| && win[k].body.uncles[j].hash == h {
      assert win[k].body == BodyOf(bodies, l[|l| - 1 - k].hash);
    }
  }

  lemma {:induction false} FreshIff(bodies: Bodies, l: seq<Header>, b: Block, i: nat)
    requires i < |b.body.uncles|
    ensures var win, u := TopBlocks(bodies, l, WINDOW), b.body.uncles[i];
            Fresh(bodies, l, b, i) <==>
            && !IsUncleOf(win, u.hash) && u.hash != b.header.hash && !IsBlockOf(win, u.hash)
            && !(exists j :: 0 <= j < i && b.body.uncles[j].hash == u.hash)
  {
    InWindow(bodies, l, b.body.uncles[i].hash);
    UncleInWindow(bodies, l, b.body.uncles[i].hash);
  }

  /** Said about the chain itself, with no window: an uncle is faultless exactly when it is
      fresh and hangs off the chain. */
  lemma {:induction false} FaultlessIff(pow: Header -> bool, bodies: Bodies, l: seq<Header>, b: Block, i: nat)
    requires i < |b.body.uncles| && |l| > 0 && b.header.parentHash == l[|l| - 1].hash
    requires b.body.uncles[i].parentHash != b.header.hash
    requires forall j, k | 0 <= j < k < |l| :: l[j].hash != l[k].hash
    ensures UncleFault(pow, TopBlocks(bodies, l, WINDOW), b, i) == UnclesOk
            <==> Fresh(bodies, l, b, i) && Hangs(pow, l, b.body.uncles[i])
  {
    var u := b.body.uncles[i];
    FreshIff(bodies, l, b, i);
    InWindow(bodies, l, u.parentHash);
    if p :| 0 <= p && |l| - 7 <= p < |l| && l[p].hash == u.parentHash {
      LastOnLine(bodies, l, WINDOW, p);
    }
  }

  /** Said about the chain as well: what each fault means. */
  lemma {:induction false} FaultKinds(pow: Header -> bool, bodies: Bodies, l: seq<Header>, b: Block, i: nat)
    requires i < |b.body.uncles| && |l| > 0 && b.header.parentHash == l[|l| - 1].hash
    requires b.body.uncles[i].parentHash != b.header.hash
    requires forall j, k | 0 <= j < k < |l| :: l[j].hash != l[k].hash
    ensures var u, v := b.body.uncles[i], UncleFault(pow, TopBlocks(bodies, l, WINDOW), b, i);
            var repeated := u.hash == b.header.hash || Included(bodies, l, u.hash)
                            || exists j :: 0 <= j < i && b.body.uncles[j].hash == u.hash;
            var ancestor := OnTop(l, 0, u.hash);
            var hangs := OnTop(l, 1, u.parentHash);
            && (v == UncleNotUnique(i) <==> repeated)
            && (v == UncleIsAncestor(i) <==> !repeated && ancestor)
            && (v == UncleParentNotAncestor(i) <==> !repeated && !ancestor && !hangs)
            && (v.UncleHeaderInvalid? ==> !repeated && !ancestor && hangs && !Hangs(pow, l, u))
  {
    var u := b.body.uncles[i];
    InWindow(bodies, l, u.hash);
    UncleInWindow(bodies, l, u.hash);
    InWindow(bodies, l, u.parentHash);
    FaultlessIff(pow, bodies, l, b, i);
    OnTopIff(l, u.hash, u.parentHash);
  }

  /** `h` is an uncle of one of the seven top blocks. */
  ghost predicate Included(bodies: Bodies, l: seq<Header>, h: Hash) {
    exists p, j :: 0 <= p && |l| - 7 <= p < |l| && 0 <= j < |BodyOf(bodies, l[p].hash).uncles|
                   && BodyOf(bodies, l[p].hash).uncles[j].hash == h
  }

  /** `h` is one of the seven top blocks, but not of the `skip` topmost. */
  ghost predicate OnTop(l: seq<Header>, skip: nat, h: Hash) {
    exists p :: 0 <= p && |l| - 7 <= p < |l| - skip && l[p].hash == h
  }

  lemma {:induction false} OnTopIff(l: seq<Header>, h: Hash, parent: Hash)
    requires |l| > 0 && forall j, k | 0 <= j < k < |l| :: l[j].hash != l[k].hash
    ensures OnTop(l, 0, h) <==> exists p :: 0 <= p && |l| - 7 <= p < |l| && l[p].hash == h
    ensures OnTop(l, 1, parent)
            <==> (exists p :: 0 <= p && |l| - 7 <= p < |l| && l[p].hash == parent) && parent != l[|l| - 1].hash
  {
    if p :| 0 <= p && |l| - 7 <= p < |l| && l[p].hash == parent {
      assert parent != l[|l| - 1].hash ==> p < |l| - 1;
    }
  }

  /** The uncle at a lineage position, seen as its block's validator saw it. */
  lemma {:induction false} UncleWasJudged(world: iset<Header>, pow: Header -> bool, hs: Headers, bodies: Bodies,
                                          g: Header, h: Hash, n: nat, i: nat)
    requires Verified(world, pow, hs, bodies, g) && h in hs
    requires UnclePos(bodies, LineageOf(hs, h), n, i)
    ensures var l := LineageOf(hs, h);
            var b := Block(l[n], bodies[l[n].hash]);
            && n > 0
            && UncleFault(pow, TopBlocks(bodies, l[..n], WINDOW), b, i) == UnclesOk
            && b.body.uncles[i].parentHash != b.header.hash
  {
    var l := LineageOf(hs, h);
    LineageShape(hs, g, h);
    assert Judged(world, pow, hs, bodies, g, l[n].hash);
    WindowBelow(hs, bodies, g, h, n, WINDOW);
  }

  /** Every uncle lies one to six blocks below its includer, hangs off the chain it
      is included in, and obeys all header rules on that parent, the seal included. */
  lemma {:induction false} UncleLiesNearby(world: iset<Header>, pow: Header -> bool, hs: Headers, bodies: Bodies,
                                           g: Header, h: Hash, n: nat, i: nat)
    requires Verified(world, pow, hs, bodies, g) && h in hs
    requires UnclePos(bodies, LineageOf(hs, h), n, i)
    ensures var l := LineageOf(hs, h);
            var u := UncleAt(bodies, l, n, i);
            && 1 <= n - u.number <= 6
            && 1 <= u.number < |l|
            && u.parentHash == l[u.number - 1].hash
            && Obeys(pow, u, l[u.number - 1], 0, true, true)
  {
    var l := LineageOf(hs, h);
    LineageShape(hs, g, h);
    UncleWasJudged(world, pow, hs, bodies, g, h, n, i);
    LineageParent(hs, g, h, n);
    FaultlessNearby(pow, bodies, l[..n], WINDOW, Block(l[n], bodies[l[n].hash]), i);
  }

  lemma {:induction false} LastIsMember(win: seq<Block>, h: Hash)
    requires IsBlockOf(win, h)
    ensures exists k :: 0 <= k < |win| && win[k].header == LastWith(win, h)
  {
    if win[|win| - 1].header.hash != h {
      var init := win[..|win| - 1];
      LastIsMember(init, h);
      var k :| 0 <= k < |init| && init[k].header == LastWith(init, h);
      assert win[k].header == LastWith(win, h);
    } else {
      assert win[|win| - 1].header == LastWith(win, h);
    }
  }

  /** Although only seven ancestors are inspected, no uncle is any ancestor of the
      block that includes it, however deep. */
  lemma {:induction false} UncleNeverAncestor(world: iset<Header>, pow: Header -> bool, hs: Headers, bodies: Bodies,
                                              g: Header, h: Hash, n: nat, i: nat, k: nat)
    requires Verified(world, pow, hs, bodies, g) && h in hs
    requires UnclePos(bodies, LineageOf(hs, h), n, i) && k <= n
    ensures LineageOf(hs, h)[k].hash != UncleAt(bodies, LineageOf(hs, h), n, i).hash
  {
    var l := LineageOf(hs, h);
    LineageShape(hs, g, h);
    UncleLiesNearby(world, pow, hs, bodies, g, h, n, i);
    UncleWasJudged(world, pow, hs, bodies, g, h, n, i);
    FaultlessFresh(pow, bodies, l[..n], WINDOW, Block(l[n], bodies[l[n].hash]), i);
    assert Judged(world, pow, hs, bodies, g, l[n].hash);
    assert Judged(world, pow, hs, bodies, g, l[k].hash);
    assert k < n ==> l[..n][k] == l[k];
  }

  /** Along any stored chain no header is included as an uncle twice. */
  lemma {:induction false} UncleNeverTwice(world: iset<Header>, pow: Header -> bool, hs: Headers, bodies: Bodies,
                                           g: Header, h: Hash, n: nat, i: nat, m: nat, j: nat)
    requires Verified(world, pow, hs, bodies, g) && h in hs
    requires UnclePos(bodies, LineageOf(hs, h), n, i) && UnclePos(bodies, LineageOf(hs, h), m, j)
    requires UncleAt(bodies, LineageOf(hs, h), n, i).hash == UncleAt(bodies, LineageOf(hs, h), m, j).hash
    ensures n == m && i == j
  {
    if m < n || (m == n && j < i) {
      UncleNotLater(world, pow, hs, bodies, g, h, n, i, m, j);
    } else if n < m || (m == n && i < j) {
      UncleNotLater(world, pow, hs, bodies, g, h, m, j, n, i);
    }
  }

  /** An uncle differs from every uncle included before it on the same chain. */
  lemma {:induction false} UncleNotLater(world: iset<Header>, pow: Header -> bool, hs: Headers, bodies: Bodies,
                                         g: Header, h: Hash, n: nat, i: nat, m: nat, j: nat)
    requires Verified(world, pow, hs, bodies, g) && h in hs
    requires UnclePos(bodies, LineageOf(hs, h), n, i) && UnclePos(bodies, LineageOf(hs, h), m, j)
    requires m < n || (m == n && j < i)
    ensures UncleAt(bodies, LineageOf(hs, h), n, i).hash != UncleAt(bodies, LineageOf(hs, h), m, j).hash
  {
    var l := LineageOf(hs, h);
    LineageShape(hs, g, h);
    UncleLiesNearby(world, pow, hs, bodies, g, h, n, i);
    UncleLiesNearby(world, pow, hs, bodies, g, h, m, j);
    UncleWasJudged(world, pow, hs, bodies, g, h, n, i);
    FaultlessFresh(pow, bodies, l[..n], WINDOW, Block(l[n], bodies[l[n].hash]), i);
    assert Judged(world, pow, hs, bodies, g, l[n].hash);
    assert Judged(world, pow, hs, bodies, g, l[m].hash);
    if m < n {
      assert UnclePos(bodies, l[..n], m, j) && UncleAt(bodies, l[..n], m, j) == UncleAt(bodies, l, m, j);
    }
  }
}
