/** Negotiating sub-protocols: two peers that know each other's capabilities compute the
    same message code ranges independently. */
module Protocols {
  import opened Lineage

  const BASE_PROTOCOL_LENGTH := 16

  datatype Cap = Cap(name: string, version: nat)

  datatype Protocol = Protocol(name: string, version: nat, length: nat)

  /** A running protocol and the first message code of its range. */
  datatype Match = Match(proto: Protocol, offset: nat)

  function CapOf(p: Protocol): (c: Cap) {
    Cap(p.name, p.version)
  }

  // ---- The order of names ----

  predicate Before(a: string, b: string) {
    b != [] && (a == [] || a[0] < b[0] || (a[0] == b[0] && Before(a[1..], b[1..])))
  }

  lemma {:induction false} BeforeTotal(a: string, b: string)
    ensures Before(a, b) || a == b || Before(b, a)
    ensures !(Before(a, b) && (a == b || Before(b, a)))
  {
    if a != [] && b != [] {
      BeforeTotal(a[1..], b[1..]);
      if a[0] == b[0] {
        assert a == [a[0]] + a[1..] && b == [b[0]] + b[1..];
      }
    }
  }

  lemma {:induction false} BeforeTrans(a: string, b: string, c: string)
    requires Before(a, b) && Before(b, c)
    ensures Before(a, c)
  {
    if a != [] && a[0] == b[0] == c[0] {
      BeforeTrans(a[1..], b[1..], c[1..]);
    }
  }

  /** The order the capabilities are sorted in. */
  predicate Less(a: Cap, b: Cap) {
    Before(a.name, b.name) || (a.name == b.name && a.version < b.version)
  }

  ghost predicate Sorted(cs: seq<Cap>) {
    forall i, j | 0 <= i < j < |cs| :: !Less(cs[j], cs[i])
  }

  // ---- The agreement, from the set of shared capabilities alone ----

  /** `c` is the highest shared version of its protocol. */
  ghost predicate Best(s: set<Cap>, c: Cap) {
    c in s && forall d | d in s && d.name == c.name :: d.version <= c.version
  }

  ghost function Chosen(s: set<Cap>): (b: set<Cap>) {
    set c | c in s && Best(s, c)
  }

  ghost function ChosenBefore(s: set<Cap>, name: string): (b: set<Cap>) {
    set c | c in s && Best(s, c) && Before(c.name, name)
  }

  ghost function Sum(s: set<Cap>, len: Cap -> nat): (n: nat) {
    if s == {} then 0
    else
      var c :| c in s;
      len(c) + Sum(s - {c}, len)
  }

  lemma {:induction false} SumWith(s: set<Cap>, len: Cap -> nat, c: Cap)
    requires c in s
    ensures Sum(s, len) == len(c) + Sum(s - {c}, len)
    decreases s
  {
    var d :| d in s && Sum(s, len) == len(d) + Sum(s - {d}, len);
    if d != c {
      SumWith(s - {d}, len, c);
      assert s - {d} - {c} == s - {c} - {d};
      SumWith(s - {c}, len, d);
    }
  }

  lemma {:induction false} SumWithin(s: set<Cap>, t: set<Cap>, len: Cap -> nat)
    requires s <= t
    ensures Sum(s, len) <= Sum(t, len)
    decreases s
  {
    if s != {} {
      var c :| c in s;
      SumWith(s, len, c);
      SumWith(t, len, c);
      SumWithin(s - {c}, t - {c}, len);
    }
  }

  /** The range of a chosen protocol starts after those of all earlier names. */
  ghost function Offset(s: set<Cap>, len: Cap -> nat, name: string): (o: nat) {
    BASE_PROTOCOL_LENGTH + Sum(ChosenBefore(s, name), len)
  }

  ghost function End(s: set<Cap>, len: Cap -> nat): (o: nat) {
    BASE_PROTOCOL_LENGTH + Sum(Chosen(s), len)
  }

  /** The code lies in the range of `c`. */
  ghost predicate Covers(s: set<Cap>, len: Cap -> nat, c: Cap, code: nat) {
    Best(s, c) && Offset(s, len, c.name) <= code < Offset(s, len, c.name) + len(c)
  }

  lemma {:induction false} BestUnique(s: set<Cap>, c: Cap, d: Cap)
    requires Best(s, c) && Best(s, d) && c.name == d.name
    ensures c == d
  {
  }

  lemma {:induction false} RangesInOrder(s: set<Cap>, len: Cap -> nat, c: Cap, d: Cap)
    requires Best(s, c) && Best(s, d) && Before(c.name, d.name)
    ensures Offset(s, len, c.name) + len(c) <= Offset(s, len, d.name)
  {
    var lower := ChosenBefore(s, c.name);
    BeforeTotal(c.name, c.name);
    forall e | e in lower
      ensures e in ChosenBefore(s, d.name)
    {
      BeforeTrans(e.name, c.name, d.name);
    }
    SumWith(lower + {c}, len, c);
    assert lower + {c} - {c} == lower;
    SumWithin(lower + {c}, ChosenBefore(s, d.name), len);
  }

  /** No code belongs to two protocols. */
  lemma {:induction false} RangesDisjoint(s: set<Cap>, len: Cap -> nat, c: Cap, d: Cap, code: nat)
    requires Covers(s, len, c, code) && Covers(s, len, d, code)
    ensures c == d
  {
    BeforeTotal(c.name, d.name);
    if Before(c.name, d.name) {
      RangesInOrder(s, len, c, d);
    } else if Before(d.name, c.name) {
      RangesInOrder(s, len, d, c);
    } else {
      BestUnique(s, c, d);
    }
  }

  lemma {:induction false} Last(b: set<Cap>) returns (c: Cap)
    requires b != {}
    ensures c in b && forall d | d in b :: !Before(c.name, d.name)
  {
    c :| c in b;
    BeforeTotal(c.name, c.name);
    if b != {c} {
      var e := Last(b - {c});
      if Before(c.name, e.name) {
        forall d | d in b
          ensures !Before(e.name, d.name)
        {
          BeforeTotal(c.name, e.name);
        }
        c := e;
      } else {
        forall d | d in b - {c}
          ensures !Before(c.name, d.name)
        {
          BeforeTotal(c.name, d.name);
          BeforeTotal(e.name, d.name);
          BeforeTotal(c.name, e.name);
          if Before(c.name, d.name) && Before(d.name, e.name) {
            BeforeTrans(c.name, d.name, e.name);
          }
        }
      }
    }
  }

  ghost function Without(s: set<Cap>, name: string): (r: set<Cap>) {
    set c | c in s && c.name != name
  }

  lemma {:induction false} ChosenWithout(s: set<Cap>, top: Cap)
    requires Best(s, top) && forall d | d in Chosen(s) :: !Before(top.name, d.name)
    ensures Chosen(Without(s, top.name)) == ChosenBefore(s, top.name) == Chosen(s) - {top}
  {
    BeforeTotal(top.name, top.name);
    var r := Without(s, top.name);
    forall c
      ensures Best(r, c) <==> Best(s, c) && c.name != top.name
    {
      assert Best(r, c) ==> forall d | d in s && d.name == c.name :: d in r;
    }
    forall c | Best(s, c) && c != top
      ensures Before(c.name, top.name)
    {
      assert c in Chosen(s);
      BeforeTotal(c.name, top.name);
    }
  }

  lemma {:induction false} OffsetWithout(s: set<Cap>, len: Cap -> nat, name: string, c: Cap)
    requires Best(Without(s, name), c) && Before(c.name, name)
    ensures Best(s, c) && Offset(s, len, c.name) == Offset(Without(s, name), len, c.name)
  {
    var r := Without(s, name);
    assert forall d | d in s && d.name == c.name :: d in r;
    forall d
      ensures d in ChosenBefore(s, c.name) <==> d in ChosenBefore(r, c.name)
    {
      BeforeTotal(c.name, name);
      assert d.name != name ==> forall e | e in s && e.name == d.name :: e in r;
    }
    assert ChosenBefore(s, c.name) == ChosenBefore(r, c.name);
  }

  lemma {:induction false} Covered(s: set<Cap>, len: Cap -> nat, code: nat) returns (c: Cap)
    requires BASE_PROTOCOL_LENGTH <= code < End(s, len)
    ensures Covers(s, len, c, code)
    decreases s
  {
    assert Chosen(s) != {};
    var top := Last(Chosen(s));
    ChosenWithout(s, top);
    SumWith(Chosen(s), len, top);
    if code >= Offset(s, len, top.name) {
      c := top;
    } else {
      assert top !in Without(s, top.name);
      c := Covered(Without(s, top.name), len, code);
      assert c in Chosen(Without(s, top.name));
      OffsetWithout(s, len, top.name, c);
    }
  }

  /** The ranges of the chosen protocols tile the codes from 16 up to the sum of their lengths. */
  lemma {:induction false} RangesTile(s: set<Cap>, len: Cap -> nat, code: nat)
    ensures (exists c :: Covers(s, len, c, code)) <==> BASE_PROTOCOL_LENGTH <= code < End(s, len)
  {
    if c :| Covers(s, len, c, code) {
      var lower := ChosenBefore(s, c.name);
      BeforeTotal(c.name, c.name);
      SumWith(lower + {c}, len, c);
      assert lower + {c} - {c} == lower;
      SumWithin(lower + {c}, Chosen(s), len);
    } else if BASE_PROTOCOL_LENGTH <= code < End(s, len) {
      var c := Covered(s, len, code);
    }
  }

  // ---- What one peer computes ----

  /** The first own protocol with this name and version. */
  function FirstMatch(ps: seq<Protocol>, c: Cap): (p: Option<Protocol>)
    ensures p.Some? ==> p.value in ps && CapOf(p.value) == c
    ensures p.None? ==> forall q | q in ps :: CapOf(q) != c
  {
    if ps == [] then None else if CapOf(ps[0]) == c then Some(ps[0]) else FirstMatch(ps[1..], c)
  }

  ghost function Shared(ps: seq<Protocol>, caps: seq<Cap>): (s: set<Cap>) {
    set c | c in caps && FirstMatch(ps, c).Some?
  }

  function LengthIn(ps: seq<Protocol>, c: Cap): (n: nat) {
    var p := FirstMatch(ps, c);
    if p.Some? then p.value.length else 0
  }

  ghost function Lengths(ps: seq<Protocol>): (len: Cap -> nat) {
    c => LengthIn(ps, c)
  }

  /** Exactly the shared names run, each in its highest shared version at its offset. */
  ghost predicate Agreed(result: map<string, Match>, ps: seq<Protocol>, s: set<Cap>) {
    && (forall n | n in result :: exists c :: Best(s, c) && c.name == n)
    && (forall c | Best(s, c) ::
          && c.name in result && FirstMatch(ps, c).Some?
          && result[c.name] == Match(FirstMatch(ps, c).value, Offset(s, Lengths(ps), c.name)))
  }

  /** `c` comes after everything in `s` in the sorting order. */
  ghost predicate Follows(s: set<Cap>, c: Cap) {
    forall d | d in s :: !Less(c, d)
  }

  lemma {:induction false} BestStep(s: set<Cap>, c: Cap)
    requires Follows(s, c)
    ensures Best(s + {c}, c)
    ensures forall d: Cap {:trigger Best(s + {c}, d)} {:trigger Best(s, d)} | d.name != c.name ::
             Best(s + {c}, d) <==> Best(s, d)
    ensures forall d | d in s && d.name != c.name :: Before(d.name, c.name)
  {
    forall d | d in s
      ensures Before(d.name, c.name) || (d.name == c.name && d.version <= c.version)
    {
      BeforeTotal(d.name, c.name);
    }
  }

  lemma {:induction false} ChosenStep(s: set<Cap>, c: Cap)
    requires Follows(s, c)
    ensures Chosen(s + {c}) == ChosenBefore(s, c.name) + {c}
    ensures c !in ChosenBefore(s, c.name)
    ensures forall b | Best(s, b) && b.name == c.name ::
            Chosen(s) == ChosenBefore(s, c.name) + {b} && b !in ChosenBefore(s, c.name)
    ensures (forall b | Best(s, b) :: b.name != c.name) ==> Chosen(s) == ChosenBefore(s, c.name)
  {
    BestStep(s, c);
    BeforeTotal(c.name, c.name);
    forall d | Best(s + {c}, d) && d.name == c.name
      ensures d == c
    {
      BestUnique(s + {c}, c, d);
    }
    forall b, d | Best(s, b) && Best(s, d) && b.name == d.name
      ensures b == d
    {
      BestUnique(s, b, d);
    }
  }

  lemma {:induction false} BeforeStep(s: set<Cap>, c: Cap, name: string)
    requires Follows(s, c) && (name == c.name || Before(name, c.name))
    ensures ChosenBefore(s + {c}, name) == ChosenBefore(s, name)
  {
    BestStep(s, c);
    BeforeTotal(name, c.name);
  }

  /** Dropping the lower version of the same protocol, if any, leaves the offset of `c`. */
  lemma {:induction false} OffsetStep(s: set<Cap>, len: Cap -> nat, c: Cap)
    requires Follows(s, c)
    ensures forall b | Best(s, b) && b.name == c.name :: End(s, len) == Offset(s, len, c.name) + len(b)
    ensures (forall b | Best(s, b) :: b.name != c.name) ==> End(s, len) == Offset(s, len, c.name)
    ensures End(s + {c}, len) == Offset(s, len, c.name) + len(c)
  {
    ChosenStep(s, c);
    var before := ChosenBefore(s, c.name);
    forall b | b !in before
      ensures Sum(before + {b}, len) == len(b) + Sum(before, len)
    {
      SumWith(before + {b}, len, b);
      assert before + {b} - {b} == before;
    }
  }

  /** Entering the new version keeps everything agreed. */
  lemma {:induction false} AgreedStep(result: map<string, Match>, result': map<string, Match>, ps: seq<Protocol>,
                                      s: set<Cap>, c: Cap)
    requires Agreed(result, ps, s) && Follows(s, c) && FirstMatch(ps, c).Some?
    requires result' == result[c.name := Match(FirstMatch(ps, c).value, Offset(s, Lengths(ps), c.name))]
    ensures Agreed(result', ps, s + {c})
  {
    BestStep(s, c);
    forall d | Best(s + {c}, d)
      ensures d.name in result' && FirstMatch(ps, d).Some?
      ensures result'[d.name] == Match(FirstMatch(ps, d).value, Offset(s + {c}, Lengths(ps), d.name))
    {
      BeforeStep(s, c, d.name);
      if d.name == c.name {
        BestUnique(s + {c}, c, d);
      } else {
        assert Best(s, d);
      }
    }
    forall n | n in result'
      ensures exists d :: Best(s + {c}, d) && d.name == n
    {
      if n != c.name {
        var d :| Best(s, d) && d.name == n;
        assert Best(s + {c}, d);
      }
    }
  }

  // ---- The loops ----

  method InsertCap(cs: seq<Cap>, c: Cap) returns (r: seq<Cap>)
    requires Sorted(cs)
    ensures Sorted(r) && multiset(r) == multiset(cs) + multiset{c}
  {
    var i := |cs|;
    while i > 0 && Less(c, cs[i - 1])
      invariant 0 <= i <= |cs|
      invariant forall j | i <= j < |cs| :: Less(c, cs[j])
    {
      i := i - 1;
    }
    r := cs[..i] + [c] + cs[i..];
    InsertedSorted(cs, c, i, r);
    assert cs == cs[..i] + cs[i..];
  }

  lemma {:induction false} LessOrder(a: Cap, b: Cap, c: Cap)
    ensures !(Less(a, b) && Less(b, a))
    ensures Less(a, b) && !Less(c, b) ==> Less(a, c)
  {
    BeforeTotal(a.name, b.name);
    BeforeTotal(b.name, c.name);
    BeforeTotal(a.name, c.name);
    if Before(a.name, b.name) && Before(b.name, c.name) {
      BeforeTrans(a.name, b.name, c.name);
    }
  }

  lemma {:induction false} InsertedSorted(cs: seq<Cap>, c: Cap, i: nat, r: seq<Cap>)
    requires Sorted(cs) && i <= |cs| && r == cs[..i] + [c] + cs[i..]
    requires forall j | i <= j < |cs| :: Less(c, cs[j])
    requires i > 0 ==> !Less(c, cs[i - 1])
    ensures Sorted(r)
  {
    forall j | 0 <= j < i
      ensures !Less(c, cs[j])
    {
      LessOrder(c, cs[j], cs[i - 1]);
    }
    forall j | i <= j < |cs|
      ensures !Less(cs[j], c)
    {
      LessOrder(c, cs[j], c);
    }
  }

  /** Sorts by name, then version. */
  method SortCaps(caps: seq<Cap>) returns (cs: seq<Cap>)
    ensures Sorted(cs) && multiset(cs) == multiset(caps)
  {
    cs := [];
    for i := 0 to |caps|
      invariant Sorted(cs) && multiset(cs) == multiset(caps[..i])
    {
      cs := InsertCap(cs, caps[i]);
      assert caps[..i + 1] == caps[..i] + [caps[i]];
    }
    assert caps[..|caps|] == caps;
  }

  method FindMatch(ps: seq<Protocol>, c: Cap) returns (p: Option<Protocol>)
    ensures p == FirstMatch(ps, c)
  {
    for i := 0 to |ps|
      invariant FirstMatch(ps, c) == FirstMatch(ps[i..], c)
    {
      if CapOf(ps[i]) == c {
        return Some(ps[i]);
      }
      assert ps[i..][1..] == ps[i + 1..];
    }
    return None;
  }

  /** The loop body: enters `c`, replacing an older version of the same protocol. */
  method TakeCap(result: map<string, Match>, offset: nat, ps: seq<Protocol>, c: Cap, ghost s: set<Cap>)
    returns (result': map<string, Match>, offset': nat)
    requires Agreed(result, ps, s) && offset == End(s, Lengths(ps)) && Follows(s, c)
    ensures var s' := s + if FirstMatch(ps, c).Some? then {c} else {};
            Agreed(result', ps, s') && offset' == End(s', Lengths(ps))
  {
    result', offset' := result, offset;
    var proto := FindMatch(ps, c);
    if proto.Some? {
      OffsetStep(s, Lengths(ps), c);
      if c.name in result {
        ghost var b :| Best(s, b) && b.name == c.name;
        assert result[b.name].proto.length == Lengths(ps)(b);
        offset' := offset' - result[c.name].proto.length;
      }
      assert offset' == Offset(s, Lengths(ps), c.name);
      result' := result[c.name := Match(proto.value, offset')];
      AgreedStep(result, result', ps, s, c);
      offset' := offset' + proto.value.length;
    } else {
      assert s + {} == s;
    }
  }

  method MatchProtocols(ps: seq<Protocol>, caps: seq<Cap>) returns (result: map<string, Match>)
    ensures Agreed(result, ps, Shared(ps, caps))
  {
    var cs := SortCaps(caps);
    var offset := BASE_PROTOCOL_LENGTH;
    result := map[];
    ghost var s: set<Cap> := {};
    for i := 0 to |cs|
      invariant s == Shared(ps, cs[..i]) && Agreed(result, ps, s) && offset == End(s, Lengths(ps))
    {
      SharedSnoc(ps, cs, i);
      result, offset := TakeCap(result, offset, ps, cs[i], s);
      s := Shared(ps, cs[..i + 1]);
    }
    SharedPermuted(ps, cs, caps);
  }

  lemma {:induction false} SharedPermuted(ps: seq<Protocol>, cs: seq<Cap>, caps: seq<Cap>)
    requires multiset(cs) == multiset(caps)
    ensures Shared(ps, cs[..|cs|]) == Shared(ps, caps)
  {
    assert cs[..|cs|] == cs;
    assert forall c :: c in cs <==> c in multiset(cs);
    assert forall c :: c in caps <==> c in multiset(caps);
  }

  lemma {:induction false} SharedSnoc(ps: seq<Protocol>, cs: seq<Cap>, i: nat)
    requires i < |cs| && Sorted(cs)
    ensures Follows(Shared(ps, cs[..i]), cs[i])
    ensures Shared(ps, cs[..i + 1]) == Shared(ps, cs[..i]) + if FirstMatch(ps, cs[i]).Some? then {cs[i]} else {}
  {
    assert cs[..i + 1] == cs[..i] + [cs[i]];
  }

  // ---- Routing by message code ----

  predicate InRange(m: Match, code: nat) {
    m.offset <= code < m.offset + m.proto.length
  }

  /** The protocol responsible for a code, whatever order the map is walked in. */
  method GetProto(running: map<string, Match>, code: nat) returns (name: Option<string>)
    ensures name.Some? ==> name.value in running && InRange(running[name.value], code)
    ensures name.None? ==> forall n | n in running :: !InRange(running[n], code)
  {
    var rest := running.Keys;
    while rest != {}
      invariant rest <= running.Keys
      invariant forall n | n in running && n !in rest :: !InRange(running[n], code)
      decreases rest
    {
      var n :| n in rest;
      rest := rest - {n};
      if InRange(running[n], code) {
        return Some(n);
      }
    }
    return None;
  }

  /** A protocol writes codes below its length, shifted by its offset. */
  function WriteCode(m: Match, code: nat): (wire: Option<nat>) {
    if code >= m.proto.length then None else Some(code + m.offset)
  }

  function ReadCode(m: Match, wire: nat): (code: int) {
    wire - m.offset
  }

  lemma {:induction false} InRangeCovers(result: map<string, Match>, ps: seq<Protocol>, s: set<Cap>, c: Cap, code: nat)
    requires Agreed(result, ps, s) && Best(s, c)
    ensures InRange(result[c.name], code) <==> Covers(s, Lengths(ps), c, code)
  {
  }

  /** At most one running protocol takes a code, and one does exactly for the codes from
      16 up to the end of the last range. */
  lemma {:induction false} RoutingUnique(result: map<string, Match>, ps: seq<Protocol>, s: set<Cap>, code: nat)
    requires Agreed(result, ps, s)
    ensures forall n, m | n in result && m in result && InRange(result[n], code) && InRange(result[m], code) :: n == m
    ensures (exists n :: n in result && InRange(result[n], code))
            <==> BASE_PROTOCOL_LENGTH <= code < End(s, Lengths(ps))
  {
    var len := Lengths(ps);
    forall n, m | n in result && m in result && InRange(result[n], code) && InRange(result[m], code)
      ensures n == m
    {
      var c :| Best(s, c) && c.name == n;
      var d :| Best(s, d) && d.name == m;
      InRangeCovers(result, ps, s, c, code);
      InRangeCovers(result, ps, s, d, code);
      RangesDisjoint(s, len, c, d, code);
    }
    RangesTile(s, len, code);
    if n :| n in result && InRange(result[n], code) {
      var c :| Best(s, c) && c.name == n;
      InRangeCovers(result, ps, s, c, code);
    }
    if c :| Covers(s, len, c, code) {
      InRangeCovers(result, ps, s, c, code);
      assert c.name in result && InRange(result[c.name], code);
    }
  }

  // ---- Two peers ----

  /** What a peer advertises: its own protocols. */
  ghost function Advertised(ps: seq<Protocol>): (caps: seq<Cap>) {
    seq(|ps|, i requires 0 <= i < |ps| => CapOf(ps[i]))
  }

  /** Name and version fix the number of message codes. */
  ghost predicate SameLengths(pa: seq<Protocol>, pb: seq<Protocol>) {
    forall p, q | p in pa && q in pb && CapOf(p) == CapOf(q) :: p.length == q.length
  }

  lemma {:induction false} AdvertisedHas(ps: seq<Protocol>, c: Cap)
    ensures c in Advertised(ps) <==> FirstMatch(ps, c).Some?
  {
    var caps := Advertised(ps);
    if c in caps {
      var i :| 0 <= i < |caps| && caps[i] == c;
      assert ps[i] in ps;
    }
    if FirstMatch(ps, c).Some? {
      var p := FirstMatch(ps, c).value;
      var i :| 0 <= i < |ps| && ps[i] == p;
      assert caps[i] == c;
    }
  }

  /** Both peers see the same shared capabilities. */
  lemma {:induction false} SharedSymmetric(pa: seq<Protocol>, pb: seq<Protocol>)
    ensures Shared(pa, Advertised(pb)) == Shared(pb, Advertised(pa))
  {
    forall c
      ensures c in Shared(pa, Advertised(pb)) <==> c in Shared(pb, Advertised(pa))
    {
      AdvertisedHas(pa, c);
      AdvertisedHas(pb, c);
    }
  }

  lemma {:induction false} SumSame(s: set<Cap>, len: Cap -> nat, len': Cap -> nat)
    requires forall c | c in s :: len(c) == len'(c)
    ensures Sum(s, len) == Sum(s, len')
    decreases s
  {
    if s != {} {
      var c :| c in s;
      SumWith(s, len, c);
      SumWith(s, len', c);
      SumSame(s - {c}, len, len');
    }
  }

  /** Both sides of one protocol. */
  predicate Mirrored(x: Match, y: Match) {
    CapOf(x.proto) == CapOf(y.proto) && x.offset == y.offset && x.proto.length == y.proto.length
  }

  /** Matched against each other's advertisements, both peers run the same protocols in
      the same versions over the same code ranges. */
  lemma {:induction false} PeersAgree(pa: seq<Protocol>, pb: seq<Protocol>, ra: map<string, Match>,
                                      rb: map<string, Match>, n: string)
    requires SameLengths(pa, pb)
    requires Agreed(ra, pa, Shared(pa, Advertised(pb))) && Agreed(rb, pb, Shared(pb, Advertised(pa)))
    ensures n in ra <==> n in rb
    ensures n in ra && n in rb ==> Mirrored(ra[n], rb[n])
  {
    SharedSymmetric(pa, pb);
    var s := Shared(pa, Advertised(pb));
    if n in ra || n in rb {
      var c :| Best(s, c) && c.name == n;
      OffsetsSame(pa, pb, s, n);
    }
  }

  lemma {:induction false} OffsetsSame(pa: seq<Protocol>, pb: seq<Protocol>, s: set<Cap>, name: string)
    requires SameLengths(pa, pb) && forall c | c in s :: FirstMatch(pa, c).Some? && FirstMatch(pb, c).Some?
    ensures Offset(s, Lengths(pa), name) == Offset(s, Lengths(pb), name)
  {
    SumSame(ChosenBefore(s, name), Lengths(pa), Lengths(pb));
  }

  /** Of a protocol both sides have, no version is passed over for a lower one; what runs is
      one's own and was advertised. */
  lemma {:induction false} RunsHighest(ps: seq<Protocol>, caps: seq<Cap>, result: map<string, Match>, p: Protocol)
    requires Agreed(result, ps, Shared(ps, caps)) && p in ps && CapOf(p) in caps
    ensures p.name in result && result[p.name].proto.version >= p.version
    ensures var q := result[p.name].proto; q in ps && CapOf(q) in caps && q.name == p.name
  {
    var s := Shared(ps, caps);
    var c := Highest(s, CapOf(p));
    assert Best(s, c) && c.name == p.name;
  }

  ghost function Above(s: set<Cap>, c: Cap): (higher: set<Cap>) {
    set d | d in s && d.name == c.name && d.version > c.version
  }

  lemma {:induction false} Highest(s: set<Cap>, c: Cap) returns (b: Cap)
    requires c in s
    ensures Best(s, b) && b.name == c.name && b.version >= c.version
    decreases Above(s, c)
  {
    if d :| d in Above(s, c) {
      assert d !in Above(s, d) && Above(s, d) <= Above(s, c);
      b := Highest(s, d);
    } else {
      assert forall d | d in s && d.name == c.name :: d !in Above(s, c);
      b := c;
    }
  }

  /** The ranges follow the order of the names. */
  lemma {:induction false} NameOrder(ps: seq<Protocol>, s: set<Cap>, result: map<string, Match>, a: string, b: string)
    requires Agreed(result, ps, s) && a in result && b in result && Before(a, b)
    ensures 16 <= result[a].offset && result[a].offset + result[a].proto.length <= result[b].offset
  {
    var c :| Best(s, c) && c.name == a;
    var d :| Best(s, d) && d.name == b;
    RangesInOrder(s, Lengths(ps), c, d);
  }

  lemma {:induction false} CodeArrives(pa: seq<Protocol>, pb: seq<Protocol>, ra: map<string, Match>,
                                       rb: map<string, Match>, n: string, code: nat, wire: nat)
    requires SameLengths(pa, pb)
    requires Agreed(ra, pa, Shared(pa, Advertised(pb))) && Agreed(rb, pb, Shared(pb, Advertised(pa)))
    requires n in ra && WriteCode(ra[n], code) == Some(wire)
    ensures n in rb && InRange(rb[n], wire) && ReadCode(rb[n], wire) == code
    ensures forall m | m in rb && InRange(rb[m], wire) :: m == n
  {
    PeersAgree(pa, pb, ra, rb, n);
    RoutingUnique(rb, pb, Shared(pb, Advertised(pa)), wire);
  }

  /** A code below the length of a running protocol is written, reaches the same protocol on the
      other side and no other, and is the same code there; other codes are not written. */
  lemma {:induction false} CodesTravel(pa: seq<Protocol>, pb: seq<Protocol>, ra: map<string, Match>,
                                       rb: map<string, Match>, n: string, code: nat)
    requires SameLengths(pa, pb)
    requires Agreed(ra, pa, Shared(pa, Advertised(pb))) && Agreed(rb, pb, Shared(pb, Advertised(pa)))
    requires n in ra
    ensures WriteCode(ra[n], code).Some? <==> code < ra[n].proto.length
    ensures code < ra[n].proto.length ==>
              var wire := WriteCode(ra[n], code).value;
              && n in rb && InRange(rb[n], wire) && ReadCode(rb[n], wire) == code
              && forall m | m in rb && InRange(rb[m], wire) :: m == n
  {
    if code < ra[n].proto.length {
      CodeArrives(pa, pb, ra, rb, n, code, code + ra[n].offset);
    }
  }
}
