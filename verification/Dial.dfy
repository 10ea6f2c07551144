/** Scheduling outgoing connections: which nodes to dial, when to look up more of them,
    and what holds over whole runs of the scheduler. */
module Dial {

  type Id = nat

  /** Nanoseconds. */
  type Time = int

  const SECOND := 1_000_000_000
  const DIAL_HISTORY_EXPIRATION := 30 * SECOND

  datatype PastDial = PastDial(id: Id, exp: Time)

  datatype Task =
    | DialTask(dyn: bool, dest: Id)
    | DiscoverTask(bootstrap: bool, results: seq<Id>)
    | WaitExpireTask(duration: int)

  /** The scheduler's state as a value; `dialing` says of each dial whether it is dynamic. */
  datatype Sched = Sched(dialing: map<Id, bool>, hist: seq<PastDial>, lookupRunning: bool, bootstrapped: bool,
                         lookupBuf: seq<Id>)

  ghost predicate InHist(hist: seq<PastDial>, id: Id) {
    exists i :: 0 <= i < |hist| && hist[i].id == id
  }

  /** The connections of a map that were dialed dynamically. */
  ghost function Dyn(m: map<Id, bool>): (s: set<Id>) {
    set i | i in m && m[i]
  }

  /** Dynamic dials still wanted. */
  ghost function Needed(max: nat, peers: map<Id, bool>, dialing: map<Id, bool>): (n: int) {
    max - |Dyn(peers)| - |Dyn(dialing)|
  }

  /** Nodes that must not be dialed now. */
  ghost predicate Busy(s: Sched, peers: map<Id, bool>, id: Id) {
    id in s.dialing || id in peers || InHist(s.hist, id)
  }

  // ---- What one round of planning does ----

  /** Exactly the entries whose time has passed are gone. */
  ghost predicate Expired(hist: seq<PastDial>, hist': seq<PastDial>, now: Time) {
    forall e :: multiset(hist')[e] == if e.exp < now then 0 else multiset(hist)[e]
  }

  /** The dial to `id` is new and allowed. */
  ghost predicate Allowed(dialing: map<Id, bool>, s': Sched, peers: map<Id, bool>, t: Task) {
    t.DialTask? && t.dest !in dialing && t.dest !in peers && !InHist(s'.hist, t.dest)
    && t.dest in s'.dialing && s'.dialing[t.dest] == t.dyn
  }

  /** The new dials are `dials`, one per node, all of them allowed; the old ones go on. */
  ghost predicate NewDials(dialing: map<Id, bool>, s': Sched, peers: map<Id, bool>, dials: seq<Task>) {
    && (forall i | 0 <= i < |dials| :: Allowed(dialing, s', peers, dials[i]))
    && (forall i, j | 0 <= i < j < |dials| && dials[i].DialTask? && dials[j].DialTask? ::
       dials[i].dest != dials[j].dest)
    && (forall id | id in dialing :: id in s'.dialing && s'.dialing[id] == dialing[id])
    && (forall id | id in s'.dialing && id !in dialing :: DialTask(s'.dialing[id], id) in dials)
  }

  lemma {:induction false} NewDialsStep(dialing: map<Id, bool>, s: Sched, s': Sched, peers: map<Id, bool>,
                                        dials: seq<Task>, dyn: bool, id: Id)
    requires NewDials(dialing, s, peers, dials) && !Busy(s, peers, id) && s' == s.(dialing := s.dialing[id := dyn])
    ensures NewDials(dialing, s', peers, dials + [DialTask(dyn, id)])
  {
    var dials' := dials + [DialTask(dyn, id)];
    forall i | 0 <= i < |dials'|
      ensures Allowed(dialing, s', peers, dials'[i])
    {
      assert i < |dials| ==> Allowed(dialing, s, peers, dials[i]);
    }
    forall n | n in s'.dialing && n !in dialing
      ensures DialTask(s'.dialing[n], n) in dials'
    {
      if n != id {
        assert DialTask(s.dialing[n], n) in dials;
      }
    }
  }

  lemma {:induction false} DynAdd(m: map<Id, bool>, id: Id, dyn: bool)
    requires id !in m
    ensures |Dyn(m[id := dyn])| == |Dyn(m)| + if dyn then 1 else 0
  {
    assert Dyn(m[id := dyn]) == Dyn(m) + if dyn then {id} else {};
  }

  ghost predicate TriedFirst(s: Sched, s': Sched, peers: map<Id, bool>, need: int, k: nat) {
    && k <= |s.lookupBuf| && s'.lookupBuf == s.lookupBuf[k..]
    && (forall i | 0 <= i < k :: Busy(s', peers, s.lookupBuf[i]))
    && (k < |s.lookupBuf| ==> need <= 0)
  }

  /** Lookup results are tried from the front until enough dials are under way. */
  ghost predicate Tried(s: Sched, s': Sched, peers: map<Id, bool>, need: int) {
    exists k :: TriedFirst(s, s', peers, need, k)
  }

  /** The earliest time in the history. */
  ghost predicate Earliest(hist: seq<PastDial>, exp: Time) {
    (exists i :: 0 <= i < |hist| && hist[i].exp == exp) && forall i | 0 <= i < |hist| :: exp <= hist[i].exp
  }

  /** The dials of one round: static nodes first, then dynamic ones within the limit. */
  ghost predicate PlannedDials(max: nat, statics: set<Id>, s: Sched, s': Sched, peers: map<Id, bool>,
                               dials: seq<Task>) {
    var need := Needed(max, peers, s'.dialing);
    && NewDials(s.dialing, s', peers, dials)
    && (Dyn(s'.dialing) == Dyn(s.dialing) || need >= 0)
    && (forall id | id in statics :: Busy(s', peers, id))
    && Tried(s, s', peers, need)
  }

  /** The random nodes are tried for half of the wanted dials once the table is set up. */
  ghost predicate RandomTried(max: nat, s: Sched, s': Sched, peers: map<Id, bool>, random: seq<Id>) {
    s.bootstrapped ==> forall i | 0 <= i < Needed(max, peers, s.dialing) / 2 && i < |random| ::
      Busy(s', peers, random[i])
  }

  /** Nodes stay busy while more dials are planned. */
  lemma {:induction false} BusyGrows(max: nat, statics: set<Id>, s: Sched, m: Sched, s': Sched, peers: map<Id, bool>,
                                     random: seq<Id>, need: int)
    requires m.dialing.Keys <= s'.dialing.Keys && m.hist == s'.hist && m.lookupBuf == s.lookupBuf
    requires (forall id | id in statics :: Busy(m, peers, id)) && RandomTried(max, s, m, peers, random)
             && Tried(m, s', peers, need)
    ensures (forall id | id in statics :: Busy(s', peers, id)) && RandomTried(max, s, s', peers, random)
            && Tried(s, s', peers, need)
  {
    assert forall id :: Busy(m, peers, id) ==> Busy(s', peers, id);
    var k :| TriedFirst(m, s', peers, need, k);
    assert TriedFirst(s, s', peers, need, k);
  }

  /** After the dials, a lookup if results run short, and a timer if nothing else runs. */
  ghost predicate PlannedRest(lookup: bool, s': Sched, nRunning: nat, now: Time, tasks: seq<Task>, dials: seq<Task>) {
    var found := dials + if lookup then [DiscoverTask(!s'.bootstrapped, [])] else [];
    if nRunning == 0 && found == [] && s'.hist != []
    then exists exp :: Earliest(s'.hist, exp) && exp >= now && tasks == [WaitExpireTask(exp - now)]
    else tasks == found
  }

  /** One round of planning at time `now`. */
  ghost predicate Planned(max: nat, statics: set<Id>, s: Sched, s': Sched, peers: map<Id, bool>, nRunning: nat,
                          now: Time, tasks: seq<Task>, dials: seq<Task>)
  {
    var lookup := |s'.lookupBuf| < Needed(max, peers, s'.dialing) && !s.lookupRunning;
    && Expired(s.hist, s'.hist, now)
    && PlannedDials(max, statics, s, s', peers, dials)
    && s'.lookupRunning == (s.lookupRunning || lookup) && s'.bootstrapped == s.bootstrapped
    && PlannedRest(lookup, s', nRunning, now, tasks, dials)
  }

  /** The lookup flag does not matter to the dials. */
  lemma {:induction false} PlannedDialsAlike(max: nat, statics: set<Id>, s: Sched, s': Sched, t: Sched, t': Sched,
                                             peers: map<Id, bool>, dials: seq<Task>)
    requires PlannedDials(max, statics, s, s', peers, dials)
    requires t.dialing == s.dialing && t.lookupBuf == s.lookupBuf
    requires t'.dialing == s'.dialing && t'.lookupBuf == s'.lookupBuf && t'.hist == s'.hist
    ensures PlannedDials(max, statics, t, t', peers, dials)
  {
    assert forall id :: Busy(s', peers, id) <==> Busy(t', peers, id);
    forall i | 0 <= i < |dials|
      ensures Allowed(s.dialing, t', peers, dials[i])
    {
      assert Allowed(s.dialing, s', peers, dials[i]);
    }
    var k :| TriedFirst(s, s', peers, Needed(max, peers, s'.dialing), k);
    assert TriedFirst(t, t', peers, Needed(max, peers, s'.dialing), k);
  }

  /** An idle scheduler that remembers a dial always has something to run. */
  lemma {:induction false} IdleEmitsTask(max: nat, statics: set<Id>, s: Sched, s': Sched, peers: map<Id, bool>,
                                         now: Time, tasks: seq<Task>, dials: seq<Task>)
    requires Planned(max, statics, s, s', peers, 0, now, tasks, dials) && s'.hist != []
    ensures tasks != []
  {
  }

  // ---- What a finished task does ----

  ghost function Finished(s: Sched, t: Task, now: Time): (s': Sched) {
    match t
    case DialTask(_, dest) => s.(hist := s.hist + [PastDial(dest, now + DIAL_HISTORY_EXPIRATION)],
      dialing := s.dialing - {dest})
    case DiscoverTask(bootstrap, results) =>
      s.(bootstrapped := s.bootstrapped || bootstrap, lookupRunning := false, lookupBuf := s.lookupBuf + results)
    case WaitExpireTask(_) => s
  }

  // ---- The scheduler ----

  method CountDyn(m: map<Id, bool>) returns (n: nat)
    ensures n == |Dyn(m)|
  {
    n := 0;
    var rest := m.Keys;
    ghost var seen: set<Id> := {};
    while rest != {}
      invariant rest <= m.Keys && n == |seen|
      invariant seen == set i | i in m && i !in rest && m[i]
      decreases rest
    {
      var i :| i in rest;
      rest := rest - {i};
      if m[i] {
        n := n + 1;
        seen := seen + {i};
      }
    }
    assert seen == Dyn(m);
  }

  class DialState {
    const maxDynDials: nat

    var lookupRunning: bool
    var bootstrapped: bool
    var dialing: map<Id, bool>
    var lookupBuf: seq<Id>
    var statics: set<Id>
    var hist: seq<PastDial>

    ghost function Value(): (s: Sched)
      reads this
    {
      Sched(dialing, hist, lookupRunning, bootstrapped, lookupBuf)
    }

    constructor (statics: set<Id>, maxDynDials: nat)
      ensures this.statics == statics && this.maxDynDials == maxDynDials
      ensures Value() == Sched(map[], [], false, false, [])
    {
      this.maxDynDials, this.statics := maxDynDials, statics;
      lookupRunning, bootstrapped, dialing, lookupBuf, hist := false, false, map[], [], [];
    }

    method AddStatic(id: Id)
      modifies `statics
      ensures statics == old(statics) + {id}
    {
      statics := statics + {id};
    }

    /** The position of an entry that expires first. */
    method Min() returns (k: nat)
      requires hist != []
      ensures k < |hist| && forall i | 0 <= i < |hist| :: hist[k].exp <= hist[i].exp
    {
      k := 0;
      for i := 1 to |hist|
        invariant k < i && forall j | 0 <= j < i :: hist[k].exp <= hist[j].exp
      {
        if hist[i].exp < hist[k].exp {
          k := i;
        }
      }
    }

    method Contains(id: Id) returns (b: bool)
      ensures b == InHist(hist, id)
    {
      for i := 0 to |hist|
        invariant forall j | 0 <= j < i :: hist[j].id != id
      {
        if hist[i].id == id {
          return true;
        }
      }
      return false;
    }

    /** Forgets the dials whose time has passed. */
    method Expire(now: Time)
      modifies `hist
      ensures Expired(old(hist), hist, now)
      ensures forall i | 0 <= i < |hist| :: hist[i].exp >= now
    {
      while hist != []
        invariant forall e ::
                   multiset(hist)[e] == multiset(old(hist))[e]
                   || (e.exp < now && multiset(hist)[e] <= multiset(old(hist))[e])
        decreases |hist|
      {
        var k := Min();
        if hist[k].exp >= now {
          break;
        }
        assert hist == hist[..k] + [hist[k]] + hist[k + 1..];
        hist := hist[..k] + hist[k + 1..];
      }
      NoneExpired(old(hist), hist, now);
    }

    /** Plans a dial unless the node is busy. */
    method AddDial(dyn: bool, id: Id, peers: map<Id, bool>, tasks: seq<Task>) returns (ok: bool, tasks': seq<Task>)
      modifies `dialing
      ensures ok <==> !Busy(old(Value()), peers, id)
      ensures dialing == if ok then old(dialing)[id := dyn] else old(dialing)
      ensures tasks' == if ok then tasks + [DialTask(dyn, id)] else tasks
      ensures Busy(Value(), peers, id)
    {
      tasks' := tasks;
      var known := Contains(id);
      if id in dialing || id in peers || known {
        return false, tasks;
      }
      dialing := dialing[id := dyn];
      return true, tasks + [DialTask(dyn, id)];
    }

    /** Since the round began with the dials `d0`, exactly `tasks` were planned, and
        `need` more dynamic dials are wanted. */
    ghost predicate Going(d0: map<Id, bool>, peers: map<Id, bool>, tasks: seq<Task>, need: int)
      reads this
    {
      NewDials(d0, Value(), peers, tasks) && need == Needed(maxDynDials, peers, dialing)
    }

    /** Tries to dial one node, counting down the dynamic dials. */
    method TryDial(dyn: bool, id: Id, peers: map<Id, bool>, tasks: seq<Task>, need: int, ghost d0: map<Id, bool>)
      returns (tasks': seq<Task>, need': int)
      requires Going(d0, peers, tasks, need)
      modifies `dialing
      ensures Going(d0, peers, tasks', need')
      ensures Busy(Value(), peers, id) && old(dialing).Keys <= dialing.Keys
      ensures need' == need || (dyn && need' == need - 1)
      ensures need' == need ==> Dyn(dialing) == Dyn(old(dialing))
    {
      ghost var s := Value();
      var ok;
      ok, tasks' := AddDial(dyn, id, peers, tasks);
      need' := need;
      if ok {
        NewDialsStep(d0, s, Value(), peers, tasks, dyn, id);
        DynAdd(s.dialing, id, dyn);
        assert !dyn ==> Dyn(dialing) == Dyn(s.dialing);
        if dyn {
          need' := need - 1;
        }
      }
    }

    /** Dials the static nodes that are not busy. */
    method DialStatics(peers: map<Id, bool>, tasks: seq<Task>, need: int, ghost d0: map<Id, bool>)
      returns (tasks': seq<Task>)
      requires Going(d0, peers, tasks, need)
      modifies `dialing
      ensures Going(d0, peers, tasks', need) && Dyn(dialing) == Dyn(old(dialing))
      ensures forall id | id in statics :: Busy(Value(), peers, id)
    {
      tasks' := tasks;
      var rest := statics;
      while rest != {}
        invariant Going(d0, peers, tasks', need) && Dyn(dialing) == Dyn(old(dialing))
        invariant forall id | id in statics && id !in rest :: Busy(Value(), peers, id)
        decreases rest
      {
        var id :| id in rest;
        rest := rest - {id};
        var same;
        tasks', same := TryDial(false, id, peers, tasks', need, d0);
      }
    }

    /** Uses random nodes from the table for up to half of the wanted dynamic dials. */
    method DialRandom(random: seq<Id>, peers: map<Id, bool>, tasks: seq<Task>, need: int, ghost d0: map<Id, bool>)
      returns (tasks': seq<Task>, need': int)
      requires Going(d0, peers, tasks, need)
      modifies `dialing
      ensures Going(d0, peers, tasks', need') && (Dyn(dialing) == Dyn(old(dialing)) || need' >= 0)
      ensures old(dialing).Keys <= dialing.Keys
      ensures bootstrapped ==> forall i | 0 <= i < need / 2 && i < |random| :: Busy(Value(), peers, random[i])
      ensures need' <= need && (need' < need ==> bootstrapped && need - need' <= need / 2)
    {
      tasks', need' := tasks, need;
      var candidates := need / 2;
      if candidates > 0 && bootstrapped {
        var i := 0;
        while i < candidates && i < |random|
          invariant 0 <= i <= candidates && need - i <= need' <= need && Going(d0, peers, tasks', need')
          invariant old(dialing).Keys <= dialing.Keys
          invariant forall j | 0 <= j < i && j < |random| :: Busy(Value(), peers, random[j])
        {
          tasks', need' := TryDial(true, random[i], peers, tasks', need', d0);
          i := i + 1;
        }
      }
    }

    /** Uses lookup results while dynamic dials are wanted, dropping those tried. */
    method DialFound(peers: map<Id, bool>, tasks: seq<Task>, need: int, ghost d0: map<Id, bool>)
      returns (tasks': seq<Task>, need': int)
      requires Going(d0, peers, tasks, need)
      modifies `dialing, `lookupBuf
      ensures Going(d0, peers, tasks', need') && (Dyn(dialing) == Dyn(old(dialing)) || need' >= 0)
      ensures Tried(old(Value()), Value(), peers, need')
      ensures old(dialing).Keys <= dialing.Keys
    {
      tasks', need' := tasks, need;
      var i := 0;
      while i < |lookupBuf| && need' > 0
        invariant 0 <= i <= |lookupBuf| && lookupBuf == old(lookupBuf) && Going(d0, peers, tasks', need')
        invariant Dyn(dialing) == Dyn(old(dialing)) || need' >= 0
        invariant forall j | 0 <= j < i :: Busy(Value(), peers, lookupBuf[j])
        invariant old(dialing).Keys <= dialing.Keys
      {
        tasks', need' := TryDial(true, lookupBuf[i], peers, tasks', need', d0);
        i := i + 1;
      }
      lookupBuf := lookupBuf[i..];
      assert TriedFirst(old(Value()), Value(), peers, need', i);
    }

    /** Static nodes first, then random ones. */
    method DialKnown(peers: map<Id, bool>, random: seq<Id>, need: int) returns (tasks: seq<Task>, need': int)
      requires need == Needed(maxDynDials, peers, dialing)
      modifies `dialing
      ensures Going(old(dialing), peers, tasks, need') && (Dyn(dialing) == Dyn(old(dialing)) || need' >= 0)
      ensures forall id | id in statics :: Busy(Value(), peers, id)
      ensures RandomTried(maxDynDials, old(Value()), Value(), peers, random)
    {
      ghost var d0 := dialing;
      tasks := DialStatics(peers, [], need, d0);
      tasks, need' := DialRandom(random, peers, tasks, need, d0);
    }

    /** The dials of the next round, and how many dynamic ones are still wanted. */
    method PlanDials(peers: map<Id, bool>, random: seq<Id>) returns (tasks: seq<Task>, need: int)
      modifies `dialing, `lookupBuf
      ensures need == Needed(maxDynDials, peers, dialing)
      ensures PlannedDials(maxDynDials, statics, old(Value()), Value(), peers, tasks)
      ensures RandomTried(maxDynDials, old(Value()), Value(), peers, random)
    {
      ghost var s := Value();
      var dynPeers := CountDyn(peers);
      var dynDials := CountDyn(dialing);
      tasks, need := DialKnown(peers, random, maxDynDials - dynPeers - dynDials);
      ghost var m := Value();
      tasks, need := DialFound(peers, tasks, need, s.dialing);
      BusyGrows(maxDynDials, statics, s, m, Value(), peers, random, need);
    }

    /** Adds a lookup or a timer to the dials. */
    method AddRest(nRunning: nat, dials: seq<Task>, need: int, now: Time) returns (tasks: seq<Task>)
      requires forall i | 0 <= i < |hist| :: hist[i].exp >= now
      modifies `lookupRunning
      ensures var lookup := |lookupBuf| < need && !old(lookupRunning);
              lookupRunning == (old(lookupRunning) || lookup)
                && PlannedRest(lookup, Value(), nRunning, now, tasks, dials)
    {
      tasks := dials;
      if |lookupBuf| < need && !lookupRunning {
        lookupRunning := true;
        tasks := tasks + [DiscoverTask(!bootstrapped, [])];
      }
      if nRunning == 0 && |tasks| == 0 && |hist| > 0 {
        var k := Min();
        tasks := tasks + [WaitExpireTask(hist[k].exp - now)];
        assert Earliest(hist, hist[k].exp);
      }
    }

    /** Plans the next round of tasks. */
    method NewTasks(nRunning: nat, peers: map<Id, bool>, random: seq<Id>, now: Time)
      returns (tasks: seq<Task>, ghost dials: seq<Task>)
      modifies `dialing, `hist, `lookupRunning, `lookupBuf
      ensures Planned(maxDynDials, statics, old(Value()), Value(), peers, nRunning, now, tasks, dials)
      ensures RandomTried(maxDynDials, old(Value()), Value(), peers, random)
    {
      Expire(now);
      ghost var s := Value();
      var need;
      tasks, need := PlanDials(peers, random);
      ghost var s' := Value();
      dials := tasks;
      tasks := AddRest(nRunning, tasks, need, now);
      PlannedDialsAlike(maxDynDials, statics, s, s', old(Value()), Value(), peers, dials);
      assert forall id :: Busy(s', peers, id) ==> Busy(Value(), peers, id);
    }

    /** Books a finished task. */
    method TaskDone(t: Task, now: Time)
      modifies `dialing, `hist, `bootstrapped, `lookupRunning, `lookupBuf
      ensures Value() == Finished(old(Value()), t, now)
    {
      match t
      case DialTask(_, dest) =>
        hist := hist + [PastDial(dest, now + DIAL_HISTORY_EXPIRATION)];
        dialing := dialing - {dest};
      case DiscoverTask(bootstrap, results) =>
        if bootstrap {
          bootstrapped := true;
        }
        lookupRunning := false;
        lookupBuf := lookupBuf + results;
      case WaitExpireTask(_) =>
    }
  }

  lemma {:induction false} NoneExpired(hist: seq<PastDial>, hist': seq<PastDial>, now: Time)
    requires forall e ::
              multiset(hist')[e] == multiset(hist)[e] || (e.exp < now && multiset(hist')[e] <= multiset(hist)[e])
    requires forall i | 0 <= i < |hist'| :: hist'[i].exp >= now
    ensures Expired(hist, hist', now)
  {
    forall e: PastDial | e.exp < now
      ensures multiset(hist')[e] == 0
    {
      assert e !in hist';
    }
  }
}
