/** Whole runs of the dial scheduler: planning rounds, finished tasks and changing peers
    in any order, with time never going back. */
module DialRuns {
  import opened Dial
  import opened Sets

  /** The scheduler with everything in flight: running dials, lookups and timers, the
      connected peers, and all dials that ever finished with the times booked for them. */
  datatype System = System(sched: Sched, dials: multiset<Id>, lookups: nat, timers: nat, peers: map<Id, bool>,
                           done: set<(Id, Time)>, clock: Time)

  /** The number of tasks in flight. */
  function InFlight(y: System): (n: nat) {
    |y.dials| + y.lookups + y.timers
  }

  datatype Event =
    | Plan(statics: set<Id>, now: Time, tasks: seq<Task>, dials: seq<Task>)
    | DialDone(id: Id, at: Time)
    | LookupDone(bootstrap: bool, results: seq<Id>)
    | TimerDone
    | Joined(id: Id, dyn: bool)
    | Left(id: Id)

  /** The nodes a list of tasks dials, each as often as it is dialed. */
  ghost function Dests(tasks: seq<Task>): (m: multiset<Id>) {
    if tasks == [] then multiset{}
    else
      var last := tasks[|tasks| - 1];
      Dests(tasks[..|tasks| - 1]) + if last.DialTask? then multiset{last.dest} else multiset{}
  }

  ghost function Lookups(tasks: seq<Task>): (n: nat) {
    if tasks == [] then 0 else Lookups(tasks[..|tasks| - 1]) + if tasks[|tasks| - 1].DiscoverTask? then 1 else 0
  }

  ghost function Timers(tasks: seq<Task>): (n: nat) {
    if tasks == [] then 0 else Timers(tasks[..|tasks| - 1]) + if tasks[|tasks| - 1].WaitExpireTask? then 1 else 0
  }

  /** One event. Planning counts everything in flight as running. A peer counts as
      dynamically dialed only while its dial is in flight
      when it joins; peers may leave at any time. */
  ghost predicate Next(max: nat, y: System, e: Event, y': System) {
    match e
    case Plan(statics, now, tasks, dials) =>
      && y.clock <= now
      && Planned(max, statics, y.sched, y'.sched, y.peers, InFlight(y), now, tasks, dials)
      && y' == y.(sched := y'.sched, dials := y.dials + Dests(tasks), lookups := y.lookups + Lookups(tasks),
                  timers := y.timers + Timers(tasks), clock := now)
    case DialDone(id, at) =>
      && id in y.dials && y.clock <= at
      && y' == y.(sched := Finished(y.sched, DialTask(false, id), at), dials := y.dials - multiset{id},
                  done := y.done + {(id, at)}, clock := at)
    case LookupDone(bootstrap, results) =>
      && y.lookups > 0
      && y' == y.(sched := Finished(y.sched, DiscoverTask(bootstrap, results), y.clock), lookups := y.lookups - 1)
    case TimerDone => y.timers > 0 && y' == y.(timers := y.timers - 1)
    case Joined(id, dyn) =>
      && id !in y.peers && (dyn ==> id in y.sched.dialing && y.sched.dialing[id])
      && y' == y.(peers := y.peers[id := dyn])
    case Left(id) => y' == y.(peers := y.peers - {id})
  }

  /** The last finish of a dial is remembered until more than 30 seconds have passed. */
  ghost predicate Remembered(y: System, d: (Id, Time)) {
    d.1 + DIAL_HISTORY_EXPIRATION < y.clock || PastDial(d.0, d.1 + DIAL_HISTORY_EXPIRATION) in y.sched.hist
  }

  ghost predicate Inv(max: nat, y: System) {
    && (forall id :: y.dials[id] == if id in y.sched.dialing then 1 else 0)
    && y.lookups == (if y.sched.lookupRunning then 1 else 0)
    && |Dyn(y.peers) + Dyn(y.sched.dialing)| <= max
    && forall d | d in y.done :: Remembered(y, d)
  }

  lemma {:induction false} StartInv(max: nat, peers: map<Id, bool>, clock: Time)
    requires Dyn(peers) == {}
    ensures Inv(max, System(Sched(map[], [], false, false, []), multiset{}, 0, 0, peers, {}, clock))
  {
    assert Dyn(peers) + Dyn(map[]) == {};
  }

  // ---- The tasks of one round ----

  lemma {:induction false} DestsSnoc(tasks: seq<Task>, t: Task)
    ensures Dests(tasks + [t]) == Dests(tasks) + if t.DialTask? then multiset{t.dest} else multiset{}
    ensures Lookups(tasks + [t]) == Lookups(tasks) + if t.DiscoverTask? then 1 else 0
  {
    assert (tasks + [t])[..|tasks|] == tasks;
  }

  lemma {:induction false} DestsOnce(tasks: seq<Task>, id: Id)
    requires forall i | 0 <= i < |tasks| :: tasks[i].DialTask?
    requires forall i, j | 0 <= i < j < |tasks| && tasks[i].DialTask? && tasks[j].DialTask? ::
             tasks[i].dest != tasks[j].dest
    ensures Dests(tasks)[id] ==
            if exists i :: 0 <= i < |tasks| && tasks[i].DialTask? && tasks[i].dest == id then 1 else 0
    ensures Lookups(tasks) == 0
  {
    if tasks != [] {
      var n := |tasks| - 1;
      DestsOnce(tasks[..n], id);
      if i :| 0 <= i < n && tasks[i].dest == id {
        assert tasks[..n][i].dest == id;
      }
    }
  }

  /** The tasks are the new dials, at most one lookup and at most one timer. */
  lemma {:induction false} TasksOf(lookup: bool, s': Sched, nRunning: nat, now: Time, tasks: seq<Task>,
                                   dials: seq<Task>)
    requires PlannedRest(lookup, s', nRunning, now, tasks, dials) && Lookups(dials) == 0
    ensures Dests(tasks) == Dests(dials) && Lookups(tasks) == if lookup then 1 else 0
  {
    if lookup {
      DestsSnoc(dials, DiscoverTask(!s'.bootstrapped, []));
    } else if tasks != dials {
      var exp :| Earliest(s'.hist, exp) && exp >= now && tasks == [WaitExpireTask(exp - now)];
      DestsSnoc([], WaitExpireTask(exp - now));
      assert tasks == [] + [WaitExpireTask(exp - now)];
    }
  }

  lemma {:induction false} DialedOnce(s: Sched, s': Sched, peers: map<Id, bool>, dials: seq<Task>, id: Id)
    requires NewDials(s.dialing, s', peers, dials)
    ensures Dests(dials)[id] == (if id in s'.dialing then 1 else 0) - (if id in s.dialing then 1 else 0)
    ensures Lookups(dials) == 0
  {
    forall i | 0 <= i < |dials|
      ensures dials[i].DialTask?
    {
      assert Allowed(s.dialing, s', peers, dials[i]);
    }
    DestsOnce(dials, id);
    if id in s'.dialing && id !in s.dialing {
      assert DialTask(s'.dialing[id], id) in dials;
      var i :| 0 <= i < |dials| && dials[i] == DialTask(s'.dialing[id], id);
    } else {
      assert forall i | 0 <= i < |dials| :: Allowed(s.dialing, s', peers, dials[i]);
    }
  }

  // ---- Every event keeps the invariant ----

  lemma {:induction false} DynWithin(max: nat, peers: map<Id, bool>, d: map<Id, bool>, d': map<Id, bool>)
    requires |Dyn(peers) + Dyn(d)| <= max
    requires Dyn(d') == Dyn(d) || Needed(max, peers, d') >= 0
    ensures |Dyn(peers) + Dyn(d')| <= max
  {
    UnionCount(Dyn(peers), Dyn(d'));
  }

  lemma {:induction false} StillRemembered(y: System, y': System, now: Time, d: (Id, Time))
    requires Remembered(y, d) && y.clock <= now && y'.clock == now && Expired(y.sched.hist, y'.sched.hist, now)
    ensures Remembered(y', d)
  {
    var e := PastDial(d.0, d.1 + DIAL_HISTORY_EXPIRATION);
    assert multiset(y'.sched.hist)[e] == if e.exp < now then 0 else multiset(y.sched.hist)[e];
    assert e in y.sched.hist <==> e in multiset(y.sched.hist);
    assert e in y'.sched.hist <==> e in multiset(y'.sched.hist);
  }

  /** After planning, the dials in flight are those of the scheduler, and so is the lookup. */
  lemma {:induction false} PlanCounts(max: nat, y: System, e: Event, y': System, id: Id)
    requires e.Plan? && Next(max, y, e, y')
    requires y.dials[id] == if id in y.sched.dialing then 1 else 0
    requires y.lookups == if y.sched.lookupRunning then 1 else 0
    ensures y'.dials[id] == if id in y'.sched.dialing then 1 else 0
    ensures y'.lookups == if y'.sched.lookupRunning then 1 else 0
  {
    var s, s' := y.sched, y'.sched;
    var lookup := |s'.lookupBuf| < Needed(max, y.peers, s'.dialing) && !s.lookupRunning;
    DialedOnce(s, s', y.peers, e.dials, id);
    TasksOf(lookup, s', InFlight(y), e.now, e.tasks, e.dials);
  }

  lemma {:induction false} PlanKeepsInv(max: nat, y: System, e: Event, y': System)
    requires e.Plan? && Inv(max, y) && Next(max, y, e, y')
    ensures Inv(max, y')
  {
    PlanCounts(max, y, e, y', 0);
    forall id
      ensures y'.dials[id] == if id in y'.sched.dialing then 1 else 0
    {
      PlanCounts(max, y, e, y', id);
    }
    DynWithin(max, y.peers, y.sched.dialing, y'.sched.dialing);
    forall d | d in y.done
      ensures Remembered(y', d)
    {
      StillRemembered(y, y', e.now, d);
    }
  }

  lemma {:induction false} DialDoneKeepsInv(max: nat, y: System, e: Event, y': System)
    requires e.DialDone? && Inv(max, y) && Next(max, y, e, y')
    ensures Inv(max, y')
  {
    SubsetCount(Dyn(y.peers) + Dyn(y'.sched.dialing), Dyn(y.peers) + Dyn(y.sched.dialing));
    forall d | d in y'.done
      ensures Remembered(y', d)
    {
      assert d in y.done ==> Remembered(y, d);
    }
  }

  lemma {:induction false} PeersKeepInv(max: nat, y: System, e: Event, y': System)
    requires (e.Joined? || e.Left?) && Inv(max, y) && Next(max, y, e, y')
    ensures Inv(max, y')
  {
    SubsetCount(Dyn(y'.peers) + Dyn(y'.sched.dialing), Dyn(y.peers) + Dyn(y.sched.dialing));
    forall d | d in y'.done
      ensures Remembered(y', d)
    {
      assert Remembered(y, d);
    }
  }

  lemma {:induction false} StepKeepsInv(max: nat, y: System, e: Event, y': System)
    requires Inv(max, y) && Next(max, y, e, y')
    ensures Inv(max, y')
  {
    match e
    case Plan(_, _, _, _) => PlanKeepsInv(max, y, e, y');
    case DialDone(_, _) => DialDoneKeepsInv(max, y, e, y');
    case LookupDone(_, _) =>
      forall d | d in y'.done
        ensures Remembered(y', d)
      {
        assert Remembered(y, d);
      }
    case TimerDone =>
      forall d | d in y'.done
        ensures Remembered(y', d)
      {
        assert Remembered(y, d);
      }
    case Joined(_, _) => PeersKeepInv(max, y, e, y');
    case Left(_) => PeersKeepInv(max, y, e, y');
  }

  // ---- Whole runs ----

  /** In every run: no node is dialed twice at once, at most one lookup is active, and the
      dynamically dialed peers and dynamic dials together stay within the limit. */
  lemma {:induction false} RunSafe(max: nat, ys: seq<System>, es: seq<Event>, k: nat)
    requires |ys| == |es| + 1 && Inv(max, ys[0])
    requires forall i {:trigger es[i]} | 0 <= i < |es| :: Next(max, ys[i], es[i], ys[i + 1])
    requires k < |ys|
    ensures Inv(max, ys[k])
    ensures (forall id :: ys[k].dials[id] <= 1) && ys[k].lookups <= 1
    ensures |Dyn(ys[k].peers) + Dyn(ys[k].sched.dialing)| <= max
  {
    if k > 0 {
      RunSafe(max, ys, es, k - 1);
      var e := es[k - 1];
      StepKeepsInv(max, ys[k - 1], e, ys[k]);
    }
  }

  /** A node is dialed only when no dial to it is in flight, and strictly more than 30
      seconds after the time handed to `TaskDone` for every earlier dial to it. The server
      hands over the time of its last planning round, so the dial may have ended later. */
  lemma {:induction false} RedialWaits(max: nat, y: System, e: Event, y': System, t: Task)
    requires Inv(max, y) && Next(max, y, e, y') && e.Plan? && t in e.tasks && t.DialTask?
    ensures t.dest !in y.dials
    ensures forall d | d in y.done && d.0 == t.dest :: e.now > d.1 + 30_000_000_000
  {
    assert t in e.dials;
    var i :| 0 <= i < |e.dials| && e.dials[i] == t;
    assert Allowed(y.sched.dialing, y'.sched, y.peers, e.dials[i]);
    forall d | d in y.done && d.0 == t.dest
      ensures e.now > d.1 + DIAL_HISTORY_EXPIRATION
    {
      StillRemembered(y, y', e.now, d);
    }
  }

  lemma {:induction false} TasksCount(tasks: seq<Task>)
    ensures |Dests(tasks)| + Lookups(tasks) + Timers(tasks) == |tasks|
  {
    if tasks != [] {
      TasksCount(tasks[..|tasks| - 1]);
    }
  }

  /** While some dial is remembered the scheduler never falls asleep: with nothing in flight,
      and a dial that finished no more than 30 seconds ago, planning starts something. */
  lemma {:induction false} NeverFallsAsleep(max: nat, y: System, e: Event, y': System, d: (Id, Time))
    requires Inv(max, y) && Next(max, y, e, y') && e.Plan? && InFlight(y) == 0
    requires d in y.done && e.now <= d.1 + DIAL_HISTORY_EXPIRATION
    ensures e.tasks != [] && InFlight(y') > 0
  {
    StillRemembered(y, y', e.now, d);
    assert y'.sched.hist != [];
    IdleEmitsTask(max, e.statics, y.sched, y'.sched, y.peers, e.now, e.tasks, e.dials);
    TasksCount(e.tasks);
  }

  // ---- Nodes that must be dialed are ----

  /** The history holds nothing but finished dials. */
  ghost predicate Genuine(y: System) {
    forall e | e in y.sched.hist ::
      (e.id, e.exp - DIAL_HISTORY_EXPIRATION) in y.done && e.exp - DIAL_HISTORY_EXPIRATION <= y.clock
  }

  lemma {:induction false} StillThere(hist: seq<PastDial>, hist': seq<PastDial>, now: Time, e: PastDial)
    requires Expired(hist, hist', now) && e in hist'
    ensures e in hist && e.exp >= now
  {
    assert e in multiset(hist');
    assert multiset(hist')[e] == if e.exp < now then 0 else multiset(hist)[e];
    assert e in multiset(hist);
  }

  lemma {:induction false} StepKeepsGenuine(max: nat, y: System, e: Event, y': System)
    requires Genuine(y) && Next(max, y, e, y')
    ensures Genuine(y')
  {
    forall p | p in y'.sched.hist
      ensures (p.id, p.exp - DIAL_HISTORY_EXPIRATION) in y'.done && p.exp - DIAL_HISTORY_EXPIRATION <= y'.clock
    {
      if e.Plan? {
        StillThere(y.sched.hist, y'.sched.hist, e.now, p);
      }
    }
  }

  lemma {:induction false} RunGenuine(max: nat, ys: seq<System>, es: seq<Event>, k: nat)
    requires |ys| == |es| + 1 && Genuine(ys[0]) && k < |ys|
    requires forall i {:trigger es[i]} | 0 <= i < |es| :: Next(max, ys[i], es[i], ys[i + 1])
    ensures Genuine(ys[k])
  {
    if k > 0 {
      RunGenuine(max, ys, es, k - 1);
      var e := es[k - 1];
      StepKeepsGenuine(max, ys[k - 1], e, ys[k]);
    }
  }

  /** Nothing stands in the way of a dial: none is in flight, the node is no peer, and no dial
      to it was booked within the last 30 seconds. */
  ghost predicate Free(y: System, now: Time, id: Id) {
    && id !in y.dials && id !in y.peers
    && forall d | d in y.done && d.0 == id :: now > d.1 + 30_000_000_000
  }

  lemma {:induction false} NotInHistory(y: System, y': System, now: Time, id: Id)
    requires Genuine(y) && Expired(y.sched.hist, y'.sched.hist, now) && Free(y, now, id)
    ensures !InHist(y'.sched.hist, id)
  {
    if i :| 0 <= i < |y'.sched.hist| && y'.sched.hist[i].id == id {
      StillThere(y.sched.hist, y'.sched.hist, now, y'.sched.hist[i]);
    }
  }

  lemma {:induction false} DialedIsFree(max: nat, y: System, e: Event, y': System, t: Task)
    requires Inv(max, y) && Next(max, y, e, y') && e.Plan? && t in e.tasks && t.DialTask?
    ensures Free(y, e.now, t.dest)
  {
    RedialWaits(max, y, e, y', t);
    assert t in e.dials;
    var i :| 0 <= i < |e.dials| && e.dials[i] == t;
    assert Allowed(y.sched.dialing, y'.sched, y.peers, e.dials[i]);
  }

  /** A dial of the plan is a task of the round. */
  lemma {:induction false} DialIsTask(lookup: bool, s': Sched, nRunning: nat, now: Time, tasks: seq<Task>,
                                      dials: seq<Task>, t: Task)
    requires PlannedRest(lookup, s', nRunning, now, tasks, dials) && t in dials
    ensures t in tasks
  {
  }

  lemma {:induction false} FreeIsDialed(max: nat, y: System, e: Event, y': System, id: Id) returns (t: Task)
    requires Inv(max, y) && Genuine(y) && Next(max, y, e, y') && e.Plan? && id in e.statics && Free(y, e.now, id)
    ensures t in e.tasks && t.DialTask? && t.dest == id
  {
    NotInHistory(y, y', e.now, id);
    assert Busy(y'.sched, y.peers, id);
    t := DialTask(y'.sched.dialing[id], id);
    var lookup := |y'.sched.lookupBuf| < Needed(max, y.peers, y'.sched.dialing) && !y.sched.lookupRunning;
    DialIsTask(lookup, y'.sched, InFlight(y), e.now, e.tasks, e.dials, t);
  }

  /** Every planning round dials exactly the free ones among the static nodes. */
  lemma {:induction false} StaticsDialed(max: nat, y: System, e: Event, y': System, id: Id)
    requires Inv(max, y) && Genuine(y) && Next(max, y, e, y') && e.Plan? && id in e.statics
    ensures (exists t :: t in e.tasks && t.DialTask? && t.dest == id) <==> Free(y, e.now, id)
  {
    if t :| t in e.tasks && t.DialTask? && t.dest == id {
      DialedIsFree(max, y, e, y', t);
    }
    if Free(y, e.now, id) {
      var t := FreeIsDialed(max, y, e, y', id);
    }
  }

  /** While dynamic peers are missing a lookup is in flight after every planning round. */
  lemma {:induction false} KeepsLooking(max: nat, y: System, e: Event, y': System)
    requires Inv(max, y) && Next(max, y, e, y') && e.Plan?
    ensures |Dyn(y.peers)| + |Dyn(y'.sched.dialing)| >= max || y'.lookups == 1
  {
    PlanKeepsInv(max, y, e, y');
    var need := Needed(max, y.peers, y'.sched.dialing);
    var k :| TriedFirst(y.sched, y'.sched, y.peers, need, k);
  }

  /** What a lookup found is used: in the next round every result is being dialed, connected or
      remembered, unless enough dials are under way, and then it is kept. */
  lemma {:induction false} ResultsUsed(max: nat, y: System, bootstrap: bool, results: seq<Id>, m: System, e: Event,
                                       y': System, r: Id)
    requires Next(max, y, LookupDone(bootstrap, results), m) && Next(max, m, e, y') && e.Plan? && r in results
    ensures Busy(y'.sched, m.peers, r)
            || (r in y'.sched.lookupBuf && |Dyn(m.peers)| + |Dyn(y'.sched.dialing)| >= max)
    ensures m.sched.bootstrapped == (y.sched.bootstrapped || bootstrap)
  {
    var need := Needed(max, m.peers, y'.sched.dialing);
    var k :| TriedFirst(m.sched, y'.sched, m.peers, need, k);
    var i :| 0 <= i < |results| && results[i] == r;
    assert m.sched.lookupBuf[|y.sched.lookupBuf| + i] == r;
    if |y.sched.lookupBuf| + i >= k {
      assert y'.sched.lookupBuf[|y.sched.lookupBuf| + i - k] == r;
    }
  }

  lemma {:induction false} OnlyDials(dialing: map<Id, bool>, s': Sched, peers: map<Id, bool>, dials: seq<Task>)
    requires NewDials(dialing, s', peers, dials)
    ensures forall t | t in dials :: t.DialTask?
  {
    forall i | 0 <= i < |dials|
      ensures dials[i].DialTask?
    {
      assert Allowed(dialing, s', peers, dials[i]);
    }
  }

  lemma {:induction false} RestOf(lookup: bool, s': Sched, nRunning: nat, now: Time, tasks: seq<Task>,
                                  dials: seq<Task>, t: Task)
    requires PlannedRest(lookup, s', nRunning, now, tasks, dials) && t in tasks && t !in dials
    ensures t.DiscoverTask? ==> t == DiscoverTask(!s'.bootstrapped, [])
    ensures t.WaitExpireTask? ==>
              nRunning == 0 && tasks == [t] && t.duration >= 0 && Earliest(s'.hist, now + t.duration)
  {
  }

  /** Only the first lookup sets the table up, and a timer waits until the first booked dial is
      30 seconds old, not longer. */
  lemma {:induction false} OtherTasks(max: nat, y: System, e: Event, y': System, t: Task)
    requires Genuine(y) && Next(max, y, e, y') && e.Plan? && t in e.tasks && !t.DialTask?
    ensures t.DiscoverTask? ==> t == DiscoverTask(!y.sched.bootstrapped, [])
    ensures t.WaitExpireTask? ==>
              && 0 <= t.duration <= DIAL_HISTORY_EXPIRATION && InFlight(y) == 0 && e.tasks == [t]
              && (exists d :: d in y.done && d.1 + DIAL_HISTORY_EXPIRATION == e.now + t.duration)
  {
    OnlyDials(y.sched.dialing, y'.sched, y.peers, e.dials);
    var lookup := |y'.sched.lookupBuf| < Needed(max, y.peers, y'.sched.dialing) && !y.sched.lookupRunning;
    RestOf(lookup, y'.sched, InFlight(y), e.now, e.tasks, e.dials, t);
    if t.WaitExpireTask? {
      TimerIsGenuine(y, y', e.now, e.now + t.duration);
    }
  }

  lemma {:induction false} TimerIsGenuine(y: System, y': System, now: Time, exp: Time)
    requires Genuine(y) && Expired(y.sched.hist, y'.sched.hist, now) && Earliest(y'.sched.hist, exp) && y.clock <= now
    ensures exp <= now + DIAL_HISTORY_EXPIRATION
    ensures exists d :: d in y.done && d.1 + DIAL_HISTORY_EXPIRATION == exp
  {
    var i :| 0 <= i < |y'.sched.hist| && y'.sched.hist[i].exp == exp;
    var p := y'.sched.hist[i];
    StillThere(y.sched.hist, y'.sched.hist, now, p);
    assert (p.id, exp - DIAL_HISTORY_EXPIRATION) in y.done;
  }
}
