/** svc_run_active of src/service.c, and the controller commands of src/controller.c that
    work on services: starting, cancelling, creating, deleting, setting triggers, dumping.
  */
module ServiceCommands {

  import opened ServiceMachine
  import Clock

  // ---------------------------------------------------------------- the services as values

  // A service as svc_list holds it: its state machine and what decides about restarting it.
  datatype Svc = Svc(status: Status, always: bool, interval: int, signals: set<int>)

  const FRESH: Svc := Svc(Status(Down, 0, 0, 0), false, 0, {})

  ghost function ValueOf(s: Service): Svc
    reads s`state, s`pid, s`startTime, s`reapTime, s`autoRestart, s`restartInterval, s`wakeSignals
  {
    Svc(s.Snapshot(), s.autoRestart, s.restartInterval, s.wakeSignals)
  }

  lemma StatusOnly(s: Service, x: Svc)
    requires x.always == s.autoRestart && x.interval == s.restartInterval && x.signals == s.wakeSignals
    ensures ValueOf(s) == x.(status := s.Snapshot())
  {
  }

  // All services, in the order of svc_list.
  datatype Scene = Scene(who: seq<Service>, at: map<Service, Svc>) {
    ghost predicate Fits() { (forall t :: t in who ==> t in at) && (forall t :: t in at ==> t in who) }

    ghost function Row(): seq<Svc>
      requires Fits()
    {
      seq(|who|, i requires 0 <= i < |who| => at[who[i]])
    }
  }

  ghost function Stage(w: Supervisor): (a: Scene)
    reads w`services, w.services`state, w.services`pid, w.services`startTime, w.services`reapTime
    reads w.services`autoRestart, w.services`restartInterval, w.services`wakeSignals
    ensures a.Fits() && a.who == w.services
  {
    Scene(w.services, map t | t in w.services :: ValueOf(t))
  }

  ghost function World(w: Supervisor): (a: seq<Svc>)
    reads w`services, w.services`state, w.services`pid, w.services`startTime, w.services`reapTime
    reads w.services`autoRestart, w.services`restartInterval, w.services`wakeSignals
    ensures |a| == |w.services| && forall i :: 0 <= i < |a| ==> a[i] == ValueOf(w.services[i])
  {
    Stage(w).Row()
  }

  function Perished(a: Status, dead: seq<int>, now: int): Status {
    if a.state == Up && a.pid in dead then a.(state := Reaped, reapTime := now) else a
  }

  // All services after the pids were waited for.
  ghost predicate Buried(a: Scene, b: Scene, dead: seq<int>, now: int) {
    && b.who == a.who && b.at.Keys == a.at.Keys
    && forall t :: t in a.at ==> b.at[t] == a.at[t].(status := Perished(a.at[t].status, dead, now))
  }

  ghost predicate SomeoneDied(a: Scene, dead: seq<int>) {
    exists t :: t in a.at && a.at[t].status.state == Up && a.at[t].status.pid in dead
  }

  // ---------------------------------------------------------------- running the services

  ghost predicate Heard(signals: seq<int>, mine: set<int>) {
    exists i :: 0 <= i < |signals| && signals[i] in mine
  }

  predicate Startable(a: Status) { a.state == Down || a.state == Start }

  function Woken(a: Status, called: bool, now: int): Status {
    if called && Startable(a) then Status(Start, 0, now, 0) else a
  }

  // The services that a signal starts, in the order of svc_sigwake_list.
  ghost function CallsOf(q: seq<Service>, signum: int, at: map<Service, Svc>): seq<Service> {
    if q == [] then [] else
      var t := q[|q| - 1];
      CallsOf(q[..|q| - 1], signum, at) +
      if t in at && signum in at[t].signals && Startable(at[t].status) then [t] else []
  }

  ghost function Calls(q: seq<Service>, signals: seq<int>, at: map<Service, Svc>): seq<Service> {
    if signals == [] then [] else
      Calls(q, signals[..|signals| - 1], at) + CallsOf(q, signals[|signals| - 1], at)
  }

  ghost function Starts(calls: seq<Service>): seq<Notice> {
    seq(|calls|, i requires 0 <= i < |calls| => Notice(calls[i], Start, SaysStart))
  }

  // Each start is announced, and the main loop is to come back at once.
  ghost function Woke(calls: seq<Service>, now: int, l: Ledger): Ledger {
    Ledger(l.told + Starts(calls), l.forks, if calls == [] then l.next else now)
  }

  lemma WokeMore(a: seq<Service>, b: seq<Service>, now: int, l: Ledger)
    ensures Woke(b, now, Woke(a, now, l)) == Woke(a + b, now, l)
  {
    assert (l.told + Starts(a)) + Starts(b) == l.told + Starts(a + b);
  }

  lemma WokeNone(now: int, l: Ledger)
    ensures Woke([], now, l) == l
  {
  }

  ghost function Values(w: Supervisor): map<Service, Svc>
    reads w`all, w.all`state, w.all`pid, w.all`startTime, w.all`reapTime
    reads w.all`autoRestart, w.all`restartInterval, w.all`wakeSignals
  {
    map t | t in w.all :: ValueOf(t)
  }

  // The called services that can be started are due now; the others are as they were.
  ghost predicate Roused(w: Supervisor, called: set<Service>, at: map<Service, Svc>)
    reads w`now, w`all, w.all
  {
    at.Keys == w.all &&
    forall t :: t in w.all ==> ValueOf(t) == at[t].(status := Woken(at[t].status, t in called, w.now))
  }

  // The services among q that listen for the signal.
  ghost function Listeners(q: seq<Service>, signum: int): set<Service>
    reads q`wakeSignals
  {
    set t | t in q && signum in t.wakeSignals
  }

  ghost function Called(q: seq<Service>, signals: seq<int>): set<Service>
    reads q`wakeSignals
  {
    if signals == [] then {} else Called(q, signals[..|signals| - 1]) + Listeners(q, signals[|signals| - 1])
  }

  method Rouse(w: Supervisor, s: Service, ghost called: set<Service>, ghost at: map<Service, Svc>)
    requires w.Valid({}) && w.now <= w.next && s in w.all && Roused(w, called, at)
    modifies w`next, w`told, w`byPid, w`activeList, w`active
    modifies s`state, s`pid, s`startTime, s`reapTime, w.all`activeNext, w.all`activePrev
    ensures w.Valid({}) && Roused(w, called + {s}, at)
    ensures w.Books() == Woke(if Startable(at[s].status) then [s] else [], w.now, old(w.Books()))
  {
    hide Supervisor.Valid, Supervisor.Linked;
    ghost var x := ValueOf(s);
    assert x == Svc(s.Snapshot(), s.autoRestart, s.restartInterval, s.wakeSignals);
    hide ValueOf;
    w.Looser(s);
    var _ := w.HandleStart(s, w.now);
    StatusOnly(s, x);
    assert Starts([s]) == [Notice(s, Start, SaysStart)];
  }

  // svc_run_active: one signal wakes the services that listen for it.
  method WakeBySignal(w: Supervisor, signum: int, ghost called: set<Service>, ghost at: map<Service, Svc>)
    requires w.Valid({}) && w.now <= w.next && Roused(w, called, at)
    modifies w`next, w`told, w`byPid, w`activeList, w`active
    modifies w.all`state, w.all`pid, w.all`startTime, w.all`reapTime, w.all`activeNext, w.all`activePrev
    ensures w.Valid({}) && w.now <= w.next && Roused(w, called + Listeners(w.sigwake, signum), at)
    ensures w.Books() == Woke(CallsOf(w.sigwake, signum, at), w.now, old(w.Books()))
  {
    hide Supervisor.Valid, Supervisor.Linked, Roused, Listeners, CallsOf, Woke;
    NoListeners(called, signum, at);
    WokeNone(w.now, w.Books());
    SigwakeKnown(w);
    var i := 0;
    while i < |w.sigwake|
      invariant 0 <= i <= |w.sigwake| && w.Valid({}) && w.now <= w.next
      invariant Roused(w, called + Listeners(w.sigwake[..i], signum), at)
      invariant w.Books() == Woke(CallsOf(w.sigwake[..i], signum, at), w.now, old(w.Books()))
    {
      var s := w.sigwake[i];
      ListenersStep(w.sigwake, i, signum, called);
      EarsOf(w, s, called + Listeners(w.sigwake[..i], signum), at);
      CallsOfStep(w.sigwake, i, signum, at, w.now, old(w.Books()));
      if signum in s.wakeSignals {
        Rouse(w, s, called + Listeners(w.sigwake[..i], signum), at);
        NotEarlier(if Startable(at[s].status) then [s] else [], w.now,
                   Woke(CallsOf(w.sigwake[..i], signum, at), w.now, old(w.Books())));
      }
      i := i + 1;
    }
    assert w.sigwake[..i] == w.sigwake;
  }

  lemma NotEarlier(calls: seq<Service>, now: int, l: Ledger)
    requires now <= l.next
    ensures now <= Woke(calls, now, l).next
  {
  }

  lemma EarsOf(w: Supervisor, s: Service, called: set<Service>, at: map<Service, Svc>)
    requires Roused(w, called, at) && s in w.all
    ensures s in at && at[s].signals == s.wakeSignals
  {
    assert ValueOf(s).signals == s.wakeSignals;
  }

  lemma CallsOfStep(q: seq<Service>, i: nat, signum: int, at: map<Service, Svc>, now: int, l: Ledger)
    requires i < |q| && q[i] in at
    ensures Woke(CallsOf(q[..i + 1], signum, at), now, l) ==
      if signum in at[q[i]].signals
      then Woke(if Startable(at[q[i]].status) then [q[i]] else [], now, Woke(CallsOf(q[..i], signum, at), now, l))
      else Woke(CallsOf(q[..i], signum, at), now, l)
  {
    assert q[..i + 1][..i] == q[..i];
    WokeMore(CallsOf(q[..i], signum, at), if Startable(at[q[i]].status) then [q[i]] else [], now, l);
    assert CallsOf(q[..i], signum, at) + [] == CallsOf(q[..i], signum, at);
  }

  lemma NoListeners(called: set<Service>, signum: int, at: map<Service, Svc>)
    ensures called + Listeners([], signum) == called && CallsOf([], signum, at) == []
  {
  }

  lemma ListenersStep(q: seq<Service>, i: nat, signum: int, called: set<Service>)
    requires i < |q|
    ensures called + Listeners(q[..i + 1], signum) ==
            if signum in q[i].wakeSignals then called + Listeners(q[..i], signum) + {q[i]}
            else called + Listeners(q[..i], signum)
  {
    assert q[..i + 1] == q[..i] + [q[i]];
  }

  lemma SigwakeKnown(w: Supervisor)
    requires w.Valid({})
    ensures forall t :: t in w.sigwake ==> t in w.all
  {
  }

  // svc_run_active: every signal since the last time
  method WakeBySignals(w: Supervisor, signals: seq<int>)
    requires w.Valid({}) && w.now <= w.next
    modifies w`next, w`told, w`byPid, w`activeList, w`active
    modifies w.all`state, w.all`pid, w.all`startTime, w.all`reapTime, w.all`activeNext, w.all`activePrev
    ensures w.Valid({}) && w.now <= w.next && Roused(w, Called(w.sigwake, signals), old(Values(w)))
    ensures w.Books() == Woke(Calls(w.sigwake, signals, old(Values(w))), w.now, old(w.Books()))
  {
    hide Supervisor.Valid, Supervisor.Linked, Roused, Listeners, Values, Woke, CallsOf;
    ghost var at, l := Values(w), w.Books();
    NoneRoused(w);
    WokeNone(w.now, l);
    var i := 0;
    while i < |signals|
      invariant 0 <= i <= |signals| && w.Valid({}) && w.now <= w.next
      invariant Roused(w, Called(w.sigwake, signals[..i]), at)
      invariant w.Books() == Woke(Calls(w.sigwake, signals[..i], at), w.now, l)
    {
      assert signals[..i + 1][..i] == signals[..i];
      WakeBySignal(w, signals[i], Called(w.sigwake, signals[..i]), at);
      WokeMore(Calls(w.sigwake, signals[..i], at), CallsOf(w.sigwake, signals[i], at), w.now, l);
      i := i + 1;
    }
    assert signals[..i] == signals;
  }

  lemma NoneRoused(w: Supervisor)
    ensures Roused(w, {}, Values(w))
  {
  }

  // How svc_run_active finds a service: woken if it is called.
  ghost function Found(x: Svc, signals: seq<int>, now: int): Status {
    Woken(x.status, Heard(signals, x.signals), now)
  }

  // A job for each service that waits, as it is found, and none for the others.
  ghost predicate Assigned(jobs: seq<Job>, at: map<Service, Svc>, signals: seq<int>, pending: set<int>, now: int) {
    && (forall k, m :: 0 <= k < m < |jobs| ==> jobs[k].who != jobs[m].who)
    && (forall k :: 0 <= k < |jobs| ==> Right(jobs[k], at, signals, pending, now))
    && (forall t :: t in at && Waiting(Found(at[t], signals, now).state) ==> t in Whose(jobs))
  }

  ghost predicate Right(j: Job, at: map<Service, Svc>, signals: seq<int>, pending: set<int>, now: int) {
    j.who in at &&
    var x := at[j.who];
    && Waiting(Found(x, signals, now).state)
    && j == Job(j.who, Found(x, signals, now), x.always || x.signals * pending != {}, x.interval, j.pid)
  }

  /** What svc_run_active makes of all services, of what was told and forked, and of the wake-up: signals start
      services, and then each service that waits is run once, in some order. */
  ghost predicate Advanced(at: map<Service, Svc>, at': map<Service, Svc>, signals: seq<int>, pending: set<int>,
                           now: int, listening: seq<Service>, jobs: seq<Job>, l: Ledger, l': Ledger) {
    && at'.Keys == at.Keys
    && (forall t :: t in at ==> (t in listening <==> at[t].signals != {}))
    && Assigned(jobs, at, signals, pending, now) && JobsDone(jobs, at, at', signals, now)
    && l' == Posted(jobs, now, Woke(Calls(listening, signals, at), now, l))
  }

  ghost predicate JobsDone(jobs: seq<Job>, at: map<Service, Svc>, at': map<Service, Svc>, signals: seq<int>, now: int) {
    && (forall k :: 0 <= k < |jobs| && jobs[k].who in at && jobs[k].who in at' ==>
          at'[jobs[k].who] == at[jobs[k].who].(status := jobs[k].End(now)))
    && (forall t :: t in at && t in at' && t !in Whose(jobs) ==>
          at'[t] == at[t].(status := Found(at[t], signals, now)))
  }

  // But for their state machines, the services are as they were.
  ghost predicate SameSettings(w: Supervisor, at: map<Service, Svc>)
    reads w`all, w.all`autoRestart, w.all`restartInterval, w.all`wakeSignals
  {
    forall t :: t in w.all ==> t in at && at[t] == Svc(at[t].status, t.autoRestart, t.restartInterval, t.wakeSignals)
  }

  // svc_run_active, the signals
  method Wake(w: Supervisor, signals: seq<int>)
    requires w.Valid({}) && w.now <= w.next
    modifies w`next, w`told, w`byPid, w`activeList, w`active
    modifies w.all`state, w.all`pid, w.all`startTime, w.all`reapTime, w.all`activeNext, w.all`activePrev
    ensures w.Valid({}) && w.now <= w.next && SameSettings(w, old(Values(w)))
    ensures forall t :: t in w.all ==> t.Snapshot() == Found(old(Values(w))[t], signals, w.now)
    ensures w.Books() == Woke(Calls(w.sigwake, signals, old(Values(w))), w.now, old(w.Books()))
  {
    hide Supervisor.Valid, Roused, Woke, Calls, Called, Values;
    ghost var at := Values(w);
    if w.sigwake != [] {
      WakeBySignals(w, signals);
    } else {
      NoneCalled(signals, at);
      NoneRoused(w);
      WokeNone(w.now, w.Books());
    }
    CalledAreHeard(w, signals, at);
  }

  // svc_run_active
  method RunActive(w: Supervisor, signals: seq<int>) returns (ghost jobs: seq<Job>)
    requires w.Valid({}) && w.now <= w.next
    modifies w`next, w`told, w`byPid, w`activeList, w`active, w`forks
    modifies w.all`state, w.all`pid, w.all`startTime, w.all`reapTime, w.all`activeNext, w.all`activePrev
    ensures w.Quiet() && w.now <= w.next
    ensures Advanced(old(Values(w)), Values(w), signals, w.pending, w.now, w.sigwake, jobs, old(w.Books()), w.Books())
  {
    hide Supervisor.Valid, Supervisor.Quiet, Supervisor.Walked, Woke, Posted, Calls, Assigned, JobsDone, Distinct;
    hide Found, Whose, Waiting, SameSettings;
    ghost var at := Values(w);
    StageIs(w);
    Wake(w, signals);
    WaitersOnly(w);
    ghost var q, mid := w.active, w.Snapshots();
    jobs := w.Walk();
    JobsAre(q, jobs);
    Account(w, jobs, at, mid, signals);
  }

  lemma StageIs(w: Supervisor)
    requires w.Valid({})
    ensures Stage(w).at == Values(w) && Stage(w).at.Keys == w.all
    ensures forall t :: t in w.all ==> (t in w.sigwake <==> Values(w)[t].signals != {})
  {
    ServicesKnown(w);
  }

  lemma {:induction false} CalledIs(q: seq<Service>, signals: seq<int>, t: Service)
    ensures t in Called(q, signals) <==> t in q && Heard(signals, t.wakeSignals)
  {
    if signals != [] {
      var last := |signals| - 1;
      CalledIs(q, signals[..last], t);
      assert forall i :: 0 <= i < last ==> signals[..last][i] == signals[i];
    }
  }

  // Each service is as svc_run_active finds it when the walk begins.
  lemma CalledAreHeard(w: Supervisor, signals: seq<int>, at: map<Service, Svc>)
    requires w.Valid({}) && Roused(w, Called(w.sigwake, signals), at)
    ensures at.Keys == w.all && SameSettings(w, at)
    ensures forall t :: t in w.all ==> t.Snapshot() == Found(at[t], signals, w.now)
  {
    hide Called, Woken;
    forall t | t in w.all
      ensures ValueOf(t) == at[t].(status := Found(at[t], signals, w.now))
    {
      CalledIs(w.sigwake, signals, t);
      assert ValueOf(t).signals == t.wakeSignals;
    }
  }

  lemma {:induction false} NoneCalled(signals: seq<int>, at: map<Service, Svc>)
    ensures Called([], signals) == {} && Calls([], signals, at) == []
  {
    if signals != [] { NoneCalled(signals[..|signals| - 1], at); }
  }

  lemma WaitersOnly(w: Supervisor)
    requires w.Valid({})
    ensures Distinct(w.active)
    ensures forall t :: t in w.all ==> (t in w.active <==> Waiting(t.state))
  {
  }

  lemma JobsAre(q: seq<Service>, jobs: seq<Job>)
    requires |jobs| == |q| && Distinct(q) && forall k :: 0 <= k < |q| ==> jobs[k].who == q[k]
    ensures forall k, m :: 0 <= k < m < |jobs| ==> jobs[k].who != jobs[m].who
    ensures forall t :: t in Whose(jobs) <==> t in q
  {
    forall t | t in q
      ensures t in Whose(jobs)
    {
      var k :| 0 <= k < |q| && q[k] == t;
      assert jobs[k].who == t;
    }
  }

  // After the walk nothing is left to do now.
  lemma Account(w: Supervisor, jobs: seq<Job>, at: map<Service, Svc>, mid: map<Service, Status>, signals: seq<int>)
    requires w.Valid({}) && w.Walked(jobs, mid) && mid.Keys == w.all == at.Keys
    requires SameSettings(w, at) && forall t :: t in w.all ==> mid[t] == Found(at[t], signals, w.now)
    requires forall k, m :: 0 <= k < m < |jobs| ==> jobs[k].who != jobs[m].who
    requires forall t :: t in w.all ==> (t in Whose(jobs) <==> Waiting(mid[t].state))
    ensures w.Quiet() && Assigned(jobs, at, signals, w.pending, w.now)
    ensures JobsDone(jobs, at, Values(w), signals, w.now)
  {
    hide Supervisor.Valid, Found, Job.End, Waiting;
    forall k | 0 <= k < |jobs|
      ensures Right(jobs[k], at, signals, w.pending, w.now)
      ensures ValueOf(jobs[k].who) == at[jobs[k].who].(status := jobs[k].End(w.now))
    {
      assert jobs[k].who in Whose(jobs);
      assert w.Done(jobs[k], mid[jobs[k].who]);
    }
    NothingLeft(w, jobs, mid);
  }

  lemma NothingLeft(w: Supervisor, jobs: seq<Job>, mid: map<Service, Status>)
    requires w.Valid({}) && w.Walked(jobs, mid)
    requires forall t :: t in w.all ==> (t in Whose(jobs) <==> Waiting(mid[t].state))
    ensures w.Quiet()
  {
    hide Supervisor.Valid;
    forall t | t in w.all
      ensures t.state != Reaped && (t.state == Start ==> w.now <= t.startTime && w.next <= t.startTime)
    {
      if t in Whose(jobs) {
        var k :| 0 <= k < |jobs| && jobs[k].who == t;
        assert w.Done(jobs[k], mid[t]) && w.InTime(t);
      }
    }
  }

  // The wake-up that the services call for: at once if a start was set, else with the first pending start.
  ghost predicate Hurried(listening: seq<Service>, signals: seq<int>, at: map<Service, Svc>, jobs: seq<Job>, now: int) {
    Calls(listening, signals, at) != [] || exists k :: 0 <= k < |jobs| && HurriesJob(jobs[k], now)
  }

  ghost predicate HurriesJob(j: Job, now: int) { Hurries(j.from, now, j.restart, j.interval, j.pid) }

  ghost predicate FirstStart(next: int, limit: int, at: map<Service, Svc>) {
    && next <= limit
    && (forall t :: t in at && at[t].status.state == Start ==> next <= at[t].status.startTime)
    && (next == limit || exists t :: t in at && at[t].status.state == Start && next == at[t].status.startTime)
  }

  ghost predicate Ahead(j: Job, now: int) { j.from.state == Start && j.from.startTime > now }

  // The wake-up after some jobs, from what it was.
  ghost predicate JobsNext(jobs: seq<Job>, now: int, limit: int, next: int) {
    && now <= next <= limit
    && ((exists k :: 0 <= k < |jobs| && HurriesJob(jobs[k], now)) ==> next == now)
    && (forall k :: 0 <= k < |jobs| && Ahead(jobs[k], now) ==> next <= jobs[k].from.startTime)
    && (|| next == limit
        || (exists k :: 0 <= k < |jobs| && HurriesJob(jobs[k], now))
        || exists k :: 0 <= k < |jobs| && Ahead(jobs[k], now) && next == jobs[k].from.startTime)
  }

  lemma {:induction false} PostedNext(jobs: seq<Job>, now: int, l: Ledger)
    requires now <= l.next
    ensures JobsNext(jobs, now, l.next, Posted(jobs, now, l).next)
  {
    if jobs != [] {
      hide JobsNext, Posted, Job.Next, Job.Said, Job.Tried;
      var n := |jobs| - 1;
      var prev := jobs[..n];
      assert jobs == prev + [jobs[n]];
      PostedNext(prev, now, l);
      PostedMore(prev, jobs[n], now, l);
      NextStep(prev, jobs[n], now, l.next, Posted(prev, now, l).next, Posted(jobs, now, l).next);
    }
  }

  lemma NextStep(prev: seq<Job>, j: Job, now: int, limit: int, before: int, after: int)
    requires JobsNext(prev, now, limit, before) && after == j.Next(now, before)
    ensures JobsNext(prev + [j], now, limit, after)
  {
    hide Hurries;
    var jobs := prev + [j];
    assert forall k :: 0 <= k < |prev| ==> jobs[k] == prev[k];
    assert jobs[|prev|] == j;
    if HurriesJob(j, now) {
    } else if exists k :: 0 <= k < |prev| && HurriesJob(prev[k], now) {
      var k :| 0 <= k < |prev| && HurriesJob(prev[k], now);
      assert HurriesJob(jobs[k], now);
    } else if before != limit {
      var k :| 0 <= k < |prev| && Ahead(prev[k], now) && before == prev[k].from.startTime;
      assert Ahead(jobs[k], now);
    }
  }

  // A service that waits for a start after its job, in no hurry, waited for it before.
  lemma StillAhead(j: Job, now: int)
    requires j.End(now).state == Start && !HurriesJob(j, now) && Waiting(j.from.state)
    ensures Ahead(j, now) && j.End(now) == j.from
  {
  }

  lemma AheadStays(j: Job, now: int)
    requires Ahead(j, now)
    ensures j.End(now) == j.from
  {
  }

  /** The wake-up after svc_run_active: at once if a start was set, and else with the first pending start or what it
      was before. */
  lemma NextIs(at: map<Service, Svc>, at': map<Service, Svc>, signals: seq<int>, pending: set<int>, now: int,
               listening: seq<Service>, jobs: seq<Job>, l: Ledger, l': Ledger)
    requires Advanced(at, at', signals, pending, now, listening, jobs, l, l') && now <= l.next
    ensures now <= l'.next <= l.next && (Hurried(listening, signals, at, jobs, now) ==> l'.next == now)
    ensures !Hurried(listening, signals, at, jobs, now) ==> FirstStart(l'.next, l.next, at')
  {
    hide Posted, Calls, Job.End, Found, Waiting;
    PostedNext(jobs, now, Woke(Calls(listening, signals, at), now, l));
    if !Hurried(listening, signals, at, jobs, now) {
      forall t | t in at' && at'[t].status.state == Start
        ensures l'.next <= at'[t].status.startTime
      {
        StartHasJob(jobs, at, at', signals, pending, now, t);
      }
      if l'.next != l.next {
        var k :| 0 <= k < |jobs| && Ahead(jobs[k], now) && l'.next == jobs[k].from.startTime;
        AheadStays(jobs[k], now);
        assert at'[jobs[k].who].status == jobs[k].from;
      }
    }
  }

  lemma StartHasJob(jobs: seq<Job>, at: map<Service, Svc>, at': map<Service, Svc>, signals: seq<int>, pending: set<int>,
                    now: int, t: Service)
    requires at'.Keys == at.Keys && Assigned(jobs, at, signals, pending, now) && JobsDone(jobs, at, at', signals, now)
    requires t in at' && at'[t].status.state == Start
    requires forall k :: 0 <= k < |jobs| ==> !HurriesJob(jobs[k], now)
    ensures exists k :: 0 <= k < |jobs| && Ahead(jobs[k], now) && jobs[k].from.startTime == at'[t].status.startTime
  {
    hide Job.End, Found;
    assert t in Whose(jobs);
    var k :| 0 <= k < |jobs| && jobs[k].who == t;
    assert Right(jobs[k], at, signals, pending, now);
    StillAhead(jobs[k], now);
  }

  // ---------------------------------------------------------------- controllers' commands

  lemma QuietAfterStart(w: Supervisor, s: Service)
    requires w.Valid({}) && s in w.all && w.next == w.now && s.state == Start && w.now <= s.startTime
    requires forall t :: t in w.all && t != s ==> t.state != Reaped && (t.state == Start ==> w.now <= t.startTime)
    ensures w.Quiet()
  {
  }

  // A start that a command asks for, at any time.
  method StartService(w: Supervisor, s: Service, when: int) returns (ok: bool)
    requires w.Quiet() && w.now <= w.next && s in w.all
    modifies w`next, w`told, w`byPid, w`activeList, w`active
    modifies s`state, s`pid, s`startTime, s`reapTime, w.all`activeNext, w.all`activePrev
    ensures w.Quiet() && w.now <= w.next <= old(w.next) && ok == old(Startable(s.Snapshot()))
    ensures s.Snapshot() == if ok then Status(Start, 0, if when > w.now then when else w.now, 0) else old(s.Snapshot())
    ensures w.Books() == Woke(if ok then [s] else [], w.now, old(w.Books()))
  {
    hide Supervisor.Valid;
    w.Looser(s);
    assert Starts([s]) == [Notice(s, Start, SaysStart)];
    ok := w.HandleStart(s, when);
    if ok {
      QuietAfterStart(w, s);
    }
  }

  method CancelService(w: Supervisor, s: Service) returns (ok: bool)
    requires w.Quiet() && w.now <= w.next && s in w.all
    modifies w`told, w`activeList, w`active, s`state, s`startTime, w.all`activeNext, w.all`activePrev
    ensures w.Quiet() && ok == old(s.state == Start)
    ensures s.Snapshot() == if ok then Status(Down, 0, 0, 0) else old(s.Snapshot())
    ensures w.told == old(w.told) + if ok then [Notice(s, Down, SaysDown)] else []
  {
    hide Supervisor.Valid;
    ok := w.CancelStart(s);
  }

  // What a statedump says of the services q: the state each is in.
  ghost function Lines(q: seq<Service>): (lines: seq<Notice>)
    reads q`state
    ensures |lines| == |q|
    ensures forall i :: 0 <= i < |q| ==> lines[i] == Notice(q[i], q[i].state, Meaning(q[i].state))
  {
    if q == [] then [] else
      var s := q[|q| - 1];
      Lines(q[..|q| - 1]) + [Notice(s, s.state, Meaning(s.state))]
  }

  lemma LinesStep(told: seq<Notice>, q: seq<Service>, i: nat)
    requires i < |q|
    ensures told + Lines(q[..i + 1]) == told + Lines(q[..i]) + [Notice(q[i], q[i].state, Meaning(q[i].state))]
  {
    assert q[..i + 1][..i] == q[..i];
  }

  // The service.state lines of a statedump.
  method Statedump(w: Supervisor)
    requires w.Quiet()
    modifies w`told
    ensures w.Quiet() && w.told == old(w.told) + Lines(w.services)
  {
    hide Supervisor.Valid, Lines;
    ServicesKnown(w);
    ghost var was := w.told;
    var i := 0;
    assert w.services[..0] == [];
    while i < |w.services|
      invariant 0 <= i <= |w.services| && w.Quiet() && w.told == was + Lines(w.services[..i])
    {
      LinesStep(was, w.services, i);
      w.Announce(w.services[i]);
      i := i + 1;
    }
    assert w.services[..i] == w.services;
  }

  lemma ServicesKnown(w: Supervisor)
    requires w.Valid({})
    ensures forall t :: t in w.services <==> t in w.all
  {
  }

  lemma {:induction false} Unheard(told: seq<Notice>, s: Service)
    requires forall i :: 0 <= i < |told| ==> told[i].who != s
    ensures LastWord(told, s) == SaysDown
  {
    if told != [] { Unheard(told[..|told| - 1], s); }
  }

  lemma DownIsCoherent(now: int)
    ensures Coherent(Status(Down, 0, 0, 0), now)
  {
  }

  // svc_ctor and svc_list
  method NewService(w: Supervisor) returns (s: Service)
    requires w.Quiet()
    modifies w`services, w`all
    ensures w.Quiet() && fresh(s) && w.all == old(w.all) + {s} && w.services == old(w.services) + [s]
    ensures ValueOf(s) == FRESH
  {
    hide Supervisor.Linked, Coherent, LastWord, Truthful;
    s := new Service();
    assert Coherent(s.Snapshot(), w.now) by { DownIsCoherent(w.now); }
    Unheard(w.told, s);
    w.services := w.services + [s];
    GrowAll(w, s);
  }

  // svc_new; there may be no room for another service
  method CreateService(w: Supervisor, room: bool) returns (s: Service?)
    requires w.Quiet()
    modifies w`services, w`all
    ensures w.Quiet() && (s != null <==> room)
    ensures s != null ==>
      fresh(s) && w.all == old(w.all) + {s} && w.services == old(w.services) + [s] && ValueOf(s) == FRESH
    ensures s == null ==> w.all == old(w.all) && w.services == old(w.services)
  {
    hide Supervisor.Quiet;
    if !room {
      return null;
    }
    s := NewService(w);
  }

  ghost method GrowAll(w: Supervisor, s: Service)
    requires w.Linked() && s !in w.all && s.activePrev == Unlinked
    modifies w`all
    ensures w.Linked() && w.all == old(w.all) + {s}
  {
    hide Chain;
    ghost var nexts, prevs := w.NextMap(), w.PrevMap();
    w.all := w.all + {s};
    ChainGrows(w.active, w.activeList, nexts, prevs, w.NextMap(), w.PrevMap(), s);
  }

  lemma ChainGrows(q: seq<Service>, head: Service?, next: map<Service, Service?>, prev: map<Service, Link>,
                   next': map<Service, Service?>, prev': map<Service, Link>, s: Service)
    requires Chain(q, head, next, prev)
    requires next'.Keys == next.Keys + {s} && prev'.Keys == prev.Keys + {s} && prev'[s] == Unlinked && s !in prev
    requires forall t :: t in next ==> next'[t] == next[t]
    requires forall t :: t in prev ==> prev'[t] == prev[t]
    ensures Chain(q, head, next', prev')
  {
  }

  lemma ChainShrinks(q: seq<Service>, head: Service?, next: map<Service, Service?>, prev: map<Service, Link>,
                     next': map<Service, Service?>, prev': map<Service, Link>, s: Service)
    requires Chain(q, head, next, prev) && s !in q
    requires next'.Keys == next.Keys - {s} && prev'.Keys == prev.Keys - {s}
    requires forall t :: t in next' ==> next'[t] == next[t]
    requires forall t :: t in prev' ==> prev'[t] == prev[t]
    ensures Chain(q, head, next', prev')
  {
  }

  // The list without s.
  method Without(q: seq<Service>, s: Service) returns (r: seq<Service>)
    ensures forall t :: t in r <==> t in q && t != s
  {
    r := [];
    var i := 0;
    while i < |q|
      invariant 0 <= i <= |q| && forall t :: t in r <==> t in q[..i] && t != s
    {
      assert q[..i + 1] == q[..i] + [q[i]];
      if q[i] != s {
        r := r + [q[i]];
      }
      i := i + 1;
    }
    assert q[..i] == q;
  }

  // svc_delete: the last service takes the place of the one that is gone.
  method Unlist(q: seq<Service>, s: Service) returns (r: seq<Service>)
    requires Distinct(q)
    ensures Distinct(r) && (forall t :: t in r <==> t in q && t != s)
    ensures SwappedOut(q, s, r)
  {
    var i := 0;
    while i < |q|
      invariant 0 <= i <= |q| && s !in q[..i]
    {
      if q[i] == s {
        SwapOut(q, i);
        return SwapRemove(q, i);
      }
      assert q[..i + 1] == q[..i] + [q[i]];
      i := i + 1;
    }
    assert q[..i] == q;
    return q;
  }

  function SwapRemove<T>(q: seq<T>, i: nat): seq<T>
    requires i < |q|
  {
    q[i := q[|q| - 1]][..|q| - 1]
  }

  ghost predicate SwappedOut(q: seq<Service>, s: Service, r: seq<Service>) {
    forall i :: 0 <= i < |q| && q[i] == s ==> r == SwapRemove(q, i)
  }

  lemma SwapOut(q: seq<Service>, i: nat)
    requires Distinct(q) && i < |q|
    ensures Distinct(SwapRemove(q, i))
    ensures forall t :: t in SwapRemove(q, i) <==> t in q && t != q[i]
  {
    var last := |q| - 1;
    var r := SwapRemove(q, i);
    forall t | t in q && t != q[i]
      ensures t in r
    {
      var j :| 0 <= j < |q| && q[j] == t;
      assert if j < last then r[j] == t else r[i] == t;
    }
  }

  // A service off the list can go; the links of the others are untouched.
  ghost method ShrinkAll(w: Supervisor, s: Service)
    requires w.Linked() && s !in w.active
    modifies w`all
    ensures w.Linked() && w.all == old(w.all) - {s}
  {
    hide Chain;
    ghost var nexts, prevs := w.NextMap(), w.PrevMap();
    w.all := w.all - {s};
    ChainShrinks(w.active, w.activeList, nexts, prevs, w.NextMap(), w.PrevMap(), s);
  }

  // svc_delete once the service is off the active list
  method Forget(w: Supervisor, s: Service)
    requires w.Valid({s}) && s in w.all && s !in w.active && s.pid == 0
    modifies w`sigwake, w`services, w`all
    ensures w.Valid({}) && w.all == old(w.all) - {s}
    ensures SwappedOut(old(w.services), s, w.services)
  {
    hide SwappedOut;
    hide Supervisor.Linked, Coherent, LastWord, Truthful, Distinct, RemovedFrom;
    var heard := Without(w.sigwake, s);
    var left := Unlist(w.services, s);
    w.sigwake, w.services := heard, left;
    ShrinkAll(w, s);
  }

  method Retire(w: Supervisor, s: Service)
    requires w.Valid({}) && s in w.all
    modifies w`activeList, w`active, w.all`activeNext, w.all`activePrev
    ensures w.Valid({s}) && s !in w.active
  {
    hide Supervisor.Linked, Supervisor.Indexed, Supervisor.Tracked, Supervisor.Listed, Supervisor.Sound, RemovedFrom;
    w.SetActive(s, false);
  }

  // svc_dtor and svc_delete, as service.delete uses them: a service with a pid is refused.
  method DeleteService(w: Supervisor, s: Service) returns (ok: bool)
    requires w.Quiet() && s in w.all
    modifies w`activeList, w`active, w`sigwake, w`services, w`all, w.all`activeNext, w.all`activePrev
    ensures w.Quiet() && ok == (s.pid == 0) && w.all == if ok then old(w.all) - {s} else old(w.all)
    ensures !ok ==> w.services == old(w.services)
    ensures ok ==> SwappedOut(old(w.services), s, w.services)
  {
    hide SwappedOut;
    hide Supervisor.Valid;
    PidIsNat(w, s);
    if s.pid > 0 {
      return false;
    }
    Retire(w, s);
    Forget(w, s);
    return true;
  }

  lemma PidIsNat(w: Supervisor, s: Service)
    requires w.Valid({}) && s in w.all
    ensures s.pid >= 0
  {
  }

  // svc_set_triggers once the triggers are read and stored: listen, and start now if already called for.
  method SetTriggers(w: Supervisor, s: Service, always: bool, signals: set<int>)
    requires w.Quiet() && w.now <= w.next && s in w.all
    modifies w`next, w`told, w`byPid, w`activeList, w`active, w`sigwake
    modifies s, w.all`activeNext, w.all`activePrev
    ensures w.Quiet() && w.now <= w.next <= old(w.next)
    ensures s.autoRestart == always && s.wakeSignals == signals && s.restartInterval == old(s.restartInterval)
    ensures s in w.sigwake <==> signals != {}
    ensures s.Snapshot() == Woken(old(s.Snapshot()), w.Wanted(s), w.now)
    ensures w.Books() == Woke(if w.Wanted(s) && old(Startable(s.Snapshot())) then [s] else [], w.now, old(w.Books()))
  {
    hide Supervisor.Valid, Supervisor.Quiet;
    WokeNone(w.now, w.Books());
    Listen(w, s, always, signals);
    if s.autoRestart || s.wakeSignals * w.pending != {} {
      var _ := StartService(w, s, w.now);
    }
  }

  // svc_set_sigwake
  method SetSigwake(q: seq<Service>, s: Service, on: bool) returns (r: seq<Service>)
    ensures s in r <==> on
    ensures forall t :: t in q && t != s ==> t in r
    ensures forall t :: t in r && t != s ==> t in q
  {
    if on {
      return if s in q then q else [s] + q;
    }
    r := Without(q, s);
  }

  method Relist(w: Supervisor, s: Service, always: bool, signals: set<int>)
    requires w.Listed() && s in w.all
    modifies w`sigwake, s`autoRestart, s`wakeSignals
    ensures w.Listed() && s.autoRestart == always && s.wakeSignals == signals && (s in w.sigwake <==> signals != {})
  {
    hide Distinct;
    var heard := SetSigwake(w.sigwake, s, signals != {});
    s.autoRestart := always;
    s.wakeSignals := signals;
    w.sigwake := heard;
  }

  method Listen(w: Supervisor, s: Service, always: bool, signals: set<int>)
    requires w.Quiet() && s in w.all
    modifies w`sigwake, s`autoRestart, s`wakeSignals
    ensures w.Quiet() && s.autoRestart == always && s.wakeSignals == signals && (s in w.sigwake <==> signals != {})
  {
    hide Supervisor.Linked, Supervisor.Indexed, Supervisor.Tracked;
    hide Supervisor.Settled, Supervisor.Sound, Supervisor.Listed;
    Relist(w, s, always, signals);
  }

  // service.auto_up: an interval in whole seconds ("-" keeps the old one), and the triggers, which may
  // be refused once the interval has been set
  method AutoUp(w: Supervisor, s: Service, interval: Interval, triggers: Triggers) returns (ok: bool)
    requires w.Quiet() && w.now <= w.next && s in w.all
    modifies w`next, w`told, w`byPid, w`activeList, w`active, w`sigwake
    modifies s, w.all`activeNext, w.all`activePrev
    ensures w.Quiet() && w.now <= w.next <= old(w.next) && ok == (IntervalOk(interval) && triggers.Triggers?)
    ensures ValueOf(s) == Retriggered(old(ValueOf(s)), interval, triggers, w.now, w.pending)
    ensures w.Books() ==
      Woke(if Rouses(old(s.Snapshot()), interval, triggers, w.pending) then [s] else [], w.now, old(w.Books()))
  {
    WokeNone(w.now, w.Books());
    if !IntervalOk(interval) {
      return false;
    }
    if interval.Seconds? {
      SetInterval(w, s, interval.n * Clock.SECOND);
    }
    if triggers.Refused? {
      return false;
    }
    hide Supervisor.Valid, Supervisor.Quiet;
    SetTriggers(w, s, triggers.always, triggers.signals);
    return true;
  }

  method SetInterval(w: Supervisor, s: Service, interval: int)
    requires w.Quiet() && s in w.all && interval >= 0
    modifies s`restartInterval
    ensures w.Quiet() && s.restartInterval == interval
  {
    hide Supervisor.Linked, Supervisor.Indexed, Supervisor.Tracked, Coherent;
    s.restartInterval := interval;
  }

  // ---------------------------------------------------------------- any command

  datatype Interval = Keep | Seconds(n: int)

  predicate IntervalOk(interval: Interval) { interval.Seconds? ==> 1 <= interval.n < 0x8000_0000 }

  datatype Triggers = Refused | Triggers(always: bool, signals: set<int>)

  // Services are named by their place in the list; a command for one that is not there is an error.
  datatype Command =
    | Create(room: bool)
    | StartAt(service: nat, when: int, hasArgs: bool)
    | Cancel(service: nat)
    | Delete(service: nat)
    | SetAutoUp(service: nat, interval: Interval, triggers: Triggers)
    | Tell(service: nat)         // one line of a statedump
    | Dump

  // The triggers call for the service, and it can be started.
  predicate Rouses(a: Status, interval: Interval, triggers: Triggers, pending: set<int>) {
    IntervalOk(interval) && triggers.Triggers? && (triggers.always || triggers.signals * pending != {}) && Startable(a)
  }

  function Retriggered(x: Svc, interval: Interval, triggers: Triggers, now: int, pending: set<int>): Svc {
    if !IntervalOk(interval) then x else
      var y := if interval.Seconds? then x.(interval := interval.n * Clock.SECOND) else x;
      if triggers.Refused? then y
      else y.(always := triggers.always, signals := triggers.signals,
              status := Woken(x.status, triggers.always || triggers.signals * pending != {}, now))
  }

  // What a command makes of all services.
  function Obey(a: seq<Svc>, c: Command, now: int, pending: set<int>): seq<Svc> {
    match c
    case Create(room) => if room then a + [FRESH] else a
    case StartAt(i, when, hasArgs) =>
      if i < |a| && when - now >= -100000 && hasArgs && Startable(a[i].status)
      then a[i := a[i].(status := Status(Start, 0, if when > now then when else now, 0))] else a
    case Cancel(i) =>
      if i < |a| && a[i].status.state == Start then a[i := a[i].(status := Status(Down, 0, 0, 0))] else a
    case Delete(i) => if i < |a| && a[i].status.pid == 0 then SwapRemove(a, i) else a
    case SetAutoUp(i, interval, triggers) =>
      if i < |a| then a[i := Retriggered(a[i], interval, triggers, now, pending)] else a
    case Tell(_) => a
    case Dump => a
  }

  // Whether it is heeded.
  predicate Heeded(a: seq<Svc>, c: Command, now: int) {
    match c
    case Create(room) => room
    case StartAt(i, when, hasArgs) => i < |a| && when - now >= -100000 && hasArgs && Startable(a[i].status)
    case Cancel(i) => i < |a| && a[i].status.state == Start
    case Delete(i) => i < |a| && a[i].status.pid == 0
    case SetAutoUp(i, interval, triggers) => i < |a| && IntervalOk(interval) && triggers.Triggers?
    case Tell(i) => i < |a|
    case Dump => true
  }

  // The service that it starts, if any.
  predicate Begins(a: seq<Svc>, c: Command, now: int, pending: set<int>) {
    || (c.StartAt? && Heeded(a, c, now))
    || (c.SetAutoUp? && c.service < |a| && Rouses(a[c.service].status, c.interval, c.triggers, pending))
  }

  // What it announces, besides a start.
  ghost function Telling(who: seq<Service>, a: seq<Svc>, c: Command): seq<Notice>
    requires |who| == |a|
  {
    match c
    case Cancel(i) => if i < |a| && a[i].status.state == Start then [Notice(who[i], Down, SaysDown)] else []
    case Tell(i) => if i < |a| then [Line(who[i], a[i])] else []
    case Dump => seq(|a|, i requires 0 <= i < |a| => Line(who[i], a[i]))
    case _ => []
  }

  ghost function Line(s: Service, x: Svc): Notice { Notice(s, x.status.state, Meaning(x.status.state)) }

  // What a command makes of what was told and of the wake-up.
  ghost function Booked(who: seq<Service>, a: seq<Svc>, c: Command, now: int, pending: set<int>, l: Ledger): Ledger
    requires |who| == |a|
  {
    if Begins(a, c, now, pending) then Woke([who[c.service]], now, l) else l.(told := l.told + Telling(who, a, c))
  }

  // Who is there afterwards.
  ghost predicate Regrouped(who: seq<Service>, who': seq<Service>, a: seq<Svc>, c: Command, now: int)
    requires |who| == |a|
  {
    if !Heeded(a, c, now) then who' == who
    else if c.Create? then |who'| == |who| + 1 && who'[..|who|] == who && who'[|who|] !in who
    else if c.Delete? then who' == SwapRemove(who, c.service)
    else who' == who
  }

  // service.start with a timestamp
  method CommandStart(w: Supervisor, s: Service, when: int, hasArgs: bool) returns (ok: bool)
    requires w.Quiet() && w.now <= w.next && s in w.all
    modifies w`next, w`told, w`byPid, w`activeList, w`active
    modifies s`state, s`pid, s`startTime, s`reapTime, w.all`activeNext, w.all`activePrev
    ensures w.Quiet() && w.now <= w.next <= old(w.next)
    ensures ok == (when - w.now >= -100000 && hasArgs && old(Startable(s.Snapshot())))
    ensures w.Books() == Woke(if ok then [s] else [], w.now, old(w.Books()))
    ensures s.Snapshot() == if ok then Status(Start, 0, if when > w.now then when else w.now, 0) else old(s.Snapshot())
  {
    hide Supervisor.Quiet;
    WokeNone(w.now, w.Books());
    if when - w.now < -100000 || !hasArgs {
      return false;
    }
    ok := StartService(w, s, when);
  }

  method TellOne(w: Supervisor, s: Service)
    requires w.Quiet() && s in w.all
    modifies w`told
    ensures w.Quiet() && w.told == old(w.told) + [Notice(s, s.state, Meaning(s.state))]
  {
    hide Supervisor.Valid;
    w.Announce(s);
  }

  // A command that is for service i changes that one only.
  lemma OneChanged(w: Supervisor, a: seq<Svc>, i: nat, x: Svc)
    requires i < |w.services| == |a| && Distinct(w.services) && ValueOf(w.services[i]) == x
    requires forall j :: 0 <= j < |a| && w.services[j] != w.services[i] ==> ValueOf(w.services[j]) == a[j]
    ensures World(w) == a[i := x]
  {
    hide ValueOf, Stage;
  }

  lemma SwapWorld(w: Supervisor, q: seq<Service>, a: seq<Svc>, i: nat)
    requires i < |q| == |a| && w.services == SwapRemove(q, i)
    requires forall j :: 0 <= j < |q| ==> ValueOf(q[j]) == a[j]
    ensures World(w) == SwapRemove(a, i)
  {
    hide ValueOf, Stage;
  }

  // A command was carried out: the services, the books and the answer are what they are to be.
  ghost predicate Carried(who: seq<Service>, who': seq<Service>, a: seq<Svc>, b: seq<Svc>, c: Command, now: int,
                          pending: set<int>, l: Ledger, l': Ledger, ok: bool)
    requires |who| == |a|
  {
    && b == Obey(a, c, now, pending) && l' == Booked(who, a, c, now, pending, l)
    && Regrouped(who, who', a, c, now) && ok == Heeded(a, c, now)
  }

  // The commands that name a service: the one that starts it ...
  method ExecuteStart(w: Supervisor, c: Command, i: nat, s: Service) returns (ok: bool)
    requires w.Quiet() && w.now <= w.next && c.StartAt? && c.service == i < |w.services| && w.services[i] == s
    modifies w, w.all
    ensures w.Quiet() && w.now == old(w.now) && w.now <= w.next && w.all <= old(w.all) && w.pending == old(w.pending)
    ensures Carried(old(w.services), w.services, old(World(w)), World(w), c, w.now, w.pending,
                    old(w.Books()), w.Books(), ok)
  {
    hide Supervisor.Quiet, Supervisor.Valid, Distinct, Stage, Woke;
    QuietServices(w);
    ghost var a := World(w);
    WokeNone(w.now, w.Books());
    ok := CommandStart(w, s, c.when, c.hasArgs);
    StatusOnly(s, a[i]);
    OneChanged(w, a, i, a[i].(status := s.Snapshot()));
  }

  // ... the one that takes that back ...
  method ExecuteCancel(w: Supervisor, c: Command, i: nat, s: Service) returns (ok: bool)
    requires w.Quiet() && w.now <= w.next && c.Cancel? && c.service == i < |w.services| && w.services[i] == s
    modifies w, w.all
    ensures w.Quiet() && w.now == old(w.now) && w.now <= w.next && w.all <= old(w.all) && w.pending == old(w.pending)
    ensures Carried(old(w.services), w.services, old(World(w)), World(w), c, w.now, w.pending,
                    old(w.Books()), w.Books(), ok)
  {
    hide Supervisor.Quiet, Supervisor.Valid, Distinct, Stage;
    QuietServices(w);
    ghost var a := World(w);
    ok := CancelService(w, s);
    StatusOnly(s, a[i]);
    OneChanged(w, a, i, a[i].(status := s.Snapshot()));
  }

  // ... the one that ends it ...
  method ExecuteDelete(w: Supervisor, c: Command, i: nat, s: Service) returns (ok: bool)
    requires w.Quiet() && w.now <= w.next && c.Delete? && c.service == i < |w.services| && w.services[i] == s
    modifies w, w.all
    ensures w.Quiet() && w.now == old(w.now) && w.now <= w.next && w.all <= old(w.all) && w.pending == old(w.pending)
    ensures Carried(old(w.services), w.services, old(World(w)), World(w), c, w.now, w.pending,
                    old(w.Books()), w.Books(), ok)
  {
    hide Supervisor.Quiet, Supervisor.Valid, Distinct, SwapRemove, Stage;
    ghost var a, q := World(w), w.services;
    QuietServices(w);
    ok := DeleteService(w, s);
    if ok {
      SwapWorld(w, q, a, i);
    }
  }

  // ... and the one that changes when it is started.
  method ExecuteAutoUp(w: Supervisor, c: Command, i: nat, s: Service) returns (ok: bool)
    requires w.Quiet() && w.now <= w.next && c.SetAutoUp? && c.service == i < |w.services| && w.services[i] == s
    modifies w, w.all
    ensures w.Quiet() && w.now == old(w.now) && w.now <= w.next && w.all <= old(w.all) && w.pending == old(w.pending)
    ensures Carried(old(w.services), w.services, old(World(w)), World(w), c, w.now, w.pending,
                    old(w.Books()), w.Books(), ok)
  {
    hide Supervisor.Quiet, Supervisor.Valid, Distinct, Retriggered, Stage, Woke, Rouses;
    ghost var a := World(w);
    WokeNone(w.now, w.Books());
    QuietServices(w);
    ok := AutoUp(w, s, c.interval, c.triggers);
    OneChanged(w, a, i, ValueOf(s));
  }

  // The one that makes a service ...
  method ExecuteCreate(w: Supervisor, c: Command) returns (ok: bool)
    requires w.Quiet() && w.now <= w.next && c.Create?
    modifies w`services, w`all
    ensures w.Quiet() && fresh(w.all - old(w.all))
    ensures Carried(old(w.services), w.services, old(World(w)), World(w), c, w.now, w.pending,
                    old(w.Books()), w.Books(), ok)
  {
    hide Supervisor.Quiet, Supervisor.Valid, Distinct, Stage, Carried, ValueOf;
    QuietServices(w);
    ghost var who, a := w.services, World(w);
    var s := CreateService(w, c.room);
    ok := s != null;
    Creates(who, w.services, a, World(w), c, w.now, w.pending, w.Books());
  }

  lemma Creates(who: seq<Service>, who': seq<Service>, a: seq<Svc>, b: seq<Svc>, c: Command, now: int,
                pending: set<int>, l: Ledger)
    requires |who| == |a| && |who'| == |b| && c.Create?
    requires if c.room then |who'| == |who| + 1 && who'[..|who|] == who && who'[|who|] !in who else who' == who
    requires (forall i :: 0 <= i < |a| ==> b[i] == a[i]) && (c.room ==> b[|a|] == FRESH)
    ensures Carried(who, who', a, b, c, now, pending, l, l, c.room)
  {
    assert b == if c.room then a + [FRESH] else a;
    assert l.told + [] == l.told;
  }

  // ... and those that only tell.
  method ExecuteTell(w: Supervisor, c: Command) returns (ok: bool)
    requires w.Quiet() && w.now <= w.next && (c.Dump? || (c.Tell? && c.service < |w.services|))
    modifies w`told
    ensures w.Quiet()
    ensures Carried(old(w.services), w.services, old(World(w)), World(w), c, w.now, w.pending,
                    old(w.Books()), w.Books(), ok)
  {
    hide Supervisor.Quiet, Supervisor.Valid, Distinct, Stage, Lines;
    QuietServices(w);
    if c.Dump? {
      LinesAre(w.services, World(w));
      Statedump(w);
    } else {
      TellOne(w, w.services[c.service]);
    }
    return true;
  }

  lemma LinesAre(q: seq<Service>, a: seq<Svc>)
    requires |q| == |a| && forall i :: 0 <= i < |q| ==> a[i] == ValueOf(q[i])
    ensures Lines(q) == Telling(q, a, Dump)
  {
    hide Lines;
  }

  /** Any command does to the services what Obey says, answers what Heeded says, tells what Booked says and hurries
      the main loop exactly if it starts a service; it keeps the invariants of the controllers' phase. */
  method Execute(w: Supervisor, c: Command) returns (ok: bool)
    requires w.Quiet() && w.now <= w.next
    modifies w, w.all
    ensures w.Quiet() && w.now == old(w.now) && w.now <= w.next && fresh(w.all - old(w.all))
    ensures w.pending == old(w.pending)
    ensures Carried(old(w.services), w.services, old(World(w)), World(w), c, w.now, w.pending,
                    old(w.Books()), w.Books(), ok)
  {
    hide Supervisor.Quiet, Supervisor.Valid, Distinct, SwapRemove, Woken, Lines, Retriggered, Stage;
    if c.Create? {
      ok := ExecuteCreate(w, c);
    } else if c.Dump? {
      ok := ExecuteTell(w, c);
    } else if c.service >= |w.services| {
      ok := false;
    } else if c.Delete? {
      ok := ExecuteDelete(w, c, c.service, w.services[c.service]);
    } else if c.SetAutoUp? {
      ok := ExecuteAutoUp(w, c, c.service, w.services[c.service]);
    } else if c.StartAt? {
      ok := ExecuteStart(w, c, c.service, w.services[c.service]);
    } else if c.Cancel? {
      ok := ExecuteCancel(w, c, c.service, w.services[c.service]);
    } else {
      ok := ExecuteTell(w, c);
    }
  }

  lemma QuietServices(w: Supervisor)
    requires w.Quiet()
    ensures Distinct(w.services) && forall i :: 0 <= i < |w.services| ==> w.services[i] in w.all
  {
    ServicesKnown(w);
  }
}
