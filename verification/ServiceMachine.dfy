/** The service state machine of src/service.c: the intrusive list of active services,
    the pid index, starting, cancelling, reaping and running services, and the words
    that service.state events use for what happened.
  */
module ServiceMachine {

  const FORK_RETRY_DELAY: int := 3 * 0x1_0000_0000

  datatype State = Down | Start | Up | Reaped

  // The fields of a service that its state machine works on; 0 means "undefined" for the times and the pid.
  datatype Status = Status(state: State, pid: int, startTime: int, reapTime: int)

  datatype Word = SaysDown | SaysStart | SaysUp

  // ---------------------------------------------------------------- one service

  // What pid and timestamps look like in each state.
  predicate Coherent(a: Status, now: int) {
    match a.state
    case Down => (a.startTime == 0 && a.pid == 0) || (a.startTime > 0 && a.reapTime > 0 && a.pid > 0)
    case Start => a.pid == 0 && a.startTime > 0 && a.reapTime == 0
    case Up => a.pid > 0 && 0 < a.startTime <= now && a.reapTime == 0
    case Reaped => a.pid > 0 && 0 < a.startTime <= a.reapTime <= now
  }

  // ctl_notify_svc_state: the word is computed from the timestamps and the pid alone.
  function Spoken(a: Status, now: int): Word {
    if a.startTime == 0 then SaysDown
    else if a.startTime - now >= 0 && a.pid == 0 then SaysStart
    else if a.reapTime == 0 then SaysUp
    else SaysDown
  }

  function Meaning(s: State): Word {
    match s
    case Down => SaysDown
    case Start => SaysStart
    case Up => SaysUp
    case Reaped => SaysDown
  }

  // The word is right exactly when no start is overdue.
  lemma SpokenIsMeant(a: Status, now: int)
    requires Coherent(a, now)
    ensures Spoken(a, now) == Meaning(a.state) <==> !(a.state.Start? && a.startTime < now)
  {
  }

  // svc_run comes to fork() for a service that is due, or may be restarted at once.
  predicate Forks(a: Status, now: int, restart: bool, interval: int) {
    || (a.state == Start && a.startTime <= now)
    || (a.state == Reaped && restart && a.reapTime - a.startTime >= interval)
  }

  // One call of svc_run, all its jumps taken together; `pid` is what fork() returned, if it was called.
  function Ran(a: Status, now: int, restart: bool, interval: int, pid: int): Status {
    if Forks(a, now, restart, interval) then
      if pid > 0 then Status(Up, pid, now, 0) else Status(Start, 0, now + FORK_RETRY_DELAY, 0)
    else if a.state != Reaped then a
    else if restart then Status(Start, 0, now + interval, 0)
    else a.(state := Down)
  }

  // The states it announces: the death, a start that is set and told again, and what came of the fork.
  function Says(a: Status, now: int, restart: bool, interval: int, pid: int): seq<State> {
    (if a.state == Reaped then [Reaped] + (if restart then [Start, Start] else []) else []) +
    (if Forks(a, now, restart, interval) then [if pid > 0 then Up else Start] else [])
  }

  // A start was set, so the main loop is to come back at once.
  predicate Hurries(a: Status, now: int, restart: bool, interval: int, pid: int) {
    (a.state == Reaped && restart) || (Forks(a, now, restart, interval) && pid <= 0)
  }

  function Sooner(a: int, b: int): int { if a < b then a else b }

  // The wake-up after it.
  function NextAfter(a: Status, now: int, restart: bool, interval: int, pid: int, next: int): int {
    if Hurries(a, now, restart, interval, pid) then now
    else if a.state == Start && a.startTime > now then Sooner(a.startTime, next)
    else next
  }

  // The address in active_prev_ptr: of the list head, or of the active_next of the service before.
  datatype Link = Unlinked | OfHead | OfNext(owner: Service)

  class Service {
    var state: State
    var pid: int
    var startTime: int
    var reapTime: int
    var autoRestart: bool
    var restartInterval: int
    var wakeSignals: set<int>
    var activeNext: Service?
    var activePrev: Link

    function Snapshot(): Status
      reads this`state, this`pid, this`startTime, this`reapTime
    {
      Status(state, pid, startTime, reapTime)
    }

    // svc_ctor
    constructor ()
      ensures Snapshot() == Status(Down, 0, 0, 0) && activePrev == Unlinked
      ensures !autoRestart && restartInterval == 0 && wakeSignals == {}
    {
      state, pid, startTime, reapTime := Down, 0, 0, 0;
      autoRestart, restartInterval, wakeSignals := false, 0, {};
      activeNext, activePrev := null, Unlinked;
    }
  }

  // ---------------------------------------------------------------- what controllers were told

  // A service.state event, with the state the service was really in.
  datatype Notice = Notice(who: Service, state: State, word: Word)

  // The latest word about a service; a service not heard of is down.
  ghost function LastWord(told: seq<Notice>, s: Service): Word {
    if told == [] then SaysDown
    else if told[|told| - 1].who == s then told[|told| - 1].word
    else LastWord(told[..|told| - 1], s)
  }

  lemma LastWordStep(told: seq<Notice>, n: Notice, s: Service)
    ensures LastWord(told + [n], s) == if n.who == s then n.word else LastWord(told, s)
  {
    assert (told + [n])[..|told|] == told;
  }

  // One service announces these states.
  ghost function Notices(s: Service, states: seq<State>): seq<Notice> {
    seq(|states|, i requires 0 <= i < |states| => Notice(s, states[i], Meaning(states[i])))
  }

  lemma NoticesMore(told: seq<Notice>, s: Service, a: seq<State>, b: seq<State>)
    ensures (told + Notices(s, a)) + Notices(s, b) == told + Notices(s, a + b)
  {
  }

  lemma OneNotice(s: Service, state: State)
    ensures Notices(s, [state]) == [Notice(s, state, Meaning(state))]
    ensures Notices(s, []) == []
  {
  }

  ghost predicate Truthful(told: seq<Notice>) {
    forall i :: 0 <= i < |told| ==> told[i].word == Meaning(told[i].state)
  }

  // Between its death and its next run a service is still believed to be up.
  function Believed(s: State): Word {
    if s == Reaped then SaysUp else Meaning(s)
  }

  predicate Waiting(s: State) { s == Start || s == Reaped }

  // One call of svc_run: the service, how it found it, and what fork() returned if it was called.
  datatype Job = Job(who: Service, from: Status, restart: bool, interval: int, pid: int) {
    ghost function End(now: int): Status { Ran(from, now, restart, interval, pid) }
    ghost function Said(now: int): seq<Notice> { Notices(who, Says(from, now, restart, interval, pid)) }
    ghost function Tried(now: int): seq<int> { if Forks(from, now, restart, interval) then [pid] else [] }
    ghost function Next(now: int, next: int): int { NextAfter(from, now, restart, interval, pid, next) }

    ghost function Post(now: int, l: Ledger): Ledger {
      Ledger(l.told + Said(now), l.forks + Tried(now), Next(now, l.next))
    }
  }

  // What the supervisor has told, what fork() has returned, and when it is to wake.
  datatype Ledger = Ledger(told: seq<Notice>, forks: seq<int>, next: int)

  ghost function Posted(jobs: seq<Job>, now: int, l: Ledger): Ledger {
    if jobs == [] then l else jobs[|jobs| - 1].Post(now, Posted(jobs[..|jobs| - 1], now, l))
  }

  // A job with nothing to do, ...
  lemma IdleJob(j: Job, now: int, l: Ledger)
    requires j.from.state == Up || j.from.state == Down
    ensures j.End(now) == j.from && j.Post(now, l) == l
  {
  }

  // ... one with a start ahead or due, ...
  lemma StartJob(j: Job, now: int, l: Ledger)
    requires j.from.state == Start
    ensures j.from.startTime > now ==>
      j.End(now) == j.from && j.Post(now, l) == l.(next := Sooner(j.from.startTime, l.next))
    ensures j.from.startTime <= now ==>
      && j.End(now) == (if j.pid > 0 then Status(Up, j.pid, now, 0) else Status(Start, 0, now + FORK_RETRY_DELAY, 0))
      && j.Post(now, l) ==
         Ledger(l.told + Notices(j.who, [if j.pid > 0 then Up else Start]), l.forks + [j.pid],
                if j.pid > 0 then l.next else now)
  {
  }

  // ... and one with a death, which leaves a job for the state after it.
  lemma ReapedJob(j: Job, mid: Status, now: int, l: Ledger)
    requires j.from.state == Reaped && j.interval >= 0
    requires mid == if !j.restart then j.from.(state := Down)
      else Status(Start, 0, if j.from.reapTime - j.from.startTime < j.interval then now + j.interval else now, 0)
    requires j.from.reapTime >= j.from.startTime && now <= l.next
    ensures var k := j.(from := mid);
      var said := [Reaped] + if j.restart then [Start, Start] else [];
      && j.End(now) == k.End(now)
      && j.Post(now, l) ==
         k.Post(now, l.(told := l.told + Notices(j.who, said), next := if j.restart then now else l.next))
  {
    var k := j.(from := mid);
    var said := [Reaped] + if j.restart then [Start, Start] else [];
    NoticesMore(l.told, j.who, said, Says(mid, now, j.restart, j.interval, j.pid));
  }

  lemma PostedMore(jobs: seq<Job>, j: Job, now: int, l: Ledger)
    ensures Posted(jobs + [j], now, l) == j.Post(now, Posted(jobs, now, l))
  {
    assert (jobs + [j])[..|jobs|] == jobs;
  }

  // ---------------------------------------------------------------- all services

  ghost function After(q: seq<Service>, i: nat): Service?
    requires i < |q|
  {
    if i + 1 < |q| then q[i + 1] else null
  }

  ghost function Before(q: seq<Service>, i: nat): Link
    requires i < |q|
  {
    if i > 0 then OfNext(q[i - 1]) else OfHead
  }

  ghost predicate Distinct(q: seq<Service>) {
    forall i, j :: 0 <= i < j < |q| ==> q[i] != q[j]
  }

  lemma DistinctAt(q: seq<Service>, i: nat, j: nat)
    requires Distinct(q) && i < |q| && j < |q| && i != j
    ensures q[i] != q[j]
  {
  }

  // The links spell out the list q.
  ghost predicate Nexts(q: seq<Service>, next: map<Service, Service?>) {
    forall i :: 0 <= i < |q| ==> q[i] in next && next[q[i]] == After(q, i)
  }

  ghost predicate Prevs(q: seq<Service>, prev: map<Service, Link>) {
    forall i :: 0 <= i < |q| ==> q[i] in prev && prev[q[i]] == Before(q, i)
  }

  ghost predicate Strays(q: seq<Service>, prev: map<Service, Link>) {
    forall s :: s in prev && s !in q ==> prev[s] == Unlinked
  }

  ghost predicate Chain(q: seq<Service>, head: Service?, next: map<Service, Service?>, prev: map<Service, Link>) {
    head == (if q == [] then null else q[0]) && Distinct(q) && Nexts(q, next) && Prevs(q, prev) && Strays(q, prev)
  }

  function Cut<T>(q: seq<T>, k: nat): seq<T>
    requires k < |q|
  {
    q[..k] + q[k + 1..]
  }

  lemma CutAt(q: seq<Service>, k: nat, i: nat)
    requires k < |q| && i < |q| - 1
    ensures |Cut(q, k)| == |q| - 1 && Cut(q, k)[i] == q[if i < k then i else i + 1]
  {
  }

  // Taking q[k] out of the list writes the active_next of the service before it, if any ...
  ghost predicate SkipNext(q: seq<Service>, k: nat, next: map<Service, Service?>, next': map<Service, Service?>)
    requires k < |q|
  {
    && next'.Keys == next.Keys
    && (forall s :: s in next && (k == 0 || s != q[k - 1]) ==> next'[s] == next[s])
    && (k > 0 && q[k - 1] in next ==> next'[q[k - 1]] == After(q, k))
  }

  // ... the active_prev_ptr of the one after it, if any, and its own.
  ghost predicate SkipPrev(q: seq<Service>, k: nat, prev: map<Service, Link>, prev': map<Service, Link>)
    requires k < |q|
  {
    && prev'.Keys == prev.Keys
    && (forall s :: s in prev && s != q[k] && (k + 1 == |q| || s != q[k + 1]) ==> prev'[s] == prev[s])
    && (q[k] in prev ==> prev'[q[k]] == Unlinked)
    && (k + 1 < |q| && q[k + 1] in prev ==> prev'[q[k + 1]] == Before(q, k))
  }

  lemma CutNexts(q: seq<Service>, k: nat, i: nat, next: map<Service, Service?>, next': map<Service, Service?>)
    requires Distinct(q) && Nexts(q, next) && k < |q| && SkipNext(q, k, next, next') && i < |q| - 1
    ensures |Cut(q, k)| == |q| - 1 && Cut(q, k)[i] in next' && next'[Cut(q, k)[i]] == After(Cut(q, k), i)
  {
    hide Cut, Distinct;
    var m := if i < k then i else i + 1;
    CutAt(q, k, i);
    if i + 1 < |q| - 1 { CutAt(q, k, i + 1); }
    assert q[m] in next && next[q[m]] == After(q, m);
    if k > 0 && m != k - 1 { DistinctAt(q, m, k - 1); }
  }

  lemma CutPrevs(q: seq<Service>, k: nat, i: nat, prev: map<Service, Link>, prev': map<Service, Link>)
    requires Distinct(q) && Prevs(q, prev) && k < |q| && SkipPrev(q, k, prev, prev') && i < |q| - 1
    ensures |Cut(q, k)| == |q| - 1 && Cut(q, k)[i] in prev' && prev'[Cut(q, k)[i]] == Before(Cut(q, k), i)
  {
    hide Cut, Distinct;
    var m := if i < k then i else i + 1;
    CutAt(q, k, i);
    if i > 0 { CutAt(q, k, i - 1); }
    assert q[m] in prev && prev[q[m]] == Before(q, m);
    DistinctAt(q, m, k);
    if k + 1 < |q| && m != k + 1 { DistinctAt(q, m, k + 1); }
  }

  lemma CutDistinct(q: seq<Service>, k: nat)
    requires Distinct(q) && k < |q|
    ensures Distinct(Cut(q, k)) && q[k] !in Cut(q, k)
  {
  }

  lemma CutStrays(q: seq<Service>, k: nat, prev: map<Service, Link>, prev': map<Service, Link>)
    requires k < |q| && Strays(q, prev) && SkipPrev(q, k, prev, prev')
    ensures Strays(Cut(q, k), prev')
  {
    forall s | s in prev' && s !in Cut(q, k)
      ensures prev'[s] == Unlinked
    {
      if s != q[k] {
        assert s !in q by {
          if s in q { CutMember(q, k, s); }
        }
        assert k + 1 < |q| ==> q[k + 1] in q;
      }
    }
  }

  lemma CutMember(q: seq<Service>, k: nat, s: Service)
    requires k < |q| && s in q && s != q[k]
    ensures s in Cut(q, k)
  {
    var i :| 0 <= i < |q| && q[i] == s;
    CutAt(q, k, if i < k then i else i - 1);
  }

  lemma CutSubset(q: seq<Service>, k: nat)
    requires k < |q|
    ensures forall s :: s in Cut(q, k) ==> s in q
    ensures forall s :: s in q && s != q[k] ==> s in Cut(q, k)
  {
  }

  lemma ChainCut(q: seq<Service>, k: nat, head: Service?, next: map<Service, Service?>, prev: map<Service, Link>,
                 head': Service?, next': map<Service, Service?>, prev': map<Service, Link>)
    requires Chain(q, head, next, prev) && k < |q| && SkipNext(q, k, next, next') && SkipPrev(q, k, prev, prev')
    requires head' == if k == 0 then After(q, k) else head
    ensures Chain(Cut(q, k), head', next', prev') && q[k] !in Cut(q, k)
  {
    hide Distinct, Strays, SkipNext, SkipPrev, Nexts, Prevs, Cut;
    CutDistinct(q, k);
    CutStrays(q, k, prev, prev');
    CutAllNexts(q, k, next, next');
    CutAllPrevs(q, k, prev, prev');
    if |q| > 1 { CutAt(q, k, 0); }
    CutLength(q, k);
  }

  lemma CutLength(q: seq<Service>, k: nat)
    requires k < |q|
    ensures |Cut(q, k)| == |q| - 1
  {
  }

  lemma CutAllNexts(q: seq<Service>, k: nat, next: map<Service, Service?>, next': map<Service, Service?>)
    requires Distinct(q) && Nexts(q, next) && k < |q| && SkipNext(q, k, next, next')
    ensures Nexts(Cut(q, k), next')
  {
    hide Distinct, SkipNext, Cut;
    CutLength(q, k);
    forall i | 0 <= i < |q| - 1
      ensures Cut(q, k)[i] in next' && next'[Cut(q, k)[i]] == After(Cut(q, k), i)
    {
      CutNexts(q, k, i, next, next');
    }
  }

  lemma CutAllPrevs(q: seq<Service>, k: nat, prev: map<Service, Link>, prev': map<Service, Link>)
    requires Distinct(q) && Prevs(q, prev) && k < |q| && SkipPrev(q, k, prev, prev')
    ensures Prevs(Cut(q, k), prev')
  {
    hide Distinct, SkipPrev, Cut;
    CutLength(q, k);
    forall i | 0 <= i < |q| - 1
      ensures Cut(q, k)[i] in prev' && prev'[Cut(q, k)[i]] == Before(Cut(q, k), i)
    {
      CutPrevs(q, k, i, prev, prev');
    }
  }

  // Pushing s writes its two links and the active_prev_ptr of the service that was first, if any.
  ghost predicate PushLinks(q: seq<Service>, s: Service, next: map<Service, Service?>, prev: map<Service, Link>,
                            next': map<Service, Service?>, prev': map<Service, Link>) {
    && next'.Keys == next.Keys && prev'.Keys == prev.Keys && s in next && s in prev
    && next'[s] == (if q == [] then null else q[0]) && prev'[s] == OfHead
    && (forall t :: t in next && t != s ==> next'[t] == next[t])
    && (forall t :: t in prev && t != s && (q == [] || t != q[0]) ==> prev'[t] == prev[t])
    && (q != [] && q[0] in prev ==> prev'[q[0]] == OfNext(s))
  }

  lemma ChainPush(q: seq<Service>, s: Service, head: Service?, next: map<Service, Service?>, prev: map<Service, Link>,
                  next': map<Service, Service?>, prev': map<Service, Link>)
    requires Chain(q, head, next, prev) && s !in q && PushLinks(q, s, next, prev, next', prev')
    ensures Chain([s] + q, s, next', prev')
  {
    var p := [s] + q;
    forall i | 0 <= i < |p|
      ensures p[i] in next' && p[i] in prev' && next'[p[i]] == After(p, i) && prev'[p[i]] == Before(p, i)
    {
      if i > 0 {
        assert p[i] == q[i - 1] && next[q[i - 1]] == After(q, i - 1) && prev[q[i - 1]] == Before(q, i - 1);
        if i > 1 { DistinctAt(q, 0, i - 1); }
      }
    }
  }

  class Supervisor {
    var now: int
    var next: int                     // wake->next
    var activeList: Service?
    var byPid: map<int, Service>
    var services: seq<Service>        // svc_list
    var sigwake: seq<Service>         // svc_sigwake_list, in order
    var pending: set<int>             // signals not cleared yet
    var told: seq<Notice>
    var forks: seq<int>               // what fork() has returned so far
    ghost var all: set<Service>
    ghost var active: seq<Service>

    ghost function NextMap(): map<Service, Service?>
      reads this`all, all`activeNext
    {
      map s | s in all :: s.activeNext
    }

    ghost function PrevMap(): map<Service, Link>
      reads this`all, all`activePrev
    {
      map s | s in all :: s.activePrev
    }

    // The doubly linked list spells out `active`.
    ghost predicate Linked()
      reads this`activeList, this`active, this`all, all`activeNext, all`activePrev
    {
      && (forall s :: s in active ==> s in all)
      && Chain(active, activeList, NextMap(), PrevMap())
    }

    // The pid index holds exactly the services with a pid.
    ghost predicate Indexed()
      reads this`byPid, this`all, all`pid
    {
      && (forall p :: p in byPid ==> p > 0 && byPid[p] in all && byPid[p].pid == p)
      && (forall s :: s in all && s.pid != 0 ==> s.pid in byPid && byPid[s.pid] == s)
    }

    ghost predicate Sound()
      reads this`now, this`all, all`state, all`pid, all`startTime, all`reapTime, all`restartInterval
    {
      now > 0 && forall s :: s in all ==> Coherent(s.Snapshot(), now) && s.restartInterval >= 0
    }

    // The active list holds exactly the services in START or REAPED (those in `loose` aside).
    ghost predicate Settled(loose: set<Service>)
      reads this`active, this`all, all`state
    {
      forall s :: s in all && s !in loose ==> (s in active <==> Waiting(s.state))
    }

    ghost predicate Tracked()
      reads this`told, this`all, all`state
    {
      Truthful(told) && forall s :: s in all ==> LastWord(told, s) == Believed(s.state)
    }

    ghost predicate Listed()
      reads this`services, this`sigwake, this`all, all`wakeSignals
    {
      && (forall s :: s in services ==> s in all) && (forall s :: s in all ==> s in services)
      && Distinct(services)
      && (forall s :: s in sigwake ==> s in all)
      && (forall s :: s in all ==> (s in sigwake <==> s.wakeSignals != {}))
    }

    ghost predicate Valid(loose: set<Service>)
      reads this`now, this`activeList, this`byPid, this`services, this`sigwake, this`told, this`all, this`active, all
    {
      Linked() && Indexed() && Sound() && Settled(loose) && Tracked() && Listed()
    }

    // No death is unhandled, no start is overdue, and the next wake-up is in time for every start.
    ghost predicate Quiet()
      reads this, all
    {
      && Valid({})
      && forall s :: s in all ==> s.state != Reaped && (s.state == Start ==> now <= s.startTime && next <= s.startTime)
    }

    constructor (time: int)
      requires time > 0
      ensures Valid({}) && Quiet() && all == {} && now == time == next
      ensures told == [] && services == [] && forks == []
    {
      now, next, activeList, byPid, services, sigwake, pending, told := time, time, null, map[], [], [], {}, [];
      forks := [];
      all, active := {}, [];
    }

    // svc_set_active, inserting at the head
    method Link(s: Service)
      requires Linked() && s in all && s !in active
      modifies this`activeList, this`active, all`activeNext, all`activePrev
      ensures Linked() && active == [s] + old(active)
    {
      ghost var was, head, nexts, prevs := active, activeList, NextMap(), PrevMap();
      s.activePrev := OfHead;
      s.activeNext := activeList;
      if activeList != null {
        activeList.activePrev := OfNext(s);
      }
      activeList := s;
      active := [s] + active;
      hide Distinct, Nexts, Prevs, Strays;
      ChainPush(was, s, head, nexts, prevs, NextMap(), PrevMap());
    }

    // The writes of svc_set_active when removing the service at place k of the list.
    method Bypass(s: Service, ghost k: nat)
      requires k < |active| && active[k] == s && s in all
      requires s.activeNext == After(active, k) && s.activePrev == Before(active, k)
      requires k + 1 < |active| ==> active[k + 1] in all && active[k + 1] != s
      requires k > 0 ==> active[k - 1] in all && active[k - 1] != s
      modifies this`activeList, all`activeNext, all`activePrev
      ensures SkipNext(active, k, old(NextMap()), NextMap()) && SkipPrev(active, k, old(PrevMap()), PrevMap())
      ensures activeList == if k == 0 then After(active, k) else old(activeList)
    {
      if s.activeNext != null {
        s.activeNext.activePrev := s.activePrev;
      }
      match s.activePrev {
        case OfHead => activeList := s.activeNext;
        case OfNext(owner) => owner.activeNext := s.activeNext;
        case Unlinked => assert false;
      }
      s.activePrev := Unlinked;
    }

    // svc_set_active, removing
    method Unlink(s: Service)
      requires Linked() && s in active
      modifies this`activeList, this`active, all`activeNext, all`activePrev
      ensures Linked() && s !in active && RemovedFrom(old(active), s, active)
      ensures forall t :: t in all && t != s ==> (t in active <==> t in old(active))
    {
      hide Distinct, Nexts, Prevs, Strays, SkipNext, SkipPrev, NextMap, PrevMap, Cut, RemovedFrom;
      ghost var head, nexts, prevs := activeList, NextMap(), PrevMap();
      ghost var k := Place(s);
      NeighboursOf(k);
      CutSubset(active, k);
      RemovedAt(active, s, k);
      Bypass(s, k);
      ChainCut(active, k, head, nexts, prevs, activeList, NextMap(), PrevMap());
      active := Cut(active, k);
    }

    ghost function Place(s: Service): (k: nat)
      requires Linked() && s in active
      reads this`activeList, this`active, this`all, all`activeNext, all`activePrev
      ensures k < |active| && active[k] == s
    {
      var k :| 0 <= k < |active| && active[k] == s;
      k
    }

    lemma NeighboursOf(k: nat)
      requires Linked() && k < |active|
      ensures active[k].activeNext == After(active, k) && active[k].activePrev == Before(active, k)
      ensures active[k] in all && (k + 1 < |active| ==> active[k + 1] in all && active[k + 1] != active[k])
      ensures k > 0 ==> active[k - 1] in all && active[k - 1] != active[k]
      ensures 0 < k < |active| - 1 ==> active[k - 1] != active[k + 1]
    {
      assert NextMap()[active[k]] == After(active, k) && PrevMap()[active[k]] == Before(active, k);
    }

    lemma LinkedMember(s: Service)
      requires Linked() && s in all
      ensures s in active <==> s.activePrev != Unlinked
    {
      if s in active {
        var k :| 0 <= k < |active| && active[k] == s;
      }
    }

    // svc_set_active
    method SetActive(s: Service, activate: bool)
      requires Linked() && s in all
      modifies this`activeList, this`active, all`activeNext, all`activePrev
      ensures Linked() && (s in active <==> activate)
      ensures activate ==> active == if s in old(active) then old(active) else [s] + old(active)
      ensures !activate && s !in old(active) ==> active == old(active)
      ensures !activate ==> RemovedFrom(old(active), s, active)
      ensures forall t :: t in all && t != s ==> (t in active <==> t in old(active))
    {
      LinkedMember(s);
      hide Linked, RemovedFrom;
      if activate && s.activePrev == Unlinked {
        Link(s);
      } else if !activate && s.activePrev != Unlinked {
        Unlink(s);
      }
    }

    // svc_notify_state
    method Notify(s: Service)
      requires s in all && Sound() && Truthful(told) && (s.state == Start ==> now <= s.startTime)
      requires forall t :: t in all && t != s ==> LastWord(told, t) == Believed(t.state)
      modifies this`told
      ensures told == old(told) + [Notice(s, s.state, Meaning(s.state))]
      ensures Truthful(told) && LastWord(told, s) == Meaning(s.state)
      ensures forall t :: t in all && t != s ==> LastWord(told, t) == Believed(t.state)
    {
      SpokenIsMeant(s.Snapshot(), now);
      ghost var was := told;
      told := told + [Notice(s, s.state, Spoken(s.Snapshot(), now))];
      LastWordAll(was, Notice(s, s.state, Meaning(s.state)), all);
    }

    // svc_change_pid
    method ChangePid(s: Service, pid: int)
      requires s in all && Indexed() && pid >= 0 && (pid == 0 || pid !in byPid)
      modifies this`byPid, s`pid
      ensures Indexed() && s.pid == pid
      ensures byPid == (if pid != 0 then (old(byPid) - {old(s.pid)})[pid := s] else old(byPid) - {old(s.pid)})
    {
      if s.pid != 0 {
        byPid := byPid - {s.pid};
      }
      s.pid := pid;
      if s.pid != 0 {
        byPid := byPid[s.pid := s];
      }
    }

    // svc_by_pid
    method ByPid(pid: int) returns (s: Service?)
      requires Indexed()
      ensures s != null ==> s in all && s.pid == pid && pid != 0 && forall t :: t in all && t.pid == pid ==> t == s
      ensures s == null ==> forall t :: t in all ==> t.pid != pid || pid == 0
    {
      s := if pid in byPid then byPid[pid] else null;
    }

    // The fields of a service that is to start; a start time of 0 would mean undefined.
    method MarkStart(s: Service, at: int)
      requires s in all && Indexed()
      modifies this`byPid, s`state, s`pid, s`startTime, s`reapTime
      ensures Indexed() && s.Snapshot() == Status(Start, 0, if at == 0 then 1 else at, 0)
    {
      s.state := Start;
      s.startTime := if at == 0 then 1 else at;
      ChangePid(s, 0);
      s.reapTime := 0;
    }

    // All that Valid says, but for what was told of s.
    ghost predicate ValidUntold(s: Service)
      reads this, all
    {
      && Linked() && Indexed() && Sound() && Settled({}) && Listed() && Truthful(told)
      && forall t :: t in all && t != s ==> LastWord(told, t) == Believed(t.state)
    }

    method Schedule(s: Service, at: int)
      requires Valid({s}) && s in all && at >= now
      modifies this`byPid, this`activeList, this`active
      modifies s`state, s`pid, s`startTime, s`reapTime, all`activeNext, all`activePrev
      ensures ValidUntold(s) && s.Snapshot() == Status(Start, 0, at, 0)
      ensures active == if s in old(active) then old(active) else [s] + old(active)
    {
      hide Linked, Indexed, Listed, RemovedFrom, LastWord, Truthful;
      MarkStart(s, at);
      SetActive(s, true);
    }

    // svc_handle_start, once it is decided when
    method Begin(s: Service, at: int)
      requires Valid({s}) && s in all && at >= now
      modifies this`next, this`told, this`byPid, this`activeList, this`active
      modifies s`state, s`pid, s`startTime, s`reapTime, all`activeNext, all`activePrev
      ensures Valid({}) && next == now && s.Snapshot() == Status(Start, 0, at, 0)
      ensures active == if s in old(active) then old(active) else [s] + old(active)
      ensures told == old(told) + [Notice(s, Start, SaysStart)]
    {
      hide Linked, Indexed, Listed, Sound, Settled, LastWord, Truthful;
      Schedule(s, at);
      Notify(s);
      next := now;
    }

    // svc_handle_start
    method HandleStart(s: Service, when: int) returns (ok: bool)
      requires Valid({s}) && s in all
      modifies this`next, this`told, this`byPid, this`activeList, this`active
      modifies s`state, s`pid, s`startTime, s`reapTime, all`activeNext, all`activePrev
      ensures ok == old(s.state == Down || s.state == Start)
      ensures ok ==> Valid({}) && next == now && s.Snapshot() == Status(Start, 0, if when > now then when else now, 0)
      ensures ok ==> active == if s in old(active) then old(active) else [s] + old(active)
      ensures ok ==> told == old(told) + [Notice(s, Start, SaysStart)]
      ensures !ok ==>
        s.Snapshot() == old(s.Snapshot()) && next == old(next) && active == old(active) && told == old(told)
      ensures !ok ==> Valid({s}) && (old(Valid({})) ==> Valid({}))
    {
      if s.state != Down && s.state != Start {
        return false;
      }
      hide Valid;
      Begin(s, if when - now > 0 then when else now);
      return true;
    }

    // svc_cancel_start
    method CancelStart(s: Service) returns (ok: bool)
      requires Valid({}) && s in all
      modifies this`told, this`activeList, this`active, s`state, s`startTime, all`activeNext, all`activePrev
      ensures Valid({}) && ok == old(s.state == Start)
      ensures ok ==> s.Snapshot() == Status(Down, 0, 0, 0) && RemovedFrom(old(active), s, active)
      ensures ok ==> told == old(told) + [Notice(s, Down, SaysDown)]
      ensures !ok ==> s.Snapshot() == old(s.Snapshot()) && active == old(active) && told == old(told)
    {
      hide Linked, Indexed, Listed, RemovedFrom, LastWord, Truthful, Sound;
      if s.state != Start {
        return false;
      }
      MarkCancelled(s);
      SetActive(s, false);
      Notify(s);
      return true;
    }

    // svc_handle_reaped
    method HandleReaped(s: Service)
      requires Valid({}) && s in all
      modifies this`next, this`activeList, this`active, s`state, s`reapTime, all`activeNext, all`activePrev
      ensures Valid({}) && next == (if old(s.state) == Up then now else old(next))
      ensures s.Snapshot() ==
        if old(s.state) == Up then old(s.Snapshot()).(state := Reaped, reapTime := now) else old(s.Snapshot())
    {
      hide Linked, Indexed, Listed, RemovedFrom, Sound, Tracked;
      if s.state == Up {
        MarkReaped(s);
        SetActive(s, true);
        next := now;
      }
    }

    method MarkReaped(s: Service)
      requires Sound() && Tracked() && s in all && s.state == Up
      modifies s`state, s`reapTime
      ensures Sound() && Tracked() && s.Snapshot() == old(s.Snapshot()).(state := Reaped, reapTime := now)
    {
      hide Truthful, LastWord;
      s.state := Reaped;
      s.reapTime := now;
    }

    method MarkCancelled(s: Service)
      requires Sound() && s in all && s.state == Start
      modifies s`state, s`startTime
      ensures Sound() && s.Snapshot() == Status(Down, 0, 0, 0)
    {
      s.state := Down;
      s.startTime := 0;
    }

    // Back to down, once that was told.
    method MarkDown(s: Service)
      requires Sound() && s in all && s.state == Reaped && Truthful(told) && LastWord(told, s) == SaysDown
      requires forall t :: t in all && t != s ==> LastWord(told, t) == Believed(t.state)
      modifies s`state
      ensures Sound() && Tracked() && s.Snapshot() == old(s.Snapshot()).(state := Down)
    {
      hide Truthful, LastWord;
      s.state := Down;
    }

    // The main loop's handling of one pid from waitpid.
    method Reap(pid: int)
      requires Valid({}) && now <= next
      modifies this`next, this`activeList, this`active, all`state, all`reapTime, all`activeNext, all`activePrev
      ensures Valid({}) && next == if old(exists t :: t in all && t.state == Up && t.pid == pid) then now else old(next)
      ensures forall t :: t in all ==>
        t.Snapshot() ==
          if old(t.state) == Up && t.pid == pid then old(t.Snapshot()).(state := Reaped, reapTime := now)
          else old(t.Snapshot())
    {
      hide Valid, Linked, Indexed;
      UpHasPid();
      var s := ByPid(pid);
      if s != null {
        HandleReaped(s);
      }
    }

    lemma UpHasPid()
      requires Valid({})
      ensures Indexed() && forall t :: t in all && t.state == Up ==> t.pid > 0
    {
    }

    // svc_check_sigwake, or auto_restart
    ghost predicate Wanted(s: Service)
      reads this`pending, s`autoRestart, s`wakeSignals
    {
      s.autoRestart || s.wakeSignals * pending != {}
    }

    // fork() fails, or returns a pid that no service has.
    method Fork() returns (pid: int)
      modifies this`forks
      ensures (pid == -1 || (pid > 0 && pid !in byPid)) && forks == old(forks) + [pid]
    {
      var p: int := *;
      pid := if p > 0 && p !in byPid then p else -1;
      forks := forks + [pid];
    }

    // The fields of a service that was forked.
    method MarkUp(s: Service, pid: int)
      requires s in all && Indexed() && pid > 0 && pid !in byPid
      modifies this`byPid, s`state, s`pid, s`startTime
      ensures Indexed() && s.state == Up && s.pid == pid && s.startTime == if now != 0 then now else 1
    {
      ChangePid(s, pid);
      s.startTime := if now != 0 then now else 1;
      s.state := Up;
    }

    method RaiseUp(s: Service, pid: int)
      requires s in all && Indexed() && Sound() && pid > 0 && pid !in byPid && s.reapTime == 0
      modifies this`byPid, s`state, s`pid, s`startTime
      ensures Indexed() && Sound() && s.Snapshot() == Status(Up, pid, now, 0)
    {
      hide Indexed;
      MarkUp(s, pid);
    }

    // svc_run when a process was forked
    method Launch(s: Service, pid: int)
      requires Valid({s}) && s in all && s.state == Start && s.startTime <= now && s.reapTime == 0
      requires pid > 0 && pid !in byPid
      modifies this`told, this`byPid, this`activeList, this`active
      modifies s`state, s`pid, s`startTime, all`activeNext, all`activePrev
      ensures Valid({}) && s.Snapshot() == Status(Up, pid, now, 0) && told == old(told) + Notices(s, [Up])
      ensures RemovedFrom(old(active), s, active)
      ensures forall t :: t in all && t != s ==> (t in active <==> t in old(active))
    {
      hide Linked, Indexed, Listed, RemovedFrom, LastWord, Truthful, Sound;
      OneNotice(s, Up);
      RaiseUp(s, pid);
      Notify(s);
      SetActive(s, false);
    }

    // svc_run on a reaped service: tell, and be down
    method Mourn(s: Service)
      requires Valid({s}) && s in all && s.state == Reaped
      modifies this`told, s`state
      ensures Valid({s}) && s.Snapshot() == old(s.Snapshot()).(state := Down)
      ensures told == old(told) + Notices(s, [Reaped])
    {
      hide Linked, Indexed, Listed, RemovedFrom, LastWord, Truthful, Sound, Notices;
      OneNotice(s, Reaped);
      Notify(s);
      MarkDown(s);
    }

    // A line of a statedump, or a repeated event.
    method Announce(s: Service)
      requires Valid({}) && s in all && s.state != Reaped && (s.state == Start ==> now <= s.startTime)
      modifies this`told
      ensures Valid({}) && told == old(told) + [Notice(s, s.state, Meaning(s.state))]
    {
      hide Linked, Indexed, Listed, RemovedFrom, LastWord, Truthful;
      Notify(s);
    }

    lemma CoherentOf(s: Service)
      requires Valid({s}) && s in all
      ensures Coherent(s.Snapshot(), now) && s.restartInterval >= 0 && now > 0
    {
    }

    lemma Looser(s: Service)
      requires Valid({})
      ensures Valid({s})
    {
    }

    // svc_run on a reaped service that is to be started again
    method Revive(s: Service)
      requires Valid({s}) && s in all && s.state == Down && now <= next && s.restartInterval >= 0
      modifies this`next, this`told, this`byPid, this`activeList, this`active
      modifies s`state, s`pid, s`startTime, s`reapTime, all`activeNext, all`activePrev
      ensures Valid({s}) && next == now && told == old(told) + Notices(s, [Start, Start])
      ensures s.Snapshot() ==
        Status(Start, 0, if old(s.reapTime - s.startTime) < s.restartInterval then now + s.restartInterval else now, 0)
      ensures s in old(active) ==> active == old(active)
      ensures forall t :: t in all && t != s ==> (t in active <==> t in old(active))
    {
      hide Valid, Linked;
      var _ := HandleStart(s, if s.reapTime - s.startTime < s.restartInterval then now + s.restartInterval else now);
      Announce(s);
      OneNotice(s, Start);
      NoticesMore(old(told), s, [Start], [Start]);
      Looser(s);
    }

    // svc_run on a reaped service, up to its jump
    method Bury(s: Service)
      requires Valid({s}) && s in all && s.state == Reaped && now <= next
      modifies this`next, this`told, this`byPid, this`activeList, this`active
      modifies s`state, s`pid, s`startTime, s`reapTime, all`activeNext, all`activePrev
      ensures Valid({s}) && next == (if Wanted(s) then now else old(next))
      ensures told == old(told) + Notices(s, [Reaped] + if Wanted(s) then [Start, Start] else [])
      ensures !Wanted(s) ==> s.Snapshot() == old(s.Snapshot()).(state := Down)
      ensures Wanted(s) ==>
        s.Snapshot() ==
        Status(Start, 0, if old(s.reapTime - s.startTime) < s.restartInterval then now + s.restartInterval else now, 0)
      ensures s in old(active) ==> active == old(active)
      ensures forall t :: t in all && t != s ==> (t in active <==> t in old(active))
    {
      hide Valid, Linked;
      CoherentOf(s);
      Mourn(s);
      if s.autoRestart || s.wakeSignals * pending != {} {
        Revive(s);
        NoticesMore(old(told), s, [Reaped], [Start, Start]);
      } else {
        assert [Reaped] + [] == [Reaped];
      }
    }

    // How many more times svc_run jumps back to its switch.
    ghost function Jumps(s: Service): nat
      reads this`now, s`state, s`startTime
    {
      if s.state == Reaped then 2 else if s.state == Start && s.startTime <= now then 1 else 0
    }

    // svc_run on a start in the future
    method Await(s: Service)
      requires Valid({s}) && s in all && s.state == Start && now < s.startTime && now <= next
      modifies this`next, this`activeList, this`active, all`activeNext, all`activePrev
      ensures Valid({}) && next == if s.startTime < old(next) then s.startTime else old(next)
      ensures active == if s in old(active) then old(active) else [s] + old(active)
    {
      hide Linked, Indexed, Listed, RemovedFrom, Tracked, Sound;
      if s.startTime - next < 0 {
        next := s.startTime;
      }
      SetActive(s, true);
    }

    // svc_run on a service that waits for nothing
    method Rest(s: Service)
      requires Valid({s}) && s in all && !Waiting(s.state)
      modifies this`activeList, this`active, all`activeNext, all`activePrev
      ensures Valid({}) && RemovedFrom(old(active), s, active)
      ensures forall t :: t in all && t != s ==> (t in active <==> t in old(active))
    {
      hide Linked, Indexed, Listed, RemovedFrom, Tracked, Sound;
      SetActive(s, false);
    }

    // svc_run on a service that is due
    method TryFork(s: Service) returns (pid: int)
      requires Valid({s}) && s in all && s.state == Start && s.startTime <= now <= next
      modifies this`next, this`told, this`byPid, this`activeList, this`active, this`forks
      modifies s`state, s`pid, s`startTime, s`reapTime, all`activeNext, all`activePrev
      ensures Valid({}) && forks == old(forks) + [pid] && next == if pid > 0 then old(next) else now
      ensures s.Snapshot() == if pid > 0 then Status(Up, pid, now, 0) else Status(Start, 0, now + FORK_RETRY_DELAY, 0)
      ensures told == old(told) + Notices(s, [if pid > 0 then Up else Start])
      ensures s in old(active) ==>
        if s.state == Start then active == old(active) else RemovedFrom(old(active), s, active)
      ensures forall t :: t in all && t != s ==> (t in active <==> t in old(active))
    {
      hide Valid, Linked, RemovedFrom;
      CoherentOf(s);
      pid := Fork();
      if pid < 0 {
        var _ := HandleStart(s, now + FORK_RETRY_DELAY);
        OneNotice(s, Start);
        Looser(s);
        // The switch again: the start is in the future now.
        Await(s);
      } else {
        Launch(s, pid);
      }
    }

    /** svc_run.  `pid` is what fork() returned, if it was called. */
    method Run(s: Service) returns (ghost pid: int)
      requires Valid({s}) && s in all && now <= next
      modifies this`next, this`told, this`byPid, this`activeList, this`active, this`forks
      modifies s`state, s`pid, s`startTime, s`reapTime, all`activeNext, all`activePrev
      ensures var j := Job(s, old(s.Snapshot()), Wanted(s), s.restartInterval, pid);
        Valid({}) && s.Snapshot() == j.End(now) && Books() == j.Post(now, old(Books()))
      ensures s.state == Start ==> now < s.startTime && next <= s.startTime
      ensures s in old(active) ==>
        if s.state == Start then active == old(active) else RemovedFrom(old(active), s, active)
      ensures forall t :: t in all && t != s ==> (t in active <==> t in old(active))
      decreases Jumps(s)
    {
      hide Valid, Linked, RemovedFrom, Notices, Job.End, Job.Post;
      CoherentOf(s);
      pid := 0;
      ghost var from, l := s.Snapshot(), Books();
      match s.state
      case Start =>
        if s.startTime - now > 0 {
          Await(s);
        } else {
          pid := TryFork(s);
        }
        StartJob(Job(s, from, Wanted(s), s.restartInterval, pid), now, l);
      case Up =>
        Rest(s);
        IdleJob(Job(s, from, Wanted(s), s.restartInterval, pid), now, l);
      case Reaped =>
        Bury(s);
        ghost var mid := s.Snapshot();
        pid := Run(s);
        ReapedJob(Job(s, from, Wanted(s), s.restartInterval, pid), mid, now, l);
      case Down =>
        Rest(s);
        IdleJob(Job(s, from, Wanted(s), s.restartInterval, pid), now, l);
    }

    ghost function Books(): Ledger
      reads this`told, this`forks, this`next
    {
      Ledger(told, forks, next)
    }

    ghost function Snapshots(): map<Service, Status>
      reads this`all, all`state, all`pid, all`startTime, all`reapTime
    {
      map t | t in all :: t.Snapshot()
    }

    // The jobs are about how the services were, and they are done; the other services are as they were.
    ghost predicate Walked(jobs: seq<Job>, was: map<Service, Status>)
      reads this`now, this`next, this`all, this`pending, all
    {
      && was.Keys == all
      && (forall k :: 0 <= k < |jobs| ==> jobs[k].who in all && Done(jobs[k], was[jobs[k].who]) && InTime(jobs[k].who))
      && (forall t :: t in all && t !in Whose(jobs) ==> t.Snapshot() == was[t])
    }

    ghost predicate Done(j: Job, from: Status)
      reads this`now, this`pending, j.who`state, j.who`pid, j.who`startTime, j.who`reapTime
      reads j.who`restartInterval, j.who`autoRestart, j.who`wakeSignals
    {
      j == Job(j.who, from, Wanted(j.who), j.who.restartInterval, j.pid) && j.who.Snapshot() == j.End(now)
    }

    // The main loop wakes in time for a start.
    ghost predicate InTime(t: Service)
      reads this`now, this`next, t`state, t`startTime
    {
      t.state == Start ==> now < t.startTime && next <= t.startTime
    }

    method RunOne(s: Service, ghost jobs: seq<Job>, ghost was: map<Service, Status>) returns (ghost j: Job)
      requires Valid({}) && now <= next && Walked(jobs, was) && s in active && s in all && s !in Whose(jobs)
      modifies this`next, this`told, this`byPid, this`activeList, this`active, this`forks
      modifies all`state, all`pid, all`startTime, all`reapTime, all`activeNext, all`activePrev
      ensures Valid({}) && now <= next <= old(next) && j.who == s && Walked(jobs + [j], was)
      ensures Books() == j.Post(now, old(Books()))
      ensures if s.state == Start then active == old(active) else RemovedFrom(old(active), s, active)
    {
      hide Valid, RemovedFrom, Job.End, Job.Post, Whose;
      Looser(s);
      ghost var from := s.Snapshot();
      WhoseMore(jobs, Job(s, from, false, 0, 0));
      ghost var pid := Run(s);
      j := Job(s, from, Wanted(s), s.restartInterval, pid);
      NextIsSooner(j, now, old(Books()));
      WhoseMore(jobs, j);
    }

    // One round of the walk in svc_run_active: the next service is looked up before this one runs.
    method WalkStep(s: Service, ghost kept: seq<Service>, ghost rest: seq<Service>, ghost jobs: seq<Job>,
                    ghost was: map<Service, Status>)
      returns (follow: Service?, ghost kept': seq<Service>, ghost j: Job)
      requires Valid({}) && now <= next && active == kept + [s] + rest && Walked(jobs, was) && s in all
      requires s !in Whose(jobs)
      modifies this`next, this`told, this`byPid, this`activeList, this`active, this`forks
      modifies all`state, all`pid, all`startTime, all`reapTime, all`activeNext, all`activePrev
      ensures follow == (if rest == [] then null else rest[0])
      ensures Valid({}) && now <= next <= old(next) && active == kept' + rest && j.who == s && Walked(jobs + [j], was)
      ensures Books() == j.Post(now, old(Books()))
    {
      hide Valid, Linked, RemovedFrom, Walked, After, Posted;
      Middle(kept, s, rest);
      NextOf(|kept|);
      follow := s.activeNext;
      j := RunOne(s, jobs, was);
      if s.state == Start {
        kept' := kept + [s];
      } else {
        RemovedIs(kept, s, rest, active);
        kept' := kept;
      }
    }

    // The walk over the active list in svc_run_active: every service that was active is run exactly once.
    method Walk() returns (ghost jobs: seq<Job>)
      requires Valid({}) && now <= next
      modifies this`next, this`told, this`byPid, this`activeList, this`active, this`forks
      modifies all`state, all`pid, all`startTime, all`reapTime, all`activeNext, all`activePrev
      ensures Valid({}) && now <= next <= old(next) && Walked(jobs, old(Snapshots()))
      ensures |jobs| == |old(active)| && forall k :: 0 <= k < |jobs| ==> jobs[k].who == old(active)[k]
      ensures Books() == Posted(jobs, now, old(Books()))
    {
      hide *;
      ghost var q, kept, was := active, [], Snapshots();
      HeadOf();
      jobs := [];
      NoneWalked();
      var s := activeList;
      while s != null
        invariant |jobs| <= |q| && s == (if |jobs| < |q| then q[|jobs|] else null)
        invariant Valid({}) && now <= next <= old(next)
        invariant active == kept + q[|jobs|..] && (forall t :: t in q ==> t in all) && Distinct(q)
        invariant forall k :: 0 <= k < |jobs| ==> jobs[k].who == q[k]
        invariant Walked(jobs, was) && Books() == Posted(jobs, now, old(Books()))
        decreases |q| - |jobs|
      {
        ghost var j;
        NotYet(q, jobs);
        s, kept, j := WalkStep(s, kept, q[|jobs| + 1..], jobs, was);
        PostedMore(jobs, j, now, old(Books()));
        jobs := jobs + [j];
      }
    }

    lemma NoneWalked()
      ensures Walked([], Snapshots()) && Books() == Posted([], now, Books())
    {
    }

    lemma HeadOf()
      requires Valid({})
      ensures activeList == (if active == [] then null else active[0]) && Distinct(active)
      ensures forall t :: t in active ==> t in all
    {
    }

    lemma NextOf(k: nat)
      requires Valid({}) && k < |active|
      ensures active[k].activeNext == After(active, k)
    {
      NeighboursOf(k);
    }
  }

  ghost function Whose(jobs: seq<Job>): set<Service> {
    set k | 0 <= k < |jobs| :: jobs[k].who
  }

  lemma WhoseMore(jobs: seq<Job>, j: Job)
    ensures Whose(jobs + [j]) == Whose(jobs) + {j.who}
    ensures forall k :: 0 <= k < |jobs| ==> jobs[k].who in Whose(jobs)
  {
    assert forall k :: 0 <= k < |jobs| ==> (jobs + [j])[k] == jobs[k];
    assert (jobs + [j])[|jobs|] == j;
  }

  lemma NotYet(q: seq<Service>, jobs: seq<Job>)
    requires |jobs| < |q| && Distinct(q) && forall k :: 0 <= k < |jobs| ==> jobs[k].who == q[k]
    ensures q[|jobs|] !in Whose(jobs) && q[|jobs|..] == [q[|jobs|]] + q[|jobs| + 1..]
  {
  }

  lemma NextIsSooner(j: Job, now: int, l: Ledger)
    requires now <= l.next
    ensures now <= j.Post(now, l).next <= l.next
  {
  }

  lemma Middle(kept: seq<Service>, s: Service, rest: seq<Service>)
    ensures (kept + [s] + rest)[|kept|] == s
    ensures After(kept + [s] + rest, |kept|) == if rest == [] then null else rest[0]
  {
  }

  lemma RemovedIs(kept: seq<Service>, s: Service, rest: seq<Service>, q: seq<Service>)
    requires RemovedFrom(kept + [s] + rest, s, q)
    ensures q == kept + rest
  {
    var was := kept + [s] + rest;
    assert was[|kept|] == s && was[..|kept|] == kept && was[|kept| + 1..] == rest;
  }

  lemma LastWordAll(told: seq<Notice>, n: Notice, all: set<Service>)
    ensures forall t :: t in all ==> LastWord(told + [n], t) == if n.who == t then n.word else LastWord(told, t)
  {
    forall t | t in all
      ensures LastWord(told + [n], t) == if n.who == t then n.word else LastWord(told, t)
    {
      LastWordStep(told, n, t);
    }
  }

  ghost predicate RemovedFrom(was: seq<Service>, s: Service, q: seq<Service>) {
    forall k :: 0 <= k < |was| && was[k] == s ==> q == Cut(was, k)
  }

  lemma RemovedAt(was: seq<Service>, s: Service, k: nat)
    requires Distinct(was) && k < |was| && was[k] == s
    ensures RemovedFrom(was, s, Cut(was, k))
  {
  }
}
