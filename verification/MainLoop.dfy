/** The main loop of src/daemonproxy.c with the write timeouts of ctl_run in
    src/controller.c: the order of its phases, and the deadline handed to select.
  */
module MainLoop {

  import opened ServiceMachine
  import opened ServiceCommands
  import Clock
  import CommandFraming
  import EventStream
  import opened RestartThrottle

  const WRITE_TIMEOUT: int := 30 * Clock.SECOND
  const LONGEST_SLEEP: int := 200 * Clock.SECOND

  // ---------------------------------------------------------------- blocked controllers

  // What happens to a client in the first loop of ctl_run.
  datatype Act =
    | Tell(event: string)
    | SetTimeout(reset: int, close: int)
    | Received(pos: nat)
    | Writable
    | Quit

  function Said(act: Act): seq<string> {
    if act.Tell? && EventStream.IsLine(act.event) then [act.event] else []
  }

  // A client as the timeouts and the commands see it.
  datatype View = View(inUse: bool, recv: nat, reset: int, close: int, open: bool, waiting: bool, since: int,
                       overflow: bool, offered: seq<string>, outcomes: seq<EventStream.WriteResult>)
  {
    predicate Blocked() { inUse && open && waiting }

    // How long output has been blocked.
    function Lateness(now: int): int { now - since }

    // When a blocked client is to be looked at again.
    function Deadline(now: int): int {
      since + if Lateness(now) >= reset then close else reset
    }

    // Output is blocked for long and input is full, so that nothing would ever move.
    predicate Stuck(now: int) {
      Lateness(now) >= reset && recv >= CommandFraming.RECV_BUF_SIZE
    }

    // A client whose output was looked at asks for another turn at once.
    predicate Eager(now: int) {
      inUse && if Blocked() then Stuck(now) else recv > 0
    }

    function Ask(had: bool, now: int): Ask {
      if had then Asked(Eager(now), Blocked(), Deadline(now)) else Asked(false, false, 0)
    }

    // Input and timeouts after something happened.
    function Set(act: Act): View {
      if !inUse then this
      else if act.Received? then this.(recv := act.pos)
      else if act.SetTimeout? && 0 <= act.reset <= act.close <= 0x7FFF_FFFF
      then this.(reset := act.reset * Clock.SECOND, close := act.close * Clock.SECOND)
      else if act.Quit? then this.(inUse := false)
      else this
    }
  }

  // The outcomes of the writes between two views.
  function NewOutcomes(a: View, b: View): seq<EventStream.WriteResult> {
    if a.outcomes <= b.outcomes then b.outcomes[|a.outcomes|..] else []
  }

  // Something happened to a client: its settings are exact, the connection closes exactly when a write failed, and an
  // open one was offered just that event.
  ghost predicate Acted(a: View, b: View, act: Act) {
    && b.inUse == a.Set(act).inUse && b.recv == a.Set(act).recv
    && b.reset == a.Set(act).reset && b.close == a.Set(act).close
    && a.outcomes <= b.outcomes && (b.open <==> a.open && EventStream.Failed !in NewOutcomes(a, b))
    && (b.open ==> b.offered == a.offered + if a.inUse then Said(act) else [])
    && (!(act.Tell? || act.Writable?) || !a.inUse || !a.open ==> b == a.Set(act))
    && (act.Writable? && a.inUse && b.open ==>
      if EventStream.EndsWith(NewOutcomes(a, b), EventStream.WouldBlock) then b.waiting else !b.waiting && !b.overflow)
  }

  // The second loop of ctl_run: a client with output is written to; it is closed exactly when it was blocked for its
  // close timeout, and its overflow forced exactly when it is stuck.
  ghost predicate Looked(a: View, b: View, now: int) {
    if !a.Blocked() then b == a else
      var new_ := NewOutcomes(a, b);
      && a.outcomes < b.outcomes && b.recv == a.recv && b.reset == a.reset && b.close == a.close
      && (b.open <==> !EventStream.EndsWith(new_, EventStream.Failed))
      && (b.open ==> b.offered == a.offered && (b.waiting <==> EventStream.EndsWith(new_, EventStream.WouldBlock)))
      && (b.open && b.waiting ==> b.since == if a.since != 0 && |new_| == 1 then a.since else now)
      && (b.inUse <==> !(b.open && b.waiting && b.Lateness(now) >= b.close))
      && (b.Blocked() && b.Stuck(now) ==> b.overflow)
      && (b.overflow && !a.overflow ==> b.Blocked() && b.Stuck(now))
  }

  // A client slot: its output buffer, and what the timeouts of ctl_run look at.
  class Client {
    const out: EventStream.Controller
    var inUse: bool         // state_fn is set
    var recvBufPos: nat
    var writeTimeoutReset: int
    var writeTimeoutClose: int

    ghost predicate Valid(now: int)
      reads this, out, out.sendBuf
    {
      out.Valid() && 0 <= out.sendBlockedTs <= now && 0 <= writeTimeoutReset <= writeTimeoutClose
    }

    // ctl_ctor
    constructor ()
      ensures Valid(0) && fresh(out) && fresh(out.sendBuf) && inUse && out.sendBlockedTs == 0
    {
      out := new EventStream.Controller();
      inUse, recvBufPos := true, 0;
      writeTimeoutReset, writeTimeoutClose := WRITE_TIMEOUT / 2, WRITE_TIMEOUT;
    }

    // conn.event_timeout
    method SetTimeouts(reset: int, close: int) returns (ok: bool)
      modifies this`writeTimeoutReset, this`writeTimeoutClose
      ensures ok == (0 <= reset <= close <= 0x7FFF_FFFF)
      ensures ok ==> writeTimeoutReset == reset * Clock.SECOND && writeTimeoutClose == close * Clock.SECOND
      ensures !ok ==> writeTimeoutReset == old(writeTimeoutReset) && writeTimeoutClose == old(writeTimeoutClose)
    {
      if reset > 0x7FFF_FFFF || reset < 0 || close > 0x7FFF_FFFF || close < 0 {
        return false;
      }
      if reset > close {
        return false;
      }
      writeTimeoutReset := reset * Clock.SECOND;
      writeTimeoutClose := close * Clock.SECOND;
      return true;
    }

    ghost predicate Blocked()
      reads this, out
    {
      inUse && out.sendOpen && out.sendBufPos > 0
    }

    ghost function Seen(): View
      reads this, out
    {
      View(inUse, recvBufPos, writeTimeoutReset, writeTimeoutClose, out.sendOpen, out.sendBufPos > 0,
           out.sendBlockedTs, out.sendOverflow, EventStream.Offered(out.log), out.outcomes)
    }

    // A blocked client is not overdue for closing, and the wake-up is no later than either of its deadlines that is
    // still ahead.
    ghost predicate InTime(now: int, next: int)
      reads this, out
    {
      Blocked() ==>
        && out.sendBlockedTs > 0 && now < out.sendBlockedTs + writeTimeoutClose
        && next <= out.sendBlockedTs + writeTimeoutClose
        && (now < out.sendBlockedTs + writeTimeoutReset ==> next <= out.sendBlockedTs + writeTimeoutReset)
    }

    // ctl_write to this client
    method Say(event: string, now: int)
      requires Valid(now) && now > 0 && inUse
      modifies out, out.sendBuf
      ensures Valid(now) && Acted(old(Seen()), Seen(), Act.Tell(event))
    {
      hide EventStream.Render, EventStream.Legal, EventStream.GapOpen, EventStream.Offered, EventStream.EndsWith;
      if EventStream.IsLine(event) {
        EventStream.LogStep(out.log, EventStream.Kept(event));
        EventStream.LogStep(out.log, EventStream.Dropped(event));
        out.Write(event, now);
      }
    }

    // select found its descriptor writable
    method Drain(now: int)
      requires Valid(now) && now > 0 && inUse
      modifies out, out.sendBuf
      ensures Valid(now) && Acted(old(Seen()), Seen(), Writable)
    {
      hide EventStream.Render, EventStream.Legal, EventStream.GapOpen, EventStream.Offered;
      if out.sendOpen {
        EventStream.LogStep(out.log, EventStream.Marker);
        var _ := out.Flush(now);
        EventStream.OutcomesJoin(old(out.outcomes), old(out.outcomes), out.outcomes);
        hide EventStream.EndsWith, EventStream.OnlyLastFails;
      }
    }

    method Perform(act: Act, now: int)
      requires Valid(now) && now > 0
      modifies this`inUse, this`recvBufPos, this`writeTimeoutReset, this`writeTimeoutClose, out, out.sendBuf
      ensures Valid(now) && Acted(old(Seen()), Seen(), act)
    {
      hide EventStream.Controller.Valid, EventStream.Offered, EventStream.EndsWith, EventStream.IsLine;
      if !inUse {
        return;
      }
      match act
      case Tell(event) =>
        Say(event, now);
      case SetTimeout(reset, close) =>
        var _ := SetTimeouts(reset, close);
      case Received(pos) =>
        recvBufPos := pos;
      case Writable =>
        Drain(now);
      case Quit =>
        inUse := false;
    }

    // A client that is still blocked after the flush: close it, or force the overflow, or wait for the next deadline.
    method Overdue(now: int, next: int) returns (next': int)
      requires Valid(now) && 0 < now <= next && Blocked() && out.sendBlockedTs > 0
      modifies this`inUse, out`sendOverflow
      ensures Valid(now) && now <= next' <= next && InTime(now, next')
      ensures inUse == old(out.sendBlockedTs + writeTimeoutClose > now)
      ensures Seen() == old(Seen()).(inUse := inUse, overflow := old(out.sendOverflow) || Seen().overflow)
      ensures out.sendOverflow == (old(out.sendOverflow) || (inUse && Seen().Stuck(now)))
      ensures next' == Answer(Seen().Ask(true, now), now, next)
    {
      hide EventStream.Controller.Valid, EventStream.Offered;
      next' := next;
      var lateness := now - out.sendBlockedTs;
      if lateness >= writeTimeoutClose {
        inUse := false;
        return;
      }
      var check;
      if lateness >= writeTimeoutReset {
        if recvBufPos >= CommandFraming.RECV_BUF_SIZE {
          out.ForceOverflow();
          next' := now;
        }
        check := out.sendBlockedTs + writeTimeoutClose;
      } else {
        check := out.sendBlockedTs + writeTimeoutReset;
      }
      if next' - check > 0 {
        next' := check;
      }
    }

    /** The second loop of ctl_run, for one client, with the wake-up being the earliest that it calls for. */
    method CheckTimeout(now: int, next: int) returns (next': int)
      requires Valid(now) && 0 < now <= next
      modifies this`inUse, out, out.sendBuf
      ensures Valid(now) && now <= next' <= next && InTime(now, next')
      ensures Looked(old(Seen()), Seen(), now) && next' == Answer(Seen().Ask(old(Seen()).Blocked(), now), now, next)
    {
      hide EventStream.Controller.Valid, EventStream.Offered, EventStream.OnlyLastFails;
      next' := next;
      if !inUse {
        return;
      }
      if out.sendOpen && out.sendBufPos > 0 {
        EventStream.LogStep(out.log, EventStream.Marker);
        var flushed := out.Flush(now);
        if !flushed && out.sendOpen {
          next' := Overdue(now, next);
        } else if recvBufPos > 0 {
          next' := now;
        }
      }
    }
  }

  // What a client calls for after its output was looked at: another turn at once, or by a deadline, or nothing.
  datatype Ask = Asked(eager: bool, blocked: bool, deadline: int)

  ghost function Answer(a: Ask, now: int, next: int): int {
    if a.eager then now else if a.blocked then Sooner(a.deadline, next) else next
  }

  // The wake-up is the earliest of what it was and what is called for.
  ghost predicate Earliest(asks: seq<Ask>, now: int, next: int, next': int) {
    && now <= next' <= next
    && (forall k :: 0 <= k < |asks| && asks[k].eager ==> next' == now)
    && (forall k :: 0 <= k < |asks| && asks[k].blocked ==> next' <= asks[k].deadline || next' == now)
    && (|| next' == next
        || (exists k :: 0 <= k < |asks| && asks[k].eager && next' == now)
        || exists k :: 0 <= k < |asks| && asks[k].blocked && next' == asks[k].deadline)
  }

  lemma EarliestMore(asks: seq<Ask>, a: Ask, now: int, next: int, before: int)
    requires Earliest(asks, now, next, before) && now <= Answer(a, now, before)
    ensures Earliest(asks + [a], now, next, Answer(a, now, before))
  {
    var more, after := asks + [a], Answer(a, now, before);
    assert forall k :: 0 <= k < |asks| ==> more[k] == asks[k];
    assert more[|asks|] == a;
    if !a.eager && after == before != next {
      if k :| 0 <= k < |asks| && asks[k].eager && before == now {
        assert more[k].eager;
      } else {
        var k :| 0 <= k < |asks| && asks[k].blocked && before == asks[k].deadline;
        assert more[k].blocked;
      }
    }
  }

  // No two clients share a buffer.
  ghost predicate Apart(clients: seq<Client>) {
    forall i, j :: 0 <= i < j < |clients| ==>
      clients[i] != clients[j] && clients[i].out != clients[j].out && clients[i].out.sendBuf != clients[j].out.sendBuf
  }

  ghost predicate AllValid(clients: seq<Client>, now: int)
    reads clients, set c | c in clients :: c.out, set c | c in clients :: c.out.sendBuf
  {
    forall c :: c in clients ==> c.Valid(now)
  }

  ghost predicate AllInTime(clients: seq<Client>, now: int, next: int)
    reads clients, set c | c in clients :: c.out
  {
    forall c :: c in clients ==> c.InTime(now, next)
  }

  ghost function Views(clients: seq<Client>): (views: seq<View>)
    reads clients, set c | c in clients :: c.out
    ensures |views| == |clients| && forall j :: 0 <= j < |clients| ==> views[j] == clients[j].Seen()
  {
    if clients == [] then [] else Views(clients[..|clients| - 1]) + [clients[|clients| - 1].Seen()]
  }

  lemma StillInTime(clients: seq<Client>, i: nat, now: int, next: int, next': int)
    requires i <= |clients| && next' <= next && forall j :: 0 <= j < i ==> clients[j].InTime(now, next)
    ensures forall j :: 0 <= j < i ==> clients[j].InTime(now, next')
  {
  }

  ghost predicate AllLooked(a: seq<View>, b: seq<View>, now: int) {
    |a| == |b| && forall j :: 0 <= j < |a| ==> Looked(a[j], b[j], now)
  }

  // What the clients call for, if they had output.
  function AsksOf(a: seq<View>, b: seq<View>, now: int): seq<Ask> {
    seq(|b|, j requires 0 <= j < |b| => b[j].Ask(j < |a| && a[j].Blocked(), now))
  }

  // The second loop of ctl_run.
  method CheckTimeouts(clients: seq<Client>, now: int, next: int) returns (next': int)
    requires Apart(clients) && AllValid(clients, now) && 0 < now <= next
    modifies clients, set c | c in clients :: c.out, set c | c in clients :: c.out.sendBuf
    ensures AllValid(clients, now) && AllInTime(clients, now, next')
    ensures AllLooked(old(Views(clients)), Views(clients), now)
    ensures Earliest(AsksOf(old(Views(clients)), Views(clients), now), now, next, next')
  {
    hide Client.Valid, Client.InTime, Client.Seen, Earliest, Answer, Views, View.Ask, View.Blocked, Looked;
    ghost var a, asks := Views(clients), [];
    next' := next;
    assert Earliest(asks, now, next, next') by { NoAsks(now, next); }
    var i := 0;
    while i < |clients|
      invariant 0 <= i <= |clients| && now <= next' <= next
      invariant forall j :: 0 <= j < |clients| ==> clients[j].Valid(now)
      invariant forall j :: 0 <= j < i ==> clients[j].InTime(now, next') && Looked(a[j], clients[j].Seen(), now)
      invariant forall j :: i <= j < |clients| ==> a[j] == clients[j].Seen()
      invariant |asks| == i && forall j :: 0 <= j < i ==> asks[j] == clients[j].Seen().Ask(a[j].Blocked(), now)
      invariant Earliest(asks, now, next, next')
    {
      ghost var before := next';
      next' := clients[i].CheckTimeout(now, next');
      StillInTime(clients, i, now, before, next');
      EarliestMore(asks, clients[i].Seen().Ask(a[i].Blocked(), now), now, next, before);
      asks := asks + [clients[i].Seen().Ask(a[i].Blocked(), now)];
      i := i + 1;
    }
    assert asks == AsksOf(a, Views(clients), now);
  }

  lemma NoAsks(now: int, next: int)
    requires now <= next
    ensures Earliest([], now, next, next)
  {
  }

  // ---------------------------------------------------------------- the journal of a run

  // The steps of a run, as the services see them.
  datatype Event =
    | Deaths(dead: seq<int>, now: int)
    | Running(signals: seq<int>, pending: set<int>, now: int)
    | Doing(command: Command, pending: set<int>, now: int)

  // One step: all services, what was told and forked and the wake-up, before it and after it; and for svc_run_active
  // the services that listen for signals and the jobs, in their order.
  datatype Entry = Entry(event: Event, from: Scene, before: Ledger, listening: seq<Service>, jobs: seq<Job>,
                         after: Scene, books: Ledger)

  ghost predicate Moves(x: Entry) {
    x.from.Fits() && x.after.Fits() &&
    match x.event
    case Deaths(dead, now) =>
      && Buried(x.from, x.after, dead, now)
      && x.books == x.before.(next := if SomeoneDied(x.from, dead) then now else x.before.next)
    case Running(signals, pending, now) =>
      && x.after.who == x.from.who
      && Advanced(x.from.at, x.after.at, signals, pending, now, x.listening, x.jobs, x.before, x.books)
    case Doing(c, pending, now) =>
      Carried(x.from.who, x.after.who, x.from.Row(), x.after.Row(), c, now, pending, x.before, x.books,
              Heeded(x.from.Row(), c, now))
  }

  // The step calls for another turn at once.
  ghost predicate Pressed(x: Entry)
    requires Moves(x)
  {
    match x.event
    case Deaths(dead, now) => SomeoneDied(x.from, dead)
    case Running(signals, pending, now) => Hurried(x.listening, signals, x.from.at, x.jobs, now)
    case Doing(c, pending, now) => Begins(x.from.Row(), c, now, pending)
  }

  ghost function SceneAfter(journal: seq<Entry>): Scene {
    if journal == [] then Scene([], map[]) else journal[|journal| - 1].after
  }

  ghost function ToldAfter(journal: seq<Entry>): seq<Notice> {
    if journal == [] then [] else journal[|journal| - 1].books.told
  }

  ghost function ForksAfter(journal: seq<Entry>): seq<int> {
    if journal == [] then [] else journal[|journal| - 1].books.forks
  }

  // Each step goes on from where the one before ended; only the wake-up may be set anew between them.
  ghost predicate Chronicle(journal: seq<Entry>) {
    journal == [] ||
    var last := |journal| - 1;
    Chronicle(journal[..last]) && Joins(journal[..last], journal[last])
  }

  ghost predicate Joins(journal: seq<Entry>, x: Entry) {
    && Moves(x) && x.from == SceneAfter(journal)
    && x.before.told == ToldAfter(journal) && x.before.forks == ForksAfter(journal)
  }

  function EventsOf(journal: seq<Entry>): seq<Event> {
    seq(|journal|, i requires 0 <= i < |journal| => journal[i].event)
  }

  // From no services, by these events, to these services, with this told and forked.
  ghost predicate Leads(events: seq<Event>, journal: seq<Entry>, scene: Scene, told: seq<Notice>, forks: seq<int>) {
    && Chronicle(journal) && EventsOf(journal) == events
    && SceneAfter(journal) == scene && ToldAfter(journal) == told && ForksAfter(journal) == forks
  }

  lemma LeadsOn(events: seq<Event>, journal: seq<Entry>, x: Entry)
    requires Moves(x) && Leads(events, journal, x.from, x.before.told, x.before.forks)
    ensures Leads(events + [x.event], journal + [x], x.after, x.books.told, x.books.forks)
  {
    hide Moves;
    assert (journal + [x])[..|journal|] == journal;
  }

  // ---------------------------------------------------------------- one turn of the loop

  // What controllers do in the first loop of ctl_run; Busy is one not done after ten states.
  datatype Work = Do(command: Command) | On(client: nat, act: Act) | Busy

  // What one piece of work does to all clients.
  ghost predicate Served(a: seq<View>, b: seq<View>, work: Work) {
    |a| == |b| && forall j :: 0 <= j < |a| ==> 
      if work.On? && work.client == j then Acted(a[j], b[j], work.act) else b[j] == a[j]
  }

  // The clients before each piece of work and after the last.
  ghost predicate AllServed(stops: seq<seq<View>>, work: seq<Work>) {
    |stops| == |work| + 1 && forall k :: 0 <= k < |work| ==> Served(stops[k], stops[k + 1], work[k])
  }

  lemma NoneServed(stops: seq<seq<View>>, work: seq<Work>)
    requires |stops| == 1
    ensures AllServed(stops, work[..0])
  {
  }

  lemma ServedMore(stops: seq<seq<View>>, after: seq<View>, work: seq<Work>, i: nat)
    requires i < |work| && AllServed(stops, work[..i]) && |stops| == i + 1 && Served(stops[i], after, work[i])
    ensures AllServed(stops + [after], work[..i + 1])
  {
    hide Served;
  }

  method PerformOn(clients: seq<Client>, i: nat, act: Act, now: int)
    requires Apart(clients) && AllValid(clients, now) && now > 0 && i < |clients|
    modifies clients[i], clients[i].out, clients[i].out.sendBuf
    ensures AllValid(clients, now) && Served(old(Views(clients)), Views(clients), On(i, act))
  {
    hide Client.Valid, Client.Seen, Acted, Views;
    assert forall j :: 0 <= j < |clients| ==> clients[j].Valid(now);
    clients[i].Perform(act, now);
    assert forall j :: 0 <= j < |clients| ==> clients[j].Valid(now);
  }

  method Perform(w: Supervisor, clients: seq<Client>, work: Work)
    requires w.Quiet() && w.now <= w.next && 0 < w.now && Apart(clients) && AllValid(clients, w.now)
    modifies w, w.all, clients, set c | c in clients :: c.out, set c | c in clients :: c.out.sendBuf
    ensures w.Quiet() && w.now == old(w.now) && w.now <= w.next && fresh(w.all - old(w.all))
    ensures AllValid(clients, w.now) && w.pending == old(w.pending)
    ensures Served(old(Views(clients)), Views(clients), work)
    ensures work.Do? ==>
      Carried(old(w.services), w.services, old(World(w)), World(w), work.command, w.now, w.pending,
              old(w.Books()), w.Books(), Heeded(old(World(w)), work.command, w.now))
    ensures !work.Do? ==> Stage(w) == old(Stage(w)) && w.told == old(w.told) && w.forks == old(w.forks)
    ensures !work.Do? ==> w.next == if work.Busy? then w.now else old(w.next)
  {
    hide Supervisor.Quiet, Client.Valid, Apart, AllValid, Obey, Booked, Regrouped, Stage, Heeded, Views, Acted;
    match work {
      case Do(command) =>
        var _ := Execute(w, command);
      case On(i, act) =>
        if i < |clients| {
          PerformOn(clients, i, act, w.now);
        }
      case Busy =>
        Lower(w, w.now);
    }
  }

  // What the outside world does during one turn: the clock when it begins and when it comes to select,
  // the signals not cleared and those new since the last turn, the pids that waitpid yields, and the controllers.
  datatype Input = Input(time: int, pending: set<int>, signals: seq<int>, dead: seq<int>, work: seq<Work>, later: int)

  // The commands among the work, as events.
  function Doings(work: seq<Work>, pending: set<int>, now: int): seq<Event> {
    if work == [] then [] else
      Doings(work[..|work| - 1], pending, now) +
      if work[|work| - 1].Do? then [Doing(work[|work| - 1].command, pending, now)] else []
  }

  // The order of the phases: deaths, then the services, then the controllers.
  function TurnScript(input: Input): seq<Event> {
    [Deaths(input.dead, input.time), Running(input.signals, input.pending, input.time)] +
    Doings(input.work, input.pending, input.time)
  }

  function Script(inputs: seq<Input>): seq<Event> {
    if inputs == [] then [] else Script(inputs[..|inputs| - 1]) + TurnScript(inputs[|inputs| - 1])
  }

  lemma DoingsStep(events: seq<Event>, work: seq<Work>, i: nat, pending: set<int>, now: int)
    requires i < |work|
    ensures events + Doings(work[..i + 1], pending, now) ==
      (events + Doings(work[..i], pending, now)) + if work[i].Do? then [Doing(work[i].command, pending, now)] else []
  {
    assert work[..i + 1][..i] == work[..i];
  }

  function Turned(events: seq<Event>, input: Input): seq<Event> {
    ((events + [Deaths(input.dead, input.time)]) + [Running(input.signals, input.pending, input.time)]) +
    Doings(input.work, input.pending, input.time)
  }

  lemma ScriptStep(inputs: seq<Input>, k: nat)
    requires k < |inputs|
    ensures Script(inputs[..k + 1]) == Turned(Script(inputs[..k]), inputs[k])
  {
    assert inputs[..k + 1][..k] == inputs[..k];
  }

  method SetClock(w: Supervisor, time: int)
    requires w.Valid({}) && w.now <= time
    modifies w`now
    ensures w.Valid({}) && w.now == time
  {
    hide Supervisor.Linked, Supervisor.Indexed, Supervisor.Tracked, Supervisor.Listed, Supervisor.Settled;
    w.now := time;
  }

  method BeginTurn(w: Supervisor, time: int, pending: set<int>)
    requires w.Valid({}) && w.now <= time
    modifies w`now, w`next, w`pending
    ensures w.Valid({}) && w.now == time <= w.next == time + LONGEST_SLEEP && w.pending == pending
  {
    SetClock(w, time);
    hide Supervisor.Linked, Supervisor.Indexed, Supervisor.Tracked;
    hide Supervisor.Listed, Supervisor.Settled, Supervisor.Sound;
    w.next := w.now + LONGEST_SLEEP;
    w.pending := pending;
  }

  // One pid from waitpid.
  method ReapOne(w: Supervisor, pid: int)
    requires w.Valid({}) && w.now <= w.next
    modifies w`next, w`activeList, w`active, w.all`state, w.all`reapTime, w.all`activeNext, w.all`activePrev
    ensures w.Valid({}) && Buried(old(Stage(w)), Stage(w), [pid], w.now)
    ensures w.next == if SomeoneDied(old(Stage(w)), [pid]) then w.now else old(w.next)
  {
    hide Supervisor.Valid;
    StageIs(w);
    w.Reap(pid);
    StageIs(w);
  }

  method ReapAll(w: Supervisor, dead: seq<int>)
    requires w.Valid({}) && w.now <= w.next
    modifies w`next, w`activeList, w`active, w.all`state, w.all`reapTime, w.all`activeNext, w.all`activePrev
    ensures w.Valid({}) && Buried(old(Stage(w)), Stage(w), dead, w.now)
    ensures w.next == if SomeoneDied(old(Stage(w)), dead) then w.now else old(w.next)
  {
    hide Supervisor.Valid, Stage, Buried, SomeoneDied;
    ghost var a := Stage(w);
    NobodyYet(a, w.now);
    var i := 0;
    while i < |dead|
      invariant 0 <= i <= |dead| && w.Valid({}) && w.now <= w.next
      invariant Buried(a, Stage(w), dead[..i], w.now)
      invariant w.next == if SomeoneDied(a, dead[..i]) then w.now else old(w.next)
    {
      ghost var b := Stage(w);
      ReapOne(w, dead[i]);
      OneMoreDead(a, b, Stage(w), dead, i, w.now);
      i := i + 1;
    }
    assert dead[..i] == dead;
  }

  lemma NobodyYet(a: Scene, now: int)
    ensures Buried(a, a, [], now) && !SomeoneDied(a, [])
  {
  }

  // One pid more: those already dead stay so.
  lemma OneMoreDead(a: Scene, b: Scene, c: Scene, dead: seq<int>, i: nat, now: int)
    requires i < |dead| && Buried(a, b, dead[..i], now) && Buried(b, c, [dead[i]], now)
    ensures Buried(a, c, dead[..i + 1], now)
    ensures SomeoneDied(a, dead[..i + 1]) <==> SomeoneDied(a, dead[..i]) || SomeoneDied(b, [dead[i]])
  {
    assert dead[..i + 1] == dead[..i] + [dead[i]];
  }

  // Some step from `n` on calls for another turn at once.
  ghost predicate PressedSince(journal: seq<Entry>, n: nat) {
    exists k :: n <= k < |journal| && Moves(journal[k]) && Pressed(journal[k])
  }

  lemma PressedMore(journal: seq<Entry>, n: nat, x: Entry)
    requires n <= |journal| && Moves(x)
    ensures PressedSince(journal + [x], n) <==> PressedSince(journal, n) || Pressed(x)
  {
    hide Moves, Pressed;
    assert (journal + [x])[|journal|] == x;
    if PressedSince(journal, n) {
      var k :| n <= k < |journal| && Moves(journal[k]) && Pressed(journal[k]);
      assert (journal + [x])[k] == journal[k];
    }
    assert PressedSince(journal + [x], n) ==> PressedSince(journal, n) || Pressed(x) by {
      if PressedSince(journal + [x], n) {
        var k :| n <= k < |journal + [x]| && Moves((journal + [x])[k]) && Pressed((journal + [x])[k]);
        assert k < |journal| ==> journal[k] == (journal + [x])[k];
      }
    }
  }

  // One piece of work, with its entry in the journal if it is a command.
  method ObeyOne(w: Supervisor, clients: seq<Client>, work: Work, ghost events: seq<Event>, ghost journal: seq<Entry>,
                 ghost n: nat)
    returns (ghost journal': seq<Entry>)
    requires w.Quiet() && w.now <= w.next && 0 < w.now && Apart(clients) && AllValid(clients, w.now)
    requires Leads(events, journal, Stage(w), w.told, w.forks) && n <= |journal|
    modifies w, w.all, clients, set c | c in clients :: c.out, set c | c in clients :: c.out.sendBuf
    ensures w.Quiet() && w.now == old(w.now) && w.now <= w.next && fresh(w.all - old(w.all))
    ensures AllValid(clients, w.now) && w.pending == old(w.pending) && journal <= journal'
    ensures Served(old(Views(clients)), Views(clients), work)
    ensures Leads(events + (if work.Do? then [Doing(work.command, w.pending, w.now)] else []),
                  journal', Stage(w), w.told, w.forks)
    ensures work.Busy? ==> w.next == w.now
    ensures !work.Busy? && !PressedSince(journal', |journal|) ==> w.next == old(w.next)
    ensures PressedSince(journal', |journal|) ==> w.next == w.now
  {
    hide Supervisor.Quiet, Apart, AllValid, Stage, Leads, Carried, Served, Views;
    ghost var a, l := Stage(w), w.Books();
    Perform(w, clients, work);
    journal' := journal;
    if work.Do? {
      ghost var x := Entry(Doing(work.command, w.pending, w.now), a, l, [], [], Stage(w), w.Books());
      DoingMoves(x);
      LeadsOn(events, journal, x);
      PressedMore(journal, |journal|, x);
      journal' := journal + [x];
    } else {
      assert events + [] == events;
    }
  }

  lemma DoingMoves(x: Entry)
    requires x.event.Doing? && x.from.Fits() && x.after.Fits()
    requires Carried(x.from.who, x.after.who, x.from.Row(), x.after.Row(), x.event.command, x.event.now,
                     x.event.pending, x.before, x.books, Heeded(x.from.Row(), x.event.command, x.event.now))
    ensures Moves(x)
    ensures x.books.next == if Pressed(x) then x.event.now else x.before.next
  {
  }

  // ctl_run, the first loop
  method Obeying(w: Supervisor, clients: seq<Client>, work: seq<Work>, ghost events: seq<Event>,
                 ghost journal: seq<Entry>)
    returns (ghost journal': seq<Entry>, ghost stops: seq<seq<View>>)
    requires w.Quiet() && w.now <= w.next && 0 < w.now && Apart(clients) && AllValid(clients, w.now)
    requires Leads(events, journal, Stage(w), w.told, w.forks)
    modifies w, w.all, clients, set c | c in clients :: c.out, set c | c in clients :: c.out.sendBuf
    ensures w.Quiet() && w.now == old(w.now) && w.now <= w.next && fresh(w.all - old(w.all))
    ensures AllValid(clients, w.now) && journal <= journal'
    ensures AllServed(stops, work) && stops[0] == old(Views(clients)) && stops[|work|] == Views(clients)
    ensures Leads(events + Doings(work, old(w.pending), w.now), journal', Stage(w), w.told, w.forks)
    ensures w.next == if Busy in work || PressedSince(journal', |journal|) then w.now else old(w.next)
  {
    hide *;
    ghost var pending := w.pending;
    journal', stops := journal, [Views(clients)];
    var i := 0;
    NoDoings(events, work, pending, w.now);
    NoneServed(stops, work);
    NotPressed(journal);
    while i < |work|
      invariant 0 <= i <= |work| && w.Quiet() && w.now == old(w.now) && w.now <= w.next
      invariant w.pending == pending && journal <= journal'
      invariant fresh(w.all - old(w.all)) && AllValid(clients, w.now)
      invariant |stops| == i + 1 && stops[0] == old(Views(clients)) && stops[i] == Views(clients)
      invariant AllServed(stops, work[..i])
      invariant Leads(events + Doings(work[..i], pending, w.now), journal', Stage(w), w.told, w.forks)
      invariant w.next == if Busy in work[..i] || PressedSince(journal', |journal|) then w.now else old(w.next)
    {
      DoingsStep(events, work, i, pending, w.now);
      ghost var before := journal';
      journal' := ObeyOne(w, clients, work[i], events + Doings(work[..i], pending, w.now), journal', |journal|);
      ServedMore(stops, Views(clients), work, i);
      stops := stops + [Views(clients)];
      PressedJoin(before, journal', |journal|);
      i := i + 1;
    }
    assert work[..i] == work;
  }

  lemma NotPressed(journal: seq<Entry>)
    ensures !PressedSince(journal, |journal|)
  {
  }

  lemma PressedJoin(journal: seq<Entry>, journal': seq<Entry>, n: nat)
    requires journal <= journal' && n <= |journal|
    ensures PressedSince(journal', n) <==> PressedSince(journal, n) || PressedSince(journal', |journal|)
  {
    hide Moves, Pressed;
    assert forall k :: 0 <= k < |journal| ==> journal'[k] == journal[k];
  }

  /** ctl_run.  The wake-up is at once if a controller was busy or a command started a service, and else what it was, or
      an earlier one that the clients with output call for. */
  method RunControllers(w: Supervisor, clients: seq<Client>, work: seq<Work>, ghost events: seq<Event>,
                        ghost journal: seq<Entry>)
    returns (ghost journal': seq<Entry>, ghost stops: seq<seq<View>>)
    requires w.Quiet() && w.now <= w.next && 0 < w.now && Apart(clients) && AllValid(clients, w.now)
    requires Leads(events, journal, Stage(w), w.told, w.forks)
    modifies w, w.all, clients, set c | c in clients :: c.out, set c | c in clients :: c.out.sendBuf
    ensures w.Quiet() && w.now == old(w.now) && w.now <= w.next && fresh(w.all - old(w.all))
    ensures AllValid(clients, w.now) && AllInTime(clients, w.now, w.next) && journal <= journal'
    ensures Leads(events + Doings(work, old(w.pending), w.now), journal', Stage(w), w.told, w.forks)
    ensures AllServed(stops, work) && stops[0] == old(Views(clients))
    ensures AllLooked(stops[|work|], Views(clients), w.now)
    ensures Earliest(AsksOf(stops[|work|], Views(clients), w.now), w.now,
                     if Busy in work || PressedSince(journal', |journal|) then w.now else old(w.next), w.next)
  {
    hide *;
    journal', stops := Obeying(w, clients, work, events, journal);
    ServedLength(stops, work);
    var next := CheckTimeouts(clients, w.now, w.next);
    EarliestBounds(AsksOf(stops[|work|], Views(clients), w.now), w.now, w.next, next);
    Lower(w, next);
  }

  lemma ServedLength(stops: seq<seq<View>>, work: seq<Work>)
    requires AllServed(stops, work)
    ensures |stops| == |work| + 1
  {
  }

  lemma EarliestBounds(asks: seq<Ask>, now: int, next: int, next': int)
    requires Earliest(asks, now, next, next')
    ensures now <= next' <= next
  {
  }

  lemma NoDoings(events: seq<Event>, work: seq<Work>, pending: set<int>, now: int)
    ensures events + Doings(work[..0], pending, now) == events
  {
  }

  method Lower(w: Supervisor, next: int)
    requires w.Quiet() && w.now <= next <= w.next
    modifies w`next
    ensures w.Quiet() && w.next == next
  {
    hide Supervisor.Linked, Supervisor.Indexed, Supervisor.Tracked;
    hide Supervisor.Listed, Supervisor.Sound, Supervisor.Settled;
    w.next := next;
  }

  // The sleep ends no later than the deadline, or select does not sleep at all.
  ghost predicate WakesBy(now: int, sec: nat, usec: nat, deadline: int) {
    || (sec == 0 && usec == 0)
    || now * Clock.MILLION + (sec * Clock.MILLION + usec) * Clock.SECOND <= deadline * Clock.MILLION
  }

  // At select: nothing is left to be done now, and the sleep is not too long for any service or client.
  ghost predicate SleepsRight(w: Supervisor, clients: seq<Client>, sec: nat, usec: nat, turn: int)
    reads w, w.all, clients, set c | c in clients :: c.out
  {
    && (forall t :: t in w.all ==> t.state != Reaped)
    && (forall t :: t in w.all && t.state == Start ==> WakesBy(w.now, sec, usec, t.startTime))
    && (forall c :: c in clients && c.Blocked() ==>
      WakesBy(w.now, sec, usec, c.out.sendBlockedTs + c.writeTimeoutClose))
    && (forall c :: c in clients && c.Blocked() && turn < c.out.sendBlockedTs + c.writeTimeoutReset ==>
      WakesBy(w.now, sec, usec, c.out.sendBlockedTs + c.writeTimeoutReset))
    && WakesBy(w.now, sec, usec, turn + LONGEST_SLEEP)
  }

  lemma WakesInTime(now: int, next: int, sec: nat, usec: nat, deadline: int)
    requires next <= deadline && (next <= now ==> sec == 0 && usec == 0)
    requires next > now ==> 0 <= (next - now) * Clock.MILLION - (sec * Clock.MILLION + usec) * Clock.SECOND
    ensures WakesBy(now, sec, usec, deadline)
  {
  }

  lemma AllWake(w: Supervisor, clients: seq<Client>, sec: nat, usec: nat, turn: int)
    requires w.next <= turn + LONGEST_SLEEP && (w.next <= w.now ==> sec == 0 && usec == 0)
    requires w.next > w.now ==> 0 <= (w.next - w.now) * Clock.MILLION - (sec * Clock.MILLION + usec) * Clock.SECOND
    requires forall t :: t in w.all ==> t.state != Reaped && (t.state == Start ==> w.next <= t.startTime)
    requires AllInTime(clients, turn, w.next)
    ensures SleepsRight(w, clients, sec, usec, turn)
  {
    hide WakesBy;
    forall t | t in w.all && t.state == Start
      ensures WakesBy(w.now, sec, usec, t.startTime)
    {
      WakesInTime(w.now, w.next, sec, usec, t.startTime);
    }
    forall c | c in clients && c.Blocked()
      ensures WakesBy(w.now, sec, usec, c.out.sendBlockedTs + c.writeTimeoutClose)
      ensures turn < c.out.sendBlockedTs + c.writeTimeoutReset ==>
        WakesBy(w.now, sec, usec, c.out.sendBlockedTs + c.writeTimeoutReset)
    {
      WakesInTime(w.now, w.next, sec, usec, c.out.sendBlockedTs + c.writeTimeoutClose);
      if turn < c.out.sendBlockedTs + c.writeTimeoutReset {
        WakesInTime(w.now, w.next, sec, usec, c.out.sendBlockedTs + c.writeTimeoutReset);
      }
    }
    WakesInTime(w.now, w.next, sec, usec, turn + LONGEST_SLEEP);
  }

  lemma ValidLater(clients: seq<Client>, now: int, later: int)
    requires AllValid(clients, now) && now <= later
    ensures AllValid(clients, later)
  {
  }

  // The timeout of select: what is left until the wake-up, cut to microseconds, or nothing.
  ghost predicate Exactly(next: int, now: int, sec: nat, usec: nat) {
    && usec < Clock.MILLION
    && (next <= now ==> sec == 0 && usec == 0)
    && (next > now ==> 0 <= (next - now) * Clock.MILLION - (sec * Clock.MILLION + usec) * Clock.SECOND < Clock.SECOND)
  }

  // After ctl_run: read the clock and work out the timeout.
  method Select(w: Supervisor, clients: seq<Client>, later: int) returns (sec: nat, usec: nat)
    requires w.Quiet() && w.now <= later && w.next <= w.now + LONGEST_SLEEP && AllInTime(clients, w.now, w.next)
    modifies w`now
    ensures w.Valid({}) && w.now == later && Exactly(w.next, later, sec, usec)
    ensures SleepsRight(w, clients, sec, usec, old(w.now))
  {
    hide Supervisor.Valid, SleepsRight;
    ghost var turn := w.now;
    SetClock(w, later);
    sec, usec := Clock.Timeout(w.next, w.now);
    AllWake(w, clients, sec, usec, turn);
  }

  // The wake-up that the services call for: at once, or with the first pending start, or after the longest sleep.
  ghost predicate ServicesNext(journal: seq<Entry>, n: nat, now: int, at: map<Service, Svc>, next: int) {
    if PressedSince(journal, n) then next == now else FirstStart(next, now + LONGEST_SLEEP, at)
  }

  // The first two phases: deaths, then the services.
  method RunServices(w: Supervisor, input: Input, ghost events: seq<Event>, ghost journal: seq<Entry>)
    returns (ghost journal': seq<Entry>)
    requires w.Valid({}) && w.now <= input.time && Leads(events, journal, Stage(w), w.told, w.forks)
    modifies w`now, w`next, w`pending, w`told, w`byPid, w`activeList, w`active, w`forks
    modifies w.all`state, w.all`pid, w.all`startTime, w.all`reapTime, w.all`activeNext, w.all`activePrev
    ensures w.Quiet() && w.now == input.time && w.now <= w.next && w.pending == input.pending
    ensures journal <= journal'
    ensures Leads(events + [Deaths(input.dead, input.time)] + [Running(input.signals, input.pending, input.time)],
                  journal', Stage(w), w.told, w.forks)
    ensures ServicesNext(journal', |journal|, w.now, Stage(w).at, w.next)
  {
    hide *;
    KeptByClock(w);
    BeginTurn(w, input.time, input.pending);
    BooksAre(w);
    ghost var a, l0 := Stage(w), w.Books();
    StageIs(w);
    ReapAll(w, input.dead);
    BooksAre(w);
    ghost var b, l1 := Stage(w), w.Books();
    StageIs(w);
    ghost var jobs := RunActive(w, input.signals);
    QuietIsValid(w);
    StageIs(w);
    BooksAre(w);
    ghost var x := Entry(Deaths(input.dead, input.time), a, l0, [], [], b, l1);
    ghost var y := Entry(Running(input.signals, input.pending, input.time), b, l1, w.sigwake, jobs,
                         Stage(w), w.Books());
    TwoMoves(x, y);
    TwoMore(events, journal, x, y);
    journal' := journal + [x] + [y];
  }

  lemma BooksAre(w: Supervisor)
    ensures w.Books() == Ledger(w.told, w.forks, w.next)
  {
  }

  lemma TwoMore(events: seq<Event>, journal: seq<Entry>, x: Entry, y: Entry)
    requires Moves(x) && Moves(y) && y.from == x.after && y.before == x.books
    requires Leads(events, journal, x.from, x.before.told, x.before.forks)
    requires if Pressed(x) || Pressed(y) then y.books.next == y.event.now
             else FirstStart(y.books.next, y.event.now + LONGEST_SLEEP, y.after.at)
    ensures Leads(events + [x.event] + [y.event], journal + [x] + [y], y.after, y.books.told, y.books.forks)
    ensures ServicesNext(journal + [x] + [y], |journal|, y.event.now, y.after.at, y.books.next)
  {
    hide Moves, Pressed, Leads, PressedSince, FirstStart;
    LeadsOn(events, journal, x);
    LeadsOn(events + [x.event], journal + [x], y);
    NotPressed(journal);
    PressedMore(journal, |journal|, x);
    PressedMore(journal + [x], |journal|, y);
  }

  // Deaths and then svc_run_active, in a turn that has just begun.
  lemma TwoMoves(x: Entry, y: Entry)
    requires x.event.Deaths? && y.event.Running? && x.event.now == y.event.now
    requires y.from == x.after && y.before == x.books
    requires x.from.Fits() && x.after.Fits() && y.after.Fits() && x.before.next == x.event.now + LONGEST_SLEEP
    requires Buried(x.from, x.after, x.event.dead, x.event.now)
    requires x.books == x.before.(next := if SomeoneDied(x.from, x.event.dead) then x.event.now else x.before.next)
    requires y.after.who == y.from.who
    requires Advanced(y.from.at, y.after.at, y.event.signals, y.event.pending, y.event.now, y.listening, y.jobs,
                      y.before, y.books)
    ensures Moves(x) && Moves(y)
    ensures if Pressed(x) || Pressed(y) then y.books.next == y.event.now
            else FirstStart(y.books.next, y.event.now + LONGEST_SLEEP, y.after.at)
  {
    hide Advanced, Buried, SomeoneDied, Hurried;
    NextIs(y.from.at, y.after.at, y.event.signals, y.event.pending, y.event.now, y.listening, y.jobs,
           y.before, y.books);
  }

  lemma KeptByClock(w: Supervisor)
    requires w.Valid({})
    ensures forall t :: t in w.services ==> t in w.all
  {
    ServicesKnown(w);
  }

  // The phases of a turn before select.
  method Phases(w: Supervisor, clients: seq<Client>, input: Input, ghost events: seq<Event>, ghost journal: seq<Entry>)
    returns (ghost journal': seq<Entry>, ghost mid: seq<Entry>, ghost base: int, ghost stops: seq<seq<View>>)
    requires w.Valid({}) && 0 < w.now <= input.time && Apart(clients) && AllValid(clients, w.now)
    requires Leads(events, journal, Stage(w), w.told, w.forks)
    modifies w, w.all, clients, set c | c in clients :: c.out, set c | c in clients :: c.out.sendBuf
    ensures w.Quiet() && w.now == input.time && AllValid(clients, w.now) && fresh(w.all - old(w.all))
    ensures w.next <= w.now + LONGEST_SLEEP && AllInTime(clients, w.now, w.next)
    ensures Leads(Turned(events, input), journal', Stage(w), w.told, w.forks)
    ensures journal <= mid <= journal' && ServicesNext(mid, |journal|, input.time, SceneAfter(mid).at, base)
    ensures AllServed(stops, input.work) && stops[0] == old(Views(clients))
    ensures AllLooked(stops[|input.work|], Views(clients), input.time)
    ensures Earliest(AsksOf(stops[|input.work|], Views(clients), input.time), input.time,
                     if Busy in input.work || PressedSince(journal', |mid|) then input.time else base, w.next)
  {
    hide *;
    ValidLater(clients, w.now, input.time);
    mid := RunServices(w, input, events, journal);
    base := w.next;
    ghost var so := events + [Deaths(input.dead, input.time)] + [Running(input.signals, input.pending, input.time)];
    LeadsTo(so, mid, Stage(w), w.told, w.forks);
    NotTooLong(mid, |journal|, input.time, Stage(w).at, base);
    journal', stops := RunControllers(w, clients, input.work, so, mid);
    ServedLength(stops, input.work);
    TurnedIs(events, input);
    EarliestBounds(AsksOf(stops[|input.work|], Views(clients), input.time), input.time,
                   if Busy in input.work || PressedSince(journal', |mid|) then input.time else base, w.next);
  }

  /** One turn: the steps of the services are those of TurnScript, and the sleep is exactly what the services, the
      commands and the clients call for. */
  method Turn(w: Supervisor, clients: seq<Client>, input: Input, ghost events: seq<Event>, ghost journal: seq<Entry>)
    returns (sec: nat, usec: nat, ghost journal': seq<Entry>, ghost mid: seq<Entry>, ghost base: int,
             ghost stops: seq<seq<View>>)
    requires w.Valid({}) && 0 < w.now <= input.time <= input.later && Apart(clients) && AllValid(clients, w.now)
    requires Leads(events, journal, Stage(w), w.told, w.forks)
    modifies w, w.all, clients, set c | c in clients :: c.out, set c | c in clients :: c.out.sendBuf
    ensures w.Valid({}) && w.now == input.later && AllValid(clients, w.now) && fresh(w.all - old(w.all))
    ensures Leads(Turned(events, input), journal', Stage(w), w.told, w.forks)
    ensures SleepsRight(w, clients, sec, usec, input.time) && Exactly(w.next, w.now, sec, usec)
    ensures journal <= mid <= journal' && ServicesNext(mid, |journal|, input.time, SceneAfter(mid).at, base)
    ensures AllServed(stops, input.work) && stops[0] == old(Views(clients))
    ensures AllLooked(stops[|input.work|], Views(clients), input.time)
    ensures Earliest(AsksOf(stops[|input.work|], Views(clients), input.time), input.time,
                     if Busy in input.work || PressedSince(journal', |mid|) then input.time else base, w.next)
  {
    hide *;
    journal', mid, base, stops := Phases(w, clients, input, events, journal);
    ServedLength(stops, input.work);
    sec, usec := Select(w, clients, input.later);
    ValidLater(clients, input.time, input.later);
  }

  lemma TurnedIs(events: seq<Event>, input: Input)
    ensures Turned(events, input) ==
      events + [Deaths(input.dead, input.time)] + [Running(input.signals, input.pending, input.time)] +
      Doings(input.work, input.pending, input.time)
  {
  }

  lemma LeadsTo(events: seq<Event>, journal: seq<Entry>, scene: Scene, told: seq<Notice>, forks: seq<int>)
    requires Leads(events, journal, scene, told, forks)
    ensures SceneAfter(journal) == scene
  {
  }

  lemma NotTooLong(journal: seq<Entry>, n: nat, now: int, at: map<Service, Svc>, next: int)
    requires ServicesNext(journal, n, now, at, next)
    ensures next <= now + LONGEST_SLEEP
  {
  }

  // The clock never runs backwards.
  ghost predicate Monotonic(inputs: seq<Input>) {
    && (forall k :: 0 <= k < |inputs| ==> 0 < inputs[k].time <= inputs[k].later)
    && (forall k :: 0 < k < |inputs| ==> inputs[k - 1].later <= inputs[k].time)
  }

  lemma Ticks(inputs: seq<Input>, k: nat)
    requires Monotonic(inputs) && k <= |inputs|
    ensures k < |inputs| ==> 0 < inputs[k].time <= inputs[k].later
    ensures 0 < k < |inputs| ==> inputs[k - 1].later <= inputs[k].time
  {
  }

  lemma NewClients(a: Client, b: Client, now: int)
    requires a.Valid(0) && b.Valid(0) && now >= 0 && a != b && a.out != b.out && a.out.sendBuf != b.out.sendBuf
    ensures AllValid([a, b], now) && Apart([a, b])
  {
  }

  ghost predicate NobodyReaped(w: Supervisor)
    reads w`all, w.all`state
  {
    forall t :: t in w.all ==> t.state != Reaped
  }

  // What the events say of a service is what it is.
  lemma HeardRight(w: Supervisor)
    requires w.Valid({}) && NobodyReaped(w)
    ensures Truthful(w.told)
    ensures forall i :: 0 <= i < |w.services| ==>
      w.services[i].state != Reaped && LastWord(w.told, w.services[i]) == Meaning(w.services[i].state)
  {
    ServicesKnown(w);
  }

  lemma NoneReaped(w: Supervisor, clients: seq<Client>, sec: nat, usec: nat, turn: int)
    requires SleepsRight(w, clients, sec, usec, turn)
    ensures NobodyReaped(w)
  {
  }

  // The k-th turn of a run.
  method NextTurn(w: Supervisor, clients: seq<Client>, inputs: seq<Input>, k: nat, ghost journal: seq<Entry>)
    returns (ghost journal': seq<Entry>)
    requires Monotonic(inputs) && k < |inputs| && w.Valid({}) && 0 < w.now <= inputs[k].time
    requires Apart(clients) && AllValid(clients, w.now)
    requires Leads(Script(inputs[..k]), journal, Stage(w), w.told, w.forks)
    modifies w, w.all, clients, set c | c in clients :: c.out, set c | c in clients :: c.out.sendBuf
    ensures w.Valid({}) && 0 < w.now == inputs[k].later && (k + 1 < |inputs| ==> w.now <= inputs[k + 1].time)
    ensures AllValid(clients, w.now) && fresh(w.all - old(w.all)) && NobodyReaped(w)
    ensures Leads(Script(inputs[..k + 1]), journal', Stage(w), w.told, w.forks)
  {
    hide *;
    ScriptStep(inputs, k);
    Ticks(inputs, k);
    Ticks(inputs, k + 1);
    var sec, usec;
    ghost var mid, base, stops;
    sec, usec, journal', mid, base, stops := Turn(w, clients, inputs[k], Script(inputs[..k]), journal);
    NoneReaped(w, clients, sec, usec, inputs[k].time);
  }

  // The main loop, once the program is set up.
  method Loop(w: Supervisor, clients: seq<Client>, inputs: seq<Input>) returns (ghost journal: seq<Entry>)
    requires Monotonic(inputs) && w.Valid({}) && 0 < w.now && (inputs != [] ==> w.now <= inputs[0].time)
    requires w.all == {} && w.services == [] && w.told == [] && w.forks == []
    requires Apart(clients) && AllValid(clients, w.now)
    modifies w, w.all, clients, set c | c in clients :: c.out, set c | c in clients :: c.out.sendBuf
    ensures w.Valid({}) && NobodyReaped(w) && (inputs != [] ==> w.now == inputs[|inputs| - 1].later)
    ensures Leads(Script(inputs), journal, Stage(w), w.told, w.forks)
  {
    hide *;
    journal := [];
    FirstEntry(inputs, w);
    var k := 0;
    while k < |inputs|
      invariant 0 <= k <= |inputs| && w.Valid({}) && AllValid(clients, w.now) && fresh(w.all - old(w.all))
      invariant 0 < w.now && (k < |inputs| ==> w.now <= inputs[k].time) && (k > 0 ==> w.now == inputs[k - 1].later)
      invariant NobodyReaped(w) && Leads(Script(inputs[..k]), journal, Stage(w), w.told, w.forks)
    {
      journal := NextTurn(w, clients, inputs, k, journal);
      k := k + 1;
    }
    assert inputs[..k] == inputs;
  }

  /** Any run of the main loop, whatever the world does: it takes the services through exactly the
      steps that the inputs call for, in that order, with exactly the events told and the forks tried
      that these steps account for; every service.state event named the state its service was in, and
      the last one about each service names the state it is in. */
  method Supervise(inputs: seq<Input>) returns (w: Supervisor, ghost journal: seq<Entry>)
    requires Monotonic(inputs)
    ensures w.Valid({}) && (inputs != [] ==> w.now == inputs[|inputs| - 1].later)
    ensures Leads(Script(inputs), journal, Stage(w), w.told, w.forks)
    ensures Truthful(w.told)
    ensures forall i :: 0 <= i < |w.services| ==>
      w.services[i].state != Reaped && LastWord(w.told, w.services[i]) == Meaning(w.services[i].state)
  {
    hide *;
    Ticks(inputs, 0);
    w := new Supervisor(if inputs == [] then 1 else inputs[0].time);
    var first := new Client();
    var second := new Client();
    NewClients(first, second, w.now);
    journal := Loop(w, [first, second], inputs);
    HeardRight(w);
  }

  lemma FirstEntry(inputs: seq<Input>, w: Supervisor)
    requires w.all == {} && w.services == [] && w.told == [] && w.forks == []
    ensures NobodyReaped(w) && Leads(Script(inputs[..0]), [], Stage(w), w.told, w.forks)
  {
  }

  // With no signals a service is found as it is, and run if it waits.
  lemma NobodyCalled(at: map<Service, Svc>, at': map<Service, Svc>, pending: set<int>, now: int,
                     listening: seq<Service>, jobs: seq<Job>, l: Ledger, l': Ledger, s: Service)
    returns (pid: int)
    requires Advanced(at, at', [], pending, now, listening, jobs, l, l') && at.Keys == {s} && at[s].always
    ensures Follows(at[s].status, at'[s].status, if Waiting(at[s].status.state) then Step(pid) else Wait, now,
                    at[s].interval)
    ensures l'.forks ==
      l.forks + if Waiting(at[s].status.state) && Forks(at[s].status, now, true, at[s].interval) then [pid] else []
  {
    hide Ran, Forks;
    assert Found(at[s], [], now) == at[s].status;
    if Waiting(at[s].status.state) {
      assert s in Whose(jobs);
      var k :| 0 <= k < |jobs| && jobs[k].who == s;
      OnlyOne(jobs, at, pending, now, s);
      assert jobs == [jobs[0]] && jobs[0].who == s;
      pid := jobs[0].pid;
      PostedMore([], jobs[0], now, Woke(Calls(listening, [], at), now, l));
      assert [] + [jobs[0]] == jobs;
    } else {
      pid := 0;
      NoJob(jobs, at, pending, now, s);
    }
  }

  lemma OnlyOne(jobs: seq<Job>, at: map<Service, Svc>, pending: set<int>, now: int, s: Service)
    requires Assigned(jobs, at, [], pending, now) && at.Keys == {s} && jobs != []
    ensures |jobs| == 1 && jobs[0].who == s && Right(jobs[0], at, [], pending, now)
  {
    hide Right;
    assert |jobs| > 1 ==> jobs[0].who != jobs[1].who;
    WhoIs(jobs, at, pending, now, s);
  }

  lemma WhoIs(jobs: seq<Job>, at: map<Service, Svc>, pending: set<int>, now: int, s: Service)
    requires Assigned(jobs, at, [], pending, now) && at.Keys == {s}
    ensures forall k :: 0 <= k < |jobs| ==> jobs[k].who == s
  {
    forall k | 0 <= k < |jobs|
      ensures jobs[k].who == s
    {
      assert Right(jobs[k], at, [], pending, now);
      assert jobs[k].who in at.Keys;
    }
  }

  lemma NoJob(jobs: seq<Job>, at: map<Service, Svc>, pending: set<int>, now: int, s: Service)
    requires Assigned(jobs, at, [], pending, now) && at.Keys == {s} && !Waiting(at[s].status.state)
    requires Found(at[s], [], now) == at[s].status
    ensures jobs == []
  {
    if jobs != [] {
      OnlyOne(jobs, at, pending, now, s);
    }
  }

  // One turn for a service that restarts by itself, whose process may have died.
  method RestartTurn(w: Supervisor, s: Service, delay: nat, dies: bool)
    returns (forked: bool, ghost mid: Status, ghost pid: int)
    requires w.Valid({}) && w.all == {s} && s.autoRestart
    modifies w`now, w`next, w`pending, w`told, w`byPid, w`activeList, w`active, w`forks
    modifies w.all`state, w.all`pid, w.all`startTime, w.all`reapTime, w.all`activeNext, w.all`activePrev
    ensures w.Valid({}) && w.now == old(w.now) + delay
    ensures Follows(old(s.Snapshot()), mid, if dies then Die else Wait, w.now, s.restartInterval)
    ensures Follows(mid, s.Snapshot(), if Waiting(mid.state) then Step(pid) else Wait, w.now, s.restartInterval)
    ensures w.forks ==
      old(w.forks) + if Waiting(mid.state) && Forks(mid, w.now, true, s.restartInterval) then [pid] else []
    ensures forked == (mid.state != Up && s.state == Up) && (mid.state == Up ==> old(s.state) == Up)
  {
    hide *;
    SnapshotIs(s);
    BeginTurn(w, w.now + delay, {});
    if dies {
      w.Reap(s.pid);
    }
    mid := s.Snapshot();
    DiesOrNot(old(s.Snapshot()), mid, dies, w.now, s.restartInterval);
    SnapshotIs(s);
    var wasUp := s.state == Up;
    ghost var at, l := Values(w), w.Books();
    ValuesOf(w, s);
    BooksAre(w);
    ghost var jobs := RunActive(w, []);
    QuietIsValid(w);
    ValuesOf(w, s);
    BooksAre(w);
    SnapshotIs(s);
    pid := NobodyCalled(at, Values(w), w.pending, w.now, w.sigwake, jobs, l, w.Books(), s);
    forked := !wasUp && s.state == Up;
  }

  lemma DiesOrNot(a: Status, b: Status, dies: bool, now: int, interval: int)
    requires b == if dies && a.state == Up then a.(state := Reaped, reapTime := now) else a
    ensures Follows(a, b, if dies then Die else Wait, now, interval)
  {
  }

  lemma SnapshotIs(s: Service)
    ensures s.Snapshot().state == s.state
  {
  }

  lemma ValuesOf(w: Supervisor, s: Service)
    requires w.all == {s}
    ensures Values(w).Keys == {s} && Values(w)[s] == Svc(s.Snapshot(), s.autoRestart, s.restartInterval, s.wakeSignals)
  {
  }

  lemma QuietIsValid(w: Supervisor)
    requires w.Quiet()
    ensures w.Valid({})
  {
  }

  // The time that has gone by after the turns.
  function Elapsed(turns: seq<(nat, bool)>): nat {
    if turns == [] then 0 else Elapsed(turns[..|turns| - 1]) + turns[|turns| - 1].0
  }

  // One half-turn more of the history, and of the list of forks.
  ghost predicate Recorded(r: Record, interval: int, now: int) {
    && History(r.h, r.moves, r.times, interval)
    && (r.times != [] ==> r.times[|r.times| - 1] <= now)
    && |r.forks| == |r.places| == Successes(r.tried)
    && (forall i, j :: 0 <= i < j < |r.places| ==> r.places[i] < r.places[j])
    && (forall i :: 0 <= i < |r.places| ==> Forked(r.h, r.places[i]) && r.forks[i] == r.times[r.places[i]])
    && (forall k: nat :: Forked(r.h, k) ==> k in r.places)
  }

  // A history, with the places and times of its successful forks, and all that fork() returned.
  datatype Record = Record(h: seq<Status>, moves: seq<Move>, times: seq<int>, places: seq<nat>, forks: seq<int>,
                           tried: seq<int>)

  function Successes(tried: seq<int>): nat {
    if tried == [] then 0 else Successes(tried[..|tried| - 1]) + if tried[|tried| - 1] > 0 then 1 else 0
  }

  lemma SuccessesMore(tried: seq<int>, pid: int)
    ensures Successes(tried + [pid]) == Successes(tried) + if pid > 0 then 1 else 0
  {
    assert (tried + [pid])[..|tried|] == tried;
  }

  ghost function Extended(r: Record, move: Move, now: int, interval: int, b: Status): Record
    requires r.h != []
  {
    var a := r.h[|r.h| - 1];
    var forked := a.state != Up && b.state == Up;
    Record(r.h + [b], r.moves + [move], r.times + [now],
           if forked then r.places + [|r.h| - 1] else r.places, if forked then r.forks + [now] else r.forks,
           if move.Step? && Forks(a, now, true, interval) then r.tried + [move.pid] else r.tried)
  }

  lemma RecordMore(r: Record, interval: int, before: int, move: Move, now: int, b: Status)
    requires Recorded(r, interval, before) && 0 < before <= now && Follows(r.h[|r.h| - 1], b, move, now, interval)
    ensures Recorded(Extended(r, move, now, interval, b), interval, now)
  {
    var x := Extended(r, move, now, interval, b);
    ForkSucceeds(r, move, now, interval, b);
    hide Follows, Forks;
    assert History(x.h, x.moves, x.times, interval);
    forall k: nat | Forked(x.h, k)
      ensures k in x.places
    {
      if k + 1 < |r.h| {
        assert Forked(r.h, k);
      } else {
        assert x.places[|x.places| - 1] == k;
      }
    }
  }

  // A service comes up exactly when fork() is called and succeeds.
  lemma ForkSucceeds(r: Record, move: Move, now: int, interval: int, b: Status)
    requires r.h != [] && Follows(r.h[|r.h| - 1], b, move, now, interval)
    ensures var x := Extended(r, move, now, interval, b);
      Successes(x.tried) - Successes(r.tried) == |x.places| - |r.places|
  {
    if move.Step? {
      SuccessesMore(r.tried, move.pid);
    }
  }

  // The forks of a history in a row are the interval apart.
  lemma ForksSpaced(r: Record, interval: nat, now: int)
    requires Recorded(r, interval, now)
    ensures forall i :: 0 < i < |r.forks| ==> r.forks[i] - r.forks[i - 1] >= interval
  {
    forall i | 0 < i < |r.forks|
      ensures r.forks[i] - r.forks[i - 1] >= interval
    {
      ForksApart(r.h, r.moves, r.times, interval, r.places[i - 1], r.places[i]);
    }
  }

  // The moves are those of the turns, two for each.
  ghost predicate Played(r: Record, start: int, turns: seq<(nat, bool)>) {
    && |r.moves| == 2 * |turns| && |r.h| == |r.moves| + 1 && |r.times| == |r.moves|
    && forall k :: 0 <= k < |turns| ==> TurnPlayed(r, start, turns, k)
  }

  ghost predicate TurnPlayed(r: Record, start: int, turns: seq<(nat, bool)>, k: nat)
    requires k < |turns| && 2 * |turns| <= |r.moves| == |r.times| && |r.h| == |r.moves| + 1
  {
    PlayedAt(r, 2 * k, start + Elapsed(turns[..k + 1]), turns[k].1)
  }

  ghost predicate PlayedAt(r: Record, m: nat, now: int, dies: bool)
    requires m + 1 < |r.moves| == |r.times| && |r.h| == |r.moves| + 1
  {
    && r.moves[m] == (if dies then Die else Wait) && r.times[m] == now
    && (if Waiting(r.h[m + 1].state) then r.moves[m + 1].Step? else r.moves[m + 1] == Wait) && r.times[m + 1] == now
  }

  // A turn more: what became of the process, and then svc_run if it waits.
  ghost function TurnMore(r: Record, dies: bool, now: int, interval: int, mid: Status, pid: int, b: Status): Record
    requires r.h != []
  {
    Extended(Extended(r, if dies then Die else Wait, now, interval, mid),
             if Waiting(mid.state) then Step(pid) else Wait, now, interval, b)
  }

  lemma PlayedMore(r: Record, start: int, turns: seq<(nat, bool)>, turn: (nat, bool), now: int, interval: int,
                   mid: Status, pid: int, b: Status)
    requires Played(r, start, turns) && now == start + Elapsed(turns + [turn])
    ensures Played(TurnMore(r, turn.1, now, interval, mid, pid, b), start, turns + [turn])
  {
    hide Elapsed, Waiting, TurnPlayed, Forks;
    var half := Extended(r, if turn.1 then Die else Wait, now, interval, mid);
    var x := TurnMore(r, turn.1, now, interval, mid, pid, b);
    LastPlayed(r, start, turns, turn, now, interval, mid, pid, b);
    forall i | 0 <= i < |turns|
      ensures TurnPlayed(x, start, turns + [turn], i)
    {
      assert TurnPlayed(r, start, turns, i);
      StillPlayed(r, half, x, start, turns, turn, i);
    }
  }

  lemma LastPlayed(r: Record, start: int, turns: seq<(nat, bool)>, turn: (nat, bool), now: int, interval: int,
                   mid: Status, pid: int, b: Status)
    requires |r.moves| == |r.times| == 2 * |turns| && |r.h| == |r.moves| + 1 && now == start + Elapsed(turns + [turn])
    ensures TurnPlayed(TurnMore(r, turn.1, now, interval, mid, pid, b), start, turns + [turn], |turns|)
  {
    hide Forks;
    assert (turns + [turn])[..|turns| + 1] == turns + [turn];
  }

  lemma StillPlayed(r: Record, half: Record, x: Record, start: int, turns: seq<(nat, bool)>, turn: (nat, bool), i: nat)
    requires |r.moves| == |r.times| == 2 * |turns| && |r.h| == |r.moves| + 1
    requires i < |turns| && TurnPlayed(r, start, turns, i)
    requires |half.h| == |r.h| + 1 && half.h[..|r.h|] == r.h && |x.h| == |half.h| + 1 && x.h[..|half.h|] == half.h
    requires |half.moves| == |r.moves| + 1 && half.moves[..|r.moves|] == r.moves
    requires |x.moves| == |half.moves| + 1 && x.moves[..|half.moves|] == half.moves
    requires |half.times| == |r.times| + 1 && half.times[..|r.times|] == r.times
    requires |x.times| == |half.times| + 1 && x.times[..|half.times|] == half.times
    ensures TurnPlayed(x, start, turns + [turn], i)
  {
    assert (turns + [turn])[..i + 1] == turns[..i + 1];
    Unextended(r, half, x, 2 * i, start + Elapsed(turns[..i + 1]), turns[i].1);
  }

  lemma Unextended(r: Record, half: Record, x: Record, m: nat, now: int, dies: bool)
    requires m + 1 < |r.moves| == |r.times| && |r.h| == |r.moves| + 1 && PlayedAt(r, m, now, dies)
    requires |half.h| == |r.h| + 1 && half.h[..|r.h|] == r.h && |x.h| == |half.h| + 1 && x.h[..|half.h|] == half.h
    requires |half.moves| == |r.moves| + 1 && half.moves[..|r.moves|] == r.moves
    requires |x.moves| == |half.moves| + 1 && x.moves[..|half.moves|] == half.moves
    requires |half.times| == |r.times| + 1 && half.times[..|r.times|] == r.times
    requires |x.times| == |half.times| + 1 && x.times[..|half.times|] == half.times
    ensures PlayedAt(x, m, now, dies)
  {
    assert x.h[m + 1] == half.h[m + 1] == r.h[m + 1];
    assert x.moves[m] == half.moves[m] == r.moves[m] && x.moves[m + 1] == half.moves[m + 1] == r.moves[m + 1];
    assert x.times[m] == half.times[m] == r.times[m] && x.times[m + 1] == half.times[m + 1] == r.times[m + 1];
  }

  // One service that restarts whenever it ends.
  method Restarting(interval: nat, start: int) returns (w: Supervisor, s: Service)
    requires start > 0
    ensures fresh(w) && fresh(w.all) && w.Valid({}) && w.now == start && w.all == {s} && w.forks == []
    ensures s.autoRestart && s.restartInterval == interval && s.Snapshot() == Status(Start, 0, start, 0)
  {
    hide Supervisor.Valid, Supervisor.Quiet;
    w := new Supervisor(start);
    s := NewService(w);
    SetInterval(w, s, interval);
    SetTriggers(w, s, true, {});
    QuietIsValid(w);
  }

  /** A service that restarts by itself, under any clock, deaths and fork failures: its history is
      one of the throttle's, the forks are exactly those that fork() granted, and in a row they are
      at least restart_interval apart. */
  method RestartRun(interval: nat, start: int, turns: seq<(nat, bool)>)
    returns (s: Service, forks: seq<int>, tried: seq<int>, ghost r: Record)
    requires start > 0
    ensures Recorded(r, interval, start + Elapsed(turns)) && Played(r, start, turns)
    ensures forks == r.forks && tried == r.tried && |forks| == Successes(tried)
    ensures r.h[0] == Status(Start, 0, start, 0) && r.h[|r.h| - 1] == s.Snapshot()
    ensures forall i :: 0 < i < |forks| ==> forks[i] - forks[i - 1] >= interval
  {
    hide Supervisor.Valid, Supervisor.Quiet, Follows, Recorded, Played, Forks;
    var w;
    w, s := Restarting(interval, start);
    forks := [];
    r := Record([s.Snapshot()], [], [], [], [], []);
    var k := 0;
    Beginning(r, interval, start, turns);
    while k < |turns|
      invariant 0 <= k <= |turns| && w.Valid({}) && w.all == {s} && fresh(w) && fresh(w.all) && s.autoRestart
      invariant s.restartInterval == interval
      invariant 0 < w.now == start + Elapsed(turns[..k]) && r.h != [] && r.h[|r.h| - 1] == s.Snapshot()
      invariant Recorded(r, interval, w.now) && Played(r, start, turns[..k]) && forks == r.forks && w.forks == r.tried
      invariant r.h[0] == Status(Start, 0, start, 0)
    {
      ghost var before := w.now;
      ghost var mid, pid;
      var forked;
      forked, mid, pid := RestartTurn(w, s, turns[k].0, turns[k].1);
      assert turns[..k + 1][..k] == turns[..k] && turns[..k + 1] == turns[..k] + [turns[k]];
      RecordMore(r, interval, before, if turns[k].1 then Die else Wait, w.now, mid);
      RecordMore(Extended(r, if turns[k].1 then Die else Wait, w.now, interval, mid), interval, w.now,
                 if Waiting(mid.state) then Step(pid) else Wait, w.now, s.Snapshot());
      PlayedMore(r, start, turns[..k], turns[k], w.now, interval, mid, pid, s.Snapshot());
      r := TurnMore(r, turns[k].1, w.now, interval, mid, pid, s.Snapshot());
      if forked {
        forks := forks + [w.now];
      }
      k := k + 1;
    }
    assert turns[..k] == turns;
    tried := w.forks;
    CountsForks(r, interval, w.now);
    ForksSpaced(r, interval, w.now);
  }

  lemma CountsForks(r: Record, interval: int, now: int)
    requires Recorded(r, interval, now)
    ensures |r.forks| == Successes(r.tried)
  {
  }

  lemma Beginning(r: Record, interval: nat, start: int, turns: seq<(nat, bool)>)
    requires |r.h| == 1 && r.moves == [] && r.times == [] && r.places == [] && r.forks == [] && r.tried == []
    ensures Recorded(r, interval, start) && Played(r, start, turns[..0]) && Elapsed(turns[..0]) == 0
  {
  }
}
