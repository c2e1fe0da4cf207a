/** The restart throttle of svc_run, over whole histories of one service that restarts
    by itself: the clock moves on, the process dies, forks fail or succeed.
  */
module RestartThrottle {

  import opened ServiceMachine

  // The clock moves and nothing happens to the service; its process is reaped; svc_run is called, and
  // fork() returns this pid if it comes to that.
  datatype Move = Wait | Die | Step(pid: int)

  ghost predicate Follows(a: Status, b: Status, move: Move, now: int, interval: int) {
    match move
    case Wait => b == a
    case Die => b == if a.state == Up then a.(state := Reaped, reapTime := now) else a
    case Step(pid) => b == Ran(a, now, true, interval, pid)
  }

  // moves[k] happens at times[k] and leads from h[k] to h[k + 1].
  ghost predicate History(h: seq<Status>, moves: seq<Move>, times: seq<int>, interval: int) {
    && |h| == |moves| + 1 && |times| == |moves|
    && (forall k, m :: 0 <= k <= m < |times| ==> 0 < times[k] <= times[m])
    && (forall k :: 0 <= k < |moves| ==> Follows(h[k], h[k + 1], moves[k], times[k], interval))
  }

  ghost predicate Forked(h: seq<Status>, k: nat) {
    k + 1 < |h| && h[k].state != Up && h[k + 1].state == Up
  }

  // What holds of a service after it was forked at time t.
  ghost predicate Held(a: Status, now: int, t: int, interval: int) {
    match a.state
    case Up => t <= a.startTime
    case Reaped => t <= a.startTime && a.reapTime <= now
    case Start => t + interval <= a.startTime
    case Down => true
  }

  lemma HeldStep(a: Status, b: Status, move: Move, before: int, now: int, t: int, interval: int)
    requires Held(a, before, t, interval) && Follows(a, b, move, now, interval) && t <= before <= now && interval >= 0
    ensures Held(b, now, t, interval)
    ensures a.state != Up && b.state == Up ==> t + interval <= now
  {
  }

  lemma {:induction false} HeldSince(h: seq<Status>, moves: seq<Move>, times: seq<int>, interval: int, i: nat, k: nat)
    requires History(h, moves, times, interval) && interval >= 0
    requires i < k < |h| && Forked(h, i)
    ensures Held(h[k], times[k - 1], times[i], interval)
  {
    if k == i + 1 {
      assert Follows(h[i], h[i + 1], moves[i], times[i], interval);
    } else {
      HeldSince(h, moves, times, interval, i, k - 1);
      HeldStep(h[k - 1], h[k], moves[k - 1], times[k - 2], times[k - 1], times[i], interval);
    }
  }

  /** Any two successful forks in the history of an auto_restart service are at least
      restart_interval apart. */
  lemma ForksApart(h: seq<Status>, moves: seq<Move>, times: seq<int>, interval: int, i: nat, j: nat)
    requires History(h, moves, times, interval) && interval >= 0
    requires i < j && Forked(h, i) && Forked(h, j)
    ensures times[j] - times[i] >= interval
  {
    HeldSince(h, moves, times, interval, i, j);
    HeldStep(h[j], h[j + 1], moves[j], times[j - 1], times[j], times[i], interval);
  }
}
