/** The event output of a controller (src/controller.c): a fixed send buffer in
    front of a non-blocking descriptor, an overflow flag and an overflow marker line.
  */
module EventStream {
  import opened Common

  const SEND_BUF_SIZE: nat := 2048
  const LARGEST_WRITE: nat := 1024
  const OVERFLOW: string := "overflow\n"

  // What became of everything offered, in order, with the marker lines between.
  datatype Entry = Kept(event: string) | Dropped(event: string) | Marker

  predicate IsLine(s: string) { |s| > 0 && s[|s| - 1] == '\n' }

  // The bytes the peer is to receive.
  function Render(log: seq<Entry>): string {
    if log == [] then ""
    else Render(log[..|log| - 1]) +
         match log[|log| - 1] { case Kept(e) => e case Dropped(_) => "" case Marker => OVERFLOW }
  }

  function Offered(log: seq<Entry>): seq<string> {
    if log == [] then []
    else Offered(log[..|log| - 1]) +
         match log[|log| - 1] { case Kept(e) => [e] case Dropped(e) => [e] case Marker => [] }
  }

  // Events have been dropped since the last marker.
  predicate GapOpen(log: seq<Entry>) {
    log != [] && match log[|log| - 1]
      case Kept(_) => GapOpen(log[..|log| - 1])
      case Dropped(_) => true
      case Marker => false
  }

  // No event is kept while a gap is open.
  predicate Legal(log: seq<Entry>) {
    log != [] ==> Legal(log[..|log| - 1]) && (log[|log| - 1].Kept? ==> !GapOpen(log[..|log| - 1]))
  }

  // Every marker stands for a gap.
  predicate HonestMarkers(log: seq<Entry>) {
    log != [] ==> HonestMarkers(log[..|log| - 1]) && (log[|log| - 1].Marker? ==> GapOpen(log[..|log| - 1]))
  }

  lemma LogStep(log: seq<Entry>, x: Entry)
    ensures Render(log + [x]) ==
      Render(log) + match x { case Kept(e) => e case Dropped(_) => "" case Marker => OVERFLOW }
    ensures Offered(log + [x]) ==
      Offered(log) + match x { case Kept(e) => [e] case Dropped(e) => [e] case Marker => [] }
    ensures GapOpen(log + [x]) == match x { case Kept(_) => GapOpen(log) case Dropped(_) => true case Marker => false }
    ensures Legal(log + [x]) <==> Legal(log) && (x.Kept? ==> !GapOpen(log))
    ensures HonestMarkers(log + [x]) <==> HonestMarkers(log) && (x.Marker? ==> GapOpen(log))
  {
    assert (log + [x])[..|log|] == log;
  }

  // A dropped event is followed by a marker before the next kept one, or the gap is still open.
  lemma {:induction false} GapsAreMarked(log: seq<Entry>, i: nat)
    requires Legal(log) && i < |log| && log[i].Dropped?
    ensures GapOpen(log) || exists k :: i < k < |log| && log[k].Marker?
    ensures forall j :: i < j < |log| && log[j].Kept? ==> exists k :: i < k < j && log[k].Marker?
    decreases |log|
  {
    var n := |log| - 1;
    var prev := log[..n];
    if i < n {
      GapsAreMarked(prev, i);
      forall j | i < j < |log| && log[j].Kept? ensures exists k :: i < k < j && log[k].Marker? {
        if j < n {
          var k :| i < k < j && prev[k].Marker?;
          assert log[k].Marker?;
        } else {
          var k :| i < k < |prev| && prev[k].Marker?;
          assert log[k].Marker?;
        }
      }
      if !GapOpen(log) {
        if log[n].Marker? {
        } else {
          var k :| i < k < |prev| && prev[k].Marker?;
          assert log[k].Marker?;
        }
      }
    }
  }

  // write(2) on the non-blocking descriptor
  datatype WriteResult = Wrote(n: nat) | WouldBlock | Failed

  // All of the outcomes but the last are writes that took something.
  ghost predicate OnlyLastFails(outcomes: seq<WriteResult>) {
    forall i :: 0 <= i < |outcomes| - 1 ==> outcomes[i].Wrote?
  }

  ghost predicate EndsWith(outcomes: seq<WriteResult>, r: WriteResult) {
    outcomes != [] && outcomes[|outcomes| - 1] == r
  }

  lemma OutcomesJoin(a: seq<WriteResult>, b: seq<WriteResult>, c: seq<WriteResult>)
    requires a <= b <= c && OnlyLastFails(c[|b|..])
    ensures c[|a|..] == b[|a|..] + c[|b|..]
    ensures Failed in c[|a|..] <==> Failed in b[|a|..] || EndsWith(c[|b|..], Failed)
    ensures EndsWith(c[|b|..], WouldBlock) ==> EndsWith(c[|a|..], WouldBlock)
    ensures OnlyLastFails(b[|a|..]) && (a < b ==> b[|b| - 1].Wrote?) ==> OnlyLastFails(c[|a|..])
    ensures b < c ==> forall r :: EndsWith(c[|b|..], r) <==> EndsWith(c[|a|..], r)
  {
    var new_ := c[|b|..];
    if Failed in new_ {
      var i :| 0 <= i < |new_| && new_[i] == Failed;
      assert i == |new_| - 1;
    }
  }

  lemma FailuresJoin(a: seq<WriteResult>, b: seq<WriteResult>, c: seq<WriteResult>)
    requires a <= b <= c
    ensures Failed in c[|a|..] <==> Failed in b[|a|..] || Failed in c[|b|..]
    ensures EndsWith(c[|b|..], WouldBlock) ==> EndsWith(c[|a|..], WouldBlock)
  {
    assert c[|a|..] == b[|a|..] + c[|b|..];
  }

  lemma SentRest(sent: string, front: string, rest: string, pending: string)
    requires pending == front + rest
    ensures sent + pending == (sent + front) + rest
  {
  }

  class Controller {
    const sendBuf: array<char>
    var sendBufPos: nat
    var sendOverflow: bool
    var sendOpen: bool      // send_fd != -1
    var sendBlockedTs: int
    var received: string              // what the peer has been given
    var outcomes: seq<WriteResult>    // what write() returned so far
    ghost var log: seq<Entry>

    ghost function Pending(): string
      reads this, sendBuf
      requires sendBufPos <= sendBuf.Length
    {
      sendBuf[..sendBufPos]
    }

    ghost predicate Valid()
      reads this, sendBuf
    {
      && sendBuf.Length == SEND_BUF_SIZE && sendBufPos <= SEND_BUF_SIZE
      && (sendBufPos > 0 ==> sendBuf[sendBufPos - 1] == '\n')
      && (sendOpen ==> received + Pending() == Render(log))
      && Legal(log) && (GapOpen(log) ==> sendOverflow)
    }

    constructor ()
      ensures Valid() && sendOpen && !sendOverflow && log == [] && sendBufPos == 0 && sendBlockedTs == 0
      ensures received == "" && outcomes == [] && fresh(sendBuf)
    {
      sendBuf := new char[SEND_BUF_SIZE];
      sendBufPos, sendOverflow, sendOpen, sendBlockedTs := 0, false, true, 0;
      received, outcomes, log := "", [], [];
    }

    // write(2): the peer gets what it takes.
    method SysWrite(bytes: string) returns (r: WriteResult)
      requires bytes != ""
      modifies this`received, this`outcomes
      ensures outcomes == old(outcomes) + [r]
      ensures r.Wrote? ==> 0 < r.n <= |bytes| && received == old(received) + bytes[..r.n]
      ensures !r.Wrote? ==> received == old(received)
    {
      var kind: int := *;
      var n: nat :| 0 < n <= |bytes|;
      r := if kind == 0 then WouldBlock else if kind == 1 then Failed else Wrote(n);
      outcomes := outcomes + [r];
      if r.Wrote? {
        received := received + bytes[..n];
      }
    }

    // The inner loop of ctl_flush_outbuf: the last newline in the buffer, or -1.
    method LastEol() returns (eol: int)
      requires 0 < sendBufPos <= sendBuf.Length
      ensures -1 <= eol < sendBufPos && (eol >= 0 ==> sendBuf[eol] == '\n')
      ensures forall k :: eol < k < sendBufPos ==> sendBuf[k] != '\n'
    {
      eol := sendBufPos - 1;
      while eol >= 0 && sendBuf[eol] != '\n'
        invariant -1 <= eol < sendBufPos
        invariant forall k :: eol < k < sendBufPos ==> sendBuf[k] != '\n'
      {
        eol := eol - 1;
      }
    }

    // Drop the n bytes that write() accepted.
    method Shift(n: nat, ghost before: string)
      requires sendBuf.Length == SEND_BUF_SIZE && 0 < n <= sendBufPos <= SEND_BUF_SIZE
      requires sendBuf[sendBufPos - 1] == '\n' && before + Pending() == Render(log)
      requires Legal(log) && (GapOpen(log) ==> sendOverflow)
      requires received == before + sendBuf[..n]
      modifies this`sendBufPos, this`sendBlockedTs, sendBuf
      ensures Valid() && sendBufPos == old(sendBufPos) - n && sendBlockedTs == 0
    {
      hide Render, Legal, GapOpen;
      ghost var front, rest := sendBuf[..n], sendBuf[n..n + (sendBufPos - n)];
      SentRest(before, front, rest, Pending());
      assert rest != [] ==> rest[|rest| - 1] == '\n';
      sendBufPos := sendBufPos - n;
      sendBlockedTs := 0;
      MemMove(sendBuf, 0, n, sendBufPos);
      assert Pending() == rest;
      assert sendBufPos > 0 ==> sendBuf[sendBufPos - 1] == Pending()[sendBufPos - 1] == rest[sendBufPos - 1];
    }

    // The overflow marker takes the place of the empty buffer.
    method PutMarker()
      requires Valid() && sendBufPos == 0 && sendOverflow
      modifies this`sendBufPos, this`sendOverflow, this`log, sendBuf
      ensures Valid() && sendBufPos == 9 && !sendOverflow && log == old(log) + [Marker]
    {
      forall k | 0 <= k < 9 {
        sendBuf[k] := OVERFLOW[k];
      }
      sendBufPos := 9;
      sendOverflow := false;
      LogStep(log, Marker);
      log := log + [Marker];
      assert Pending() == OVERFLOW;
    }

    // The loop of ctl_flush_outbuf, up to its end or to a write that takes nothing.
    method SendBuffered(now: int) returns (stopped: bool)
      requires Valid()
      modifies this, sendBuf
      ensures Valid() && log == old(log) && sendOverflow == old(sendOverflow) && sendBufPos <= old(sendBufPos)
      ensures old(outcomes) <= outcomes && OnlyLastFails(outcomes[|old(outcomes)|..])
      ensures stopped <==> old(outcomes) < outcomes && !outcomes[|outcomes| - 1].Wrote?
      ensures sendOpen <==> old(sendOpen) && !EndsWith(outcomes[|old(outcomes)|..], Failed)
      ensures outcomes == old(outcomes) <==> old(!sendOpen || sendBufPos == 0)
      ensures !stopped ==> sendBufPos == 0
      ensures stopped && sendOpen ==> sendBufPos > 0
      ensures stopped && sendOpen ==> sendBlockedTs == BlockedSince(old(sendBlockedTs), old(outcomes), now)
      ensures !stopped ==> sendBlockedTs == if outcomes == old(outcomes) then old(sendBlockedTs) else 0
      ensures stopped && !sendOpen ==> sendBlockedTs == 0 || sendBlockedTs == old(sendBlockedTs)
    {
      hide Render, Legal, GapOpen;
      while sendBufPos > 0
        invariant Valid() && log == old(log) && sendOverflow == old(sendOverflow) && sendOpen == old(sendOpen)
        invariant sendBufPos <= old(sendBufPos)
        invariant sendOpen && outcomes == old(outcomes) ==> sendBufPos == old(sendBufPos)
        invariant old(outcomes) <= outcomes && (!sendOpen || old(sendBufPos == 0) ==> outcomes == old(outcomes))
        invariant forall i :: |old(outcomes)| <= i < |outcomes| ==> outcomes[i].Wrote?
        invariant sendBlockedTs == if outcomes == old(outcomes) then old(sendBlockedTs) else 0
        decreases sendBufPos
      {
        var eol := LastEol();
        if !sendOpen {
          sendBufPos := 0;
        } else if eol < 0 {
          // A partial line would be discarded or wait here; only whole lines are ever buffered.
          assert false;
        } else {
          ghost var before := received;
          var r := SysWrite(sendBuf[..eol + 1]);
          match r
          case Wrote(n) =>
            assert sendBuf[..eol + 1][..n] == sendBuf[..n];
            Shift(n, before);
          case WouldBlock =>
            if sendBlockedTs == 0 {
              sendBlockedTs := if now != 0 then now else 1;
            }
            return true;
          case Failed =>
            sendOpen := false;
            return true;
        }
      }
      return false;
    }

    /** ctl_flush_outbuf.  What came of it is what came of the last write: it is not flushed exactly when that
        would have blocked, and closed exactly when that failed. */
    method Flush(now: int) returns (flushed: bool)
      requires Valid()
      modifies this, sendBuf
      ensures Valid() && old(outcomes) <= outcomes && OnlyLastFails(outcomes[|old(outcomes)|..])
      ensures !flushed <==> EndsWith(outcomes[|old(outcomes)|..], WouldBlock)
      ensures sendOpen <==> old(sendOpen) && !EndsWith(outcomes[|old(outcomes)|..], Failed)
      ensures outcomes == old(outcomes) <==> old(!sendOpen || (sendBufPos == 0 && !sendOverflow))
      ensures log == old(log) || (old(sendOverflow) && log == old(log) + [Marker])
      ensures !old(sendOverflow) ==> !sendOverflow && log == old(log) && sendBufPos <= old(sendBufPos)
      ensures sendOpen ==> sendOverflow == (log == old(log) && old(sendOverflow))
      ensures flushed && sendOpen ==> sendBufPos == 0 && received == Render(log) && !sendOverflow
      ensures !flushed ==> sendBufPos > 0 && sendBlockedTs == BlockedSince(old(sendBlockedTs), old(outcomes), now)
      ensures flushed && sendOpen ==> sendBlockedTs == if outcomes == old(outcomes) then old(sendBlockedTs) else 0
      ensures old(0 <= sendBlockedTs <= now) && now > 0 ==> 0 <= sendBlockedTs <= now
      decreases sendOverflow
    {
      hide Render, Legal, GapOpen;
      var stopped := SendBuffered(now);
      if stopped {
        return !sendOpen;
      }
      if sendOverflow {
        PutMarker();
        ghost var before := outcomes;
        flushed := Flush(now);
        OutcomesJoin(old(outcomes), before, outcomes);
        return;
      }
      return true;
    }

    // When a write has just blocked: since now, unless it is the first of the call and was blocked before.
    ghost function BlockedSince(was: int, before: seq<WriteResult>, now: int): int
      reads this`outcomes
    {
      if was != 0 && |outcomes| == |before| + 1 then was else if now != 0 then now else 1
    }

    // ctl_out_buf_ready
    method OutBufReady(now: int) returns (ready: bool)
      requires Valid()
      modifies this, sendBuf
      ensures Valid() && (log == old(log) || (old(sendOverflow) && log == old(log) + [Marker]))
      ensures sendOpen ==> sendOverflow == (log == old(log) && old(sendOverflow))
      ensures ready && sendOpen && !sendOverflow ==> sendBufPos <= SEND_BUF_SIZE - LARGEST_WRITE
      ensures old(sendBufPos <= SEND_BUF_SIZE - LARGEST_WRITE || sendOverflow) ==>
        ready && unchanged(this) && unchanged(sendBuf)
      ensures old(outcomes) <= outcomes && OnlyLastFails(outcomes[|old(outcomes)|..])
      ensures !ready <==> EndsWith(outcomes[|old(outcomes)|..], WouldBlock)
      ensures !ready ==> sendBlockedTs == BlockedSince(old(sendBlockedTs), old(outcomes), now) != 0
      ensures sendOpen <==> old(sendOpen) && !EndsWith(outcomes[|old(outcomes)|..], Failed)
    {
      if sendBufPos <= SEND_BUF_SIZE - LARGEST_WRITE || sendOverflow {
        return true;
      }
      ready := Flush(now);
    }

    // vsnprintf into the free part of the buffer: all of it if it fits, else a cut-off copy.
    method Print(event: string)
      requires sendBufPos <= sendBuf.Length
      modifies sendBuf
      ensures Pending() == old(Pending())
      ensures |event| < sendBuf.Length - sendBufPos ==> sendBuf[sendBufPos..sendBufPos + |event|] == event
    {
      var free := sendBuf.Length - sendBufPos;
      if free > 0 {
        var n := if |event| < free then |event| else free - 1;
        forall k | 0 <= k < n {
          sendBuf[sendBufPos + k] := event[k];
        }
        sendBuf[sendBufPos + n] := '\0';
      }
    }

    // The printed event becomes part of the buffered text.
    method Queue(event: string)
      requires Valid() && IsLine(event) && !sendOverflow && sendBufPos + |event| < SEND_BUF_SIZE
      requires sendBuf[sendBufPos..sendBufPos + |event|] == event
      modifies this`sendBufPos, this`log
      ensures Valid() && log == old(log) + [Kept(event)] && sendOpen == old(sendOpen) && !sendOverflow
    {
      LogStep(log, Kept(event));
      hide Render, Legal, GapOpen;
      ghost var was := Pending();
      sendBufPos := sendBufPos + |event|;
      assert Pending() == was + event;
      assert received + (was + event) == (received + was) + event;
      log := log + [Kept(event)];
    }

    // The event does not fit: flush, and give it up if that makes no room at all.
    method MakeRoom(event: string, now: int) returns (dropped: bool)
      requires Valid() && !sendOverflow
      modifies this, sendBuf
      ensures Valid() && old(outcomes) <= outcomes
      ensures sendOpen <==> old(sendOpen) && Failed !in outcomes[|old(outcomes)|..]
      ensures old(0 <= sendBlockedTs <= now) && now > 0 ==> 0 <= sendBlockedTs <= now
      ensures dropped == sendOverflow && log == if dropped then old(log) + [Dropped(event)] else old(log)
      ensures if dropped then sendBufPos == old(sendBufPos) else sendBufPos < old(sendBufPos)
      ensures dropped && sendOpen ==> sendBufPos == 0 || EndsWith(outcomes[|old(outcomes)|..], WouldBlock)
    {
      hide Render, Legal, GapOpen, OnlyLastFails, EndsWith;
      LogStep(log, Dropped(event));
      var p := sendBufPos;
      var flushed := Flush(now);
      OutcomesJoin(old(outcomes), old(outcomes), outcomes);
      dropped := p == sendBufPos;
      if dropped {
        sendOverflow := true;
        log := log + [Dropped(event)];
      }
    }

    /** ctl_write to one controller.  An event is dropped only when one was dropped before and the marker is not
        out, or when it does not fit although everything was written out, or as much as would not block. */
    method Write(event: string, now: int)
      requires Valid() && IsLine(event)
      modifies this, sendBuf
      ensures Valid() && old(outcomes) <= outcomes
      ensures sendOpen <==> old(sendOpen) && Failed !in outcomes[|old(outcomes)|..]
      ensures old(!sendOpen || sendOverflow || sendBufPos + |event| < SEND_BUF_SIZE) ==> outcomes == old(outcomes)
      ensures old(!sendOpen) ==> unchanged(this) && unchanged(sendBuf)
      ensures old(0 <= sendBlockedTs <= now) && now > 0 ==> 0 <= sendBlockedTs <= now
      ensures sendOpen ==> log == old(log) + [if sendOverflow then Dropped(event) else Kept(event)]
      ensures old(sendOverflow) && sendOpen ==> sendOverflow
      ensures sendOpen && sendOverflow && !old(sendOverflow) ==>
        && sendBufPos + |event| >= SEND_BUF_SIZE
        && (sendBufPos == 0 || EndsWith(outcomes[|old(outcomes)|..], WouldBlock))
      ensures old(sendOpen && !sendOverflow && sendBufPos + |event| < SEND_BUF_SIZE) ==> log == old(log) + [Kept(event)]
    {
      if !sendOpen {
        return;
      }
      hide Render, Legal, GapOpen, OnlyLastFails, EndsWith;
      LogStep(log, Dropped(event));
      if sendOverflow {
        log := log + [Dropped(event)];
        return;
      }
      var msgLen := -1;
      while true
        invariant Valid() && log == old(log) && !sendOverflow && sendBufPos <= old(sendBufPos)
        invariant old(outcomes) <= outcomes && (sendOpen <==> Failed !in outcomes[|old(outcomes)|..])
        invariant old(0 <= sendBlockedTs <= now) && now > 0 ==> 0 <= sendBlockedTs <= now
        invariant msgLen == -1 || msgLen == |event|
        invariant old(sendBufPos + |event| < SEND_BUF_SIZE) ==> msgLen == -1 && sendOpen && outcomes == old(outcomes)
        decreases sendBufPos, msgLen == -1
      {
        var bufFree := SEND_BUF_SIZE - sendBufPos;
        if msgLen >= bufFree {
          ghost var before := outcomes;
          var dropped := MakeRoom(event, now);
          FailuresJoin(old(outcomes), before, outcomes);
          if dropped {
            return;
          }
        } else {
          Print(event);
          msgLen := |event|;
          if msgLen < bufFree {
            Queue(event);
            return;
          }
        }
      }
    }

    // The reset timeout of ctl_run.
    method ForceOverflow()
      requires Valid()
      modifies this`sendOverflow
      ensures Valid() && sendOverflow
    {
      sendOverflow := true;
    }
  }

  // ---------------------------------------------------------------- whole runs

  datatype Action = Offer(event: string) | TryFlush | AskReady | Timeout

  function Offers(actions: seq<Action>): seq<string> {
    if actions == [] then []
    else Offers(actions[..|actions| - 1]) +
         if actions[|actions| - 1].Offer? then [actions[|actions| - 1].event] else []
  }

  lemma NothingYet()
    ensures Offered([]) == Offers([]) && HonestMarkers([]) && !GapOpen([])
  {
  }

  lemma OffersStep(actions: seq<Action>, i: nat)
    requires i < |actions|
    ensures Offers(actions[..i + 1]) == Offers(actions[..i]) + if actions[i].Offer? then [actions[i].event] else []
  {
    assert actions[..i + 1][..i] == actions[..i];
  }

  // Every event was kept.
  predicate Complete(log: seq<Entry>) {
    forall i :: 0 <= i < |log| ==> log[i].Kept?
  }

  function Concat(events: seq<string>): string {
    if events == [] then "" else Concat(events[..|events| - 1]) + events[|events| - 1]
  }

  lemma {:induction false} CompleteIsConcat(log: seq<Entry>)
    requires Complete(log)
    ensures Render(log) == Concat(Offered(log))
  {
    if log != [] {
      var n := |log| - 1;
      CompleteIsConcat(log[..n]);
      assert Offered(log) == Offered(log[..n]) + [log[n].event];
      assert Offered(log)[..|Offered(log)| - 1] == Offered(log[..n]);
    }
  }

  ghost predicate AllShort(actions: seq<Action>) {
    forall i :: 0 <= i < |actions| && actions[i].Offer? ==> |actions[i].event| < SEND_BUF_SIZE
  }

  // Nothing stood in the way of any event.
  ghost predicate Untroubled(actions: seq<Action>, outcomes: seq<WriteResult>) {
    AllShort(actions) && Timeout !in actions && WouldBlock !in outcomes
  }

  // What every step of a run keeps.
  ghost predicate Going(c: Controller, actions: seq<Action>, i: nat)
    requires i <= |actions|
    reads c, c.sendBuf
  {
    && c.Valid() && (c.sendOpen <==> Failed !in c.outcomes)
    && (c.sendOpen ==> Offered(c.log) == Offers(actions[..i]))
    && (c.sendOpen && Timeout !in actions[..i] ==> HonestMarkers(c.log) && (c.sendOverflow ==> GapOpen(c.log)))
    && (c.sendOpen && Untroubled(actions[..i], c.outcomes) ==> Complete(c.log) && !c.sendOverflow)
    && (i > 0 && actions[i - 1] == TryFlush && c.sendOpen ==>
          (c.sendBufPos == 0 && !c.sendOverflow) || EndsWith(c.outcomes, WouldBlock))
    && (i > 0 && actions[i - 1] == Timeout ==> c.sendOverflow)
  }

  lemma UntroubledBefore(actions: seq<Action>, i: nat, before: seq<WriteResult>, after: seq<WriteResult>)
    requires i < |actions| && before <= after
    ensures Timeout in actions[..i + 1] <==> Timeout in actions[..i] || actions[i] == Timeout
    ensures Untroubled(actions[..i + 1], after) ==>
      Untroubled(actions[..i], before) && actions[i] != Timeout && WouldBlock !in after[|before|..] &&
      (actions[i].Offer? ==> |actions[i].event| < SEND_BUF_SIZE)
    ensures Failed in after <==> Failed in before || Failed in after[|before|..]
  {
    assert actions[..i + 1] == actions[..i] + [actions[i]];
    assert after == before + after[|before|..];
    assert forall k :: 0 <= k < i ==> actions[..i + 1][k] == actions[..i][k];
  }

  // One action.
  method Act(c: Controller, actions: seq<Action>, i: nat, now: int)
    requires i < |actions| && (actions[i].Offer? ==> IsLine(actions[i].event)) && Going(c, actions, i)
    modifies c, c.sendBuf
    ensures Going(c, actions, i + 1)
  {
    hide Render, Offered, Legal, HonestMarkers, GapOpen, Offers, Concat, Untroubled, IsLine;
    OffersStep(actions, i);
    ghost var was, before := c.log, c.outcomes;
    match actions[i] {
      case Offer(e) =>
        LogStep(was, Kept(e));
        LogStep(was, Dropped(e));
        c.Write(e, now);
      case TryFlush =>
        LogStep(was, Marker);
        var _ := c.Flush(now);
        OutcomesJoin([], before, c.outcomes);
      case AskReady =>
        LogStep(was, Marker);
        var _ := c.OutBufReady(now);
        OutcomesJoin([], before, c.outcomes);
      case Timeout =>
        c.ForceOverflow();
    }
    UntroubledBefore(actions, i, before, c.outcomes);
  }

  /** Any sequence of events, flushes, readiness checks and timeouts, with any outcome of
      every write: while the connection is open, what the peer received and what is still
      buffered is a run of whole events in the order offered, with whole marker lines in the
      gaps.  The connection is closed exactly when a write failed, and if no write would have
      blocked nothing is lost. */
  method Run(actions: seq<Action>)
    returns (received: string, pending: string, overflow: bool, open: bool, outcomes: seq<WriteResult>,
             ghost log: seq<Entry>)
    requires forall i :: 0 <= i < |actions| && actions[i].Offer? ==> IsLine(actions[i].event)
    ensures open <==> Failed !in outcomes
    ensures open ==> received + pending == Render(log) && Offered(log) == Offers(actions)
    ensures open ==> Legal(log) && (GapOpen(log) ==> overflow)
    ensures open && Timeout !in actions ==> HonestMarkers(log)
    ensures open && Untroubled(actions, outcomes) ==> received + pending == Concat(Offers(actions)) && !overflow
    ensures open && actions != [] && actions[|actions| - 1] == TryFlush ==>
      (pending == "" && !overflow) || EndsWith(outcomes, WouldBlock)
    ensures actions != [] && actions[|actions| - 1] == Timeout ==> overflow
  {
    hide Render, Offered, Legal, HonestMarkers, GapOpen, Offers, Concat, Untroubled;
    NothingYet();
    var c := new Controller();
    var i := 0;
    assert actions[..0] == [];
    while i < |actions|
      invariant 0 <= i <= |actions| && fresh(c) && fresh(c.sendBuf) && Going(c, actions, i)
    {
      var now: int := *;
      Act(c, actions, i, now);
      i := i + 1;
    }
    assert actions[..i] == actions;
    if c.sendOpen && Untroubled(actions, c.outcomes) {
      CompleteIsConcat(c.log);
    }
    return c.received, c.sendBuf[..c.sendBufPos], c.sendOverflow, c.sendOpen, c.outcomes, c.log;
  }
}
