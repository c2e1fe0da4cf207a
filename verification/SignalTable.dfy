/** The table of pending signals (src/signal.c) and the loops that read it. */
module SignalTable {

  const SLOTS: nat := 16

  datatype Slot = Slot(signum: int, ts: int, pending: int)

  // The first `used` slots hold distinct signals, the others are free.
  ghost predicate Packed(s: seq<Slot>, used: nat) {
    && used <= |s|
    && (forall i :: 0 <= i < used ==> s[i].signum != 0)
    && (forall i, j :: 0 <= i < j < used ==> s[i].signum != s[j].signum)
    && (forall i :: used <= i < |s| ==> s[i] == Slot(0, 0, 0))
  }

  // Pending signals have times of their own, none of them zero, which stands for no time.
  ghost predicate DistinctTimes(s: seq<Slot>) {
    && (forall i :: 0 <= i < |s| && s[i].pending > 0 ==> s[i].ts != 0)
    && (forall i, j :: 0 <= i < j < |s| && s[i].pending > 0 && s[j].pending > 0 ==> s[i].ts != s[j].ts)
  }

  predicate Newer(x: Slot, since: int) { x.pending > 0 && (since == 0 || x.ts > since) }

  // The slots, by index, that are newer than `since`.
  ghost function NewerSet(s: seq<Slot>, since: int): set<int> {
    set i | 0 <= i < |s| && Newer(s[i], since)
  }

  ghost predicate SomeNewer(s: seq<Slot>, since: int) {
    exists event :: event in s && Newer(event, since)
  }

  // The answer to the question for a signal newer than `since`.
  ghost predicate Oldest(s: seq<Slot>, since: int, event: Slot) {
    event in s && Newer(event, since) && forall i :: 0 <= i < |s| && Newer(s[i], since) ==> event.ts <= s[i].ts
  }

  // ---------------------------------------------------------------- clearing

  // The first slot of the signal, or the length.
  function SlotOf(s: seq<Slot>, signum: int): (k: nat)
    ensures k <= |s| && (k < |s| ==> s[k].signum == signum)
    ensures forall i :: 0 <= i < k ==> s[i].signum != signum
  {
    if s == [] || s[0].signum == signum then 0 else 1 + SlotOf(s[1..], signum)
  }

  function Seen(s: seq<Slot>, signum: int, count: int): seq<Slot> {
    var k := SlotOf(s, signum);
    if k == |s| then s else s[k := s[k].(pending := if s[k].pending < count then 0 else s[k].pending - count)]
  }

  // Clearing keeps the table in order unless it is signal 0 that is cleared, by less than nothing.
  lemma SeenPacked(s: seq<Slot>, used: nat, signum: int, count: int)
    requires Packed(s, used)
    ensures Packed(Seen(s, signum, count), used) <==> count >= 0 || signum != 0 || used == |s|
  {
    if used < |s| {
      assert s[used] == Slot(0, 0, 0);
      assert signum == 0 ==> SlotOf(s, signum) == used;
      assert signum == 0 ==> Seen(s, signum, count)[used] == Slot(0, 0, if count < 0 then -count else 0);
    }
  }

  lemma SeenTimes(s: seq<Slot>, signum: int, count: int)
    requires count >= 0 && DistinctTimes(s)
    ensures DistinctTimes(Seen(s, signum, count))
  {
    var k := SlotOf(s, signum);
    assert k < |s| && Seen(s, signum, count)[k].pending > 0 ==> s[k].pending > 0;
  }

  // ---------------------------------------------------------------- asking again and again

  // The question can be asked n times, each time with the time of the last answer.
  ghost predicate Lasts(s: seq<Slot>, since: int, n: nat)
    decreases n
  {
    n == 0 || exists event :: Oldest(s, since, event) && Lasts(s, event.ts, n - 1)
  }

  // A pending slot without a time is the answer for ever: it is asked for with 0, and answers 0.
  lemma {:induction false} ZeroRepeats(s: seq<Slot>, zero: Slot, n: nat)
    requires zero in s && zero.pending > 0 && zero.ts == 0
    requires forall i :: 0 <= i < |s| && s[i].pending > 0 ==> s[i].ts >= 0
    ensures Lasts(s, 0, n)
    ensures forall event :: Oldest(s, 0, event) ==> event.ts == 0
  {
    assert Oldest(s, 0, zero);
    if n > 0 {
      ZeroRepeats(s, zero, n - 1);
    }
  }

  lemma FewerAfter(s: seq<Slot>, since: int, e: int)
    requires 0 <= e < |s| && Newer(s[e], since) && s[e].ts > 0
    ensures |NewerSet(s, s[e].ts)| < |NewerSet(s, since)|
  {
    assert e in NewerSet(s, since) && e !in NewerSet(s, s[e].ts);
    Fewer(NewerSet(s, s[e].ts), NewerSet(s, since) - {e});
  }

  // Times count from 0, and since a time after 0 only later times are asked for.
  ghost predicate Timed(s: seq<Slot>, since: int) {
    && (forall i :: 0 <= i < |s| && s[i].pending > 0 ==> s[i].ts >= 0)
    && (since > 0 || (since == 0 && forall i :: 0 <= i < |s| && s[i].pending > 0 ==> s[i].ts != 0))
  }

  lemma Answer(s: seq<Slot>, since: int, n: nat) returns (e: int)
    requires Timed(s, since) && n > 0 && Lasts(s, since, n)
    ensures 0 <= e < |s| && Newer(s[e], since) && s[e].ts > 0 && Timed(s, s[e].ts) && Lasts(s, s[e].ts, n - 1)
  {
    var event :| Oldest(s, since, event) && Lasts(s, event.ts, n - 1);
    e :| 0 <= e < |s| && s[e] == event;
  }

  // Then there are no more answers than newer slots.
  lemma {:induction false} AnswersEnd(s: seq<Slot>, since: int, n: nat)
    requires Timed(s, since) && Lasts(s, since, n)
    ensures n <= |NewerSet(s, since)|
    decreases n
  {
    hide *;
    if n > 0 {
      var e := Answer(s, since, n);
      FewerAfter(s, since, e);
      AnswersEnd(s, s[e].ts, n - 1);
    }
  }

  lemma Fewer(a: set<int>, b: set<int>)
    requires a <= b
    ensures |a| <= |b|
  {
    assert |b| == |a| + |b - a| by {
      assert b == a + (b - a);
    }
  }

  /** With times from 0 on, a loop that asks with the time of the last answer goes on for ever exactly when it starts
      from 0 and a pending slot has no time. */
  lemma EndlessExactly(s: seq<Slot>, since: nat)
    requires forall i :: 0 <= i < |s| && s[i].pending > 0 ==> s[i].ts >= 0
    ensures (forall n: nat :: Lasts(s, since, n)) <==>
            since == 0 && exists i :: 0 <= i < |s| && s[i].pending > 0 && s[i].ts == 0
  {
    if since == 0 && exists i :: 0 <= i < |s| && s[i].pending > 0 && s[i].ts == 0 {
      var i :| 0 <= i < |s| && s[i].pending > 0 && s[i].ts == 0;
      forall n: nat
        ensures Lasts(s, since, n)
      {
        ZeroRepeats(s, s[i], n);
      }
    } else {
      var n := |NewerSet(s, since)| + 1;
      assert !Lasts(s, since, n) by {
        if Lasts(s, since, n) {
          AnswersEnd(s, since, n);
        }
      }
    }
  }

  class Signals {
    const slots: array<Slot>
    ghost var used: nat

    ghost predicate Valid()
      reads this, slots
    {
      slots.Length == SLOTS && Packed(slots[..], used)
    }

    // sig_init
    constructor ()
      ensures Valid() && used == 0 && fresh(slots) && DistinctTimes(slots[..])
    {
      slots := new Slot[SLOTS](_ => Slot(0, 0, 0));
      used := 0;
    }

    // record_signal
    method Record(sig: int, ts: int)
      requires Valid() && sig != 0
      modifies this`used, slots
      ensures Valid()
      ensures exists k :: RecordedAt(old(slots[..]), slots[..], k, sig, ts)
      ensures
        && DistinctTimes(old(slots[..])) && ts != 0
        && (forall i :: 0 <= i < SLOTS && old(slots[..])[i].signum != sig ==> old(slots[..])[i].ts != ts)
        ==> DistinctTimes(slots[..])
    {
      ghost var before := slots[..];
      var i := 0;
      while i < SLOTS - 1 && slots[i].signum != 0 && slots[i].signum != sig
        invariant 0 <= i <= SLOTS - 1 && i <= used
        invariant forall j :: 0 <= j < i ==> before[j].signum != 0 && before[j].signum != sig
      {
        i := i + 1;
      }
      if slots[i].signum == sig {
        slots[i] := slots[i].(ts := ts, pending := slots[i].pending + 1);
      } else {
        slots[i] := Slot(sig, ts, 1);
        if i == used {
          used := used + 1;
        }
      }
      assert RecordedAt(before, slots[..], i, sig, ts);
    }

    // sig_get_new_events: the oldest pending signal newer than `since`.
    method GetNew(since: int) returns (found: bool, event: Slot)
      requires slots.Length == SLOTS
      ensures found ==> Oldest(slots[..], since, event)
      ensures !found ==> forall i :: 0 <= i < SLOTS ==> !Newer(slots[i], since)
    {
      var i, oldest := 0, -1;
      while i < SLOTS
        invariant 0 <= i <= SLOTS && -1 <= oldest < i
        invariant oldest >= 0 ==> Newer(slots[oldest], since)
        invariant oldest >= 0 ==> forall j :: 0 <= j < i && Newer(slots[j], since) ==> slots[oldest].ts <= slots[j].ts
        invariant oldest < 0 ==> forall j :: 0 <= j < i ==> !Newer(slots[j], since)
      {
        if slots[i].pending > 0 && (since == 0 || slots[i].ts - since > 0)
          && (oldest < 0 || slots[oldest].ts - slots[i].ts > 0) {
          oldest := i;
        }
        i := i + 1;
      }
      if oldest < 0 {
        return false, Slot(0, 0, 0);
      }
      assert slots[..][oldest] == slots[oldest];
      return true, slots[oldest];
    }

    // sig_mark_seen
    method MarkSeen(signum: int, count: int)
      requires Valid()
      modifies slots
      ensures slots[..] == Seen(old(slots[..]), signum, count)
      ensures Valid() <==> count >= 0 || signum != 0 || used == SLOTS
      ensures count >= 0 && old(DistinctTimes(slots[..])) ==> DistinctTimes(slots[..])
    {
      ghost var before := slots[..];
      SeenPacked(before, used, signum, count);
      if count >= 0 && DistinctTimes(before) {
        SeenTimes(before, signum, count);
      }
      hide Packed, DistinctTimes, Seen;
      var i := 0;
      while i < SLOTS
        invariant 0 <= i <= SLOTS && slots[..] == before
        invariant forall j :: 0 <= j < i ==> before[j].signum != signum
      {
        if slots[i].signum == signum {
          var left := slots[i].pending - count;
          slots[i] := slots[i].(pending := if left < 0 then 0 else left);
          SeenAt(before, signum, count, i);
          return;
        }
        i := i + 1;
      }
      SeenAt(before, signum, count, i);
    }

    /** signal.clear 0 -1, which the command accepts, on a table with a free slot: that slot is pending now without
        a time, and whoever asks from 0 is given it again and again. */
    method ClearNothing() returns (first: Slot, again: Slot)
      requires Valid() && used < SLOTS && forall i :: 0 <= i < SLOTS && slots[i].pending > 0 ==> slots[i].ts > 0
      modifies slots
      ensures first == again == Slot(0, 0, 1)
      ensures !Valid() && !DistinctTimes(slots[..]) && forall n: nat :: Lasts(slots[..], 0, n)
    {
      ghost var k := used;
      SeenAt(slots[..], 0, -1, k);
      MarkSeen(0, -1);
      assert slots[..][k] == Slot(0, 0, 1);
      var found;
      found, first := GetNew(0);
      found, again := GetNew(first.ts);
      EndlessExactly(slots[..], 0);
    }

    /** ctl_deliver_signals: offer every signal newer than the last one seen, oldest first,
        until none is left or the output buffer is full. */
    method Deliver(since0: int, ready: nat -> bool) returns (events: seq<Slot>, since: int, delivered: bool)
      requires Valid() && DistinctTimes(slots[..])
      ensures forall i, j :: 0 <= i < j < |events| ==> events[i].ts < events[j].ts
      ensures forall i :: 0 <= i < |events| ==> events[i] in slots[..] && Newer(events[i], since0)
      ensures forall k :: 0 <= k < SLOTS && Newer(slots[k], since0) && !Newer(slots[k], since) ==> slots[k] in events
      ensures delivered ==> forall k :: 0 <= k < SLOTS && Newer(slots[k], since0) ==> slots[k] in events
      ensures forall k: nat :: k < |events| ==> ready(k)
      ensures !delivered ==> !ready(|events|) && SomeNewer(slots[..], since)
      ensures since == if events == [] then since0 else events[|events| - 1].ts
    {
      hide Packed, DistinctTimes, NewerSet;
      events, since := [], since0;
      var found, event := GetNew(since);
      while found
        invariant since == if events == [] then since0 else events[|events| - 1].ts
        invariant events != [] ==> since != 0
        invariant forall k: nat :: k < |events| ==> ready(k)
        invariant forall i, j :: 0 <= i < j < |events| ==> events[i].ts < events[j].ts
        invariant forall i :: 0 <= i < |events| ==>
          events[i] in slots[..] && Newer(events[i], since0) && events[i].ts <= since
        invariant found ==> Oldest(slots[..], since, event)
        invariant !found ==> forall i :: 0 <= i < SLOTS ==> !Newer(slots[i], since)
        invariant forall k :: 0 <= k < SLOTS && Newer(slots[k], since0) && !Newer(slots[k], since) ==>
          slots[k] in events
        decreases NewerSet(slots[..], since), found
      {
        if !ready(|events|) {
          return events, since, false;
        }
        NextSignal(slots[..], event, since, since0, events);
        events := events + [event];
        since := event.ts;
        found, event := GetNew(since);
      }
      return events, since, true;
    }

    /** svc_check_sigwake: is a pending signal among those the service waits for? */
    method CheckSigwake(autostart: set<int>) returns (wake: bool)
      requires Valid() && DistinctTimes(slots[..])
      ensures wake <==> exists i :: 0 <= i < SLOTS && slots[i].pending > 0 && slots[i].signum in autostart
    {
      var since := 0;
      var found, event := GetNew(since);
      while found
        invariant forall k :: 0 <= k < SLOTS && slots[k].pending > 0 && !Newer(slots[k], since) ==>
          slots[k].signum !in autostart
        invariant found ==> Oldest(slots[..], since, event)
        invariant !found ==> forall i :: 0 <= i < SLOTS ==> !Newer(slots[i], since)
        decreases NewerSet(slots[..], since), found
      {
        if event.signum in autostart {
          return true;
        }
        NextSignal(slots[..], event, since, 0, []);
        since := event.ts;
        found, event := GetNew(since);
      }
      return false;
    }
  }

  lemma SeenAt(s: seq<Slot>, signum: int, count: int, k: nat)
    requires k <= |s| && (k < |s| ==> s[k].signum == signum) && forall i :: 0 <= i < k ==> s[i].signum != signum
    ensures k == |s| ==> Seen(s, signum, count) == s
    ensures k < |s| ==>
      Seen(s, signum, count) == s[k := s[k].(pending := if s[k].pending < count then 0 else s[k].pending - count)]
  {
  }

  // Slot k was the signal's own slot or a free one, or else the last slot was overwritten.
  ghost predicate RecordedAt(s: seq<Slot>, s': seq<Slot>, k: int, sig: int, ts: int) {
    && |s'| == |s| && 0 <= k < |s|
    && (s[k].signum == sig || (forall i :: 0 <= i < |s| ==> s[i].signum != sig))
    && (s[k].signum == sig || s[k].signum == 0 || (k == |s| - 1 && forall i :: 0 <= i < |s| ==> s[i].signum != 0))
    && s' == s[k := Slot(sig, ts, if s[k].signum == sig then s[k].pending + 1 else 1)]
  }

  // After the oldest newer signal, the newer ones are the same less that one.
  lemma NextSignal(s: seq<Slot>, event: Slot, since: int, since0: int, events: seq<Slot>)
    requires DistinctTimes(s) && event in s && Newer(event, since)
    requires forall i :: 0 <= i < |s| && Newer(s[i], since) ==> event.ts <= s[i].ts
    ensures event.ts != 0 && NewerSet(s, event.ts) < NewerSet(s, since)
    ensures forall k :: 0 <= k < |s| && Newer(s[k], since) && !Newer(s[k], event.ts) ==> s[k] == event
  {
    var e :| 0 <= e < |s| && s[e] == event;
    assert e in NewerSet(s, since) && e !in NewerSet(s, event.ts);
    forall i | i in NewerSet(s, event.ts) ensures i in NewerSet(s, since) {}
  }
}
