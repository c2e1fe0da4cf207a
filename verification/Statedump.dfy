/** The resumable `statedump` command (src/controller.c): it walks a name index,
    stops whenever the output buffer is full, and later resumes by name although
    objects may have been created or deleted in the meantime.

    A table is given as its names in index order.  ctl_state_dump_fds offers one
    line for each object and ctl_state_dump_services five; `parts` is that number.
  */
module Statedump {
  import opened Strseg

  datatype Line = Line(name: string, part: nat)

  ghost predicate Table(t: seq<string>) {
    && (forall i :: 0 <= i < |t| ==> t[i] != "")
    && (forall i, j :: 0 <= i < j < |t| ==> Cmp(t[i], t[j]) < 0)
  }

  ghost predicate Earlier(a: Line, b: Line) {
    Cmp(a.name, b.name) < 0 || (a.name == b.name && a.part < b.part)
  }

  // By name, and for one name by part: so nothing is offered twice.
  ghost predicate Increasing(trace: seq<Line>) {
    forall i, j :: 0 <= i < j < |trace| ==> Earlier(trace[i], trace[j])
  }

  ghost predicate AllEarlier(trace: seq<Line>, b: Line) {
    forall i :: 0 <= i < |trace| ==> Earlier(trace[i], b)
  }

  // Parts 1 .. k of the object have been offered.
  ghost predicate Has(trace: seq<Line>, name: string, k: int) {
    forall p: nat :: 1 <= p <= k ==> Line(name, p) in trace
  }

  // Of every object of the tables, the parts before (name, part) have been offered.
  ghost predicate Covered(trace: seq<Line>, tables: seq<seq<string>>, parts: nat, at: Line) {
    forall n :: InAll(n, tables) ==>
      && (Cmp(n, at.name) < 0 ==> Has(trace, n, parts))
      && (n == at.name ==> Has(trace, n, at.part - 1))
  }

  ghost predicate InAll(n: string, tables: seq<seq<string>>) {
    forall i :: 0 <= i < |tables| ==> n in tables[i]
  }

  lemma EarlierTransitive(trace: seq<Line>, a: Line, b: Line)
    requires AllEarlier(trace, a) && (a == b || Earlier(a, b))
    ensures AllEarlier(trace, b)
  {
    CmpTotalOrder();
    CmpEqual(a.name, b.name);
  }

  lemma OfferStep(trace: seq<Line>, x: Line)
    requires Increasing(trace) && AllEarlier(trace, x)
    ensures Increasing(trace + [x]) && AllEarlier(trace + [x], Line(x.name, x.part + 1))
  {
  }

  lemma CoveredStep(trace: seq<Line>, tables: seq<seq<string>>, parts: nat, at: Line)
    requires Covered(trace, tables, parts, at) && 1 <= at.part
    ensures Covered(trace + [at], tables, parts, Line(at.name, at.part + 1))
  {
    hide Cmp, InAll;
    forall n | InAll(n, tables)
      ensures Cmp(n, at.name) < 0 ==> Has(trace + [at], n, parts)
      ensures n == at.name ==> Has(trace + [at], n, at.part)
    {
      if n == at.name {
        assert Has(trace, n, at.part - 1);
        assert (trace + [at])[|trace|] == at;
      }
    }
  }

  // Going on to the next object of the last table.
  lemma CoveredNext(trace: seq<Line>, tables: seq<seq<string>>, parts: nat, i: nat)
    requires |tables| > 0 && Table(tables[|tables| - 1]) && i < |tables[|tables| - 1]|
    requires Covered(trace, tables, parts, Line(tables[|tables| - 1][i], parts + 1))
    ensures i + 1 < |tables[|tables| - 1]| ==> Covered(trace, tables, parts, Line(tables[|tables| - 1][i + 1], 1))
    ensures i + 1 == |tables[|tables| - 1]| ==> AllDone(trace, tables, parts)
  {
    var t := tables[|tables| - 1];
    forall n | InAll(n, tables) && (i + 1 < |t| ==> Cmp(n, t[i + 1]) < 0) ensures Has(trace, n, parts) {
      assert n in t;
      BelowNext(t, i, n);
    }
  }

  ghost predicate AllDone(trace: seq<Line>, tables: seq<seq<string>>, parts: nat) {
    forall n :: InAll(n, tables) ==> Has(trace, n, parts)
  }

  lemma BelowNext(t: seq<string>, i: nat, n: string)
    requires Table(t) && i < |t| && n in t && (i + 1 < |t| ==> Cmp(n, t[i + 1]) < 0)
    ensures Cmp(n, t[i]) < 0 || n == t[i]
  {
    hide Cmp;
    var j :| 0 <= j < |t| && t[j] == n;
    CmpEqual(n, n);
    if j > i { CmpFlip(n, t[i + 1]); }
  }

  // Where the walk starts: at the object it stopped at, or at the first one after that name.
  lemma CoveredResume(trace: seq<Line>, tables: seq<seq<string>>, parts: nat, at: Line, t: seq<string>, i: nat)
    requires Covered(trace, tables, parts, at) && Table(t) && i <= |t|
    requires forall j :: 0 <= j < i ==> Cmp(t[j], at.name) < 0 || (t[j] == at.name && at.part > parts)
    requires i < |t| ==> Cmp(at.name, t[i]) < 0
    ensures i < |t| ==> Covered(trace, tables + [t], parts, Line(t[i], 1))
    ensures i == |t| ==> AllDone(trace, tables + [t], parts)
  {
    hide Cmp, Has;
    forall n | InAll(n, tables + [t]) && (i < |t| ==> Cmp(n, t[i]) < 0) ensures Has(trace, n, parts) {
      ResumeAt(trace, tables, parts, at, t, i, n);
    }
    if i < |t| {
      CmpEqual(t[i], t[i]);
      assert forall n :: InAll(n, tables + [t]) && n == t[i] ==> Has(trace, n, 0) by { HasNone(trace, t[i]); }
    }
  }

  lemma HasNone(trace: seq<Line>, n: string)
    ensures Has(trace, n, 0)
  {
  }

  lemma ResumeAt(trace: seq<Line>, tables: seq<seq<string>>, parts: nat, at: Line, t: seq<string>, i: nat, n: string)
    requires Covered(trace, tables, parts, at) && Table(t) && i <= |t|
    requires forall j :: 0 <= j < i ==> Cmp(t[j], at.name) < 0 || (t[j] == at.name && at.part > parts)
    requires InAll(n, tables + [t]) && (i < |t| ==> Cmp(n, t[i]) < 0)
    ensures Has(trace, n, parts)
  {
    hide Cmp;
    InAllFewer(n, tables, t);
    assert (tables + [t])[|tables|] == t;
    var j :| 0 <= j < |t| && t[j] == n;
    CmpEqual(n, n);
    if i < |t| { CmpFlip(n, t[i]); }
    assert j < i;
  }

  lemma InAllFewer(n: string, tables: seq<seq<string>>, t: seq<string>)
    requires InAll(n, tables + [t])
    ensures InAll(n, tables)
  {
    forall i | 0 <= i < |tables| ensures n in tables[i] { assert (tables + [t])[i] == tables[i]; }
  }

  class Dump {
    const parts: nat
    var current: string    // statedump_current
    var substate: nat      // command_substate
    var trace: seq<Line>   // what has been offered to ctl_write
    ghost var tables: seq<seq<string>>  // the tables met so far

    ghost predicate Valid()
      reads this
    {
      && parts > 0 && substate <= parts && (substate == 0 ==> current == "")
      && Increasing(trace) && AllEarlier(trace, Line(current, substate))
      && Covered(trace, tables, parts, Line(current, substate))
      && (forall i :: 0 <= i < |trace| ==> 1 <= trace[i].part <= parts)
    }

    // ctl_cmd_statedump
    constructor (lines: nat)
      requires lines > 0
      ensures Valid() && parts == lines && trace == [] && tables == []
    {
      parts, current, substate, trace, tables := lines, "", 0, [], [];
      new;
      forall n ensures !(Cmp(n, "") < 0) { }
    }

    // fd_by_name / svc_by_name, or the first name after `name` (fd_iter_next / svc_iter_next).
    static method Seek(t: seq<string>, name: string) returns (found: bool, i: nat)
      requires Table(t)
      ensures i <= |t| && (found ==> i < |t| && t[i] == name)
      ensures forall j :: 0 <= j < i ==> Cmp(t[j], name) < 0
      ensures !found ==> (i < |t| ==> Cmp(name, t[i]) < 0) && name !in t
    {
      hide Cmp;
      i := 0;
      while i < |t|
        invariant i <= |t| && forall j :: 0 <= j < i ==> Cmp(t[j], name) < 0
      {
        var c := Compare(name, t[i]);
        CmpFlip(t[i], name);
        CmpEqual(name, t[i]);
        if c <= 0 {
          if c == 0 {
            return true, i;
          }
          AbsentBelow(t, name, i);
          return false, i;
        }
        i := i + 1;
      }
      AbsentBelow(t, name, i);
      return false, i;
    }

    /** One activation of ctl_state_dump_fds or ctl_state_dump_services on the table `t`.
        `ready` answers ctl_out_buf_ready.  Each line is offered on a yes, in turn, and the walk
        stops at the first no, or when all is done. */
    method Activate(t: seq<string>, ready: nat -> bool, asked0: nat) returns (done: bool, asked: nat)
      requires Valid() && Table(t)
      modifies this
      ensures tables == old(tables) + [t] && old(trace) <= trace
      ensures !done ==> Valid()
      ensures done ==> current == "" && substate == 0
      ensures done ==> Increasing(trace) && AllDone(trace, tables, parts)
      ensures forall i :: 0 <= i < |trace| ==> 1 <= trace[i].part <= parts
      ensures forall i :: |old(trace)| <= i < |trace| ==> trace[i].name in t
      ensures asked == asked0 + (|trace| - |old(trace)|) + if done then 0 else 1
      ensures forall k: nat :: asked0 <= k < asked ==> (ready(k) <==> done || k < asked - 1)
    {
      hide Cmp, Covered, AllDone, Increasing, AllEarlier;
      asked := asked0;
      ghost var was := substate;
      var found, i := Seek(t, current);
      if !found {
        substate := 0;
      }
      var part := if substate == 0 then 1 else substate;
      Resume(t, found, i, part, was);
      tables := tables + [t];
      while i < |t|
        invariant i <= |t| && 1 <= part <= parts && tables == old(tables) + [t]
        invariant Increasing(trace) && old(trace) <= trace
        invariant i < |t| ==> AllEarlier(trace, Line(t[i], part)) && Covered(trace, tables, parts, Line(t[i], part))
        invariant i == |t| ==> AllDone(trace, tables, parts)
        invariant forall k :: 0 <= k < |trace| ==> 1 <= trace[k].part <= parts
        invariant forall k :: |old(trace)| <= k < |trace| ==> trace[k].name in t
        invariant asked == asked0 + (|trace| - |old(trace)|)
        invariant forall k: nat :: asked0 <= k < asked ==> ready(k)
        decreases |t| - i, parts - part
      {
        var ok := ready(asked);
        asked := asked + 1;
        if !ok {
          substate := part;
          current := t[i];
          return false, asked;
        }
        OfferStep(trace, Line(t[i], part));
        CoveredStep(trace, tables, parts, Line(t[i], part));
        trace := trace + [Line(t[i], part)];
        if part < parts {
          part := part + 1;
        } else {
          CoveredNext(trace, tables, parts, i);
          if i + 1 < |t| {
            EarlierTransitive(trace, Line(t[i], part + 1), Line(t[i + 1], 1));
          }
          i, part := i + 1, 1;
        }
      }
      current := "";
      substate := 0;
      return true, asked;
    }

    lemma Resume(t: seq<string>, found: bool, i: nat, part: nat, was: nat)
      requires Table(t) && i <= |t| && parts > 0
      requires AllEarlier(trace, Line(current, was)) && Covered(trace, tables, parts, Line(current, was))
      requires found ==> i < |t| && t[i] == current && part == was > 0
      requires !found ==> (i < |t| ==> Cmp(current, t[i]) < 0) && current !in t && part == 1
      requires forall j :: 0 <= j < i ==> Cmp(t[j], current) < 0
      ensures i < |t| ==> AllEarlier(trace, Line(t[i], part)) && Covered(trace, tables + [t], parts, Line(t[i], part))
      ensures i == |t| ==> AllDone(trace, tables + [t], parts)
    {
      if found {
        forall n | InAll(n, tables + [t]) ensures InAll(n, tables) { InAllFewer(n, tables, t); }
      } else {
        CoveredResume(trace, tables, parts, Line(current, was), t, i);
        if i < |t| { EarlierTransitive(trace, Line(current, was), Line(t[i], 1)); }
      }
    }
  }

  lemma AbsentBelow(t: seq<string>, name: string, i: nat)
    requires Table(t) && i <= |t| && (forall j :: 0 <= j < i ==> Cmp(t[j], name) < 0)
    requires (i < |t| ==> Cmp(name, t[i]) < 0)
    ensures name !in t
  {
    CmpTotalOrder();
    CmpEqual(name, name);
  }

  // ---------------------------------------------------------------- whole runs

  // The parts offered for one name, in order.
  function PartsOf(trace: seq<Line>, name: string): seq<nat> {
    if trace == [] then []
    else PartsOf(trace[..|trace| - 1], name) + if trace[|trace| - 1].name == name then [trace[|trace| - 1].part] else []
  }

  ghost predicate StrictlyUp(s: seq<nat>) {
    forall i, j :: 0 <= i < j < |s| ==> s[i] < s[j]
  }

  lemma {:induction false} PartsFacts(trace: seq<Line>, name: string)
    requires Increasing(trace)
    ensures StrictlyUp(PartsOf(trace, name))
    ensures forall p: nat :: p in PartsOf(trace, name) <==> Line(name, p) in trace
  {
    if trace != [] {
      var n := |trace| - 1;
      var prev, last := trace[..n], trace[n];
      PartsFacts(prev, name);
      assert trace == prev + [last];
      hide Cmp;
      CmpEqual(name, name);
      if last.name == name {
        forall p: nat | p in PartsOf(prev, name) ensures p < last.part {
          assert Line(name, p) in prev;
          var i :| 0 <= i < n && trace[i] == Line(name, p);
          assert Earlier(trace[i], trace[n]);
        }
        StepUp(PartsOf(prev, name), last.part);
      }
    }
  }

  lemma StepUp(s: seq<nat>, k: nat)
    requires StrictlyUp(s) && forall p: nat :: p in s ==> p < k
    ensures StrictlyUp(s + [k])
  {
    assert forall i :: 0 <= i < |s| ==> s[i] in s;
  }

  lemma {:induction false} UpTo(s: seq<nat>, k: nat)
    requires StrictlyUp(s)
    requires forall p: nat :: p in s <==> 1 <= p <= k
    ensures s == seq(k, i => i + 1)
    decreases k
  {
    if k == 0 {
      if s != [] { SomeMember(s); }
    } else {
      assert k in s;
      var n := |s| - 1;
      assert s == s[..n] + [s[n]];
      LastIsLargest(s, s[..n], s[n], k);
      UpTo(s[..n], k - 1);
    }
  }

  lemma SomeMember(s: seq<nat>)
    requires s != []
    ensures exists p: nat :: p in s
  {
    assert s[0] in s;
  }

  lemma LastIsLargest(s: seq<nat>, prev: seq<nat>, x: nat, k: nat)
    requires StrictlyUp(s) && k > 0 && s == prev + [x]
    requires forall p: nat :: p in s <==> 1 <= p <= k
    ensures x == k && StrictlyUp(prev)
    ensures forall p: nat :: p in prev <==> 1 <= p <= k - 1
  {
    assert k in s && s[|prev|] == x && x in s;
    assert forall i :: 0 <= i < |prev| ==> prev[i] == s[i];
    forall p: nat
      ensures p in prev <==> p in s && p != x
    {
      if p in s && p != x {
        var i :| 0 <= i < |s| && s[i] == p;
        assert prev[i] == p;
      }
    }
  }

  // Only objects that were there are offered.
  ghost predicate Existing(trace: seq<Line>, tables: seq<seq<string>>) {
    forall i :: 0 <= i < |trace| ==> InSome(trace[i].name, tables)
  }

  ghost predicate InSome(n: string, tables: seq<seq<string>>) {
    exists k :: 0 <= k < |tables| && n in tables[k]
  }

  lemma ExistingStep(was: seq<Line>, trace: seq<Line>, tables: seq<seq<string>>, t: seq<string>)
    requires Existing(was, tables) && |was| <= |trace| && trace[..|was|] == was
    requires forall i :: |was| <= i < |trace| ==> trace[i].name in t
    ensures Existing(trace, tables + [t])
  {
    forall i | 0 <= i < |trace|
      ensures InSome(trace[i].name, tables + [t])
    {
      if i < |was| {
        assert trace[i] == was[i];
        var k :| 0 <= k < |tables| && was[i].name in tables[k];
        assert (tables + [t])[k] == tables[k];
      } else {
        assert (tables + [t])[|tables|] == t;
      }
    }
  }

  // How many of the first n answers are yes.
  function Yeses(ready: nat -> bool, n: nat): nat {
    if n == 0 then 0 else Yeses(ready, n - 1) + if ready(n - 1) then 1 else 0
  }

  lemma {:induction false} AllYes(ready: nat -> bool, from: nat, to: nat)
    requires from <= to && forall k: nat :: from <= k < to ==> ready(k)
    ensures Yeses(ready, to) == Yeses(ready, from) + (to - from)
  {
    if from < to {
      AllYes(ready, from, to - 1);
    }
  }

  // One activation, as its answers: yes for each line, then no unless it is done.
  lemma Answered(ready: nat -> bool, from: nat, to: nat, done: bool)
    requires from <= to && (done || from < to)
    requires forall k: nat :: from <= k < to ==> (ready(k) <==> done || k < to - 1)
    ensures Yeses(ready, to) == Yeses(ready, from) + (to - from) - if done then 0 else 1
  {
    AllYes(ready, from, if done then to else to - 1);
  }

  /** A whole dump, interrupted whenever `ready` says no, with table number i in place at
      activation i.  Names come in increasing order, and every object that is in all the
      tables has exactly its parts 1, 2, ..., offered once each and in that order.  There are
      as many lines as yeses, and each no ends one activation. */
  method Run(lines: nat, tables: seq<seq<string>>, ready: nat -> bool)
    returns (trace: seq<Line>, used: nat, done: bool, asked: nat)
    requires lines > 0 && forall i :: 0 <= i < |tables| ==> Table(tables[i])
    ensures Increasing(trace) && used <= |tables| && (!done ==> used == |tables|)
    ensures done ==> forall n :: InAll(n, tables[..used]) ==> PartsOf(trace, n) == seq(lines, i => i + 1)
    ensures Existing(trace, tables[..used])
    ensures |trace| == Yeses(ready, asked) && asked == |trace| + used - if done then 1 else 0
    ensures |tables| > 0 && (forall k: nat :: ready(k)) ==> done && used == 1
  {
    hide Cmp, Covered, AllDone;
    var d := new Dump(lines);
    used, done := 0, false;
    asked := 0;
    while used < |tables| && !done
      invariant used <= |tables| && fresh(d) && d.parts == lines && d.tables == tables[..used] && Increasing(d.trace)
      invariant !done ==> d.Valid()
      invariant done ==> AllDone(d.trace, d.tables, lines)
      invariant forall i :: 0 <= i < |d.trace| ==> 1 <= d.trace[i].part <= lines
      invariant Existing(d.trace, tables[..used])
      invariant |d.trace| == Yeses(ready, asked) && asked == |d.trace| + used - if done then 1 else 0
      invariant (forall k: nat :: ready(k)) ==> (if used == 0 then !done else done && used == 1)
      decreases |tables| - used, !done
    {
      ghost var was, before := d.trace, asked;
      done, asked := d.Activate(tables[used], ready, asked);
      Answered(ready, before, asked, done);
      assert tables[..used + 1] == tables[..used] + [tables[used]];
      ExistingStep(was, d.trace, tables[..used], tables[used]);
      used := used + 1;
    }
    trace := d.trace;
    if done {
      forall n | InAll(n, tables[..used]) ensures PartsOf(trace, n) == seq(lines, i => i + 1) {
        OfferedOnce(trace, tables[..used], lines, n);
      }
    }
  }

  lemma OfferedOnce(trace: seq<Line>, tables: seq<seq<string>>, parts: nat, n: string)
    requires Increasing(trace) && AllDone(trace, tables, parts) && InAll(n, tables)
    requires forall i :: 0 <= i < |trace| ==> 1 <= trace[i].part <= parts
    ensures PartsOf(trace, n) == seq(parts, i => i + 1)
  {
    PartsFacts(trace, n);
    assert Has(trace, n, parts);
    forall p: nat ensures p in PartsOf(trace, n) <==> 1 <= p <= parts {
      if Line(n, p) in trace {
        var i :| 0 <= i < |trace| && trace[i] == Line(n, p);
      }
    }
    UpTo(PartsOf(trace, n), parts);
  }
}
