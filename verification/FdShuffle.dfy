/** How a forked child moves its descriptors into place before exec
    (svc_do_exec in src/service.c): a parallel move over the descriptor table
    that uses nothing but dup, dup2 and close.
  */
module FdShuffle {
  import opened Common

  const FD_SETSIZE: nat := 1024

  // An open file description, as the kernel knows it.
  type File = int

  // dup() returns the lowest number not in use (POSIX.1).
  ghost predicate LowestUnused(fds: map<int, File>, r: int) {
    0 <= r && r !in fds && forall k :: 0 <= k < r ==> k in fds
  }

  // The numbers below n that are still unused.
  ghost function Unused(fds: map<int, File>, n: nat): set<int> {
    set k | 0 <= k < n && k !in fds
  }

  // An entry that is in the way: its number is also the number of a slot.
  predicate Low(e: int, n: nat) { 0 <= e < n }

  // How many numbers from n up to k are unused at first.
  function Rank(table: map<int, File>, n: nat, k: int): nat
    decreases k - n
  {
    if k <= n then 0 else Rank(table, n, k - 1) + if k - 1 in table then 0 else 1
  }

  // The files that the low entries are copied from, in order.  Once the first one has been
  // moved all low numbers are in use, those unused before by copies of its file.
  function LowFiles(table: map<int, File>, entries: seq<int>, n: nat): seq<File> {
    if entries == [] then [] else
      var prev, e := LowFiles(table, entries[..|entries| - 1], n), entries[|entries| - 1];
      if !Low(e, n) then prev
      else prev + [if e in table then table[e] else if prev != [] then prev[0] else 0]
  }

  // The table once as many low entries were moved as `files` lists.
  ghost predicate Filled(fds: map<int, File>, table: map<int, File>, n: nat, files: seq<File>) {
    if files == [] then fds == table else
      && (forall k :: 0 <= k < n ==> k in fds && fds[k] == if k in table then table[k] else files[0])
      && (forall k :: k >= n ==> (k in fds <==> k in table || Rank(table, n, k) < |files|))
      && (forall k :: k >= n && k in fds ==> fds[k] == if k in table then table[k] else files[Rank(table, n, k)])
  }

  // While the first low entry is moved: only copies of its file are new, all of them low.
  ghost predicate Filling(fds: map<int, File>, table: map<int, File>, n: nat, file: File) {
    && (forall k :: k in table ==> k in fds && fds[k] == table[k])
    && (forall k :: k in fds ==> k in table || (0 <= k < n && fds[k] == file))
  }

  lemma {:induction false} RankSkips(table: map<int, File>, n: nat, k: int, c: nat) returns (m: int)
    requires k > n && Rank(table, n, k) > c
    ensures n <= m < k && m !in table && Rank(table, n, m) == c
    decreases k - n
  {
    if Rank(table, n, k - 1) > c {
      m := RankSkips(table, n, k - 1, c);
    } else {
      m := k - 1;
    }
  }

  lemma RankNat(table: map<int, File>, n: nat, k: int)
    ensures k <= n ==> Rank(table, n, k) == 0
  {
  }

  lemma {:induction false} RankGrows(table: map<int, File>, n: nat, k: int, m: int)
    requires n <= k <= m
    ensures Rank(table, n, k) <= Rank(table, n, m)
    ensures k < m && k !in table ==> Rank(table, n, k) < Rank(table, n, m)
    decreases m - k
  {
    if k < m { RankGrows(table, n, k, m - 1); }
  }

  // The number dup() picks when all low ones are in use is the next unused one.
  lemma NextUnused(fds: map<int, File>, table: map<int, File>, n: nat, files: seq<File>, r: int)
    requires files != [] && Filled(fds, table, n, files) && LowestUnused(fds, r)
    ensures r >= n && r !in table && Rank(table, n, r) == |files|
  {
    hide Rank;
    RankNat(table, n, r);
    if Rank(table, n, r) > |files| {
      var m := RankSkips(table, n, r, |files|);
      assert false;
    }
  }

  lemma FilledMore(fds: map<int, File>, table: map<int, File>, n: nat, files: seq<File>, r: int, file: File)
    requires files != [] && Filled(fds, table, n, files) && LowestUnused(fds, r)
    ensures Filled(fds[r := file], table, n, files + [file])
  {
    hide Rank;
    NextUnused(fds, table, n, files, r);
    forall k | k >= n
      ensures k < r ==> Rank(table, n, k) <= |files| && (k !in table ==> Rank(table, n, k) < |files|)
      ensures k > r ==> Rank(table, n, k) > |files|
    {
      if k > r {
        RankGrows(table, n, r, k);
      } else if k < r {
        RankGrows(table, n, k, r);
      }
    }
  }

  lemma FilledFirst(fds: map<int, File>, table: map<int, File>, n: nat, file: File, r: int)
    requires Filling(fds, table, n, file) && LowestUnused(fds, r) && r >= n
    ensures r !in table && Rank(table, n, r) == 0 && Filled(fds[r := file], table, n, [file])
  {
    hide Rank;
    RankNat(table, n, r);
    if Rank(table, n, r) > 0 {
      var m := RankSkips(table, n, r, 0);
      assert false;
    }
    forall k | k >= n
      ensures k in fds[r := file] <==> k in table || Rank(table, n, k) < 1
      ensures k in fds[r := file] && k !in table ==> Rank(table, n, k) == 0 && fds[r := file][k] == file
    {
      if k > r {
        RankGrows(table, n, r, k);
      } else if k < r {
        RankGrows(table, n, k, r);
      }
    }
  }

  class Child {
    var fds: map<int, File>

    constructor (table: map<int, File>)
      ensures fds == table
    {
      fds := table;
    }

    // It fails on a closed descriptor, and possibly for other reasons.
    method Dup(fd: int, mayFail: bool) returns (r: int)
      modifies this
      ensures r < 0 ==> fds == old(fds) && (mayFail || fd !in fds)
      ensures r >= 0 ==> fd in old(fds) && LowestUnused(old(fds), r) && fds == old(fds)[r := old(fds)[fd]]
    {
      var fails: bool := *;
      if fd !in fds || (mayFail && fails) {
        return -1;
      }
      r := 0;
      ghost var left := fds.Keys;
      while r in fds
        invariant 0 <= r && (forall k :: 0 <= k < r ==> k in fds)
        invariant forall k :: k in fds && k >= r ==> k in left
        decreases left
      {
        left := left - {r};
        r := r + 1;
      }
      fds := fds[r := fds[fd]];
    }

    method Dup2(fd: int, to: int, mayFail: bool) returns (r: int)
      requires to >= 0
      modifies this
      ensures r < 0 ==> fds == old(fds) && (mayFail || fd !in fds)
      ensures r >= 0 ==> fd in old(fds) && fds == old(fds)[to := old(fds)[fd]]
    {
      var fails: bool := *;
      if fd !in fds || (mayFail && fails) {
        return -1;
      }
      fds := fds[to := fds[fd]];
      return to;
    }

    method Close(fd: int)
      modifies this
      ensures fds == old(fds) - {fd}
    {
      fds := fds - {fd};
    }

    // The inner loop of the first one: copy entry e until its number is out of the way.
    method MoveOne(e: int, n: nat, mayFail: bool, ghost table: map<int, File>, ghost files: seq<File>)
      returns (r: Option<int>)
      requires Filled(fds, table, n, files)
      modifies this
      ensures r.Some? && !Low(e, n) ==> r.value == e && fds == old(fds)
      ensures r.Some? && Low(e, n) ==> files != [] || e in table
      ensures r.Some? && Low(e, n) ==> r.value >= n && r.value !in table && Rank(table, n, r.value) == |files|
      ensures r.Some? && Low(e, n) ==> Filled(fds, table, n, files + [if e in table then table[e] else files[0]])
      ensures !mayFail && (!Low(e, n) || files != [] || e in table) ==> r.Some?
    {
      ghost var file := if e in table then table[e] else if files != [] then files[0] else 0;
      var at := e;
      while 0 <= at < n
        invariant Low(e, n) && Low(at, n) && files != [] ==> at == e && fds == old(fds)
        invariant Low(e, n) && Low(at, n) && files == [] ==>
          Filling(fds, table, n, file) && ((at == e && fds == table) || (at in fds && fds[at] == file && e in table))
        invariant Low(e, n) && !Low(at, n) ==> files != [] || e in table
        invariant Low(e, n) && !Low(at, n) ==>
          at >= n && at !in table && Rank(table, n, at) == |files| && Filled(fds, table, n, files + [file])
        invariant !Low(e, n) ==> at == e && fds == old(fds)
        decreases Unused(fds, n), 0 <= at < n
      {
        ghost var before := fds;
        at := Dup(at, mayFail);
        if at < 0 {
          return None;
        }
        UsesOne(before, fds, at, n);
        if files != [] {
          NextUnused(before, table, n, files, at);
          FilledMore(before, table, n, files, at, file);
        } else if at >= n {
          FilledFirst(before, table, n, file, at);
        }
      }
      return Some(at);
    }

    // First loop: copy every source below fd_count out of the way.
    method MoveUp(list: array<int>, mayFail: bool) returns (ok: bool)
      modifies this, list
      ensures ok ==> FirstLowOpen(old(fds), old(list[..]))
      ensures !mayFail && FirstLowOpen(old(fds), old(list[..])) ==> ok
      ensures ok ==> Filled(fds, old(fds), list.Length, LowFiles(old(fds), old(list[..]), list.Length))
      ensures ok ==> forall j :: 0 <= j < list.Length ==> Moved(old(fds), old(list[..]), j, list[j])
    {
      var n := list.Length;
      var i := 0;
      ghost var table, want := fds, list[..];
      assert want[..0] == [];
      while i < n
        invariant 0 <= i <= n && list.Length == n
        invariant forall j :: i <= j < n ==> list[j] == want[j]
        invariant Filled(fds, table, n, LowFiles(table, want[..i], n))
        invariant LowFiles(table, want[..i], n) == [] <==> NoneLow(want, i)
        invariant LowFiles(table, want[..i], n) != [] ==> FirstLowOpen(table, want)
        invariant forall j :: 0 <= j < i ==> Moved(table, want, j, list[j])
      {
        LowFilesStep(table, want, i, n);
        var r := MoveOne(list[i], n, mayFail, table, LowFiles(table, want[..i], n));
        if r.None? {
          assert !mayFail ==> !FirstLowOpen(table, want);
          return false;
        }
        list[i] := r.value;
        i := i + 1;
      }
      assert want[..n] == want;
      return true;
    }

    // Second loop: dup2 each source into its slot, or close the slot.
    method Place(list: array<int>, mayFail: bool) returns (ok: bool)
      requires forall j :: 0 <= j < list.Length ==> list[j] < 0 || list[j] >= list.Length
      modifies this
      ensures ok ==> forall j :: 0 <= j < list.Length ==>
        if list[j] < 0 then j !in fds else j in fds && list[j] in old(fds) && fds[j] == old(fds)[list[j]]
      ensures !mayFail && (forall j :: 0 <= j < list.Length ==> list[j] < 0 || list[j] in old(fds)) ==> ok
    {
      var n := list.Length;
      var i := 0;
      ghost var before := fds;
      while i < n
        invariant 0 <= i <= n
        invariant forall k :: k >= n ==> (k in fds <==> k in before) && (k in fds ==> fds[k] == before[k])
        invariant forall j :: 0 <= j < i ==>
          if list[j] < 0 then j !in fds else j in fds && list[j] in before && fds[j] == before[list[j]]
      {
        if list[i] >= 0 {
          var r := Dup2(list[i], i, mayFail);
          if r < 0 {
            return false;
          }
        } else {
          Close(i);
        }
        i := i + 1;
      }
      return true;
    }

    // Third loop: close every other descriptor.
    method CloseRest(n: nat)
      modifies this
      ensures forall k :: n <= k < FD_SETSIZE ==> k !in fds
      ensures forall k :: k < n || k >= FD_SETSIZE ==>
        (k in fds <==> k in old(fds)) && (k in fds ==> fds[k] == old(fds)[k])
    {
      var i := n;
      while i < FD_SETSIZE
        invariant n <= i && (i <= FD_SETSIZE || i == n)
        invariant forall k :: n <= k < i ==> k !in fds
        invariant forall k :: k < n || k >= i ==> (k in fds <==> k in old(fds)) && (k in fds ==> fds[k] == old(fds)[k])
      {
        Close(i);
        i := i + 1;
      }
    }
  }

  // The first low entry, if there is one, names an open descriptor.
  ghost predicate FirstLowOpen(table: map<int, File>, entries: seq<int>) {
    forall i :: 0 <= i < |entries| && Low(entries[i], |entries|) && NoneLow(entries, i) ==> entries[i] in table
  }

  ghost predicate NoneLow(entries: seq<int>, i: nat)
    requires i <= |entries|
  {
    forall j :: 0 <= j < i ==> !Low(entries[j], |entries|)
  }

  // Where the first loop leaves entry j.
  ghost predicate Moved(table: map<int, File>, entries: seq<int>, j: nat, at: int)
    requires j < |entries|
  {
    var n := |entries|;
    if Low(entries[j], n) then at >= n && at !in table && Rank(table, n, at) == |LowFiles(table, entries[..j], n)|
    else at == entries[j]
  }

  lemma LowFilesStep(table: map<int, File>, entries: seq<int>, i: nat, n: nat)
    requires i < |entries|
    ensures LowFiles(table, entries[..i + 1], n) ==
      var prev, e := LowFiles(table, entries[..i], n), entries[i];
      if !Low(e, n) then prev else prev + [if e in table then table[e] else if prev != [] then prev[0] else 0]
  {
    assert entries[..i + 1][..i] == entries[..i];
  }

  // ---------------------------------------------------------------- the three loops together

  ghost function Gaps(table: map<int, File>, n: nat, e: int): set<int> {
    set k | n <= k < e && k !in table
  }

  ghost function LowPlaces(entries: seq<int>, n: nat): set<int> {
    set i | 0 <= i < |entries| && Low(entries[i], n)
  }

  /** When the shuffle goes through: the first low entry is open, and each high entry is
      open or one of the numbers that the copies of the low entries will take. */
  ghost predicate Passes(table: map<int, File>, entries: seq<int>) {
    && FirstLowOpen(table, entries)
    && forall i :: 0 <= i < |entries| && entries[i] >= |entries| ==>
      entries[i] in table || |Gaps(table, |entries|, entries[i])| < |LowPlaces(entries, |entries|)|
  }

  lemma {:induction false} RankIsCount(table: map<int, File>, n: nat, e: int)
    ensures Rank(table, n, e) == |Gaps(table, n, e)|
    decreases e - n
  {
    if e <= n {
      assert Gaps(table, n, e) == {};
    } else {
      RankIsCount(table, n, e - 1);
      GapsStep(table, n, e);
    }
  }

  lemma GapsStep(table: map<int, File>, n: nat, e: int)
    requires e > n
    ensures |Gaps(table, n, e)| == |Gaps(table, n, e - 1)| + if e - 1 in table then 0 else 1
  {
    if e - 1 in table {
      assert Gaps(table, n, e) == Gaps(table, n, e - 1);
    } else {
      assert Gaps(table, n, e) == Gaps(table, n, e - 1) + {e - 1};
    }
  }

  lemma {:induction false} LowFilesCount(table: map<int, File>, entries: seq<int>, n: nat)
    ensures |LowFiles(table, entries, n)| == |LowPlaces(entries, n)|
  {
    if entries == [] {
      assert LowPlaces(entries, n) == {};
    } else {
      var last := |entries| - 1;
      LowFilesCount(table, entries[..last], n);
      assert LowPlaces(entries, n) == LowPlaces(entries[..last], n) + if Low(entries[last], n) then {last} else {};
    }
  }

  // Entry i, if low, is where its turn among the low entries says.
  lemma {:induction false} LowFilesAt(table: map<int, File>, entries: seq<int>, i: nat, m: nat, n: nat)
    requires i < m <= |entries| && Low(entries[i], n)
    ensures var files, turn := LowFiles(table, entries[..m], n), |LowFiles(table, entries[..i], n)|;
      && turn < |files|
      && files[turn] == if entries[i] in table then table[entries[i]] else if turn > 0 then files[0] else 0
    decreases m
  {
    LowFilesStep(table, entries, m - 1, n);
    if m - 1 > i {
      LowFilesAt(table, entries, i, m - 1, n);
    } else if LowFiles(table, entries[..i], n) != [] {
      assert LowFiles(table, entries[..m], n)[0] == LowFiles(table, entries[..i], n)[0];
    }
  }

  // The file that slot i ends up with: its own if entry i names an open descriptor, else a low entry's.
  function Received(table: map<int, File>, entries: seq<int>, i: nat): Option<File>
    requires i < |entries|
  {
    var n, e := |entries|, entries[i];
    var files := LowFiles(table, entries, n);
    if e < 0 then None
    else if e in table then Some(table[e])
    else if e < n then if files != [] then Some(files[0]) else None
    else if Rank(table, n, e) < |files| then Some(files[Rank(table, n, e)])
    else None
  }

  function Slot(fds: map<int, File>, i: int): Option<File> {
    if i in fds then Some(fds[i]) else None
  }

  // The source that entry i was moved to holds what slot i is to receive, if anything.
  lemma SourceHolds(table: map<int, File>, entries: seq<int>, fds: map<int, File>, i: nat, at: int)
    requires i < |entries| && FirstLowOpen(table, entries) && Moved(table, entries, i, at)
    requires Filled(fds, table, |entries|, LowFiles(table, entries, |entries|))
    ensures at < 0 <==> entries[i] < 0
    ensures at >= 0 ==> Slot(fds, at) == Received(table, entries, i)
    ensures Low(entries[i], |entries|) ==> at in fds
  {
    var n := |entries|;
    assert entries[..n] == entries;
    if Low(entries[i], n) {
      LowFilesAt(table, entries, i, n, n);
      if LowFiles(table, entries[..i], n) == [] {
        NoneLowYet(table, entries, i);
      }
    }
  }

  lemma {:induction false} NoneLowYet(table: map<int, File>, entries: seq<int>, i: nat)
    requires i <= |entries| && LowFiles(table, entries[..i], |entries|) == []
    ensures NoneLow(entries, i)
  {
    if i > 0 {
      LowFilesStep(table, entries, i - 1, |entries|);
      NoneLowYet(table, entries, i - 1);
    }
  }

  // Every source is there exactly if the shuffle can pass.
  lemma SourcesOpen(table: map<int, File>, entries: seq<int>, fds: map<int, File>, list: seq<int>)
    requires FirstLowOpen(table, entries) && |list| == |entries|
    requires Filled(fds, table, |entries|, LowFiles(table, entries, |entries|))
    requires forall j :: 0 <= j < |list| ==> Moved(table, entries, j, list[j])
    ensures (forall j :: 0 <= j < |list| ==> list[j] < 0 || list[j] in fds) <==> Passes(table, entries)
    ensures forall j :: 0 <= j < |list| ==> list[j] < 0 || list[j] >= |list|
    ensures forall j :: 0 <= j < |list| && list[j] >= 0 ==> Slot(fds, list[j]) == Received(table, entries, j)
    ensures forall j :: 0 <= j < |list| ==> (list[j] < 0 <==> entries[j] < 0)
  {
    var n := |entries|;
    LowFilesCount(table, entries, n);
    forall j | 0 <= j < n
      ensures list[j] < 0 || list[j] >= n
      ensures list[j] >= 0 ==> Slot(fds, list[j]) == Received(table, entries, j)
      ensures list[j] < 0 <==> entries[j] < 0
      ensures Low(entries[j], n) ==> list[j] in fds
      ensures entries[j] >= n ==> list[j] == entries[j]
      ensures entries[j] >= n ==>
        (list[j] in fds <==> entries[j] in table || |Gaps(table, n, entries[j])| < |LowPlaces(entries, n)|)
    {
      SourceHolds(table, entries, fds, j, list[j]);
      RankIsCount(table, n, entries[j]);
    }
  }

  /** The whole shuffle.  It goes through exactly when Passes says so, unless a call fails for
      other reasons.  Then slot i holds the file that entry i named before anything was moved,
      slots of closed entries are closed, and so is every other descriptor below FD_SETSIZE;
      the same source may be named any number of times. */
  method Shuffle(table: map<int, File>, entries: seq<int>, mayFail: bool) returns (ok: bool, after: map<int, File>)
    ensures ok ==> Passes(table, entries)
    ensures !mayFail && Passes(table, entries) ==> ok
    ensures ok ==> forall i :: 0 <= i < |entries| ==> Slot(after, i) == Received(table, entries, i)
    ensures ok ==> forall i :: 0 <= i < |entries| && entries[i] >= 0 && entries[i] in table ==>
      Slot(after, i) == Some(table[entries[i]])
    ensures ok ==> forall k :: |entries| <= k < FD_SETSIZE ==> k !in after
  {
    hide Filled, Passes, Received, Moved, FirstLowOpen;
    var child := new Child(table);
    var list := new int[|entries|](i requires 0 <= i < |entries| => entries[i]);
    assert list[..] == entries;
    OpenReceived(table, entries);
    ok := child.MoveUp(list, mayFail);
    if ok {
      SourcesOpen(table, entries, child.fds, list[..]);
      assert forall j :: 0 <= j < |entries| ==> list[..][j] == list[j];
      ghost var moved := child.fds;
      ok := child.Place(list, mayFail);
      if ok {
        forall i | 0 <= i < |entries| ensures Slot(child.fds, i) == Received(table, entries, i) {
          assert list[i] >= 0 ==> Slot(moved, list[i]) == Some(moved[list[i]]);
        }
        ghost var placed := child.fds;
        child.CloseRest(|entries|);
        assert forall i :: 0 <= i < |entries| ==> Slot(child.fds, i) == Slot(placed, i);
      }
    }
    after := child.fds;
  }

  lemma OpenReceived(table: map<int, File>, entries: seq<int>)
    ensures forall i :: 0 <= i < |entries| && entries[i] >= 0 && entries[i] in table ==>
      Received(table, entries, i) == Some(table[entries[i]])
    ensures forall i :: 0 <= i < |entries| && entries[i] < 0 ==> Received(table, entries, i) == None
    ensures Passes(table, entries) ==> FirstLowOpen(table, entries)
  {
  }

  // Closed entries that go unnoticed: number 5 is just what dup() picks for the copy of descriptor 0, so
  // slot 0 gets that file; and of two low entries only the first must be open.
  lemma StaleEntry()
    ensures var table := map[0 := 100, 1 := 101, 2 := 102, 3 := 103, 4 := 104];
      5 !in table && Passes(table, [5, 0]) && Received(table, [5, 0], 0) == Some(100)
    ensures var table := map[0 := 100];
      1 !in table && Passes(table, [0, 1]) && Received(table, [0, 1], 1) == Some(100)
  {
    var table := map[0 := 100, 1 := 101, 2 := 102, 3 := 103, 4 := 104];
    assert [5, 0][..1] == [5] && [5][..0] == [] && [0, 1][..1] == [0] && [0][..0] == [];
    assert LowFiles(table, [5], 2) == [] && LowFiles(table, [5, 0], 2) == [100];
    RankIsCount(table, 2, 5);
    LowFilesCount(table, [5, 0], 2);
    assert Low([0, 1][0], 2) && LowFiles(map[0 := 100], [0, 1], 2) == [100, 100];
    assert Rank(table, 2, 3) == 0 && Rank(table, 2, 4) == 0 && Rank(table, 2, 5) == 0;
  }

  lemma UsesOne(a: map<int, File>, b: map<int, File>, r: int, n: nat)
    requires r >= 0 && r !in a && b.Keys == a.Keys + {r}
    ensures r < n ==> Unused(b, n) < Unused(a, n)
    ensures r >= n ==> Unused(b, n) == Unused(a, n)
  {
    if r < n { assert r in Unused(a, n) && r !in Unused(b, n); }
  }
}
