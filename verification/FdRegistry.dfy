/** The registry of named descriptors in src/fd.c: the fd_list array with its live prefix
    (and, with a preallocated pool, its spare slots behind it), the name index, and the
    peer links of pipes.
  */
module FdRegistry {
  import opened Common

  type Name = string

  // fd_t; num is -1 without a descriptor, peer belongs to pipes only.
  class Fd {
    var name: Name
    var num: int
    var isPipe: bool
    var isConst: bool
    var peer: Fd?

    constructor () {
      name, num, isPipe, isConst, peer := "", -1, false, false, null;
    }
  }

  // The fields of one object, as a value.
  datatype Data = Data(name: Name, num: int, isPipe: bool, isConst: bool, peer: Fd?)

  type Table = map<Fd, Data>

  ghost predicate Distinct(q: seq<Fd?>) {
    forall i, j :: 0 <= i < j < |q| ==> q[i] != q[j]
  }

  // q lists exactly the objects of s, once each.
  ghost predicate Lists(q: seq<Fd?>, s: set<Fd>) {
    && Distinct(q)
    && (forall i :: 0 <= i < |q| ==> q[i] != null && q[i] in s)
    && (forall f :: f in s ==> f in q)
  }

  lemma ListsMore(q: seq<Fd?>, s: set<Fd>, f: Fd)
    requires Lists(q, s) && f !in s
    ensures Lists(q + [f], s + {f})
  {
  }

  // The last object takes the place of the one at i.
  lemma ListsLess(q: seq<Fd?>, s: set<Fd>, i: nat, f: Fd)
    requires Lists(q, s) && i < |q| && q[i] == f
    ensures Lists(q[i := q[|q| - 1]][..|q| - 1], s - {f})
  {
    var last := |q| - 1;
    var r := q[i := q[last]][..last];
    assert forall j :: 0 <= j < |r| ==> r[j] == if j == i then q[last] else q[j];
    forall g | g in s - {f}
      ensures g in r
    {
      var j :| 0 <= j < |q| && q[j] == g;
      assert if j == last then r[i] == g else r[j] == g;
    }
  }

  // Swapping two places of a full list keeps it full.
  lemma ListsSwap(q: seq<Fd?>, s: set<Fd>, i: nat, j: nat)
    requires Lists(q, s) && i < |q| && j < |q|
    ensures Lists(q[i := q[j]][j := q[i]], s)
  {
    var r := q[i := q[j]][j := q[i]];
    forall g | g in s
      ensures g in r
    {
      var k :| 0 <= k < |q| && q[k] == g;
      assert if k == i then r[j] == g else if k == j then r[i] == g else r[k] == g;
    }
  }

  // ---------------------------------------------------------------- tables of objects

  ghost predicate UniqueNames(t: Table) {
    forall f, g :: f in t && g in t && t[f].name == t[g].name ==> f == g
  }

  // Pipe ends point at each other and at nothing that is gone.
  ghost predicate Paired(t: Table) {
    forall f :: f in t && t[f].peer != null ==> Pair(t, f, t[f].peer)
  }

  ghost predicate Pair(t: Table, f: Fd, g: Fd)
    requires f in t
  {
    f != g && g in t && t[f].isPipe && t[g].isPipe && t[g].peer == f
  }

  ghost predicate Good(t: Table) {
    UniqueNames(t) && Paired(t)
  }

  ghost function Named(t: Table, names: set<Name>): set<Fd> {
    set f | f in t && t[f].name in names
  }

  ghost function Only(f: Fd?): set<Fd> {
    if f == null then {} else {f}
  }

  // What becomes of an object when others go: it forgets a peer among them.
  ghost function Left(d: Data, gone: set<Fd>): Data {
    if d.peer in gone then d.(peer := null) else d
  }

  // Some objects go, some come, and the rest stay as they are.
  ghost predicate Replaced(t: Table, u: Table, gone: set<Fd>, made: Table) {
    && made.Keys !! t.Keys
    && u.Keys == t.Keys - gone + made.Keys
    && (forall f :: f in made ==> u[f] == made[f])
    && (forall f :: f in t && f !in gone ==> u[f] == Left(t[f], gone))
  }

  lemma ReplacedPaired(t: Table, u: Table, gone: set<Fd>, made: Table)
    requires Paired(t) && Paired(made) && Replaced(t, u, gone, made)
    ensures Paired(u)
  {
    forall f | f in u && u[f].peer != null
      ensures Pair(u, f, u[f].peer)
    {
      if f in made {
        assert Pair(made, f, made[f].peer);
      } else {
        assert Pair(t, f, t[f].peer);
      }
    }
  }

  // More objects go, of those that were there from the start.
  lemma AlsoGone(t: Table, u: Table, v: Table, gone: set<Fd>, made: Table, more: set<Fd>)
    requires Replaced(t, u, gone, made) && Replaced(u, v, more, map[]) && more <= t.Keys
    requires forall f :: f in made ==> made[f].peer !in more
    ensures Replaced(t, v, gone + more, made)
    ensures forall f :: f in made ==> f in v && v[f] == made[f]
  {
  }

  // The same, when the objects that came are given their values afterwards.
  lemma ReplacedWith(t: Table, u: Table, v: Table, gone: set<Fd>, made: Table, given: Table)
    requires Replaced(t, u, gone, made) && given.Keys == made.Keys && v == u + given
    ensures Replaced(t, v, gone, given)
  {
  }

  // ---------------------------------------------------------------- names

  // Which object each name stands for.
  ghost function Bindings(t: Table): (m: map<Name, Fd>)
    requires UniqueNames(t)
    ensures forall f :: f in t ==> t[f].name in m && m[t[f].name] == f
    ensures forall n :: n in m ==> m[n] in t && t[m[n]].name == n
  {
    map f | f in t :: t[f].name := f
  }

  ghost predicate Stands(t: Table, m: map<Name, Fd>) {
    && (forall f :: f in t ==> t[f].name in m && m[t[f].name] == f)
    && (forall n :: n in m ==> m[n] in t && t[m[n]].name == n)
  }

  lemma BindingsAre(t: Table, m: map<Name, Fd>)
    requires Stands(t, m)
    ensures UniqueNames(t) && Bindings(t) == m
  {
    forall f, g | f in t && g in t && t[f].name == t[g].name
      ensures f == g
    {
      assert m[t[f].name] == f && m[t[g].name] == g;
    }
    hide UniqueNames, Bindings;
    forall n | n in m
      ensures n in Bindings(t)
    {
      assert t[m[n]].name == n;
    }
  }

  // Replacing the holders of some names changes the bindings of these names only.
  lemma Rebind(t: Table, u: Table, names: set<Name>, made: Table)
    requires UniqueNames(t) && Replaced(t, u, Named(t, names), made)
    requires UniqueNames(made) && forall f :: f in made ==> made[f].name in names
    ensures UniqueNames(u) && Bindings(u) == Bindings(t) - names + Bindings(made)
  {
    hide UniqueNames, Bindings;
    var m := Bindings(t) - names + Bindings(made);
    forall f | f in u
      ensures u[f].name in m && m[u[f].name] == f
    {
      assert f !in made ==> t[f].name == u[f].name && t[f].name !in names;
    }
    forall n | n in m
      ensures m[n] in u && u[m[n]].name == n
    {
      if n in Bindings(made) {
        assert made[m[n]].name == n;
      } else {
        assert t[m[n]].name == n && m[n] !in Named(t, names);
      }
    }
    BindingsAre(u, m);
  }

  // ---------------------------------------------------------------- what the names mean

  // What a name stands for, without the object: a pipe end has its peer by name.
  datatype Desc = Desc(num: int, isPipe: bool, isConst: bool, peer: Option<Name>)

  type Meaning = map<Name, Desc>

  ghost function DescOf(t: Table, f: Fd): Desc
    requires Paired(t) && f in t
  {
    assert t[f].peer != null ==> Pair(t, f, t[f].peer);
    Desc(t[f].num, t[f].isPipe, t[f].isConst, if t[f].peer == null then None else Some(t[t[f].peer].name))
  }

  ghost function MeaningOf(t: Table): (m: Meaning)
    requires Good(t)
    ensures m.Keys == Bindings(t).Keys
    ensures forall f :: f in t ==> t[f].name in m && m[t[f].name] == DescOf(t, f)
  {
    map n | n in Bindings(t) :: DescOf(t, Bindings(t)[n])
  }

  // A pipe end whose peer goes has none.
  ghost function Without(m: Meaning, names: set<Name>): Meaning {
    map n | n in m && n !in names ::
      if m[n].peer.Some? && m[n].peer.value in names then m[n].(peer := None) else m[n]
  }

  lemma Remean(t: Table, u: Table, names: set<Name>, made: Table)
    requires Good(t) && Good(made) && Replaced(t, u, Named(t, names), made)
    requires forall f :: f in made ==> made[f].name in names
    ensures Good(u) && MeaningOf(u) == Without(MeaningOf(t), names) + MeaningOf(made)
  {
    hide UniqueNames, Bindings, MeaningOf, Replaced, Paired, DescOf, Left;
    ReplacedPaired(t, u, Named(t, names), made);
    Rebind(t, u, names, made);
    var m := Without(MeaningOf(t), names) + MeaningOf(made);
    assert m.Keys == MeaningOf(u).Keys;
    forall n | n in m
      ensures m[n] == MeaningOf(u)[n]
    {
      RemeanAt(t, u, names, made, n);
    }
  }

  lemma RemeanAt(t: Table, u: Table, names: set<Name>, made: Table, n: Name)
    requires Good(t) && Good(u) && Good(made) && Replaced(t, u, Named(t, names), made)
    requires n in Bindings(u) && Bindings(u) == Bindings(t) - names + Bindings(made)
    ensures n in MeaningOf(made) ==> MeaningOf(made)[n] == MeaningOf(u)[n]
    ensures n !in MeaningOf(made) ==>
      n in Without(MeaningOf(t), names) && Without(MeaningOf(t), names)[n] == MeaningOf(u)[n]
  {
    hide UniqueNames, Bindings, MeaningOf, Paired, DescOf;
    var f := Bindings(u)[n];
    if n in Bindings(made) {
      DescMade(u, made, f);
      assert made[f].name == n;
    } else {
      DescLeft(t, u, names, made, f);
      assert t[f].name == n && u[f].name == n;
    }
  }

  lemma DescMade(u: Table, made: Table, f: Fd)
    requires Paired(u) && Paired(made) && f in made && forall g :: g in made ==> g in u && u[g] == made[g]
    ensures DescOf(u, f) == DescOf(made, f)
  {
  }

  lemma DescLeft(t: Table, u: Table, names: set<Name>, made: Table, f: Fd)
    requires Paired(t) && Paired(u) && Replaced(t, u, Named(t, names), made) && f in t && f in u
    ensures var d := DescOf(t, f);
      DescOf(u, f) == if d.peer.Some? && d.peer.value in names then d.(peer := None) else d
  {
    if t[f].peer != null {
      assert Pair(t, f, t[f].peer);
    }
  }

  // As many names as objects.
  lemma {:induction false} SizeOfBindings(t: Table)
    requires UniqueNames(t)
    ensures |Bindings(t)| == |t|
  {
    if t == map[] {
      BindingsAre(t, map[]);
    } else {
      var f :| f in t;
      var u := t - {f};
      BindingsLess(t, f, u);
      SizeOfBindings(u);
    }
  }

  lemma BindingsLess(t: Table, f: Fd, u: Table)
    requires UniqueNames(t) && f in t && u == t - {f}
    ensures UniqueNames(u) && |t| == |u| + 1 && |Bindings(t)| == |Bindings(u)| + 1
  {
    assert UniqueNames(u);
    hide Bindings;
    var b := Bindings(t) - {t[f].name};
    forall n | n in b
      ensures b[n] in u && u[b[n]].name == n
    {
      assert t[b[n]].name == n;
    }
    BindingsAre(u, b);
    OneLess(t, f);
    OneLess(Bindings(t), t[f].name);
  }

  lemma OneLess<K, V>(m: map<K, V>, k: K)
    requires k in m
    ensures |m| == |m - {k}| + 1
  {
    assert m == (m - {k})[k := m[k]];
  }

  class Registry {
    var list: array<Fd?>
    var count: nat
    var index: set<Fd>        // fd_by_name_index
    var refusals: nat         // how often memory was asked for and refused
    const pooled: bool
    const pool: set<Fd>       // the preallocated objects, if pooled

    // The live prefix of the array and the index hold the same objects; with a pool the array is a permutation of it.
    ghost predicate Slots()
      reads this, list
    {
      count <= list.Length && Lists(list[..count], index) && (pooled ==> Lists(list[..], pool))
    }

    ghost function Table(): (t: Table)
      reads this`index, index
      ensures t.Keys == index
    {
      map f | f in index :: Data(f.name, f.num, f.isPipe, f.isConst, f.peer)
    }

    ghost predicate Valid()
      reads this, list, index
    {
      Slots() && Good(Table())
    }

    // The pool has n spare objects.
    ghost predicate Room(n: nat)
      reads this`index
    {
      |index| + n <= |pool|
    }

    // Objects were made exactly if the pool had room for them, or no memory was refused without a pool.
    ghost predicate Made(made: bool, room: bool, before: nat)
      reads this`refusals
    {
      && (pooled ==> made == room)
      && refusals == before + if !pooled && !made then 1 else 0
    }

    ghost function Limit(): Option<nat> { if pooled then Some(|pool|) else None }

    ghost function Meaning(): Meaning
      requires Good(Table())
      reads this`index, index
    {
      MeaningOf(Table())
    }

    // fd_init without a pool
    constructor ()
      ensures Valid() && index == {} && !pooled && pool == {} && refusals == 0 && fresh(list)
    {
      list := new Fd?[0];
      count, index, refusals, pooled, pool := 0, {}, 0, false, {};
    }

    // fd_preallocate
    constructor Preallocate(n: nat)
      ensures Valid() && index == {} && pooled && |pool| == n && refusals == 0 && fresh(pool) && fresh(list)
    {
      var slots := new Fd?[n](_ => null);
      var made: set<Fd> := {};
      var i := 0;
      while i < n
        invariant 0 <= i <= n && fresh(made) && |made| == i && Lists(slots[..i], made)
      {
        var f := new Fd();
        ListsMore(slots[..i], made, f);
        slots[i] := f;
        assert slots[..i + 1] == slots[..i] + [f];
        made := made + {f};
        i := i + 1;
      }
      assert slots[..n] == slots[..];
      list, count, index, refusals, pooled, pool := slots, 0, {}, 0, true, made;
      new;
      assert list[..0] == [];
    }

    // fd_by_name
    method ByName(name: Name) returns (f: Fd?)
      requires UniqueNames(Table())
      ensures Named(Table(), {name}) == Only(f)
    {
      if exists g :: g in index && g.name == name {
        f :| f in index && f.name == name;
        assert f in Table() && Table()[f].name == name;
      } else {
        f := null;
      }
    }

    // malloc and realloc may fail.
    method AskMemory() returns (ok: bool)
      modifies this`refusals
      ensures refusals == old(refusals) + if ok then 0 else 1
    {
      ok := *;
      if !ok {
        refusals := refusals + 1;
      }
    }

    // fd_list_resize; the objects keep their places.
    method Resize(limit: nat) returns (r: array?<Fd?>)
      requires limit >= list.Length
      modifies this`refusals
      ensures refusals == old(refusals) + if r == null then 1 else 0
      ensures r != null ==> fresh(r) && r.Length == limit && r[..list.Length] == list[..]
    {
      var ok := AskMemory();
      if !ok {
        return null;
      }
      r := new Fd?[limit](_ => null);
      forall i | 0 <= i < list.Length {
        r[i] := list[i];
      }
    }

    // fd_new but for the fields: a slot of the pool, or new memory in an array that grows by 32
    method Allocate() returns (f: Fd?)
      requires Slots()
      modifies this`list, this`count, this`refusals, list
      ensures (list == old(list) || fresh(list)) && Made(f != null, old(count < list.Length), old(refusals))
      ensures f == null ==> Slots() && count == old(count) && (pooled ==> list == old(list))
      ensures f != null ==> f !in index && count <= list.Length && Lists(list[..count], index + {f})
      ensures f != null && pooled ==> Lists(list[..], pool)
      ensures f != null ==> (pooled ==> f in pool) && (!pooled ==> fresh(f))
    {
      if count >= list.Length {
        if pooled {
          return null;
        }
        var longer := Resize(list.Length + 32);
        if longer == null {
          return null;
        }
        assert longer[..count] == list[..count];
        list := longer;
      }
      if pooled {
        f := list[count];
        SpareIsDead(list[..], count, f);
      } else {
        var ok := AskMemory();
        if !ok {
          return null;
        }
        f := new Fd();
        list[count] := f;
      }
      ListsMore(list[..count], index, f);
      assert list[..count + 1] == list[..count] + [f];
      count := count + 1;
    }

    method Write(f: Fd, d: Data)
      requires f in index
      modifies f
      ensures Table() == old(Table())[f := d] && f.peer == d.peer
    {
      f.name, f.num, f.isPipe, f.isConst, f.peer := d.name, d.num, d.isPipe, d.isConst, d.peer;
    }

    method Enter(f: Fd, d: Data)
      requires f !in index
      modifies f, this`index
      ensures index == old(index) + {f} && Table() == old(Table())[f := d]
    {
      f.name, f.num, f.isPipe, f.isConst, f.peer := d.name, d.num, d.isPipe, d.isConst, d.peer;
      index := index + {f};
    }

    // fd_new: also indexed; its name may be taken for the moment
    method New(name: Name) returns (f: Fd?)
      requires Slots()
      modifies this`list, this`count, this`index, this`refusals, list, pool - index
      ensures Slots() && (list == old(list) || fresh(list))
      ensures Made(f != null, old(Room(1)), old(refusals))
      ensures f == null ==> Table() == old(Table())
      ensures f != null ==> f !in old(index) && index == old(index) + {f} && (f in pool || fresh(f))
      ensures f != null ==> Table() == old(Table())[f := Data(name, -1, false, false, null)]
    {
      hide Lists, Replaced, Table;
      f := Allocate();
      if f != null {
        Enter(f, Data(name, -1, false, false, null));
      }
      FitsPool(this);
    }

    method Seek(f: Fd) returns (i: nat)
      requires Slots() && f in index
      ensures i < count && list[i] == f
    {
      assert f in list[..count];
      i := 0;
      while list[i] != f
        invariant 0 <= i < count && f !in list[..i]
        decreases count - i
      {
        assert list[..i + 1] == list[..i] + [list[i]];
        i := i + 1;
      }
    }

    // The loop of fd_delete: the last live object moves into the gap, and a pool keeps the object behind it.
    method Unlist(f: Fd)
      requires Slots() && f in index
      modifies this`count, this`index, list
      ensures Slots() && index == old(index) - {f}
    {
      var i := Seek(f);
      ghost var q, whole := list[..count], list[..];
      hide Lists;
      ListsLess(q, index, i, f);
      ListsSwapIf(pooled, whole, pool, i, count - 1);
      count := count - 1;
      list[i] := list[count];
      list[count] := if pooled then f else null;
      index := index - {f};
      assert list[..count] == q[i := q[|q| - 1]][..|q| - 1];
      assert pooled ==> list[..] == whole[i := whole[|q| - 1]][|q| - 1 := whole[i]];
    }

    // fd_delete
    method Delete(f: Fd)
      requires Slots() && Paired(Table()) && f in index
      modifies this`count, this`index, list, index`peer
      ensures Slots() && index == old(index) - {f} && Replaced(old(Table()), Table(), {f}, map[])
    {
      hide Lists;
      assert f.peer != null ==> Pair(Table(), f, f.peer);
      PeersOf(Table(), f);
      if f.isPipe {
        if f.peer != null {
          f.peer.peer := null;
        }
      }
      Unlist(f);
    }

    // fd_new, then fd_delete of the object that had the name, if any
    method Install(name: Name, prior: Fd?, num: int, isConst: bool) returns (f: Fd?)
      requires Slots() && Paired(Table()) && (prior != null ==> prior in index)
      modifies this`list, this`count, this`index, this`refusals, list, pool - index, index`peer
      ensures Slots() && (list == old(list) || fresh(list))
      ensures Made(f != null, old(Room(1)), old(refusals))
      ensures f == null ==> Table() == old(Table())
      ensures f != null ==> f in pool || fresh(f)
      ensures f != null ==>
        Replaced(old(Table()), Table(), Only(prior), map[f := Data(name, num, false, isConst, null)])
    {
      hide Lists, Slots, Paired, Replaced, Table, Room, Made;
      f := New(name);
      if f != null {
        ghost var t, u, made := old(Table()), Table(), map[f := Data(name, -1, false, false, null)];
        OneMore(t, u, f, made[f]);
        NewIsPaired(t, u, f, name);
        if prior != null {
          Delete(prior);
          AlsoGone(t, u, Table(), {}, made, {prior});
          assert {} + {prior} == {prior};
        }
        ghost var v := Table();
        Write(f, Data(name, num, false, isConst, null));
        ReplacedWith(t, v, Table(), Only(prior), made, map[f := Data(name, num, false, isConst, null)]);
      }
    }

    // fd_new_file
    method NewFile(name: Name, num: int, isConst: bool) returns (f: Fd?)
      requires Valid()
      modifies this`list, this`count, this`index, this`refusals, list, pool - index, index`peer
      ensures Valid() && (list == old(list) || fresh(list))
      ensures f == null ==> Table() == old(Table())
      ensures f != null ==> !HasConstant(old(Table()), {name}) && (f in pool || fresh(f))
      ensures if HasConstant(old(Table()), {name}) then f == null && refusals == old(refusals)
              else Made(f != null, old(Room(1)), old(refusals))
      ensures f != null ==>
        Replaced(old(Table()), Table(), Named(old(Table()), {name}), map[f := Data(name, num, false, isConst, null)])
      ensures f != null ==> Bindings(Table()) == old(Bindings(Table())) - {name} + map[name := f]
    {
      hide Lists, Slots, Replaced, Bindings, UniqueNames, Paired, Room, Made;
      var prior := ByName(name);
      if prior != null && prior.isConst {
        assert prior in Named(Table(), {name});
        return null;
      }
      f := Install(name, prior, num, isConst);
      if f != null {
        FileMade(old(Table()), Table(), f, Data(name, num, false, isConst, null));
      }
    }

    // fd_new for the second end; if that fails, the first goes too
    method SecondEnd(f1: Fd, name1: Name, name2: Name, ghost t: Table) returns (f2: Fd?)
      requires Slots() && Paired(t) && f1 in index && Table() == t[f1 := Data(name1, -1, false, false, null)]
      requires f1 !in t
      modifies this`list, this`count, this`index, this`refusals, list, pool - index, index`peer
      ensures Slots() && Paired(Table()) && (list == old(list) || fresh(list))
      ensures Made(f2 != null, old(Room(1)), old(refusals))
      ensures f2 == null ==> Table() == t
      ensures f2 != null ==> f2 !in old(index) && index == old(index) + {f2} && (f2 in pool || fresh(f2))
      ensures f2 != null ==> Replaced(t, Table(), {}, Ends(f1, name1, -1, f2, name2, -1, false, false))
    {
      hide Lists, Slots, Paired, Replaced, Ends, Table;
      ghost var u := Table();
      OneMore(t, u, f1, Data(name1, -1, false, false, null));
      NewIsPaired(t, u, f1, name1);
      f2 := New(name2);
      if f2 == null {
        Delete(f1);
        NewThenGone(t, u, Table(), f1, name1);
      } else {
        OneMore(u, Table(), f2, Data(name2, -1, false, false, null));
        NewIsPaired(u, Table(), f2, name2);
        TwoMore(t, u, Table(), f1, name1, f2, name2);
      }
    }

    // fd_new for both ends of a pipe, or for none
    method NewEnds(name1: Name, name2: Name) returns (f1: Fd?, f2: Fd?)
      requires Slots() && Paired(Table())
      modifies this`list, this`count, this`index, this`refusals, list, pool - index, index`peer
      ensures Slots() && Paired(Table()) && (list == old(list) || fresh(list))
      ensures Made(f1 != null, old(Room(2)), old(refusals))
      ensures f1 == null ==> Table() == old(Table())
      ensures f1 != null ==> f2 != null && f1 != f2 && f1 !in old(index) && f2 !in old(index)
      ensures f1 != null ==> index == old(index) + {f1} + {f2} && (f1 in pool || fresh(f1)) && (f2 in pool || fresh(f2))
      ensures f1 != null ==> Replaced(old(Table()), Table(), {}, Ends(f1, name1, -1, f2, name2, -1, false, false))
    {
      hide Lists, Slots, Paired, Replaced, Ends, Table;
      f2 := null;
      f1 := New(name1);
      if f1 != null {
        f2 := SecondEnd(f1, name1, name2, old(Table()));
        if f2 == null {
          f1 := null;
        }
      }
    }

    // fd_delete of the objects that had the names, if any
    method DeletePrior(old1: Fd?, old2: Fd?)
      requires Slots() && Paired(Table()) && (old1 != null ==> old1 in index) && (old2 != null ==> old2 in index)
      modifies this`count, this`index, list, index`peer
      ensures Slots() && index == old(index) - {old1, old2}
      ensures Replaced(old(Table()), Table(), Only(old1) + Only(old2), map[])
    {
      hide Lists, Slots, Paired, Replaced, Table;
      ghost var t, u := Table(), Table();
      NoneGone(t);
      if old1 != null {
        Delete(old1);
        u := Table();
        ReplacedPaired(t, u, {old1}, map[]);
      }
      // One that had both names is gone by now.
      if old2 != null && old2 != old1 {
        Delete(old2);
        AlsoGone(t, u, Table(), Only(old1), map[], {old2});
      }
      assert Only(old1) + Only(old2) == if old2 == old1 || old2 == null then Only(old1) else Only(old1) + {old2};
    }

    method Connect(f1: Fd, name1: Name, num1: int, f2: Fd, name2: Name, num2: int, isConst: bool)
      requires f1 in index && f2 in index && f1 != f2
      modifies f1, f2
      ensures Table() == old(Table()) + Ends(f1, name1, num1, f2, name2, num2, true, isConst) && f1.peer == f2
    {
      hide Table;
      Write(f1, Data(name1, num1, true, isConst, f2));
      Write(f2, Data(name2, num2, true, isConst, f1));
    }

    method InstallEnds(name1: Name, old1: Fd?, num1: int, name2: Name, old2: Fd?, num2: int, isConst: bool)
      returns (f1: Fd?, f2: Fd?)
      requires Slots() && Paired(Table()) && (old1 != null ==> old1 in index) && (old2 != null ==> old2 in index)
      modifies this`list, this`count, this`index, this`refusals, list, pool - index, index`peer
      ensures Slots() && (list == old(list) || fresh(list))
      ensures Made(f1 != null, old(Room(2)), old(refusals))
      ensures f1 == null ==> Table() == old(Table())
      ensures f1 != null ==> f2 != null && f1 != f2 && (f1 in pool || fresh(f1)) && (f2 in pool || fresh(f2))
      ensures f1 != null ==> f1.peer == f2
      ensures f1 != null ==>
        Replaced(old(Table()), Table(), Only(old1) + Only(old2), Ends(f1, name1, num1, f2, name2, num2, true, isConst))
    {
      hide Lists, Slots, Paired, Replaced, Table, Room, Made, Ends, Only;
      f1, f2 := NewEnds(name1, name2);
      if f1 != null {
        ghost var t, u := old(Table()), Table();
        DeletePrior(old1, old2);
        ghost var v := Table();
        Connect(f1, name1, num1, f2, name2, num2, isConst);
        OnlyIn(t.Keys, old1, old2);
        EndsInstalled(t, u, v, Table(), Only(old1) + Only(old2), f1, name1, num1, f2, name2, num2, isConst);
      }
    }

    // fd_new_pipe.  Nothing stops a caller from giving both ends one name, and then two objects have it.
    method NewPipe(name1: Name, num1: int, name2: Name, num2: int, isConst: bool) returns (f1: Fd?)
      requires Valid()
      modifies this`list, this`count, this`index, this`refusals, list, pool - index, index`peer
      ensures Slots() && Paired(Table()) && (list == old(list) || fresh(list))
      ensures Valid() <==> f1 == null || name1 != name2
      ensures f1 == null ==> Table() == old(Table())
      ensures if HasConstant(old(Table()), {name1, name2}) then f1 == null && refusals == old(refusals)
              else Made(f1 != null, old(Room(2)), old(refusals))
      ensures f1 != null ==> f1.peer != null && f1.peer != f1 && !HasConstant(old(Table()), {name1, name2})
      ensures f1 != null ==> (f1 in pool || fresh(f1)) && (f1.peer in pool || fresh(f1.peer))
      ensures f1 != null ==>
        Replaced(old(Table()), Table(), Named(old(Table()), {name1, name2}),
                 Ends(f1, name1, num1, f1.peer, name2, num2, true, isConst))
      ensures f1 != null && name1 != name2 ==>
        Bindings(Table()) == old(Bindings(Table())) - {name1, name2} + map[name1 := f1, name2 := f1.peer]
    {
      hide Lists, Slots, Replaced, Bindings, UniqueNames, Paired, Room, Made;
      var old1 := ByName(name1);
      var old2 := ByName(name2);
      NamedEither(Table(), name1, name2);
      if (old1 != null && old1.isConst) || (old2 != null && old2.isConst) {
        return null;
      }
      var f2;
      f1, f2 := InstallEnds(name1, old1, num1, name2, old2, num2, isConst);
      if f1 != null {
        PipeMade(old(Table()), Table(), f1, name1, num1, f2, name2, num2, isConst);
      }
    }
  }

  // ---------------------------------------------------------------- lemmas for the methods

  ghost predicate HasConstant(t: Table, names: set<Name>) {
    exists f :: f in Named(t, names) && t[f].isConst
  }

  ghost function Ends(f1: Fd, name1: Name, num1: int, f2: Fd, name2: Name, num2: int, paired: bool,
                      isConst: bool): Table
  {
    map[f1 := Data(name1, num1, paired, isConst, if paired then f2 else null),
        f2 := Data(name2, num2, paired, isConst, if paired then f1 else null)]
  }

  lemma NamedEither(t: Table, name1: Name, name2: Name)
    ensures Named(t, {name1, name2}) == Named(t, {name1}) + Named(t, {name2})
  {
  }

  // Only its peer points at an object.
  lemma PeersOf(t: Table, f: Fd)
    requires Paired(t) && f in t
    ensures forall g :: g in t && t[g].peer == f ==> t[f].isPipe && t[f].peer == g
  {
    forall g | g in t && t[g].peer == f
      ensures t[f].isPipe && t[f].peer == g
    {
      assert Pair(t, g, f);
    }
  }

  lemma NoneGone(t: Table)
    ensures Replaced(t, t, {}, map[])
  {
  }

  lemma OneMore(t: Table, u: Table, f: Fd, d: Data)
    requires f !in t && u == t[f := d]
    ensures Replaced(t, u, {}, map[f := d])
  {
  }

  lemma TwoMore(t: Table, u: Table, v: Table, f1: Fd, name1: Name, f2: Fd, name2: Name)
    requires Replaced(t, u, {}, map[f1 := Data(name1, -1, false, false, null)])
    requires Replaced(u, v, {}, map[f2 := Data(name2, -1, false, false, null)])
    ensures f1 != f2 && Replaced(t, v, {}, Ends(f1, name1, -1, f2, name2, -1, false, false))
  {
    assert f1 in u.Keys && u[f1].name == name1;
  }

  lemma OnlyIn(s: set<Fd>, f: Fd?, g: Fd?)
    requires (f == null || f in s) && (g == null || g in s)
    ensures Only(f) + Only(g) <= s
  {
  }

  lemma EndsInstalled(t: Table, u: Table, v: Table, w: Table, gone: set<Fd>,
                      f1: Fd, name1: Name, num1: int, f2: Fd, name2: Name, num2: int, isConst: bool)
    requires Replaced(t, u, {}, Ends(f1, name1, -1, f2, name2, -1, false, false)) && gone <= t.Keys
    requires Replaced(u, v, gone, map[]) && w == v + Ends(f1, name1, num1, f2, name2, num2, true, isConst)
    ensures Replaced(t, w, gone, Ends(f1, name1, num1, f2, name2, num2, true, isConst))
  {
    hide Replaced;
    var made := Ends(f1, name1, -1, f2, name2, -1, false, false);
    AlsoGone(t, u, v, {}, made, gone);
    assert {} + gone == gone;
    ReplacedWith(t, v, w, gone, made, Ends(f1, name1, num1, f2, name2, num2, true, isConst));
  }

  lemma NewIsPaired(t: Table, u: Table, f: Fd, name: Name)
    requires Paired(t) && Replaced(t, u, {}, map[f := Data(name, -1, false, false, null)])
    ensures Paired(u)
  {
    ReplacedPaired(t, u, {}, map[f := Data(name, -1, false, false, null)]);
  }

  lemma NewThenGone(t: Table, u: Table, v: Table, f: Fd, name: Name)
    requires Paired(t) && Replaced(t, u, {}, map[f := Data(name, -1, false, false, null)]) && Replaced(u, v, {f}, map[])
    ensures v == t
  {
    forall g | g in t
      ensures v[g] == t[g]
    {
      if t[g].peer != null {
        assert Pair(t, g, t[g].peer);
      }
    }
  }

  lemma FileMeans(f: Fd, d: Data)
    requires d.peer == null
    ensures var made := map[f := d];
      && Good(made) && Bindings(made) == map[d.name := f]
      && MeaningOf(made) == map[d.name := Desc(d.num, d.isPipe, d.isConst, None)]
  {
    var made := map[f := d];
    assert Stands(made, map[d.name := f]);
    hide UniqueNames, Bindings;
    BindingsAre(made, map[d.name := f]);
    assert MeaningOf(made).Keys == {d.name};
  }

  lemma FileMade(t: Table, u: Table, f: Fd, d: Data)
    requires Good(t) && d.peer == null && Replaced(t, u, Named(t, {d.name}), map[f := d])
    ensures Good(u) && Bindings(u) == Bindings(t) - {d.name} + map[d.name := f]
    ensures MeaningOf(u) == Without(MeaningOf(t), {d.name}) + map[d.name := Desc(d.num, d.isPipe, d.isConst, None)]
  {
    hide UniqueNames, Paired, Bindings, MeaningOf, Replaced, Named, Without;
    var made := map[f := d];
    FileMeans(f, d);
    Rebind(t, u, {d.name}, made);
    Remean(t, u, {d.name}, made);
  }

  lemma EndsMean(f1: Fd, name1: Name, num1: int, f2: Fd, name2: Name, num2: int, isConst: bool)
    requires f1 != f2 && name1 != name2
    ensures var made := Ends(f1, name1, num1, f2, name2, num2, true, isConst);
      && Good(made) && Bindings(made) == map[name1 := f1, name2 := f2]
      && MeaningOf(made) ==
         map[name1 := Desc(num1, true, isConst, Some(name2)), name2 := Desc(num2, true, isConst, Some(name1))]
  {
    var made := Ends(f1, name1, num1, f2, name2, num2, true, isConst);
    assert Stands(made, map[name1 := f1, name2 := f2]);
    assert Paired(made) && DescOf(made, f1).peer == Some(name2) && DescOf(made, f2).peer == Some(name1);
    BindingsAre(made, map[name1 := f1, name2 := f2]);
    hide UniqueNames, Bindings, MeaningOf, Paired, Stands;
    assert MeaningOf(made).Keys == {name1, name2};
    assert made[f1].name == name1 && made[f2].name == name2;
  }

  lemma PipeMade(t: Table, u: Table, f1: Fd, name1: Name, num1: int, f2: Fd, name2: Name, num2: int, isConst: bool)
    requires Good(t) && f1 != f2
    requires Replaced(t, u, Named(t, {name1, name2}), Ends(f1, name1, num1, f2, name2, num2, true, isConst))
    ensures Paired(u) && (UniqueNames(u) <==> name1 != name2)
    ensures name1 != name2 ==> Bindings(u) == Bindings(t) - {name1, name2} + map[name1 := f1, name2 := f2]
    ensures name1 != name2 ==>
      MeaningOf(u) ==
      Without(MeaningOf(t), {name1, name2}) +
        map[name1 := Desc(num1, true, isConst, Some(name2)), name2 := Desc(num2, true, isConst, Some(name1))]
  {
    var made := Ends(f1, name1, num1, f2, name2, num2, true, isConst);
    ReplacedPaired(t, u, Named(t, {name1, name2}), made);
    if name1 == name2 {
      assert u[f1].name == u[f2].name;
    } else {
      PipeMeans(t, u, f1, name1, num1, f2, name2, num2, isConst);
    }
  }

  lemma PipeMeans(t: Table, u: Table, f1: Fd, name1: Name, num1: int, f2: Fd, name2: Name, num2: int, isConst: bool)
    requires Good(t) && f1 != f2 && name1 != name2
    requires Replaced(t, u, Named(t, {name1, name2}), Ends(f1, name1, num1, f2, name2, num2, true, isConst))
    ensures Good(u) && Bindings(u) == Bindings(t) - {name1, name2} + map[name1 := f1, name2 := f2]
    ensures MeaningOf(u) ==
      Without(MeaningOf(t), {name1, name2}) +
        map[name1 := Desc(num1, true, isConst, Some(name2)), name2 := Desc(num2, true, isConst, Some(name1))]
  {
    var made := Ends(f1, name1, num1, f2, name2, num2, true, isConst);
    assert forall f :: f in made ==> made[f].name in {name1, name2};
    hide *;
    EndsMean(f1, name1, num1, f2, name2, num2, isConst);
    Rebind(t, u, {name1, name2}, made);
    Remean(t, u, {name1, name2}, made);
  }

  // ---------------------------------------------------------------- whole sessions

  datatype Op =
    | File(name: Name, num: int, isConst: bool)
    | Pipe(name1: Name, num1: int, name2: Name, num2: int)
    | Remove(name: Name)

  function NamesOf(op: Op): set<Name> {
    match op
    case File(name, _, _) => {name}
    case Pipe(name1, _, name2, _) => {name1, name2}
    case Remove(name) => {name}
  }

  // What an accepted operation binds.
  function Given(op: Op): Meaning {
    match op
    case File(name, num, isConst) => map[name := Desc(num, false, isConst, None)]
    case Pipe(name1, num1, name2, num2) =>
      map[name1 := Desc(num1, true, false, Some(name2)), name2 := Desc(num2, true, false, Some(name1))]
    case Remove(_) => map[]
  }

  ghost function Applied(m: Meaning, op: Op): Meaning {
    Without(m, NamesOf(op)) + Given(op)
  }

  // A constant is never replaced or deleted, and only what there is can be deleted.
  predicate Allowed(m: Meaning, op: Op) {
    (forall n :: n in NamesOf(op) && n in m ==> !m[n].isConst) && (op.Remove? ==> op.name in m)
  }

  // The new objects are made before those that had the names are given back.
  predicate Fits(m: Meaning, op: Op, slots: nat) {
    |m| + |Given(op)| <= slots
  }

  // What is allowed is accepted, if it fits the pool; without a pool, if no memory was denied.
  predicate Decided(m: Meaning, op: Op, pool: Option<nat>, denied: bool, accepted: bool) {
    && accepted == (Allowed(m, op) && (pool.Some? ==> Fits(m, op, pool.value)) && !denied)
    && (denied ==> pool.None? && Allowed(m, op) && !op.Remove?)
  }

  ghost function Fold(ops: seq<Op>, accepted: seq<bool>): Meaning
    requires |ops| == |accepted|
  {
    if ops == [] then map[] else
      var last := |ops| - 1;
      var m := Fold(ops[..last], accepted[..last]);
      if accepted[last] then Applied(m, ops[last]) else m
  }

  // Both ends of a pipe need a name of their own; see NewPipe.
  predicate Apart(op: Op) {
    op.Pipe? ==> op.name1 != op.name2
  }

  lemma ConstantNames(t: Table, op: Op)
    requires Good(t)
    ensures HasConstant(t, NamesOf(op)) <==>
      exists n :: n in NamesOf(op) && n in MeaningOf(t) && MeaningOf(t)[n].isConst
  {
    hide UniqueNames, Paired, Bindings, MeaningOf;
    forall f | f in Named(t, NamesOf(op)) && t[f].isConst
      ensures t[f].name in NamesOf(op) && t[f].name in MeaningOf(t) && MeaningOf(t)[t[f].name].isConst
    {
    }
    forall n | n in NamesOf(op) && n in MeaningOf(t) && MeaningOf(t)[n].isConst
      ensures Bindings(t)[n] in Named(t, NamesOf(op)) && t[Bindings(t)[n]].isConst
    {
      assert t[Bindings(t)[n]].name == n;
    }
  }

  // fd.delete: a constant is refused, and so is a name that nothing has
  method RemoveName(r: Registry, name: Name) returns (ok: bool)
    requires r.Valid()
    modifies r`count, r`index, r.list, r.index`peer
    ensures r.Valid()
    ensures ok <==> Named(old(r.Table()), {name}) != {} && !HasConstant(old(r.Table()), {name})
    ensures !ok ==> r.Table() == old(r.Table())
    ensures ok ==> Replaced(old(r.Table()), r.Table(), Named(old(r.Table()), {name}), map[])
  {
    hide Lists, Registry.Slots, Replaced, Bindings, UniqueNames, Paired;
    var f := r.ByName(name);
    if f == null || f.isConst {
      assert f != null ==> f in Named(r.Table(), {name});
      return false;
    }
    r.Delete(f);
    RemoveMade(old(r.Table()), r.Table(), name);
    return true;
  }

  lemma RemoveMade(t: Table, u: Table, name: Name)
    requires Good(t) && Replaced(t, u, Named(t, {name}), map[])
    ensures Good(u) && MeaningOf(u) == Without(MeaningOf(t), {name})
  {
    BindingsAre(map[], map[]);
    hide UniqueNames, Paired, Bindings, Replaced;
    Remean(t, u, {name}, map[]);
  }

  lemma SizeOfGiven(op: Op)
    requires Apart(op)
    ensures |Given(op)| == match op case File(_, _, _) => 1 case Pipe(_, _, _, _) => 2 case Remove(_) => 0
  {
  }

  // What the methods say of their objects, whatever the names mean.
  ghost predicate DecidedOf(t: Table, op: Op, pool: Option<nat>, denied: bool, accepted: bool) {
    && (pool.Some? ==> |t| <= pool.value)
    && (if HasConstant(t, NamesOf(op)) then !accepted && !denied
        else if op.Remove? then accepted == (Named(t, {op.name}) != {}) && !denied
        else if pool.Some? then accepted == (|t| + |Given(op)| <= pool.value) && !denied
        else accepted == !denied)
  }

  lemma DecidedBy(t: Table, op: Op, pool: Option<nat>, denied: bool, accepted: bool)
    requires Good(t) && DecidedOf(t, op, pool, denied, accepted)
    ensures Decided(MeaningOf(t), op, pool, denied, accepted)
  {
    hide UniqueNames, Paired, Bindings, MeaningOf, HasConstant;
    ConstantNames(t, op);
    SizeOfBindings(t);
    assert |MeaningOf(t).Keys| == |Bindings(t).Keys|;
    if op.Remove? {
      NamedOrNot(t, op.name);
    }
  }

  lemma NamedOrNot(t: Table, name: Name)
    requires UniqueNames(t)
    ensures Named(t, {name}) != {} <==> name in Bindings(t)
  {
    hide UniqueNames, Bindings;
    if name in Bindings(t) {
      assert Bindings(t)[name] in Named(t, {name});
    }
  }

  // What an operation does to the meaning of the names, and whether it was right to do it.
  ghost predicate Done(m: Meaning, after: Meaning, op: Op, limit: Option<nat>, denied: bool, accepted: bool) {
    after == (if accepted then Applied(m, op) else m) && Decided(m, op, limit, denied, accepted)
  }

  lemma DoneBy(t: Table, after: Meaning, op: Op, limit: Option<nat>, denied: bool, accepted: bool)
    requires Good(t) && DecidedOf(t, op, limit, denied, accepted)
    requires after == if accepted then Applied(MeaningOf(t), op) else MeaningOf(t)
    ensures Done(MeaningOf(t), after, op, limit, denied, accepted)
  {
    hide Good, MeaningOf, Applied, Decided, DecidedOf;
    DecidedBy(t, op, limit, denied, accepted);
  }

  lemma FileApplied(t: Table, u: Table, f: Fd, op: Op)
    requires Good(t) && op.File?
    requires Replaced(t, u, Named(t, {op.name}), map[f := Data(op.name, op.num, false, op.isConst, null)])
    ensures Good(u) && MeaningOf(u) == Applied(MeaningOf(t), op) && u.Keys <= t.Keys + {f}
  {
    FileMade(t, u, f, Data(op.name, op.num, false, op.isConst, null));
  }

  lemma PipeApplied(t: Table, u: Table, f1: Fd, f2: Fd, op: Op)
    requires Good(t) && f1 != f2 && op.Pipe? && Apart(op)
    requires Replaced(t, u, Named(t, {op.name1, op.name2}),
                      Ends(f1, op.name1, op.num1, f2, op.name2, op.num2, true, false))
    ensures Good(u) && MeaningOf(u) == Applied(MeaningOf(t), op) && u.Keys <= t.Keys + {f1, f2}
  {
    hide UniqueNames, Paired, MeaningOf, Without, Named;
    PipeMade(t, u, f1, op.name1, op.num1, f2, op.name2, op.num2, false);
  }

  lemma RemoveApplied(t: Table, u: Table, op: Op)
    requires Good(t) && op.Remove? && Replaced(t, u, Named(t, {op.name}), map[])
    ensures Good(u) && MeaningOf(u) == Applied(MeaningOf(t), op) && u.Keys <= t.Keys
  {
    hide UniqueNames, Paired, MeaningOf, Without, Named;
    RemoveMade(t, u, op.name);
    assert Applied(MeaningOf(t), op) == Without(MeaningOf(t), {op.name});
  }

  method ApplyFile(r: Registry, op: Op) returns (accepted: bool, denied: bool)
    requires r.Valid() && op.File?
    modifies r`list, r`count, r`index, r`refusals, r.list, r.pool - r.index, r.index`peer
    ensures r.Valid() && (r.list == old(r.list) || fresh(r.list))
    ensures forall f :: f in r.index ==> f in old(r.index) || f in r.pool || fresh(f)
    ensures Done(old(r.Meaning()), r.Meaning(), op, r.Limit(), denied, accepted)
    ensures r.refusals == old(r.refusals) + if denied then 1 else 0
  {
    hide Lists, Registry.Slots, Registry.Table, UniqueNames, Paired, Bindings, MeaningOf, Replaced;
    hide HasConstant, Named, Applied, Given, Ends, Decided, Done;
    FitsPool(r);
    ghost var t := r.Table();
    var before := r.refusals;
    var f := r.NewFile(op.name, op.num, op.isConst);
    if f != null {
      FileApplied(t, r.Table(), f, op);
    }
    SizeOfGiven(op);
    accepted, denied := f != null, r.refusals > before;
    DoneBy(t, r.Meaning(), op, r.Limit(), denied, accepted);
  }

  method ApplyPipe(r: Registry, op: Op) returns (accepted: bool, denied: bool)
    requires r.Valid() && op.Pipe? && op.name1 != op.name2
    modifies r`list, r`count, r`index, r`refusals, r.list, r.pool - r.index, r.index`peer
    ensures r.Valid() && (r.list == old(r.list) || fresh(r.list))
    ensures forall f :: f in r.index ==> f in old(r.index) || f in r.pool || fresh(f)
    ensures Done(old(r.Meaning()), r.Meaning(), op, r.Limit(), denied, accepted)
    ensures r.refusals == old(r.refusals) + if denied then 1 else 0
  {
    hide Lists, Registry.Slots, Registry.Table, UniqueNames, Paired, Bindings, MeaningOf, Replaced;
    hide HasConstant, Named, Applied, Given, Ends, Decided, Done;
    FitsPool(r);
    ghost var t := r.Table();
    var before := r.refusals;
    var f := r.NewPipe(op.name1, op.num1, op.name2, op.num2, false);
    if f != null {
      PipeApplied(t, r.Table(), f, f.peer, op);
    }
    SizeOfGiven(op);
    accepted, denied := f != null, r.refusals > before;
    DoneBy(t, r.Meaning(), op, r.Limit(), denied, accepted);
  }

  method ApplyRemove(r: Registry, op: Op) returns (accepted: bool, denied: bool)
    requires r.Valid() && op.Remove?
    modifies r`list, r`count, r`index, r`refusals, r.list, r.pool - r.index, r.index`peer
    ensures r.Valid() && (r.list == old(r.list) || fresh(r.list))
    ensures forall f :: f in r.index ==> f in old(r.index) || f in r.pool || fresh(f)
    ensures Done(old(r.Meaning()), r.Meaning(), op, r.Limit(), denied, accepted)
    ensures r.refusals == old(r.refusals) + if denied then 1 else 0
  {
    hide Lists, Registry.Slots, Registry.Table, UniqueNames, Paired, Bindings, MeaningOf, Replaced;
    hide HasConstant, Named, Applied, Given, Ends, Decided, Done;
    FitsPool(r);
    ghost var t := r.Table();
    accepted := RemoveName(r, op.name);
    if accepted {
      RemoveApplied(t, r.Table(), op);
    }
    denied := false;
    DoneBy(t, r.Meaning(), op, r.Limit(), denied, accepted);
  }

  method Apply(r: Registry, op: Op) returns (accepted: bool, denied: bool)
    requires r.Valid() && Apart(op)
    modifies r`list, r`count, r`index, r`refusals, r.list, r.pool - r.index, r.index`peer
    ensures r.Valid() && (r.list == old(r.list) || fresh(r.list))
    ensures forall f :: f in r.index ==> f in old(r.index) || f in r.pool || fresh(f)
    ensures Done(old(r.Meaning()), r.Meaning(), op, r.Limit(), denied, accepted)
    ensures r.refusals == old(r.refusals) + if denied then 1 else 0
  {
    hide Registry.Valid, Registry.Meaning, Done;
    match op {
      case File(_, _, _) => accepted, denied := ApplyFile(r, op);
      case Pipe(_, _, _, _) => accepted, denied := ApplyPipe(r, op);
      case Remove(_) => accepted, denied := ApplyRemove(r, op);
    }
  }

  lemma EmptyMeans()
    ensures Good(map[]) && MeaningOf(map[]) == map[]
  {
    BindingsAre(map[], map[]);
  }

  // Every decision was right at its time.
  ghost predicate Judged(ops: seq<Op>, accepted: seq<bool>, denied: seq<bool>, limit: Option<nat>)
    requires |ops| == |accepted| == |denied|
  {
    ops == [] ||
    var last := |ops| - 1;
    && Judged(ops[..last], accepted[..last], denied[..last], limit)
    && Decided(Fold(ops[..last], accepted[..last]), ops[last], limit, denied[last], accepted[last])
  }

  function Times(denied: seq<bool>): nat {
    if denied == [] then 0 else Times(denied[..|denied| - 1]) + if denied[|denied| - 1] then 1 else 0
  }

  lemma JudgedMore(ops: seq<Op>, accepted: seq<bool>, denied: seq<bool>, op: Op, ok: bool, no: bool, after: Meaning,
                   limit: Option<nat>)
    requires |ops| == |accepted| == |denied| && Judged(ops, accepted, denied, limit)
    requires Done(Fold(ops, accepted), after, op, limit, no, ok)
    ensures Judged(ops + [op], accepted + [ok], denied + [no], limit) && Fold(ops + [op], accepted + [ok]) == after
    ensures Times(denied + [no]) == Times(denied) + if no then 1 else 0
  {
    assert (ops + [op])[..|ops|] == ops && (accepted + [ok])[..|ops|] == accepted && (denied + [no])[..|ops|] == denied;
    assert (ops + [op])[|ops|] == op && (accepted + [ok])[|ops|] == ok && (denied + [no])[|ops|] == no;
    hide Decided, Applied;
  }

  method Open(pooled: bool, slots: nat) returns (r: Registry)
    ensures fresh(r) && fresh(r.list) && fresh(r.pool) && r.index == {} && r.refusals == 0
    ensures r.Valid() && r.Limit() == (if pooled then Some(slots) else None) && r.Meaning() == map[]
  {
    hide Registry.Slots, UniqueNames, Paired, MeaningOf;
    EmptyMeans();
    if pooled {
      r := new Registry.Preallocate(slots);
    } else {
      r := new Registry();
    }
  }

  /** Any session, with or without a pool, from the empty registry: what the names mean in the
      end is the fold of the accepted operations, and each was accepted or refused for good
      reason; memory was denied exactly as often as the allocator refused. */
  method Session(pooled: bool, slots: nat, ops: seq<Op>)
    returns (r: Registry, accepted: seq<bool>, denied: seq<bool>)
    requires forall i :: 0 <= i < |ops| ==> Apart(ops[i])
    ensures fresh(r) && r.Valid() && r.Limit() == if pooled then Some(slots) else None
    ensures |accepted| == |denied| == |ops| && Judged(ops, accepted, denied, r.Limit())
    ensures r.Meaning() == Fold(ops, accepted) && r.refusals == Times(denied)
  {
    hide Registry.Slots, Registry.Table, Good, Registry.Meaning, Registry.Limit, Fold, Judged, Done, Apart, Times;
    r := Open(pooled, slots);
    accepted, denied := [], [];
    StartJudged(r.Limit());
    while |accepted| < |ops|
      invariant |accepted| == |denied| <= |ops| && fresh(r) && fresh(r.list) && fresh(r.pool)
      invariant forall f :: f in r.index ==> fresh(f)
      invariant r.Valid() && Judged(ops[..|accepted|], accepted, denied, r.Limit())
      invariant r.Meaning() == Fold(ops[..|accepted|], accepted) && r.refusals == Times(denied)
    {
      var n := |accepted|;
      var ok, no := Apply(r, ops[n]);
      JudgedMore(ops[..n], accepted, denied, ops[n], ok, no, r.Meaning(), r.Limit());
      assert ops[..n + 1] == ops[..n] + [ops[n]];
      accepted, denied := accepted + [ok], denied + [no];
    }
    assert ops[..|accepted|] == ops;
  }

  lemma StartJudged(limit: Option<nat>)
    ensures Judged([], [], [], limit) && Times([]) == 0 && Fold([], []) == map[]
  {
  }

  // ---------------------------------------------------------------- what holds of every session

  // A peer is bound, is another name, and has this one as its peer.
  ghost predicate Mutual(m: Meaning) {
    forall n :: n in m && m[n].peer.Some? ==>
      var p := m[n].peer.value;
      p != n && p in m && m[p].peer == Some(n) && m[n].isPipe && m[p].isPipe
  }

  lemma {:induction false} PeersMutual(ops: seq<Op>, accepted: seq<bool>)
    requires |ops| == |accepted| && forall i :: 0 <= i < |ops| ==> Apart(ops[i])
    ensures Mutual(Fold(ops, accepted))
  {
    if ops != [] {
      var last := |ops| - 1;
      PeersMutual(ops[..last], accepted[..last]);
      MutualStep(Fold(ops[..last], accepted[..last]), ops[last]);
    }
  }

  lemma MutualStep(m: Meaning, op: Op)
    requires Mutual(m) && Apart(op)
    ensures Mutual(Applied(m, op))
  {
    var w := Applied(m, op);
    forall n | n in w && w[n].peer.Some?
      ensures var p := w[n].peer.value; p != n && p in w && w[p].peer == Some(n) && w[n].isPipe && w[p].isPipe
    {
      if n !in Given(op) {
        assert m[n].peer == w[n].peer && w[n].peer.value !in NamesOf(op);
      }
    }
  }

  lemma ConstantStays(m: Meaning, after: Meaning, op: Op, limit: Option<nat>, no: bool, ok: bool, n: Name)
    requires Done(m, after, op, limit, no, ok) && n in m && m[n].isConst
    ensures n in after && after[n].(peer := None) == m[n].(peer := None)
  {
  }

  // A constant stays what it is for the rest of the session, but for a peer that goes.
  lemma {:induction false} ConstantsStay(ops: seq<Op>, accepted: seq<bool>, denied: seq<bool>, limit: Option<nat>,
                                         i: nat, n: Name)
    requires |ops| == |accepted| == |denied| && Judged(ops, accepted, denied, limit) && i <= |ops|
    requires n in Fold(ops[..i], accepted[..i]) && Fold(ops[..i], accepted[..i])[n].isConst
    ensures n in Fold(ops, accepted)
    ensures Fold(ops, accepted)[n].(peer := None) == Fold(ops[..i], accepted[..i])[n].(peer := None)
    decreases |ops|
  {
    if i == |ops| {
      assert ops[..i] == ops && accepted[..i] == accepted;
    } else {
      var last := |ops| - 1;
      var was, m := Fold(ops[..i], accepted[..i]), Fold(ops[..last], accepted[..last]);
      assert Done(m, Fold(ops, accepted), ops[last], limit, denied[last], accepted[last]);
      assert Judged(ops[..last], accepted[..last], denied[..last], limit);
      hide *;
      assert ops[..last][..i] == ops[..i] && accepted[..last][..i] == accepted[..i];
      ConstantsStay(ops[..last], accepted[..last], denied[..last], limit, i, n);
      ConstantStays(m, Fold(ops, accepted), ops[last], limit, denied[last], accepted[last], n);
    }
  }

  // The operations and the denials alone determine what is accepted, and so what the names mean.
  lemma {:induction false} Determined(ops: seq<Op>, a: seq<bool>, b: seq<bool>, denied: seq<bool>, limit: Option<nat>)
    requires |ops| == |a| == |b| == |denied| && Judged(ops, a, denied, limit) && Judged(ops, b, denied, limit)
    ensures a == b
  {
    if ops != [] {
      var last := |ops| - 1;
      var less := denied[..last];
      assert Judged(ops[..last], a[..last], less, limit) && Judged(ops[..last], b[..last], less, limit);
      assert Decided(Fold(ops[..last], a[..last]), ops[last], limit, denied[last], a[last]);
      assert Decided(Fold(ops[..last], b[..last]), ops[last], limit, denied[last], b[last]);
      hide Judged, Fold, Allowed, Fits;
      Determined(ops[..last], a[..last], b[..last], less, limit);
      assert a == a[..last] + [a[last]] && b == b[..last] + [b[last]];
    }
  }

  // With a pool nothing is ever denied, so there the operations alone determine it.
  lemma {:induction false} PoolDecides(ops: seq<Op>, a: seq<bool>, denied: seq<bool>, slots: nat)
    requires |ops| == |a| == |denied| && Judged(ops, a, denied, Some(slots))
    ensures denied == seq(|ops|, _ => false)
  {
    if ops != [] {
      var last := |ops| - 1;
      PoolDecides(ops[..last], a[..last], denied[..last], slots);
      assert denied == denied[..last] + [denied[last]];
    }
  }

  // A full pool refuses even to rebind a name, since the new object is made first.
  lemma FullPoolRefuses(m: Meaning, op: Op)
    requires Apart(op) && !op.Remove?
    ensures forall denied, accepted :: Decided(m, op, Some(|m|), denied, accepted) ==> !accepted
  {
    SizeOfGiven(op);
  }

  lemma FitsPool(r: Registry)
    requires r.Slots()
    ensures r.count == |r.index| && (r.pooled ==> |r.index| <= |r.pool| == r.list.Length)
  {
    SizeOf(r.list[..r.count], r.index);
    if r.pooled {
      SizeOf(r.list[..], r.pool);
    }
  }

  // A list of all objects of a set, once each, is as long as the set is large.
  lemma {:induction false} SizeOf(q: seq<Fd?>, s: set<Fd>)
    requires Lists(q, s)
    ensures |q| == |s|
  {
    if q == [] {
      assert s == {};
    } else {
      var f := q[|q| - 1];
      ListsLess(q, s, |q| - 1, f);
      assert q[|q| - 1 := q[|q| - 1]] == q;
      SizeOf(q[..|q| - 1], s - {f});
    }
  }

  lemma ListsSwapIf(pooled: bool, q: seq<Fd?>, s: set<Fd>, i: nat, j: nat)
    requires i < |q| && j < |q| && (pooled ==> Lists(q, s))
    ensures pooled ==> Lists(q[i := q[j]][j := q[i]], s)
  {
    if pooled { ListsSwap(q, s, i, j); }
  }

  lemma SpareIsDead(q: seq<Fd?>, n: nat, f: Fd?)
    requires Distinct(q) && n < |q| && q[n] == f
    ensures f !in q[..n]
  {
  }
}
