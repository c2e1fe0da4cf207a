/** The packed variables of a service (src/service.c): a buffer of back-to-back
    `name=value\0` strings, edited in place, that behaves as a map as long as no
    value contains a NUL.

    In general the buffer is a sequence of NUL-terminated tokens.  Setting a value
    with a NUL in it makes tokens that nobody meant to make; they may lack the `=`.
  */
module ServiceVars {
  import opened Common
  import opened Strseg

  const NUL: char := '\0'

  predicate WfName(name: string) { '=' !in name && NUL !in name }

  // ---------------------------------------------------------------- tokens

  // Where the token's name ends: at the first `=`, or at the end of the token.
  function NameLen(t: string): (k: nat)
    ensures k <= |t| && '=' !in t[..k] && (k < |t| ==> t[k] == '=')
  {
    if t == "" || t[0] == '=' then 0 else 1 + NameLen(t[1..])
  }

  function Key(t: string): string { t[..NameLen(t)] }

  // What the getters read at the value's position: the text up to the next NUL.
  function ValueAt(ts: seq<string>, i: nat): string
    requires i < |ts|
  {
    var k := NameLen(ts[i]);
    if k < |ts[i]| then ts[i][k + 1..] else if i + 1 < |ts| then ts[i + 1] else ""
  }

  ghost predicate Tokens(ts: seq<string>) {
    forall i :: 0 <= i < |ts| ==> NUL !in ts[i]
  }

  // The buffer as it is meant to be: every token is `name=value`, with different names.
  ghost predicate Wf(ts: seq<string>) {
    && Tokens(ts)
    && (forall i :: 0 <= i < |ts| ==> NameLen(ts[i]) < |ts[i]|)
    && (forall i, j :: 0 <= i < j < |ts| ==> Key(ts[i]) != Key(ts[j]))
  }

  function Pack(ts: seq<string>): string {
    if ts == [] then [] else ts[0] + [NUL] + Pack(ts[1..])
  }

  function Lookup(ts: seq<string>, name: string): Option<string> {
    if ts == [] then None
    else if Key(ts[0]) == name then Some(ValueAt(ts, 0))
    else Lookup(ts[1..], name)
  }

  ghost function AsMap(ts: seq<string>): map<string, string> {
    if ts == [] then map[] else AsMap(ts[1..])[Key(ts[0]) := ValueAt(ts, 0)]
  }

  // The tokens that the text makes when it is written into the buffer.
  function Cut(text: string): seq<string> { Fields(text, NUL) }

  // A token, whose name it keeps with what follows the name, after its value was set to v.
  function Rewritten(t: string, v: string): seq<string> {
    Cut(Key(t) + [if NameLen(t) < |t| then '=' else NUL] + v)
  }

  // The tokens after setting, or removing, one variable.
  function Set(ts: seq<string>, name: string, value: Option<string>): seq<string> {
    if ts == [] then
      if value.Some? then Cut(name + "=" + value.value) else []
    else if Key(ts[0]) == name then
      (if value.Some? then Rewritten(ts[0], value.value) else []) + ts[1..]
    else
      [ts[0]] + Set(ts[1..], name, value)
  }

  lemma {:induction false} NameLenIs(name: string, rest: string)
    requires '=' !in name && (rest == "" || rest[0] == '=')
    ensures NameLen(name + rest) == |name| && Key(name + rest) == name
  {
    assert (name + rest)[..|name|] == name;
    if name != "" {
      assert name == [name[0]] + name[1..] && (name + rest)[1..] == name[1..] + rest;
      NameLenIs(name[1..], rest);
    } else {
      assert name + rest == rest;
    }
  }

  // ---------------------------------------------------------------- cutting at NUL

  lemma {:induction false} FieldsPrefix(a: string, s: string, sep: char)
    requires sep !in a
    ensures Fields(a + s, sep) == [a + Fields(s, sep)[0]] + Fields(s, sep)[1..]
  {
    if a == "" {
      assert a + s == s && a + Fields(s, sep)[0] == Fields(s, sep)[0];
    } else {
      assert a[0] in a && (a + s)[1..] == a[1..] + s;
      FieldsPrefix(a[1..], s, sep);
      assert [a[0]] + (a[1..] + Fields(s, sep)[0]) == a + Fields(s, sep)[0];
    }
  }

  // The value as far as it can be read back.
  function UpToNul(v: string): string { Fields(v, NUL)[0] }

  lemma UpToNulIs(v: string)
    ensures UpToNul(v) == v <==> NUL !in v
    ensures NUL !in v ==> Cut(v) == [v]
  {
    FieldsJoin(v, NUL);
    if NUL !in v {
      assert v[..|v|] == v;
      FieldsHead(v, NUL, |v|);
    }
  }

  lemma CutWithName(name: string, v: string)
    requires WfName(name)
    ensures Cut(name + "=" + v) == [name + "=" + UpToNul(v)] + Cut(v)[1..]
    ensures Cut(name + [NUL] + v) == [name] + Cut(v)
  {
    hide Fields;
    FieldsPrefix(name + "=", v, NUL);
    var t := name + [NUL] + v;
    assert t[..|name|] == name && t[|name|] == NUL && t[|name| + 1..] == v;
    FieldsHead(t, NUL, |name|);
  }

  lemma KeyOfPair(name: string, value: string)
    requires '=' !in name
    ensures var t := name + "=" + value; NameLen(t) == |name| < |t| && Key(t) == name && t[NameLen(t) + 1..] == value
  {
    var t := name + "=" + value;
    assert t == name + ("=" + value);
    NameLenIs(name, "=" + value);
  }

  lemma KeyOfBare(name: string)
    requires '=' !in name
    ensures NameLen(name) == |name| && Key(name) == name
  {
    assert name + "" == name;
    NameLenIs(name, "");
  }

  lemma KeyIsName(t: string)
    requires NUL !in t
    ensures WfName(Key(t))
    ensures NameLen(t) < |t| ==> t == Key(t) + "=" + t[NameLen(t) + 1..]
    ensures NameLen(t) == |t| ==> t == Key(t)
  {
    hide NameLen;
    PrefixChars(t, NameLen(t));
    SplitAtChar(t, NameLen(t));
  }

  lemma SplitAtChar(t: string, k: nat)
    requires k <= |t| && (k < |t| ==> t[k] == '=')
    ensures k < |t| ==> t == t[..k] + "=" + t[k + 1..]
  {
  }

  lemma PrefixChars(t: string, k: nat)
    requires k <= |t|
    ensures forall c :: c in t[..k] ==> c in t
  {
  }

  // Whatever was in the buffer, what is read back is the value up to its first NUL ...
  lemma {:induction false} ReadBack(ts: seq<string>, name: string, v: string)
    requires WfName(name)
    ensures Lookup(Set(ts, name, Some(v)), name) == Some(UpToNul(v))
  {
    hide Fields, NameLen;
    CutWithName(name, v);
    KeyOfPair(name, UpToNul(v));
    KeyOfBare(name);
    if ts == [] {
    } else if Key(ts[0]) == name {
      assert Rewritten(ts[0], v) == Cut(name + [if NameLen(ts[0]) < |ts[0]| then '=' else NUL] + v);
    } else {
      ReadBack(ts[1..], name, v);
      assert ([ts[0]] + Set(ts[1..], name, Some(v)))[1..] == Set(ts[1..], name, Some(v));
    }
  }

  // ... so it is the value itself if and only if the value has no NUL.
  lemma ReadBackExactly(ts: seq<string>, name: string, v: string)
    requires WfName(name)
    ensures Lookup(Set(ts, name, Some(v)), name) == Some(v) <==> NUL !in v
  {
    hide Fields, Set, Lookup;
    ReadBack(ts, name, v);
    UpToNulIs(v);
  }

  // One setter can so set another variable.
  lemma NulMakesAmbiguous()
    ensures var ts := Set([], "tags", Some("x" + [NUL] + "args=y"));
      Lookup(ts, "tags") == Some("x") && Lookup(ts, "args") == Some("y")
  {
    hide Fields, NameLen;
    var v := "x" + [NUL] + "args=y";
    CutWithName("tags", v);
    CutWithName("x", "args=y");
    UpToNulIs("args=y");
    assert Cut(v) == ["x", "args=y"];
    var ts := Set([], "tags", Some(v));
    assert ts == ["tags" + "=" + "x", "args=y"];
    KeyOfPair("tags", "x");
    KeyOfPair("args", "y");
    assert "args" + "=" + "y" == "args=y";
    assert ts[1..] == ["args=y"];
  }

  // ---------------------------------------------------------------- the map

  lemma {:induction false} LookupIsMap(ts: seq<string>, name: string)
    ensures Lookup(ts, name) == if name in AsMap(ts) then Some(AsMap(ts)[name]) else None
  {
    if ts != [] { LookupIsMap(ts[1..], name); }
  }

  lemma {:induction false} MapKeys(ts: seq<string>, k: string)
    ensures k in AsMap(ts) <==> exists i :: 0 <= i < |ts| && Key(ts[i]) == k
  {
    if ts != [] {
      MapKeys(ts[1..], k);
      if k in AsMap(ts) && k != Key(ts[0]) {
        var i :| 0 <= i < |ts[1..]| && Key(ts[1..][i]) == k;
        assert Key(ts[i + 1]) == k;
      }
      if i :| 0 < i < |ts| && Key(ts[i]) == k {
        assert ts[1..][i - 1] == ts[i];
      }
    }
  }

  lemma WfTail(ts: seq<string>)
    requires Wf(ts) && ts != []
    ensures Wf(ts[1..]) && Key(ts[0]) !in AsMap(ts[1..])
  {
    MapKeys(ts[1..], Key(ts[0]));
  }

  lemma MapCons(name: string, value: string, ts: seq<string>)
    requires '=' !in name
    ensures AsMap([name + "=" + value] + ts) == AsMap(ts)[name := value]
  {
    KeyOfPair(name, value);
    assert ([name + "=" + value] + ts)[1..] == ts;
  }

  lemma WrittenClean(name: string, v: string)
    requires WfName(name) && NUL !in v
    ensures Cut(name + "=" + v) == [name + "=" + v]
  {
    hide Fields;
    CutWithName(name, v);
    UpToNulIs(v);
  }

  // Setting a variable is a map update, removing it a map removal; nothing else changes.
  lemma {:induction false} SetIsMapUpdate(ts: seq<string>, name: string, value: Option<string>)
    requires Wf(ts) && WfName(name) && (value.Some? ==> NUL !in value.value)
    ensures AsMap(Set(ts, name, value)) == if value.Some? then AsMap(ts)[name := value.value] else AsMap(ts) - {name}
  {
    hide Wf, AsMap, Fields, NameLen;
    NoMap();
    if value.Some? { WrittenClean(name, value.value); }
    if ts == [] {
      if value.Some? {
        MapCons(name, value.value, ts);
        assert [name + "=" + value.value] + ts == [name + "=" + value.value];
      }
    } else {
      WfTail(ts);
      var v := HeadPair(ts);
      assert ts == [ts[0]] + ts[1..];
      MapCons(Key(ts[0]), v, ts[1..]);
      if Key(ts[0]) == name {
        if value.Some? { MapCons(name, value.value, ts[1..]); } else { assert [] + ts[1..] == ts[1..]; }
      } else {
        SetIsMapUpdate(ts[1..], name, value);
        MapCons(Key(ts[0]), v, Set(ts[1..], name, value));
        Commute(AsMap(ts[1..]), Key(ts[0]), v, name, value);
      }
    }
  }

  lemma HeadPair(ts: seq<string>) returns (v: string)
    requires Wf(ts) && ts != []
    ensures ts[0] == Key(ts[0]) + "=" + v && WfName(Key(ts[0])) && NameLen(ts[0]) < |ts[0]|
  {
    KeyIsName(ts[0]);
    v := ts[0][NameLen(ts[0]) + 1..];
  }

  lemma NoMap()
    ensures AsMap([]) == map[]
  {
  }

  lemma Commute(m: map<string, string>, a: string, x: string, name: string, value: Option<string>)
    requires a != name
    ensures value.Some? ==> m[name := value.value][a := x] == m[a := x][name := value.value]
    ensures (m - {name})[a := x] == m[a := x] - {name}
  {
  }

  /** Setting a variable of a well-formed buffer is a map update if and only if the value has
      no NUL. */
  lemma SetIsMapUpdateExactly(ts: seq<string>, name: string, v: string)
    requires Wf(ts) && WfName(name)
    ensures AsMap(Set(ts, name, Some(v))) == AsMap(ts)[name := v] <==> NUL !in v
  {
    hide Wf, AsMap, Set, Lookup;
    if NUL !in v {
      SetIsMapUpdate(ts, name, Some(v));
    } else {
      ReadBackExactly(ts, name, v);
      LookupIsMap(Set(ts, name, Some(v)), name);
    }
  }

  lemma {:induction false} SetMembers(ts: seq<string>, name: string, value: Option<string>)
    requires WfName(name) && Tokens(ts)
    ensures Tokens(Set(ts, name, value))
  {
    hide NameLen;
    if value.Some? { CutTokens(name + "=" + value.value); }
    if ts != [] {
      if Key(ts[0]) == name {
        if value.Some? { CutTokens(Key(ts[0]) + [if NameLen(ts[0]) < |ts[0]| then '=' else NUL] + value.value); }
      } else {
        SetMembers(ts[1..], name, value);
      }
    }
  }

  lemma CutTokens(text: string)
    ensures Tokens(Cut(text))
  {
    FieldsJoin(text, NUL);
  }

  lemma {:induction false} SetKeepsWf(ts: seq<string>, name: string, value: Option<string>)
    requires Wf(ts) && WfName(name) && (value.Some? ==> NUL !in value.value)
    ensures Wf(Set(ts, name, value))
  {
    hide Fields, NameLen, Wf;
    if value.Some? { WrittenClean(name, value.value); }
    if ts == [] {
      NoneIsWf();
      if value.Some? {
        OneIsWf(name, value.value, ts);
        assert [name + "=" + value.value] + ts == [name + "=" + value.value];
      }
    } else {
      WfTail(ts);
      var v := HeadPair(ts);
      if Key(ts[0]) == name {
        if value.Some? { OneIsWf(name, value.value, ts[1..]); }
        assert [] + ts[1..] == ts[1..];
      } else {
        SetKeepsWf(ts[1..], name, value);
        SetIsMapUpdate(ts[1..], name, value);
        WfHead(ts);
        OneIsWf(Key(ts[0]), v, Set(ts[1..], name, value));
      }
    }
  }

  lemma NoneIsWf()
    ensures Wf([]) && AsMap([]) == map[]
  {
  }

  lemma WfHead(ts: seq<string>)
    requires Wf(ts) && ts != []
    ensures NUL !in ts[0]
  {
  }

  lemma OneIsWf(name: string, value: string, rest: seq<string>)
    requires WfName(name) && NUL !in name + "=" + value && Wf(rest) && name !in AsMap(rest)
    ensures Wf([name + "=" + value] + rest)
  {
    hide NameLen;
    KeyOfPair(name, value);
    forall i | 0 <= i < |rest| ensures Key(rest[i]) != name {
      MapKeys(rest, Key(rest[i]));
    }
  }

  // ---------------------------------------------------------------- the packed form

  lemma Assoc<T>(a: seq<T>, b: seq<T>, c: seq<T>)
    ensures a + (b + c) == (a + b) + c
  {
  }

  lemma {:induction false} PackConcat(a: seq<string>, b: seq<string>)
    ensures Pack(a + b) == Pack(a) + Pack(b)
  {
    if a == [] {
      assert a + b == b;
    } else {
      PackConcat(a[1..], b);
      assert (a + b)[1..] == a[1..] + b;
      Assoc(a[0] + [NUL], Pack(a[1..]), Pack(b));
    }
  }

  lemma SplitAround(ts: seq<string>, i: nat)
    requires i < |ts|
    ensures ts[..i + 1] == ts[..i] + [ts[i]] && ts == ts[..i + 1] + ts[i + 1..]
  {
  }

  // The buffer around token i.
  lemma PackAround(ts: seq<string>, i: nat)
    requires i < |ts|
    ensures Pack(ts) == Pack(ts[..i]) + (ts[i] + [NUL]) + Pack(ts[i + 1..])
    ensures Pack(ts[..i + 1]) == Pack(ts[..i]) + (ts[i] + [NUL])
  {
    hide Pack;
    PackOne(ts[i]);
    SplitAround(ts, i);
    PackConcat(ts[..i], [ts[i]]);
    PackConcat(ts[..i + 1], ts[i + 1..]);
  }

  lemma PackOne(t: string)
    ensures Pack([t]) == t + [NUL]
  {
    assert [t][1..] == [];
    assert (t + [NUL]) + [] == t + [NUL];
  }

  // What is written is the text and a NUL, however it is cut into tokens.
  lemma PackCut(text: string)
    ensures Pack(Cut(text)) == text + [NUL]
  {
    FieldsJoin(text, NUL);
    PackJoin(Cut(text));
  }

  lemma {:induction false} PackJoin(fs: seq<string>)
    requires |fs| > 0
    ensures Pack(fs) == JoinFields(fs, NUL) + [NUL]
  {
    if |fs| == 1 {
      assert fs == [fs[0]];
      PackOne(fs[0]);
    } else {
      PackJoin(fs[1..]);
      Assoc(fs[0] + [NUL], JoinFields(fs[1..], NUL), [NUL]);
    }
  }

  // The buffer can be read in only one way.
  lemma {:induction false} PackInjective(a: seq<string>, b: seq<string>)
    requires Tokens(a) && Tokens(b) && Pack(a) == Pack(b)
    ensures a == b
  {
    if a == [] || b == [] {
    } else {
      SamePrefix(Pack(a), a[0], b[0], NUL, Pack(a[1..]), Pack(b[1..]));
      PackInjective(a[1..], b[1..]);
      assert a == [a[0]] + a[1..] && b == [b[0]] + b[1..];
    }
  }

  lemma SamePrefix(w: string, a: string, b: string, sep: char, s: string, t: string)
    requires w == a + [sep] + s == b + [sep] + t && sep !in a && sep !in b
    ensures a == b && s == t
  {
    FirstAt(w, a, sep, s);
    FirstAt(w, b, sep, t);
  }

  // The text before the first separator is determined.
  lemma FirstAt(w: string, a: string, sep: char, s: string)
    requires w == a + [sep] + s && sep !in a
    ensures |a| < |w| && w[..|a|] == a && w[|a|] == sep && w[|a| + 1..] == s
    ensures forall k :: 0 <= k < |a| ==> w[k] != sep
  {
  }

  // Where `name` is, or would be: the first i tokens have other names.
  ghost predicate FoundAt(ts: seq<string>, name: string, i: nat, found: bool) {
    && i <= |ts|
    && (forall j :: 0 <= j < i ==> Key(ts[j]) != name)
    && (found ==> i < |ts| && Key(ts[i]) == name)
    && (!found ==> i == |ts|)
  }

  // What is put in the place of token i, or at the end.
  function Written(ts: seq<string>, name: string, value: Option<string>, i: nat, found: bool): seq<string>
    requires found ==> i < |ts|
  {
    if value.None? then [] else if found then Rewritten(ts[i], value.value) else Cut(name + "=" + value.value)
  }

  lemma {:induction false} SetAt(ts: seq<string>, name: string, value: Option<string>, i: nat, found: bool)
    requires FoundAt(ts, name, i, found)
    ensures found ==> Set(ts, name, value) == ts[..i] + Written(ts, name, value, i, found) + ts[i + 1..]
    ensures !found ==> Set(ts, name, value) == ts + Written(ts, name, value, i, found)
    ensures Lookup(ts, name) == if found then Some(ValueAt(ts, i)) else None
  {
    hide Key, Rewritten, Cut;
    if i > 0 {
      assert FoundAt(ts[1..], name, i - 1, found);
      SetAt(ts[1..], name, value, i - 1, found);
      HeadOff(ts, i, Written(ts, name, value, i, found), found);
    } else if found {
      assert ts[..0] == [];
    }
  }

  lemma HeadOff(ts: seq<string>, i: nat, x: seq<string>, found: bool)
    requires 0 < i <= |ts| && (found ==> i < |ts|)
    ensures ts == [ts[0]] + ts[1..] && [ts[0]] + (ts[1..] + x) == ts + x
    ensures found ==> [ts[0]] + (ts[1..][..i - 1] + x + ts[1..][i..]) == ts[..i] + x + ts[i + 1..]
  {
    assert ts[..i] == [ts[0]] + ts[1..][..i - 1];
    assert found ==> ts[1..][i..] == ts[i + 1..];
  }

  // ---------------------------------------------------------------- memory

  method MemCopy(buf: array<char>, dst: nat, s: string)
    requires dst + |s| <= buf.Length
    modifies buf
    ensures buf[dst..dst + |s|] == s
    ensures buf[..dst] == old(buf[..dst]) && buf[dst + |s|..] == old(buf[dst + |s|..])
  {
    forall k | 0 <= k < |s| {
      buf[dst + k] := s[k];
    }
  }

  class Vars {
    var buf: array<char>
    var len: nat
    const pooled: bool
    var grants: seq<bool>          // what realloc() has answered so far
    ghost var tokens: seq<string>

    ghost predicate Valid()
      reads this, buf
    {
      len <= buf.Length && buf[..len] == Pack(tokens) && Tokens(tokens)
    }

    constructor (pool: bool, capacity: nat)
      ensures Valid() && tokens == [] && pooled == pool && buf.Length == capacity && fresh(buf) && grants == []
    {
      buf := new char[capacity];
      len, pooled, grants, tokens := 0, pool, [], [];
    }

    // realloc: it may fail, and otherwise keeps the contents.
    method Realloc(size: nat) returns (moved: array?<char>)
      requires len <= buf.Length && len <= size
      modifies this`grants
      ensures grants == old(grants) + [moved != null]
      ensures moved != null ==> fresh(moved) && moved.Length == size && moved[..len] == buf[..len]
    {
      var fails: bool := *;
      grants := grants + [!fails];
      if fails {
        return null;
      }
      var a := new char[size];
      forall k | 0 <= k < len {
        a[k] := buf[k];
      }
      return a;
    }

    /** Whether a variable could be set: always if the text does not get longer; else a pool must have the room,
        and without one realloc, asked once, must grant it. */
    ghost predicate Decided(was: seq<string>, capacity: nat, before: seq<bool>, name: string,
                            value: Option<string>, ok: bool)
      reads this`grants
    {
      DecidedBy(|Pack(was)|, |Pack(Set(was, name, value))|, capacity, before, ok)
    }

    ghost predicate DecidedBy(size: nat, size': nat, capacity: nat, before: seq<bool>, ok: bool)
      reads this`grants
    {
      && (size' <= size ==> ok)
      && (pooled ==> ok == (size' <= capacity))
      && grants == if !pooled && size' > size then before + [ok] else before
    }

    // strseg_tok_next within the buffer: the distance to the next separator.
    method Scan(pos: nat, n: nat, sep: char) returns (k: nat)
      requires pos + n <= buf.Length
      ensures k <= n && sep !in buf[pos..pos + k] && (k < n ==> buf[pos + k] == sep)
    {
      k := 0;
      while k < n && buf[pos + k] != sep
        invariant k <= n && sep !in buf[pos..pos + k]
      {
        k := k + 1;
      }
    }

    // The text at the beginning of token i, or the end of the buffer.
    method ReadToken(pos: nat, ghost i: nat) returns (n: nat)
      requires Valid() && i <= |tokens| && pos == |Pack(tokens[..i])| <= len
      ensures i == |tokens| ==> n == 0 && pos == len
      ensures i < |tokens| ==> n == |tokens[i]| && pos + n < len && buf[pos..pos + n] == tokens[i]
      ensures i < |tokens| ==> |Pack(tokens[..i + 1])| == pos + n + 1 <= len
    {
      hide Pack;
      if pos == len {
        AtEnd(tokens, i);
        return 0;
      }
      ghost var w := buf[..len];
      AtEnd(tokens, i);
      TokenAt(tokens, i, w);
      n := Scan(pos, len - pos, NUL);
      SliceOfPrefix(buf, len, pos, n);
      FirstOf(w, pos, n, NUL, |tokens[i]|);
    }

    // The search loop shared by svc_get_var and svc_set_var; a token without `=` gives length -1.
    method Locate(name: string) returns (found: bool, valuePos: nat, valueLen: int, tail: nat, ghost i: nat)
      requires Valid()
      ensures FoundAt(tokens, name, i, found)
      ensures found ==> tail == |Pack(tokens[..i + 1])| == |Pack(tokens[..i])| + |tokens[i]| + 1 <= len
      ensures found ==> valuePos == |Pack(tokens[..i])| + |name| + 1 && valueLen == |tokens[i]| - |name| - 1
      ensures !found ==> tail == len
    {
      hide Pack, Cmp, NameLen;
      tail, i, found, valuePos, valueLen := 0, 0, false, 0, 0;
      PackStart(tokens);
      while tail < len
        invariant i <= |tokens| && tail == |Pack(tokens[..i])| <= len
        invariant forall j :: 0 <= j < i ==> Key(tokens[j]) != name
      {
        var pos := tail;
        AtEnd(tokens, i);
        var n := ReadToken(pos, i);
        var k := Scan(pos, n, '=');
        SubSlice(buf, pos, n, k);
        KeyScanned(tokens[i], buf[pos..pos + n], k);
        tail := pos + n + 1;
        valuePos := pos + k + 1;
        var after: int := n;
        valueLen := after - k - 1;
        var c := Compare(buf[pos..pos + k], name);
        CmpEqual(buf[pos..pos + k], name);
        if c == 0 {
          found := true;
          return;
        }
        i := i + 1;
      }
      AtEnd(tokens, i);
    }

    // svc_get_var, with the text that its callers read at the value's position
    method GetVar(name: string) returns (value: Option<string>)
      requires Valid()
      ensures value == Lookup(tokens, name)
      ensures value == if name in AsMap(tokens) then Some(AsMap(tokens)[name]) else None
    {
      hide Pack, AsMap, Lookup, NameLen, Set;
      var found, pos, valueLen, tail;
      ghost var i;
      found, pos, valueLen, tail, i := Locate(name);
      SetAt(tokens, name, None, i, found);
      LookupIsMap(tokens, name);
      if found {
        var n;
        if valueLen >= 0 {
          ValueIn(tokens, i, buf[..len], name);
          n := valueLen;
          SliceOfPrefix(buf, len, pos, n);
        } else {
          BareKey(tokens[i], name);
          n := ReadToken(pos, i + 1);
          assert buf[pos..pos] == "";
        }
        return Some(buf[pos..pos + n]);
      }
      return None;
    }

    // Make room for `growth` more characters, unless the pool or the allocator refuses.
    method Grow(growth: nat) returns (ok: bool)
      requires len <= buf.Length && growth > 0
      modifies this`buf, this`grants
      ensures len <= buf.Length && buf[..len] == old(buf[..len]) && (buf == old(buf) || (fresh(buf) && !pooled))
      ensures if ok then len + growth <= buf.Length else buf == old(buf)
      ensures DecidedBy(len, len + growth, old(buf.Length), old(grants), ok)
    {
      if pooled {
        return len + growth <= buf.Length;
      }
      var moved := Realloc(len + growth);
      if moved == null {
        return false;
      }
      buf := moved;
      return true;
    }

    // Move the text from `tail` on by `shift` and adjust the length.
    method ShiftTail(tail: nat, shift: int)
      requires tail <= len <= buf.Length && 0 <= tail + shift && len + shift <= buf.Length
      modifies this`len, buf
      ensures len == old(len) + shift
      ensures buf[tail + shift..len] == old(buf[tail..len])
      ensures shift >= 0 ==> buf[..tail] == old(buf[..tail])
      ensures shift < 0 ==> buf[..tail + shift] == old(buf[..tail + shift])
    {
      var tailLen := len - tail;
      len := len + shift;
      if shift != 0 && tailLen > 0 {
        MemMove(buf, tail + shift, tail, tailLen);
        assert shift > 0 ==> buf[..tail] == buf[..tail + shift][..tail];
      }
    }

    // Overwrite the value at `pos`; the text after it has already been moved.
    method PutValue(pos: nat, value: string)
      requires pos + |value| < len <= buf.Length
      modifies buf
      ensures buf[..len] == old(buf[..pos]) + value + [NUL] + old(buf[pos + |value| + 1..len])
    {
      MemCopy(buf, pos, value);
      buf[pos + |value|] := NUL;
      assert buf[pos + |value| + 1..len] == buf[pos + |value| + 1..][..len - (pos + |value| + 1)];
      assert buf[..len] == buf[..pos] + buf[pos..pos + |value|] + [buf[pos + |value|]] + buf[pos + |value| + 1..len];
    }

    method PutName(pos: nat, name: string)
      requires pos + |name| < buf.Length
      modifies buf
      ensures buf[..pos + |name| + 1] == old(buf[..pos]) + name + ['=']
    {
      MemCopy(buf, pos, name);
      buf[pos + |name|] := '=';
    }

    // The editing part of svc_set_var.
    method Patch(name: string, value: Option<string>, found: bool, valuePos: nat, valueLen: int, tail: nat)
      returns (ok: bool)
      requires len <= buf.Length && tail <= len
      requires found ==> |name| + 1 <= valuePos <= valuePos + valueLen + 1 == tail
      requires !found ==> tail == len
      modifies this`buf, this`len, this`grants, buf
      ensures ok ==> len <= buf.Length && buf[..len] == Patched(old(buf[..len]), found, name, value, valuePos, tail)
      ensures !ok ==> buf == old(buf) && len == old(len) && buf[..] == old(buf[..])
      ensures buf == old(buf) || (fresh(buf) && !pooled)
      ensures var w := old(buf[..len]);
        DecidedBy(|w|, |Patched(w, found, name, value, valuePos, tail)|, old(buf.Length), old(grants), ok)
      ensures !ok ==> value.Some?
    {
      ghost var w := buf[..len];
      var sizediff: int :=
        if found then (if value.Some? then |value.value| - valueLen else -(valueLen + 1 + |name| + 1))
        else (if value.Some? then |name| + 1 + |value.value| + 1 else 0);
      if sizediff > 0 {
        ok := Grow(sizediff);
        if !ok {
          return;
        }
      }
      Edit(name, value, found, valuePos, tail, sizediff);
      return true;
    }

    method Edit(name: string, value: Option<string>, found: bool, valuePos: nat, tail: nat, sizediff: int)
      requires tail <= len && 0 <= tail + sizediff && len <= buf.Length && len + sizediff <= buf.Length
      requires found ==> |name| + 1 <= valuePos <= tail
      requires found && value.Some? ==> tail + sizediff == valuePos + |value.value| + 1
      requires found && value.None? ==> tail + sizediff == valuePos - |name| - 1
      requires !found ==> tail == len && sizediff == if value.Some? then |name| + 1 + |value.value| + 1 else 0
      modifies this`len, buf
      ensures len <= buf.Length && buf[..len] == Patched(old(buf[..len]), found, name, value, valuePos, tail)
    {
      ghost var w := buf[..len];
      if !found && value.Some? {
        Append(name, value.value, sizediff);
      } else if value.Some? {
        PrefixOfPrefix(buf, len, valuePos);
        TailOfPrefix(buf, len, tail);
        Overwrite(valuePos, value.value, tail, sizediff);
      } else {
        PrefixOfPrefix(buf, len, tail + sizediff);
        TailOfPrefix(buf, len, tail);
        Remove(tail, sizediff);
        assert !found ==> w[..tail] + w[tail..] == w;
      }
    }

    method Overwrite(pos: nat, value: string, tail: nat, sizediff: int)
      requires pos <= tail <= len <= buf.Length && len + sizediff <= buf.Length && tail + sizediff == pos + |value| + 1
      modifies this`len, buf
      ensures len <= buf.Length && buf[..len] == old(buf[..pos]) + value + [NUL] + old(buf[tail..len])
    {
      ghost var kept := if sizediff >= 0 then tail else tail + sizediff;
      PrefixOfPrefix(buf, kept, pos);
      ShiftTail(tail, sizediff);
      PrefixOfPrefix(buf, kept, pos);
      PutValue(pos, value);
    }

    method Remove(tail: nat, sizediff: int)
      requires tail <= len <= buf.Length && 0 <= tail + sizediff && sizediff <= 0
      modifies this`len, buf
      ensures len <= buf.Length && buf[..len] == old(buf[..tail + sizediff]) + old(buf[tail..len])
    {
      ShiftTail(tail, sizediff);
      assert buf[..len] == buf[..tail + sizediff] + buf[tail + sizediff..len];
    }

    method Append(name: string, value: string, sizediff: int)
      requires len + sizediff <= buf.Length && sizediff == |name| + 1 + |value| + 1
      modifies this`len, buf
      ensures len <= buf.Length && buf[..len] == old(buf[..len]) + name + "=" + value + [NUL]
    {
      var tail := len;
      ShiftTail(tail, sizediff);
      PutName(tail, name);
      PutValue(tail + |name| + 1, value);
      assert buf[len..len] == [];
    }

    // svc_set_var; None is the NULL value that removes the variable.
    method SetVar(name: string, value: Option<string>) returns (ok: bool)
      requires Valid() && WfName(name)
      modifies this, buf
      ensures Valid() && (buf == old(buf) || (fresh(buf) && !pooled))
      ensures ok ==> tokens == Set(old(tokens), name, value)
      ensures ok && old(Wf(tokens)) && (value.Some? ==> NUL !in value.value) ==> Wf(tokens)
      ensures ok && old(Wf(tokens)) && value.Some? && NUL !in value.value ==>
        AsMap(tokens) == old(AsMap(tokens))[name := value.value]
      ensures ok && old(Wf(tokens)) && value.None? ==> AsMap(tokens) == old(AsMap(tokens)) - {name}
      ensures !ok ==>
        value.Some? && tokens == old(tokens) && buf == old(buf) && len == old(len) && buf[..] == old(buf[..])
      ensures Decided(old(tokens), old(buf.Length), old(grants), name, value, ok)
    {
      hide Pack, AsMap, Set, Wf, Tokens, NameLen;
      var found, pos, n, tail;
      ghost var i;
      found, pos, n, tail, i := Locate(name);
      PatchedIsSet(tokens, name, value, i, found, pos, tail);
      SetMembers(tokens, name, value);
      if Wf(tokens) && (value.Some? ==> NUL !in value.value) {
        SetKeepsWf(tokens, name, value);
        SetIsMapUpdate(tokens, name, value);
      }
      ok := Patch(name, value, found, pos, n, tail);
      if ok {
        tokens := Set(tokens, name, value);
      }
    }
  }

  lemma PrefixOfPrefix(a: array<char>, len: nat, n: nat)
    requires n <= len <= a.Length
    ensures a[..len][..n] == a[..n]
  {
  }

  lemma SubSlice(a: array<char>, p: nat, n: nat, k: nat)
    requires k <= n && p + n <= a.Length
    ensures a[p..p + n][..k] == a[p..p + k] && (k < n ==> a[p..p + n][k] == a[p + k])
  {
    var u, v := a[p..p + n][..k], a[p..p + k];
    assert |u| == |v| && forall i :: 0 <= i < k ==> u[i] == v[i];
  }

  lemma TailOfPrefix(a: array<char>, len: nat, p: nat)
    requires p <= len <= a.Length
    ensures a[..len][p..] == a[p..len]
  {
  }

  lemma SliceOfPrefix(a: array<char>, len: nat, p: nat, n: nat)
    requires p + n <= len <= a.Length
    ensures a[..len][p..p + n] == a[p..p + n]
  {
    var u, v := a[..len][p..p + n], a[p..p + n];
    assert |u| == |v| && forall i :: 0 <= i < n ==> u[i] == v[i];
  }

  lemma KeyScanned(t: string, s: string, k: nat)
    requires s == t && k <= |t| && '=' !in s[..k] && (k < |t| ==> t[k] == '=')
    ensures k == NameLen(t) && s[..k] == Key(t)
  {
    KeyOfPair(t[..k], if k < |t| then t[k + 1..] else "");
    KeyOfBare(t[..k]);
    if k < |t| {
      assert t == t[..k] + "=" + t[k + 1..];
    } else {
      assert t == t[..k];
    }
  }

  lemma BareKey(t: string, name: string)
    requires Key(t) == name && |t| - |name| - 1 < 0
    ensures t == name && NameLen(t) == |t|
  {
  }

  // The value of token i, where the search says that it is.
  lemma ValueIn(ts: seq<string>, i: nat, w: string, name: string)
    requires i < |ts| && w == Pack(ts) && Key(ts[i]) == name && |name| < |ts[i]|
    ensures var p := |Pack(ts[..i])| + |name| + 1; var n := |ts[i]| - |name| - 1;
      p + n <= |w| && w[p..p + n] == ValueAt(ts, i)
  {
    hide Pack;
    PackAround(ts, i);
    MiddleSlice(Pack(ts[..i]), ts[i], Pack(ts[i + 1..]), |name| + 1);
  }

  lemma MiddleSlice(a: string, t: string, b: string, k: nat)
    requires k <= |t|
    ensures (a + (t + [NUL]) + b)[|a| + k..|a| + |t|] == t[k..]
  {
  }

  // What the new buffer must hold, in terms of the old one.
  ghost function Patched(w: string, found: bool, name: string, value: Option<string>, valuePos: nat, tail: nat): string
    requires tail <= |w| && (found ==> |name| + 1 <= valuePos <= tail)
  {
    if found then
      if value.Some? then w[..valuePos] + value.value + [NUL] + w[tail..] else w[..valuePos - |name| - 1] + w[tail..]
    else
      if value.Some? then w + (name + "=" + value.value + [NUL]) else w
  }

  lemma PatchedIsSet(ts: seq<string>, name: string, value: Option<string>, i: nat, found: bool, valuePos: nat,
                     tail: nat)
    requires FoundAt(ts, name, i, found)
    requires found ==> valuePos == |Pack(ts[..i])| + |name| + 1 && tail == |Pack(ts[..i])| + |ts[i]| + 1
    requires !found ==> tail == |Pack(ts)|
    ensures tail <= |Pack(ts)| && (found ==> |name| + 1 <= valuePos <= tail)
    ensures Patched(Pack(ts), found, name, value, valuePos, tail) == Pack(Set(ts, name, value))
  {
    hide Pack, Set, Cut, NameLen;
    SetAt(ts, name, value, i, found);
    var x := Written(ts, name, value, i, found);
    WrittenText(ts, name, value, i, found);
    if found {
      PackAround(ts, i);
      PatchToken(Pack(ts), Pack(ts[..i]), ts[i], Pack(ts[i + 1..]), value);
      PackConcat(ts[..i] + x, ts[i + 1..]);
      PackConcat(ts[..i], x);
      hide Patched;
      assert value.None? ==> Pack(ts[..i]) + [] == Pack(ts[..i]);
    } else {
      PackConcat(ts, x);
      assert value.None? ==> Pack(ts) + [] == Pack(ts);
    }
  }

  lemma WrittenText(ts: seq<string>, name: string, value: Option<string>, i: nat, found: bool)
    requires found ==> i < |ts|
    ensures value.None? ==> Pack(Written(ts, name, value, i, found)) == []
    ensures value.Some? && !found ==> Pack(Written(ts, name, value, i, found)) == name + "=" + value.value + [NUL]
    ensures value.Some? && found ==>
      Pack(Written(ts, name, value, i, found)) ==
      Key(ts[i]) + [if NameLen(ts[i]) < |ts[i]| then '=' else NUL] + value.value + [NUL]
  {
    hide Pack, Cut, NameLen;
    NoPack();
    if value.Some? {
      PackCut(if found then Key(ts[i]) + [if NameLen(ts[i]) < |ts[i]| then '=' else NUL] + value.value
              else name + "=" + value.value);
    }
  }

  lemma NoPack()
    ensures Pack([]) == []
  {
  }

  lemma PatchToken(w: string, a: string, t: string, b: string, value: Option<string>)
    requires w == a + (t + [NUL]) + b
    ensures |a| + |Key(t)| + 1 <= |a| + |t| + 1 <= |w|
    ensures Patched(w, true, Key(t), value, |a| + |Key(t)| + 1, |a| + |t| + 1)
         == if value.Some? then a + (Key(t) + [if NameLen(t) < |t| then '=' else NUL] + value.value + [NUL]) + b
            else a + b
  {
    var p, e := |a| + |Key(t)| + 1, |a| + |t| + 1;
    var sep := if NameLen(t) < |t| then '=' else NUL;
    assert w[e..] == b && w[..|a|] == a;
    assert w[..p] == a + Key(t) + [sep];
  }

  lemma PackStart(ts: seq<string>)
    ensures Pack(ts[..0]) == [] && ts[..|ts|] == ts
  {
    assert ts[..0] == [];
  }

  // The tokens end where the buffer does.
  lemma AtEnd(ts: seq<string>, i: nat)
    requires i <= |ts|
    ensures |Pack(ts[..i])| == |Pack(ts)| <==> i == |ts|
  {
    hide Pack;
    if i == |ts| {
      assert ts[..i] == ts;
    } else {
      PackAround(ts, i);
    }
  }

  // The text at the beginning of token i.
  lemma TokenAt(ts: seq<string>, i: nat, w: string)
    requires Tokens(ts) && w == Pack(ts) && i < |ts|
    ensures var p := |Pack(ts[..i])|; var n := |ts[i]|;
      && p + n < |w| && |Pack(ts[..i + 1])| == p + n + 1
      && w[p + n] == NUL && NUL !in w[p..p + n] && w[p..p + n] == ts[i]
  {
    hide Pack;
    PackAround(ts, i);
    MiddleSlice(Pack(ts[..i]), ts[i], Pack(ts[i + 1..]), 0);
    assert ts[i][0..] == ts[i];
  }

  lemma FirstOf(w: string, pos: nat, k: nat, sep: char, n: nat)
    requires pos + k <= |w| && pos + n < |w| && sep !in w[pos..pos + k] && (pos + k < |w| ==> w[pos + k] == sep)
    requires w[pos + n] == sep && sep !in w[pos..pos + n]
    ensures k == n
  {
  }
}
