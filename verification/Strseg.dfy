/** Length-terminated strings: ordering and tokenizing (src/strseg.c). */
module Strseg {

  // ---------------------------------------------------------------- order

  // The sign conventions of a comparison function over a total order.
  ghost predicate TotalOrder<K(!new)>(cmp: (K, K) -> int) {
    && (forall a, b :: cmp(a, b) < 0 <==> cmp(b, a) > 0)
    && (forall a, b, c :: cmp(a, b) <= 0 && cmp(b, c) <= 0 ==> cmp(a, c) <= 0)
    && (forall a, b, c :: cmp(a, b) < 0 && cmp(b, c) <= 0 ==> cmp(a, c) < 0)
    && (forall a, b, c :: cmp(a, b) <= 0 && cmp(b, c) < 0 ==> cmp(a, c) < 0)
  }

  // Dictionary order: a prefix comes before its extensions.
  function Cmp(a: string, b: string): int {
    if a == [] || b == [] then
      if |a| < |b| then -1 else if |a| > |b| then 1 else 0
    else if a[0] != b[0] then
      if a[0] < b[0] then -1 else 1
    else
      Cmp(a[1..], b[1..])
  }

  lemma CmpFrom(a: string, b: string, i: nat)
    requires i <= |a| && i <= |b|
    ensures i == |a| || i == |b| ==> Cmp(a[i..], b[i..]) == if |a| < |b| then -1 else if |a| > |b| then 1 else 0
    ensures i < |a| && i < |b| && a[i] != b[i] ==> Cmp(a[i..], b[i..]) == if a[i] < b[i] then -1 else 1
    ensures i < |a| && i < |b| && a[i] == b[i] ==> Cmp(a[i..], b[i..]) == Cmp(a[i + 1..], b[i + 1..])
  {
    if i < |a| && i < |b| { assert a[i..][1..] == a[i + 1..] && b[i..][1..] == b[i + 1..]; }
  }

  // strseg_cmp
  method Compare(a: string, b: string) returns (r: int)
    ensures r == Cmp(a, b)
  {
    hide Cmp;
    assert a[0..] == a && b[0..] == b;
    var i := 0;
    while i < |a| && i < |b|
      invariant i <= |a| && i <= |b| && Cmp(a, b) == Cmp(a[i..], b[i..])
    {
      CmpFrom(a, b, i);
      if a[i] != b[i] {
        return if a[i] < b[i] then -1 else 1;
      }
      i := i + 1;
    }
    CmpFrom(a, b, i);
    return if |a| < |b| then -1 else if |a| > |b| then 1 else 0;
  }

  lemma {:induction false} CmpEqual(a: string, b: string)
    ensures Cmp(a, b) == 0 <==> a == b
  {
    if a != [] && b != [] {
      CmpEqual(a[1..], b[1..]);
      assert a == [a[0]] + a[1..] && b == [b[0]] + b[1..];
    }
  }

  lemma {:induction false} CmpFlip(a: string, b: string)
    ensures Cmp(a, b) < 0 <==> Cmp(b, a) > 0
  {
    if a != [] && b != [] { CmpFlip(a[1..], b[1..]); }
  }

  lemma {:induction false} CmpTransitive(a: string, b: string, c: string)
    ensures Cmp(a, b) <= 0 && Cmp(b, c) <= 0 ==> Cmp(a, c) <= 0
    ensures Cmp(a, b) < 0 && Cmp(b, c) <= 0 ==> Cmp(a, c) < 0
    ensures Cmp(a, b) <= 0 && Cmp(b, c) < 0 ==> Cmp(a, c) < 0
  {
    if a != [] && b != [] && c != [] { CmpTransitive(a[1..], b[1..], c[1..]); }
  }

  // strseg_cmp is a total order on strings, and equality is equality of strings.
  lemma CmpTotalOrder()
    ensures TotalOrder(Cmp)
  {
    forall a: string, b: string ensures Cmp(a, b) < 0 <==> Cmp(b, a) > 0 { CmpFlip(a, b); }
    forall a: string, b: string, c: string
      ensures Cmp(a, b) <= 0 && Cmp(b, c) <= 0 ==> Cmp(a, c) <= 0
      ensures Cmp(a, b) < 0 && Cmp(b, c) <= 0 ==> Cmp(a, c) < 0
      ensures Cmp(a, b) <= 0 && Cmp(b, c) < 0 ==> Cmp(a, c) < 0
    {
      CmpTransitive(a, b, c);
    }
  }

  // ---------------------------------------------------------------- tokens

  // A segment; `Done` is the length -1 that marks a used-up segment.
  datatype Segment = Text(chars: string) | Done

  // The fields of a separated string: one more than it has separators.
  function Fields(s: string, sep: char): (f: seq<string>)
    ensures |f| > 0
  {
    if s == [] then [""]
    else
      var rest := Fields(s[1..], sep);
      if s[0] == sep then [""] + rest else [[s[0]] + rest[0]] + rest[1..]
  }

  function JoinFields(f: seq<string>, sep: char): string
    requires |f| > 0
  {
    if |f| == 1 then f[0] else f[0] + [sep] + JoinFields(f[1..], sep)
  }

  // No field contains the separator, and putting the separators back gives the string.
  lemma {:induction false} FieldsJoin(s: string, sep: char)
    ensures JoinFields(Fields(s, sep), sep) == s
    ensures forall i :: 0 <= i < |Fields(s, sep)| ==> sep !in Fields(s, sep)[i]
  {
    if s != [] {
      var rest := Fields(s[1..], sep);
      FieldsJoin(s[1..], sep);
      if s[0] == sep {
        assert ([""] + rest)[1..] == rest;
        assert JoinFields(Fields(s, sep), sep) == "" + [sep] + s[1..];
      } else {
        var f := [[s[0]] + rest[0]] + rest[1..];
        assert f[1..] == rest[1..];
        if |rest| > 1 {
          assert JoinFields(f, sep) == ([s[0]] + rest[0]) + [sep] + JoinFields(rest[1..], sep);
          assert ([s[0]] + rest[0]) + [sep] + JoinFields(rest[1..], sep) ==
            [s[0]] + (rest[0] + [sep] + JoinFields(rest[1..], sep));
        }
        assert s == [s[0]] + s[1..];
      }
    }
  }

  lemma {:induction false} FieldsHead(s: string, sep: char, n: nat)
    requires n <= |s| && sep !in s[..n]
    ensures n == |s| ==> Fields(s, sep) == [s]
    ensures n < |s| && s[n] == sep ==> Fields(s, sep) == [s[..n]] + Fields(s[n + 1..], sep)
  {
    if n > 0 {
      assert s[1..][..n - 1] == s[..n][1..];
      FieldsHead(s[1..], sep, n - 1);
      assert s[0] in s[..n];
      assert [s[0]] + s[1..] == s;
      if n < |s| && s[n] == sep {
        assert s[1..][n..] == s[n + 1..];
        var tail := Fields(s[n + 1..], sep);
        assert ([s[1..][..n - 1]] + tail)[1..] == tail;
        assert [s[0]] + s[1..][..n - 1] == s[..n];
      }
    }
  }

  function RemainingFields(seg: Segment, sep: char): seq<string> {
    if seg.Done? then [] else Fields(seg.chars, sep)
  }

  // strseg_tok_next
  method NextToken(seg: Segment, sep: char) returns (found: bool, token: string, rest: Segment)
    ensures found == seg.Text?
    ensures !found ==> rest == seg
    ensures found ==> RemainingFields(seg, sep) == [token] + RemainingFields(rest, sep)
    ensures found ==> rest.Done? || |rest.chars| < |seg.chars|
  {
    if seg.Done? {
      return false, "", seg;
    }
    var p, len := seg.chars, 0;
    while len < |p| && p[len] != sep
      invariant len <= |p| && sep !in p[..len]
    {
      len := len + 1;
    }
    FieldsHead(p, sep, len);
    assert len == |p| ==> p[..len] == p;
    return true, p[..len], if len < |p| then Text(p[len + 1..]) else Done;
  }
}
