/** The generated command table: scripts/generate_controller_data.pl searches hash
    parameters without collisions using wide integers, and the C code it emits
    looks commands up with 32-bit wrapping arithmetic.
  */
module CommandHash {
  import opened Common

  type Byte = b: int | 0 <= b < 256
  type Name = seq<Byte>

  const TWO31: int := 0x8000_0000
  const TWO32: int := 0x1_0000_0000
  const TWO63: int := 0x8000_0000_0000_0000
  const TWO64: int := 0x1_0000_0000_0000_0000

  // A product in Perl's `use integer`: signed 64-bit, wrapping.
  function Signed64(x: int): int { (x + TWO63) % TWO64 - TWO63 }

  // One round of hash_fn in the generator.
  function PerlRound(r: int, mul: nat, shift: nat, b: Byte): int
    requires shift <= 32
  {
    (Signed64(r * mul) / Pow2(shift)) % Pow2(32 - shift) + b
  }

  // The product in the emitted C: a multiplier that is no int is a long, and then the product has 64 bits.
  function CProduct(x: int, mul: nat): int {
    if mul < TWO31 then (x * mul) % TWO32 else Signed64(x * mul)
  }

  // One round of the emitted ctl_command_hash_func.
  function CRound(x: int, mul: nat, shift: nat, b: Byte): int {
    (CProduct(x, mul) / Pow2(shift) + b) % TWO32
  }

  function PerlState(name: Name, mul: nat, shift: nat): int
    requires shift <= 32
  {
    if name == [] then 0 else PerlRound(PerlState(name[..|name| - 1], mul, shift), mul, shift, name[|name| - 1])
  }

  function CState(name: Name, mul: nat, shift: nat): int {
    if name == [] then 0 else CRound(CState(name[..|name| - 1], mul, shift), mul, shift, name[|name| - 1])
  }

  // ---------------------------------------------------------------- the two hashes agree

  lemma Pow32()
    ensures Pow2(32) == TWO32
  {
    assert Pow2(8) == 256;
    PowSplit(8, 8);
    PowSplit(16, 16);
  }

  lemma {:induction false} PowSplit(a: nat, b: nat)
    ensures Pow2(a + b) == Pow2(a) * Pow2(b)
  {
    if a > 0 { PowSplit(a - 1, b); }
  }

  // floor(x / a) and then the low part: the bits between are those of x modulo a * b.
  lemma DivMod(x: int, a: int, b: int)
    requires a > 0 && b > 0
    ensures a * b > 0 && (x / a) % b == (x % (a * b)) / a
  {
    var q, r := x / a, x % a;
    var u, v := q / b, q % b;
    MulPositive(a, b);
    TwoDigits(x, a, b, u, v, r);
    ModUnique(x, a * b, u, v * a + r);
    DivUnique(v * a + r, a, v, r);
  }

  // x with digits u, v, r in the mixed base a, b.
  lemma TwoDigits(x: int, a: int, b: int, u: int, v: int, r: int)
    requires a > 0 && b > 0 && x == (u * b + v) * a + r && 0 <= v < b && 0 <= r < a
    ensures x == u * (a * b) + (v * a + r) && 0 <= v * a + r < a * b
  {
    Expand(u, b, v, a, r);
    MulMono(v, b - 1, a);
    Expand(1, b, -1, a, 0);
  }

  lemma MulPositive(a: int, b: int)
    requires a > 0 && b > 0
    ensures a * b > 0
  {
  }

  lemma MulMono(v: int, w: int, a: int)
    requires 0 <= v <= w && a > 0
    ensures 0 <= v * a <= w * a
  {
  }

  lemma Expand(u: int, b: int, v: int, a: int, r: int)
    ensures (u * b + v) * a + r == u * (a * b) + (v * a + r)
  {
  }

  lemma ModUnique(x: int, m: int, q: int, r: int)
    requires m > 0 && x == q * m + r && 0 <= r < m
    ensures x % m == r && x / m == q
  {
    SameQuotient(m, q, r, x / m, x % m);
  }

  lemma SameQuotient(m: int, q: int, r: int, q': int, r': int)
    requires m > 0 && q * m + r == q' * m + r' && 0 <= r < m && 0 <= r' < m
    ensures q == q' && r == r'
  {
    if q < q' {
      MulMono(1, q' - q, m);
    } else if q' < q {
      MulMono(1, q - q', m);
    }
  }

  lemma DivUnique(w: int, a: int, v: int, r: int)
    requires a > 0 && w == v * a + r && 0 <= r < a
    ensures w / a == v
  {
    ModUnique(w, a, v, r);
  }

  // Wrapping a product to 64 bits does not touch its low 32 bits.
  lemma LowBits(x: int)
    ensures Signed64(x) % TWO32 == x % TWO32
  {
  }

  lemma ModMul(r: int, x: int, k: int, m: int)
    requires m > 0 && r % m == x % m
    ensures (r * k) % m == (x * k) % m
  {
    var d := r / m - x / m;
    assert r - x == d * m;
    assert r * k == x * k + (d * k) * m by { Distribute(r, x, d, k, m); }
    var q, p := (x * k) / m, (x * k) % m;
    assert r * k == (q + d * k) * m + p;
    ModUnique(r * k, m, q + d * k, p);
  }

  lemma Distribute(r: int, x: int, d: int, k: int, m: int)
    requires r - x == d * m
    ensures r * k == x * k + (d * k) * m
  {
    assert (r - x) * k == (d * m) * k;
  }

  lemma ModMod(r: int, a: int, b: int)
    requires a > 0 && b > 0
    ensures a * b > 0 && (r % (a * b)) % a == r % a
  {
    MulPositive(a, b);
    var q, w := r / (a * b), r % (a * b);
    var u, v := w / a, w % a;
    assert r == (q * b + u) * a + v by { Expand(q, b, u, a, v); }
    ModUnique(r, a, q * b + u, v);
  }

  lemma NarrowRoundsAgree(r: int, x: int, mul: nat, shift: nat, b: Byte)
    requires shift <= 32 && mul < TWO31 && r % TWO32 == x % TWO32
    ensures PerlRound(r, mul, shift, b) % TWO32 == CRound(x, mul, shift, b)
  {
    Pow32();
    PowSplit(shift, 32 - shift);
    DivMod(Signed64(r * mul), Pow2(shift), Pow2(32 - shift));
    LowBits(r * mul);
    ModMul(r, x, mul, TWO32);
  }

  lemma UnshiftedRoundsAgree(r: int, x: int, mul: nat, b: Byte)
    requires r % TWO32 == x % TWO32
    ensures PerlRound(r, mul, 0, b) % TWO32 == CRound(x, mul, 0, b)
  {
    Pow32();
    ModMul(r, x, mul, TWO32);
    Unshifted(r * mul, x * mul, b);
    assert Pow2(0) == 1;
  }

  lemma Unshifted(p: int, q: int, b: Byte)
    requires p % TWO32 == q % TWO32
    ensures (Signed64(p) / 1 % TWO32 + b) % TWO32 == (Signed64(q) / 1 + b) % TWO32 == (q % TWO32 / 1 + b) % TWO32
  {
    LowBits(p);
    LowBits(q);
    AddMod(Signed64(q), b);
    AddMod(q, b);
  }

  lemma AddMod(x: int, b: int)
    ensures (x % TWO32 + b) % TWO32 == (x + b) % TWO32
  {
  }

  // The shift takes no bits that only one of the two products has.
  predicate SafeShift(mul: nat, shift: nat) { mul < TWO31 || shift == 0 }

  // For every string, the two hashes agree modulo 2 to the 32.
  lemma {:induction false} StatesAgree(name: Name, mul: nat, shift: nat)
    requires shift <= 32 && SafeShift(mul, shift)
    ensures PerlState(name, mul, shift) % TWO32 == CState(name, mul, shift) % TWO32
  {
    hide PerlRound, CRound, Pow2;
    if name != [] {
      var prev, b := name[..|name| - 1], name[|name| - 1];
      var r, x := PerlState(prev, mul, shift), CState(prev, mul, shift);
      StatesAgree(prev, mul, shift);
      if shift == 0 {
        UnshiftedRoundsAgree(r, x, mul, b);
      } else {
        NarrowRoundsAgree(r, x, mul, shift, b);
      }
      Reduced(CRound(x, mul, shift, b));
      CRoundIsWord(x, mul, shift, b);
    }
  }

  // For multipliers of 32 bits, that is the exact condition: otherwise the string 2 0 tells them apart.
  lemma AgreeExactly(mul: nat, shift: nat)
    requires shift <= 32 && mul < TWO32
    ensures SafeShift(mul, shift) <==>
            forall name: Name :: PerlState(name, mul, shift) % TWO32 == CState(name, mul, shift) % TWO32
  {
    if SafeShift(mul, shift) {
      forall name: Name
        ensures PerlState(name, mul, shift) % TWO32 == CState(name, mul, shift) % TWO32
      {
        StatesAgree(name, mul, shift);
      }
    } else {
      WideDiffers(mul, shift);
    }
  }

  lemma WideDiffers(mul: nat, shift: nat)
    requires 0 < shift <= 32 && TWO31 <= mul < TWO32
    ensures PerlState([2, 0], mul, shift) % TWO32 != CState([2, 0], mul, shift) % TWO32
  {
    Pow32();
    PowSplit(shift, 32 - shift);
    assert Pow2(shift) == 2 * Pow2(shift - 1);
    TwoBytes(mul, shift);
    UpperDigit(2 * mul, Pow2(shift), Pow2(32 - shift));
  }

  // Cut at a, a number from a * c on keeps a digit above c.
  lemma UpperDigit(w: int, a: int, c: int)
    requires a >= 2 && c > 0 && a * c == TWO32 && TWO32 <= w < 2 * TWO32
    ensures (w / a) % c % TWO32 != (w / a) % TWO32 % TWO32
  {
    var low := w - TWO32;
    var v := low / a;
    DivMod(low, a, c);
    assert v % c == v;
    DivUnique(w, a, v + c, low % a);
    MulMono(2, a, c);
    BeyondOne(v, c);
  }

  lemma BeyondOne(v: int, c: int)
    requires c > 0 && 2 * c <= TWO32 && v % c == v
    ensures (v + c) % c % TWO32 != (v + c) % TWO32 % TWO32
  {
    ModUnique(v + c, c, 1, v);
  }

  lemma TwoBytes(mul: nat, shift: nat)
    requires shift <= 32 && TWO31 <= mul < TWO32
    ensures PerlState([2, 0], mul, shift) == (2 * mul / Pow2(shift)) % Pow2(32 - shift)
    ensures CState([2, 0], mul, shift) == (2 * mul / Pow2(shift)) % TWO32
  {
    hide PerlRound, CRound, Pow2;
    assert [2, 0][..1] == [2] && [2][..0] == [];
    assert PerlState([2], mul, shift) == PerlRound(0, mul, shift, 2);
    assert CState([2], mul, shift) == CRound(0, mul, shift, 2);
    FirstByte(mul, shift, 2);
    SecondByte(mul, shift);
  }

  lemma FirstByte(mul: nat, shift: nat, b: Byte)
    requires shift <= 32
    ensures PerlRound(0, mul, shift, b) == b && CRound(0, mul, shift, b) == b
  {
    assert 0 * mul == 0;
    ModUnique(0, Pow2(shift), 0, 0);
    ModUnique(0, Pow2(32 - shift), 0, 0);
  }

  lemma SecondByte(mul: nat, shift: nat)
    requires shift <= 32 && TWO31 <= mul < TWO32
    ensures PerlRound(2, mul, shift, 0) == (2 * mul / Pow2(shift)) % Pow2(32 - shift)
    ensures CRound(2, mul, shift, 0) == (2 * mul / Pow2(shift)) % TWO32
  {
    hide Pow2;
    assert Signed64(2 * mul) == 2 * mul;
  }

  lemma CRoundIsWord(x: int, mul: nat, shift: nat, b: Byte)
    ensures 0 <= CRound(x, mul, shift, b) < TWO32
  {
  }

  lemma Reduced(x: int)
    ensures 0 <= x < TWO32 ==> x % TWO32 == x
  {
  }

  // The parameters of a table: its size is a power of two.
  datatype Params = Params(mul: nat, shift: nat, bits: nat)

  predicate Possible(p: Params) { p.shift <= 32 && p.bits <= 32 }

  function PerlHash(name: Name, p: Params): (h: nat)
    requires Possible(p)
    ensures h < Pow2(p.bits)
  {
    PerlState(name, p.mul, p.shift) % Pow2(p.bits)
  }

  function CHash(name: Name, p: Params): (h: nat)
    ensures h < Pow2(p.bits)
  {
    CState(name, p.mul, p.shift) % Pow2(p.bits)
  }

  lemma HashesAgree(name: Name, p: Params)
    requires Possible(p) && SafeShift(p.mul, p.shift)
    ensures PerlHash(name, p) == CHash(name, p)
  {
    StatesAgree(name, p.mul, p.shift);
    Pow32();
    PowSplit(p.bits, 32 - p.bits);
    ModMod(PerlState(name, p.mul, p.shift), Pow2(p.bits), Pow2(32 - p.bits));
    ModMod(CState(name, p.mul, p.shift), Pow2(p.bits), Pow2(32 - p.bits));
  }

  // hash_fn
  method PerlHashFn(name: Name, p: Params) returns (h: nat)
    requires Possible(p)
    ensures h == PerlHash(name, p)
  {
    var result, i := 0, 0;
    while i < |name|
      invariant 0 <= i <= |name| && result == PerlState(name[..i], p.mul, p.shift)
    {
      assert name[..i + 1][..i] == name[..i];
      result := (Signed64(result * p.mul) / Pow2(p.shift)) % Pow2(32 - p.shift) + name[i];
      i := i + 1;
    }
    assert name[..i] == name;
    return result % Pow2(p.bits);
  }

  // ctl_command_hash_func
  method CHashFn(name: Name, p: Params) returns (h: nat)
    ensures h == CHash(name, p) && h < Pow2(p.bits)
  {
    var x, i := 0, 0;
    while i < |name|
      invariant 0 <= i <= |name| && x == CState(name[..i], p.mul, p.shift)
    {
      assert name[..i + 1][..i] == name[..i];
      x := (CProduct(x, p.mul) / Pow2(p.shift) + name[i]) % TWO32;
      i := i + 1;
    }
    assert name[..i] == name;
    return x % Pow2(p.bits);
  }

  // ---------------------------------------------------------------- the table

  ghost predicate Collide(names: seq<Name>, p: Params)
    requires Possible(p)
  {
    exists i, j :: 0 <= i < j < |names| && PerlHash(names[i], p) == PerlHash(names[j], p)
  }

  // The table holds every command in its bucket and nothing else.
  ghost predicate Accepted(table: seq<Option<Name>>, names: seq<Name>, p: Params)
    requires Possible(p)
  {
    && |table| == Pow2(p.bits)
    && (forall i :: 0 <= i < |names| ==> table[PerlHash(names[i], p)] == Some(names[i]))
    && (forall b :: 0 <= b < |table| && table[b].Some? ==> table[b].value in names)
  }

  // build_table
  method BuildTable(names: seq<Name>, p: Params) returns (table: Option<seq<Option<Name>>>)
    requires Possible(p)
    ensures table.None? <==> Collide(names, p)
    ensures table.Some? ==> Accepted(table.value, names, p)
  {
    var t := seq(Pow2(p.bits), _ => None);
    var i := 0;
    while i < |names|
      invariant 0 <= i <= |names| && |t| == Pow2(p.bits)
      invariant forall j :: 0 <= j < i ==> t[PerlHash(names[j], p)] == Some(names[j])
      invariant forall b :: 0 <= b < |t| && t[b].Some? ==>
        exists j :: 0 <= j < i && names[j] == t[b].value && PerlHash(names[j], p) == b
      invariant forall j, k :: 0 <= j < k < i ==> PerlHash(names[j], p) != PerlHash(names[k], p)
    {
      var bucket := PerlHashFn(names[i], p);
      if t[bucket].Some? {
        return None;
      }
      t := t[bucket := Some(names[i])];
      i := i + 1;
    }
    return Some(t);
  }

  // The search has tried a multiplier and a shift before it ends with what it found.
  predicate TriedFirst(mul: nat, shift: nat, bits: nat, found: Option<Params>) {
    && 1 <= mul < Pow2(bits) * Pow2(bits) && shift < 11
    && (found.Some? ==> mul < found.value.mul || (mul == found.value.mul && shift < found.value.shift))
  }

  lemma SmallTable(bits: nat)
    ensures bits <= 15 ==> Pow2(bits) * Pow2(bits) <= TWO31
  {
    if bits <= 15 {
      PowSplit(bits, bits);
      PowSplit(bits + bits, 30 - (bits + bits));
      assert Pow2(10) == 1024;
      PowSplit(10, 10);
      PowSplit(20, 10);
      MulMono(1, Pow2(30 - (bits + bits)), Pow2(bits + bits));
    }
  }

  // find_collisionless_hash_params: the first parameters, by multiplier and then by shift, without a collision.
  method FindParams(names: seq<Name>, bits: nat) returns (found: Option<Params>, table: seq<Option<Name>>)
    requires bits <= 32
    ensures found.Some? ==> Possible(found.value) && found.value.bits == bits && Accepted(table, names, found.value)
    ensures found.Some? ==> 1 <= found.value.mul < Pow2(bits) * Pow2(bits) && found.value.shift < 11
    ensures found.Some? && bits <= 15 ==> found.value.mul < TWO31
    ensures forall mul, shift :: TriedFirst(mul, shift, bits, found) ==> Collide(names, Params(mul, shift, bits))
  {
    SmallTable(bits);
    var mul := 1;
    while mul < Pow2(bits) * Pow2(bits)
      invariant 1 <= mul
      invariant forall m, s :: 1 <= m < mul && m < Pow2(bits) * Pow2(bits) && 0 <= s < 11 ==>
        Collide(names, Params(m, s, bits))
    {
      var shift := 0;
      while shift < 11
        invariant 0 <= shift <= 11
        invariant forall s :: 0 <= s < shift ==> Collide(names, Params(mul, s, bits))
      {
        var t := BuildTable(names, Params(mul, shift, bits));
        if t.Some? {
          return Some(Params(mul, shift, bits)), t.value;
        }
        shift := shift + 1;
      }
      mul := mul + 1;
    }
    return None, [];
  }

  // ctl_find_command on an accepted table: exactly the commands of the set are found.
  method FindCommand(table: seq<Option<Name>>, names: seq<Name>, p: Params, name: Name) returns (entry: Option<nat>)
    requires Possible(p) && SafeShift(p.mul, p.shift) && Accepted(table, names, p)
    ensures entry.Some? <==> name in names
    ensures entry.Some? ==> entry.value < |table| && table[entry.value] == Some(name)
  {
    var h := CHashFn(name, p);
    HashesAgree(name, p);
    if table[h].Some? && table[h].value == name {
      return Some(h);
    }
    return None;
  }
}
