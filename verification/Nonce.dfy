/** The nonce of a reply: the request's, plus one, as a little-endian number of 24 bytes. */
module Nonce {
  import opened Protocol

  type Byte = x: nat | x < 256

  type Bytes = seq<Byte>

  const SIZE := 24

  function Power(n: nat): (p: nat)
    ensures p > 0
  {
    if n == 0 then 1 else 256 * Power(n - 1)
  }

  /** Two to the power of 192. */
  const MODULUS: nat := 0x1_0000_0000_0000_0000_0000_0000_0000_0000_0000_0000_0000_0000

  function Value(s: Bytes): nat {
    if s == [] then 0 else s[0] + 256 * Value(s[1..])
  }

  function Digits(v: nat, n: nat): (s: Bytes)
    ensures |s| == n
  {
    if n == 0 then [] else [v % 256] + Digits(v / 256, n - 1)
  }

  /** Adds c at the low end and lets the carry run; what runs out at the top is dropped. */
  function AddCarry(s: Bytes, c: nat): (r: Bytes)
    ensures |r| == |s|
  {
    if s == [] then [] else [(c + s[0]) % 256] + AddCarry(s[1..], (c + s[0]) / 256)
  }

  function Bump(s: Bytes): (r: Bytes)
    ensures |r| == |s|
  {
    AddCarry(s, 1)
  }

  /** One running carry over a copy of the nonce. */
  method BumpNonce(n: Bytes) returns (r: Bytes)
    requires |n| == SIZE
    ensures r == Bump(n)
  {
    var a := new Byte[SIZE](i requires 0 <= i < SIZE => n[i]);
    var c: nat := 1;
    for i := 0 to SIZE
      invariant a[i..] == n[i..]
      invariant a[..i] + AddCarry(n[i..], c) == Bump(n)
    {
      ghost var low, rest, carry := a[..i], n[i..], c;
      assert n[i + 1..] == rest[1..];
      c := c + a[i];
      a[i] := c % 256;
      c := c / 256;
      assert a[..i + 1] == low + [(carry + rest[0]) % 256];
      assert AddCarry(rest, carry) == [(carry + rest[0]) % 256] + AddCarry(rest[1..], c);
      Regroup(low, [(carry + rest[0]) % 256], AddCarry(rest[1..], c));
    }
    assert a[..SIZE] == a[..];
    return a[..];
  }

  lemma {:induction false} ValueBound(s: Bytes)
    ensures Value(s) < Power(|s|)
  {
    if s != [] {
      ValueBound(s[1..]);
    }
  }

  /** The bytes are those of the sum, less the carry that fell off. */
  lemma {:induction false} AddCarryAdds(s: Bytes, c: nat) returns (over: nat)
    ensures Value(AddCarry(s, c)) + over * Power(|s|) == Value(s) + c
  {
    if s == [] {
      over := c;
    } else {
      over := AddCarryAdds(s[1..], (c + s[0]) / 256);
      var r := AddCarry(s, c);
      assert r[1..] == AddCarry(s[1..], (c + s[0]) / 256);
      assert over * Power(|s|) == 256 * (over * Power(|s| - 1));
    }
  }

  lemma TimesKeepsOrder(a: nat, b: nat, m: nat)
    requires a <= b
    ensures a * m <= b * m
  {
    assert b * m == a * m + (b - a) * m;
  }

  lemma ModUnique(x: nat, over: nat, m: nat)
    requires x < m
    ensures (x + over * m) % m == x
  {
    var t := x + over * m;
    var q, r := t / m, t % m;
    assert t == q * m + r;
    if q > over {
      TimesKeepsOrder(over + 1, q, m);
    } else if q < over {
      TimesKeepsOrder(q + 1, over, m);
    }
  }

  /** Bumping is addition of one modulo the number of values there are. */
  lemma BumpIsIncrement(s: Bytes)
    ensures Value(Bump(s)) == (Value(s) + 1) % Power(|s|)
  {
    var over := AddCarryAdds(s, 1);
    ValueBound(Bump(s));
    ModUnique(Value(Bump(s)), over, Power(|s|));
  }

  lemma {:induction false} DigitsOfValue(s: Bytes)
    ensures Digits(Value(s), |s|) == s
  {
    if s != [] {
      DigitsOfValue(s[1..]);
      assert Value(s) % 256 == s[0] && Value(s) / 256 == Value(s[1..]);
    }
  }

  lemma {:induction false} ValueOfDigits(v: nat, n: nat)
    requires v < Power(n)
    ensures Value(Digits(v, n)) == v
  {
    if n > 0 {
      ValueOfDigits(v / 256, n - 1);
      assert Digits(v, n)[1..] == Digits(v / 256, n - 1);
    }
  }

  function Unbump(r: Bytes): Bytes {
    Digits(if Value(r) == 0 then Power(|r|) - 1 else Value(r) - 1, |r|)
  }

  lemma UnbumpAfterBump(s: Bytes)
    ensures Unbump(Bump(s)) == s
  {
    hide Power, Value, Digits, Bump;
    var m := Power(|s|);
    ValueBound(s);
    BumpIsIncrement(s);
    if Value(s) + 1 == m {
      ModUnique(0, 1, m);
    } else {
      ModUnique(Value(s) + 1, 0, m);
    }
    DigitsOfValue(s);
  }

  lemma BumpAfterUnbump(s: Bytes)
    ensures Bump(Unbump(s)) == s
  {
    hide Power, Value, Digits, Bump;
    var m := Power(|s|);
    ValueBound(s);
    ValueOfDigits(if Value(s) == 0 then m - 1 else Value(s) - 1, |s|);
    BumpIsIncrement(Unbump(s));
    if Value(s) == 0 {
      ModUnique(0, 1, m);
    } else {
      ModUnique(Value(s), 0, m);
    }
    DigitsOfValue(s);
    DigitsOfValue(Bump(Unbump(s)));
  }

  /** A bijection: every nonce follows exactly one other. */
  lemma BumpIsBijective(s: Bytes, t: Bytes)
    ensures Bump(s) == Bump(t) <==> s == t
    ensures exists before :: Bump(before) == s
  {
    UnbumpAfterBump(s);
    UnbumpAfterBump(t);
    BumpAfterUnbump(s);
  }

  function Bumped(s: Bytes, k: nat): (r: Bytes)
    ensures |r| == |s|
  {
    if k == 0 then s else Bump(Bumped(s, k - 1))
  }

  lemma {:induction false} BumpedAdds(s: Bytes, k: nat)
    ensures Value(Bumped(s, k)) == (Value(s) + k) % Power(|s|)
  {
    hide Power, Value, Bump;
    var m := Power(|s|);
    ValueBound(s);
    if k == 0 {
      ModUnique(Value(s), 0, m);
    } else {
      BumpedAdds(s, k - 1);
      BumpIsIncrement(Bumped(s, k - 1));
      ModStep(Value(s) + k - 1, m);
    }
  }

  lemma ModStep(x: nat, m: nat)
    requires m > 0
    ensures (x % m + 1) % m == (x + 1) % m
  {
    var q := x / m;
    assert x + 1 == x % m + 1 + q * m;
    if x % m + 1 == m {
      ModUnique(0, 1, m);
      ModUnique(0, q + 1, m);
    } else {
      ModUnique(x % m + 1, 0, m);
      ModUnique(x % m + 1, q, m);
    }
  }

  lemma {:induction false} PowerOfSize()
    ensures Power(SIZE) == MODULUS
  {
    assert Power(8) == 0x1_0000_0000_0000_0000;
    assert Power(16) == 0x1_0000_0000_0000_0000_0000_0000_0000_0000;
  }

  /** Of the nonces that follow one another, two are the same only when 2^192 divides the steps between them. */
  lemma NoncesReturnIff(s: Bytes, i: nat, j: nat)
    requires |s| == SIZE && i <= j
    ensures Bumped(s, i) == Bumped(s, j) <==> (j - i) % MODULUS == 0
  {
    hide Power;
    PowerOfSize();
    BumpedAdds(s, i);
    BumpedAdds(s, j);
    DigitsOfValue(Bumped(s, i));
    DigitsOfValue(Bumped(s, j));
    SameResidueIff(Value(s) + i, Value(s) + j, MODULUS);
  }

  lemma TimesSplits(a: int, b: int, m: int)
    ensures (a + b) * m == a * m + b * m
  {
  }

  lemma QuotientAndRest(x: nat, m: nat) returns (q: nat, r: nat)
    requires m > 0
    ensures x == q * m + r && r < m && r == x % m
  {
    q, r := x / m, x % m;
  }

  lemma MultiplesApart(a: nat, b: nat, r: nat, m: nat)
    requires 0 < m && a * m + r <= b * m + r
    ensures (b * m - a * m) % m == 0
  {
    if b < a {
      TimesKeepsOrder(b + 1, a, m);
      TimesSplits(b, 1, m);
    } else {
      TimesSplits(b - a, a, m);
      ModUnique(0, b - a, m);
    }
  }

  lemma MultipleKeepsResidue(a: nat, d: nat, r: nat, m: nat)
    requires r < m
    ensures (a * m + r + d * m) % m == r
  {
    TimesSplits(a, d, m);
    ModUnique(r, a + d, m);
  }

  lemma SameResidueIff(x: nat, y: nat, m: nat)
    requires m > 0 && x <= y
    ensures x % m == y % m <==> (y - x) % m == 0
  {
    var a, r := QuotientAndRest(x, m);
    var b, t := QuotientAndRest(y, m);
    if r == t {
      MultiplesApart(a, b, r, m);
    }
    var d, u := QuotientAndRest(y - x, m);
    if u == 0 {
      MultipleKeepsResidue(a, d, r, m);
    }
  }
}
