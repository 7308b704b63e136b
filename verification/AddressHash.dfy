/** The hash of an address in closed form, and what one byte does to it (ngx_http_upstream_ip_hash_module.c). */
module AddressHash {

  const FACTOR := 113
  const MODULUS := 6271

  /** The hash after the first n bytes, one after the other. */
  function HashTo(hash: nat, addr: seq<nat>, n: nat): nat
    requires n <= |addr|
  {
    if n == 0 then hash else (HashTo(hash, addr, n - 1) * FACTOR + addr[n - 1]) % MODULUS
  }

  function Power(b: nat, n: nat): nat {
    if n == 0 then 1 else b * Power(b, n - 1)
  }

  /** The sum of addr[j] * 113^(n-1-j) for i <= j < n. */
  function Sum(addr: seq<nat>, i: nat, n: nat): nat
    requires i <= n <= |addr|
    decreases n - i
  {
    if i == n then 0 else addr[i] * Power(113, n - 1 - i) + Sum(addr, i + 1, n)
  }

  lemma TimesFactor(a: nat, n: nat)
    requires n > 0
    ensures a * Power(113, n) == 113 * (a * Power(113, n - 1))
  {
  }

  /** One more byte at the end. */
  lemma {:induction false} SumLast(addr: seq<nat>, i: nat, n: nat)
    requires i < n <= |addr|
    ensures Sum(addr, i, n) == 113 * Sum(addr, i, n - 1) + addr[n - 1]
    decreases n - i
  {
    if i == n - 1 {
      assert Sum(addr, n, n) == 0 && Power(113, 0) == 1;
    } else {
      SumLast(addr, i + 1, n);
      TimesFactor(addr[i], n - 1 - i);
    }
  }

  lemma ModuloOfStep(x: nat, a: nat)
    ensures (x % 6271 * 113 + a) % 6271 == (x * 113 + a) % 6271
  {
    var q, m := x / 6271, x % 6271 * 113 + a;
    assert x * 113 + a == m + 6271 * (113 * q);
    SameModulo(m, 113 * q);
  }

  lemma {:induction false} SameModulo(m: nat, q: nat)
    ensures (m + 6271 * q) % 6271 == m % 6271
  {
  }

  lemma {:induction false} HashModulo(hash: nat, addr: seq<nat>, n: nat)
    requires n <= |addr|
    ensures HashTo(hash, addr, n) % 6271 == (hash * Power(113, n) + Sum(addr, 0, n)) % 6271
  {
    if n == 0 {
      assert Power(113, 0) == 1;
    } else {
      HashModulo(hash, addr, n - 1);
      SumLast(addr, 0, n);
      TimesFactor(hash, n);
      NextModulo(HashTo(hash, addr, n - 1), hash * Power(113, n - 1) + Sum(addr, 0, n - 1), addr[n - 1]);
    }
  }

  lemma NextModulo(h: nat, x: nat, a: nat)
    requires h % 6271 == x % 6271
    ensures (h * 113 + a) % 6271 % 6271 == (x * 113 + a) % 6271
  {
    ModuloOfStep(h, a);
    ModuloOfStep(x, a);
  }

  /** The hash of n bytes is (hash * 113^n + the sum of addr[i] * 113^(n-1-i)) modulo 6271. */
  lemma HashIs(hash: nat, addr: seq<nat>, n: nat)
    requires n <= |addr| && (n > 0 || hash < 6271)
    ensures HashTo(hash, addr, n) == (hash * Power(113, n) + Sum(addr, 0, n)) % 6271
  {
    HashModulo(hash, addr, n);
  }

  // ---- one byte matters --------------------------------------------------------------------

  predicate IsAddress(addr: seq<nat>) {
    forall i :: 0 <= i < |addr| ==> addr[i] < 256
  }

  /** 6271 does not divide 113 x unless it divides x. */
  lemma FactorIsHarmless(x: int)
    requires x % 6271 != 0
    ensures (113 * x) % 6271 != 0
  {
    if (113 * x) % 6271 == 0 {
      var m := 113 * x / 6271;
      assert 113 * x == 6271 * m;
      assert x == 6271 * (111 * m - 2 * x);
      DividesMultiple(111 * m - 2 * x);
    }
  }

  lemma DividesMultiple(k: int)
    ensures (6271 * k) % 6271 == 0
  {
  }

  lemma {:induction false} PowerIsHarmless(d: int, n: nat)
    requires d % 6271 != 0
    ensures (d * Power(113, n)) % 6271 != 0
  {
    if n == 0 {
    } else {
      PowerIsHarmless(d, n - 1);
      FactorIsHarmless(d * Power(113, n - 1));
      assert d * Power(113, n) == 113 * (d * Power(113, n - 1));
    }
  }

  lemma {:induction false} SumDiffers(a: seq<nat>, b: seq<nat>, k: nat, i: nat)
    requires |a| == |b| && k < |a| && i <= |a| && forall j :: 0 <= j < |a| && j != k ==> a[j] == b[j]
    ensures Sum(a, i, |a|) - Sum(b, i, |b|) == if i <= k then (a[k] - b[k]) * Power(113, |a| - 1 - k) else 0
    decreases |a| - i
  {
    if i == |a| {
    } else {
      SumDiffers(a, b, k, i + 1);
      if i == k {
        Distribute(a[k], b[k], Power(113, |a| - 1 - k));
      }
    }
  }

  lemma Distribute(x: int, y: int, p: int)
    ensures x * p - y * p == (x - y) * p
  {
  }

  lemma DifferentRemainders(x: nat, y: nat, d: int)
    requires x - y == d && d % 6271 != 0
    ensures x % 6271 != y % 6271
  {
    if x % 6271 == y % 6271 {
      assert d == 6271 * (x / 6271 - y / 6271);
      DividesMultiple(x / 6271 - y / 6271);
    }
  }

  /** Two addresses of one length that differ in one byte never have the same hash. */
  lemma OneByteMatters(hash: nat, a: seq<nat>, b: seq<nat>, k: nat)
    requires |a| == |b| && k < |a| && IsAddress(a) && IsAddress(b) && a[k] != b[k]
    requires forall j :: 0 <= j < |a| && j != k ==> a[j] == b[j]
    ensures HashTo(hash, a, |a|) != HashTo(hash, b, |b|)
  {
    var n := |a|;
    var x: int, y: int := a[k], b[k];
    var d := x - y;
    var seed, e: int := hash * Power(113, n), d * Power(113, n - 1 - k);
    SmallDifference(a[k], b[k]);
    PowerIsHarmless(d, n - 1 - k);
    SumDiffers(a, b, k, 0);
    HashIs(hash, a, n);
    HashIs(hash, b, n);
    DifferentRemainders(seed + Sum(a, 0, n), seed + Sum(b, 0, n), e);
  }

  lemma SmallDifference(x: nat, y: nat)
    requires x < 256 && y < 256 && x != y
    ensures (x - y) % 6271 != 0
  {
  }
}
