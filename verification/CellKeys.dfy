/** The integers that stand for a cell and for a cell and a run (packages/api/drive_stats.py). */
module CellKeys {
  const B := 0x1_0000_0000
  const W := 0x1_0000_0000_0000_0000
  const OFF := 0x4000_0000

  function Power2(n: nat): (p: nat)
    ensures p > 0
  {
    if n == 0 then 1 else 2 * Power2(n - 1)
  }

  /** A 64-bit integer: x modulo 2^64, as a signed number. */
  function Wrap64(x: int): int {
    var u := x % W;
    if u < 0x8000_0000_0000_0000 then u else u - W
  }

  /** The lowest `bits` bits of a | b. */
  function Or(a: nat, b: nat, bits: nat): nat {
    if bits == 0 then 0 else 2 * Or(a / 2, b / 2, bits - 1) + (if a % 2 == 1 || b % 2 == 1 then 1 else 0)
  }

  /** a | b of 64-bit integers in two's complement. */
  function Or64(a: int, b: int): int {
    Wrap64(Or(a % W, b % W, 64))
  }

  function CellKey(ix: int, iy: int): int {
    Or64(Wrap64(Wrap64(ix + OFF) * B), Wrap64(iy + OFF))
  }

  /** >> rounds down, & keeps the remainder. */
  function KeyCells(key: int): (int, int) {
    (key / B - OFF, key % B - OFF)
  }

  /** ix + OFF fits a signed 32-bit integer, iy + OFF an unsigned one. */
  predicate InRange(ix: int, iy: int) {
    -0xC000_0000 <= ix < 0x4000_0000 && -0x4000_0000 <= iy < 0xC000_0000
  }

  lemma {:induction false} OrZero(a: nat, bits: nat, p: nat)
    requires a < p == Power2(bits)
    ensures Or(a, 0, bits) == Or(0, a, bits) == a
  {
    if bits > 0 { OrZero(a / 2, bits - 1, Power2(bits - 1)); }
  }

  lemma {:induction false} OrBound(a: nat, b: nat, bits: nat, p: nat)
    requires p == Power2(bits)
    ensures Or(a, b, bits) < p
  {
    if bits > 0 { OrBound(a / 2, b / 2, bits - 1, Power2(bits - 1)); }
  }

  lemma MultipleBound(d: int, n: int)
    requires n >= 0
    ensures d >= 1 ==> d * n >= n
    ensures d <= -1 ==> d * n <= -n
  {
  }

  /** Quotient and remainder are unique. */
  lemma Divides(x: int, d: int, q: int, r: int)
    requires d > 0 && x == q * d + r && 0 <= r < d
    ensures x / d == q && x % d == r
  {
    assert (q - x / d) * d == x % d - r;
    MultipleBound(q - x / d, d);
  }

  lemma Regroup(x: int, h: int, y: int)
    ensures 2 * (x * h) + y == x * (2 * h) + y
  {
  }

  /** Half of a number with high part x over 2h: the high part stays, over h. */
  lemma Halve(x: nat, h: nat, y: nat)
    ensures (x * (2 * h) + y) / 2 == x * h + y / 2 && (x * (2 * h) + y) % 2 == y % 2
  {
    Regroup(x, h, y);
  }

  /** | works on the high and on the low bits separately. */
  lemma {:induction false} OrSplit(a: nat, a': nat, b: nat, b': nat, n: nat, m: nat, p: nat)
    requires p == Power2(m) && a' < p && b' < p
    ensures Or(a * p + a', b * p + b', n + m) == Or(a, b, n) * p + Or(a', b', m)
    decreases m
  {
    if m > 0 {
      var h := Power2(m - 1);
      OrSplit(a, a' / 2, b, b' / 2, n, m - 1, h);
      Halve(a, h, a');
      Halve(b, h, b');
      Regroup(Or(a, b, n), h, Or(a', b', m));
    }
  }

  lemma Power32()
    ensures Power2(32) == B
  {
    assert Power2(8) == 256;
    assert Power2(16) == 65536;
    assert Power2(24) == 65536 * 256;
  }

  /** | of a shifted number: the low half is the other one's. */
  lemma OrShifted(u: nat, v: nat)
    requires u < B && v < W
    ensures Or(u * B, v, 64) == Or(u, v / B, 32) * B + v % B && Or(u, v / B, 32) < B
  {
    Power32();
    OrSplit(u, 0, v / B, v % B, 32, 32, B);
    OrZero(v % B, 32, B);
    OrBound(u, v / B, 32, B);
  }

  /** x << 32 drops all but 32 bits. */
  lemma Shifted(x: int)
    ensures Wrap64(Wrap64(x) * B) % W == x % B * B
  {
    var q := Wrap64(x) / B;
    assert Wrap64(x) % B == x % B;
    Divides(Wrap64(x) * B, W, q, x % B * B);
  }

  /** A 64-bit number by its halves: the high half carries the sign. */
  lemma Halves(h: nat, low: nat)
    requires h < B && low < B
    ensures Wrap64(h * B + low) / B == Signed(h) && Wrap64(h * B + low) % B == low
  {
    assert (h * B + low) % W == h * B + low;
    Divides(Wrap64(h * B + low), B, Signed(h), low);
  }

  lemma LowBits(x: int)
    ensures x % W % B == x % B
  {
    var r := x % W;
    assert x == (x / W * B + r / B) * B + r % B;
    Divides(x, B, x / W * B + r / B, r % B);
  }

  lemma LowFits(x: int)
    ensures x % B == x <==> 0 <= x < B
  {
  }

  /** A number read as a signed 32-bit one is the number exactly when it fits. */
  lemma SignedFits(x: int)
    ensures Signed(x % B) == x <==> -0x8000_0000 <= x < 0x8000_0000
  {
  }

  function Signed(u: nat): int {
    if u < 0x8000_0000 then u else u - B
  }

  lemma WrapKeeps(x: int)
    ensures Wrap64(x) % W == x % W
  {
  }

  lemma KeyValue(ix: int, iy: int)
    ensures var u, v := (ix + OFF) % B, (iy + OFF) % W;
            CellKey(ix, iy) == Wrap64(Or(u, v / B, 32) * B + v % B) && Or(u, v / B, 32) < B
  {
    Shifted(ix + OFF);
    WrapKeeps(iy + OFF);
    OrShifted((ix + OFF) % B, (iy + OFF) % W);
  }

  /** What the key holds: 32 bits of ix + OFF, mixed with what iy + OFF has beyond 32 bits, over 32 bits of iy + OFF. */
  lemma KeyHalves(ix: int, iy: int)
    ensures var u, v := (ix + OFF) % B, (iy + OFF) % W;
            CellKey(ix, iy) / B == Signed(Or(u, v / B, 32)) && CellKey(ix, iy) % B == (iy + OFF) % B
  {
    var u, v := (ix + OFF) % B, (iy + OFF) % W;
    KeyValue(ix, iy);
    Halves(Or(u, v / B, 32), v % B);
    LowBits(iy + OFF);
  }

  lemma NothingMixed(u: nat, v: nat)
    requires u < B && v < B
    ensures Or(u, v % W / B, 32) == u
  {
    Power32();
    OrZero(u, 32, B);
    assert v % W / B == 0;
  }

  /** In range for iy nothing is mixed in. */
  lemma KeyUnmixed(ix: int, iy: int)
    requires 0 <= iy + OFF < B
    ensures CellKey(ix, iy) / B == Signed((ix + OFF) % B)
  {
    KeyHalves(ix, iy);
    NothingMixed((ix + OFF) % B, iy + OFF);
  }

  lemma Decoded(key: int, ix: int, iy: int)
    requires key % B == (iy + OFF) % B && (0 <= iy + OFF < B ==> key / B == Signed((ix + OFF) % B))
    ensures KeyCells(key) == (ix, iy) <==> InRange(ix, iy)
  {
    LowFits(iy + OFF);
    SignedFits(ix + OFF);
  }

  /** key_cells undoes cell_key exactly for the cells in range. */
  lemma KeyRoundTrip(ix: int, iy: int)
    ensures KeyCells(CellKey(ix, iy)) == (ix, iy) <==> InRange(ix, iy)
  {
    KeyHalves(ix, iy);
    if 0 <= iy + OFF < B { KeyUnmixed(ix, iy); }
    Decoded(CellKey(ix, iy), ix, iy);
  }

  /** Within the range no two cells share a key. */
  lemma KeyInjective(ix: int, iy: int, jx: int, jy: int)
    requires InRange(ix, iy) && InRange(jx, jy) && CellKey(ix, iy) == CellKey(jx, jy)
    ensures ix == jx && iy == jy
  {
    KeyRoundTrip(ix, iy);
    KeyRoundTrip(jx, jy);
  }

  /** The (cell index, run) pairs packed as index * n_runs + run lose nothing while run < n_runs. */
  lemma PairRoundTrip(index: nat, run: nat, nRuns: nat)
    requires run < nRuns
    ensures (index * nRuns + run) / nRuns == index && (index * nRuns + run) % nRuns == run
  {
    Divides(index * nRuns + run, nRuns, index, run);
  }
}
