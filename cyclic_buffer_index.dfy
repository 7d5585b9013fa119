/** Index arithmetic of the cyclic buffer: the minimum of the local heads,
    and the alive bit whose meaning flips on every lap around the buffer.

    Division and remainder are Euclidean, as in the source's integer
    arithmetic: for a positive buffer size, `-1 / size == -1` and
    `-1 % size == size - 1`, so the initial entries -size .. -1 sit one lap
    before entry 0. */
module CyclicBufferIndex {

  /** The smaller of two naturals. */
  function Min(x: nat, y: nat): (r: nat)
    ensures r <= x && r <= y
    ensures r == x || r == y
  {
    if x < y then x else y
  }

  /** The minimum of `m[0]` .. `m[idx - 1]`, and `m[0]` when `idx` is 0. */
  function MapMinValue(m: map<nat, nat>, idx: nat): (r: nat)
    requires 0 in m
    requires forall i: nat :: i < idx ==> i in m
    decreases idx
  {
    if idx == 0 then m[0]
    else Min(MapMinValue(m, idx - 1), m[idx - 1])
  }

  /** `MapMinValue` is a lower bound of `m[0]` .. `m[idx - 1]` and of
      `m[0]`, and it is one of those values. */
  lemma {:induction false} MapMinValueIsMin(m: map<nat, nat>, idx: nat)
    requires 0 in m
    requires forall i: nat :: i < idx ==> i in m
    ensures MapMinValue(m, idx) <= m[0]
    ensures forall i: nat :: i < idx ==> MapMinValue(m, idx) <= m[i]
    ensures exists i: nat :: (i == 0 || i < idx) && i in m && MapMinValue(m, idx) == m[i]
    decreases idx
  {
    if idx > 0 {
      MapMinValueIsMin(m, idx - 1);
      var i :| (i == 0 || i < idx - 1) && i in m && MapMinValue(m, idx - 1) == m[i];
      if MapMinValue(m, idx) == m[idx - 1] {
        assert (idx - 1 == 0 || idx - 1 < idx) && idx - 1 in m;
      } else {
        assert (i == 0 || i < idx) && i in m && MapMinValue(m, idx) == m[i];
      }
    }
  }

  /** Raising one of the values never lowers the minimum. */
  lemma MapMinValueMonotone(m: map<nat, nat>, idx: nat, k: nat, v: nat)
    requires 0 in m
    requires forall i: nat :: i < idx ==> i in m
    requires k in m && m[k] <= v
    ensures MapMinValue(m, idx) <= MapMinValue(m[k := v], idx)
  {
    var m' := m[k := v];
    MapMinValueIsMin(m, idx);
    MapMinValueIsMin(m', idx);
    var r' := MapMinValue(m', idx);
    var i :| (i == 0 || i < idx) && i in m' && r' == m'[i];
    assert MapMinValue(m, idx) <= m[i];
  }

  /** When raising `m[k]` to `v` lifts the minimum above `j`, the minimum
      was attained at `k`: `k` is one of the keys looked at, and
      `m[k] <= j < v`. */
  lemma MapMinValueRaised(m: map<nat, nat>, idx: nat, k: nat, v: nat, j: int)
    requires 0 in m
    requires forall i: nat :: i < idx ==> i in m
    requires k in m
    requires MapMinValue(m, idx) <= j < MapMinValue(m[k := v], idx)
    ensures k == 0 || k < idx
    ensures m[k] <= j < v
  {
    var m' := m[k := v];
    MapMinValueIsMin(m, idx);
    MapMinValueIsMin(m', idx);
    var r := MapMinValue(m, idx);
    var i :| (i == 0 || i < idx) && i in m && r == m[i];
    assert MapMinValue(m', idx) <= m'[i];
    assert i == k;
  }

  /** The value of the alive bit that marks logical entry `logical` as
      alive: true on even laps, false on odd ones. */
  function AliveWhen(logical: int, bufferSize: nat): (r: bool)
    requires bufferSize > 0
  {
    (logical / bufferSize) % 2 == 0
  }

  /** Logical entry `logical` is alive when the bit of its slot holds the
      value for its lap. */
  function EntryIsAlive(aliveBits: map<nat, bool>, logical: int, bufferSize: nat): (r: bool)
    requires bufferSize > 0
  {
    var phys := logical % bufferSize;
    phys in aliveBits && aliveBits[phys] == AliveWhen(logical, bufferSize)
  }

  /** One lap later an entry sits in the same slot, and its lap has the
      other parity. */
  lemma NextLap(logical: int, bufferSize: nat)
    requires bufferSize > 0
    ensures (logical + bufferSize) % bufferSize == logical % bufferSize
    ensures (logical + bufferSize) / bufferSize == logical / bufferSize + 1
    ensures AliveWhen(logical + bufferSize, bufferSize) == !AliveWhen(logical, bufferSize)
  {
    var q, r := logical / bufferSize, logical % bufferSize;
    assert logical == q * bufferSize + r;
    assert logical + bufferSize == (q + 1) * bufferSize + r;
    DivModUnique(logical + bufferSize, bufferSize, q + 1, r);
  }

  /** Euclidean quotient and remainder are unique. */
  lemma DivModUnique(x: int, d: nat, q: int, r: int)
    requires d > 0
    requires x == q * d + r && 0 <= r < d
    ensures x / d == q && x % d == r
  {
    var q0, r0 := x / d, x % d;
    assert x == q0 * d + r0;
    MulDistinct(q, q0, d);
  }

  /** Two multiples of `d` that are not equal are at least `d` apart. */
  lemma MulDistinct(a: int, b: int, d: nat)
    requires d > 0
    ensures a * d == b * d || a * d >= b * d + d || b * d >= a * d + d
  {
    if a > b {
      MulAtLeast(a - b, d);
      assert a * d == (a - b) * d + b * d;
    } else if b > a {
      MulAtLeast(b - a, d);
      assert b * d == (b - a) * d + a * d;
    }
  }

  lemma MulAtLeast(k: int, d: nat)
    requires k >= 1
    ensures k * d >= d
  {
    assert k * d == (k - 1) * d + d;
    assert (k - 1) * d >= 0;
  }

  /** An entry is alive exactly when the entry one lap later, in the same
      slot, is not: the buffer reuses a slot only after the bit flips. */
  lemma EntryIsAliveNextLap(aliveBits: map<nat, bool>, logical: int, bufferSize: nat)
    requires bufferSize > 0
    requires logical % bufferSize in aliveBits
    ensures EntryIsAlive(aliveBits, logical + bufferSize, bufferSize)
            == !EntryIsAlive(aliveBits, logical, bufferSize)
  {
    NextLap(logical, bufferSize);
  }

  /** Distinct entries less than one lap apart occupy distinct slots. */
  lemma SlotsDistinct(i: int, j: int, bufferSize: nat)
    requires bufferSize > 0
    requires i < j < i + bufferSize
    ensures i % bufferSize != j % bufferSize
  {
    var qi, ri := i / bufferSize, i % bufferSize;
    var qj, rj := j / bufferSize, j % bufferSize;
    assert i == qi * bufferSize + ri;
    assert j == qj * bufferSize + rj;
    MulDistinct(qi, qj, bufferSize);
  }

  /** Setting the bit of entry `c` to its alive value makes `c` alive and
      changes no other entry less than one lap away from `c`. */
  lemma FlipBit(aliveBits: map<nat, bool>, c: int, bufferSize: nat, i: int)
    requires bufferSize > 0
    requires c - bufferSize < i < c + bufferSize
    ensures EntryIsAlive(aliveBits[c % bufferSize := AliveWhen(c, bufferSize)], i, bufferSize)
            == (i == c || EntryIsAlive(aliveBits, i, bufferSize))
  {
    if i < c {
      SlotsDistinct(i, c, bufferSize);
    } else if c < i {
      SlotsDistinct(c, i, bufferSize);
    }
  }
}
