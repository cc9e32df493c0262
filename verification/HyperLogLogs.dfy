/** The HyperLogLog registers of the cardinality estimator; hashes are arbitrary 64-bit numbers. */
module HyperLogLogs {

  import opened Powers

  /** One more than the number of trailing zero bits, 1 for zero. */
  function TrailingRank(n: nat): (rank: nat)
    ensures rank >= 1
    decreases n
  {
    if n == 0 || n % 2 == 1 then 1 else 1 + TrailingRank(n / 2)
  }

  /** The rank in terms of divisibility: 2^(rank - 1) divides n and the quotient is odd. */
  lemma {:induction false} RankDivides(n: nat)
    requires n > 0
    ensures exists q: nat :: n == Pow2(TrailingRank(n) - 1) * q && q % 2 == 1
  {
    if n % 2 == 1 {
      assert n == Pow2(0) * n;
    } else {
      RankDivides(n / 2);
      var q: nat :| n / 2 == Pow2(TrailingRank(n / 2) - 1) * q && q % 2 == 1;
      assert n == 2 * (Pow2(TrailingRank(n / 2) - 1) * q) == Pow2(TrailingRank(n) - 1) * q;
    }
  }

  /** Only one rank can satisfy that. */
  lemma {:induction false} RankIsUnique(n: nat, r: nat, q: nat)
    requires r >= 1 && n == Pow2(r - 1) * q && q % 2 == 1
    ensures TrailingRank(n) == r
    decreases r
  {
    if r == 1 {
      assert n == q;
    } else {
      assert n == 2 * (Pow2(r - 2) * q);
      RankIsUnique(n / 2, r - 1, q);
      assert n > 0;
    }
  }

  /** A number of `bits` bits has at most `bits - 1` trailing zeros unless it is zero. */
  lemma {:induction false} RankFits(n: nat, bits: nat)
    requires n < Pow2(bits) && bits >= 1
    ensures TrailingRank(n) <= bits
  {
    if n > 0 && n % 2 == 0 {
      assert Pow2(bits) == 2 * Pow2(bits - 1);
      RankFits(n / 2, bits - 1);
    }
  }

  /** The rank cut off at the cap; a cap below one acts as one. */
  function Capped(rank: nat, cap: int): (r: nat)
    requires rank >= 1
    ensures 1 <= r <= rank
  {
    if cap < 1 then 1 else if rank <= cap then rank else cap
  }

  /** The scan of the remaining bits with its cap. */
  method Rank(remaining0: nat, maxRank: int) returns (rank: nat)
    ensures rank == Capped(TrailingRank(remaining0), maxRank)
  {
    rank := 1;
    var remaining: nat := remaining0;
    while remaining != 0 && remaining % 2 == 0 && rank < maxRank
      invariant rank >= 1 && (rank == 1 || rank <= maxRank)
      invariant rank - 1 + TrailingRank(remaining) == TrailingRank(remaining0)
      decreases remaining
    {
      rank := rank + 1;
      remaining := remaining / 2;
    }
  }

  /** The cap never binds on a number that fits in so many bits. */
  lemma CapNeverBinds(n: nat, maxRank: int)
    requires n == 0 || (maxRank >= 1 && n < Pow2(maxRank))
    ensures Capped(TrailingRank(n), maxRank) == TrailingRank(n)
  {
    if n > 0 {
      RankFits(n, maxRank);
    }
  }

  // ---- registers as a function of the set of hashes ----

  function Quotient(h: nat, d: nat): nat
    requires d > 0
  {
    h / d
  }

  function Remainder(h: nat, d: nat): (r: nat)
    requires d > 0
    ensures r < d
  {
    h % d
  }

  /** The register a hash selects (its low bits) and the rank of the rest. */
  function Index(h: nat, precision: nat): nat {
    Remainder(h, Pow2(precision))
  }

  function Shifted(h: nat, precision: nat): nat {
    Quotient(h, Pow2(precision))
  }

  function RankOf(h: nat, precision: nat): nat {
    TrailingRank(Shifted(h, precision))
  }

  /** Index and rest are the two parts of the hash: its low `precision` bits and the bits above them. */
  lemma HashIsSplit(h: nat, precision: nat)
    ensures Index(h, precision) < Pow2(precision)
    ensures h == Pow2(precision) * Shifted(h, precision) + Index(h, precision)
  {
  }

  /** No other split of the hash is possible. */
  lemma SplitIsUnique(h: nat, precision: nat, rest: nat, index: nat)
    requires index < Pow2(precision) && h == Pow2(precision) * rest + index
    ensures rest == Shifted(h, precision) && index == Index(h, precision)
  {
    HashIsSplit(h, precision);
    SameQuotient(Pow2(precision), rest, index, Shifted(h, precision), Index(h, precision));
  }

  lemma SameQuotient(d: nat, q: nat, r: nat, q': nat, r': nat)
    requires r < d && r' < d && d * q + r == d * q' + r'
    ensures q == q' && r == r'
  {
    if q < q' {
      LessQuotient(d, q, r, q');
    } else if q' < q {
      LessQuotient(d, q', r', q);
    }
  }

  lemma LessQuotient(d: nat, q: nat, r: nat, q': nat)
    requires r < d && q < q'
    ensures d * q + r < d * q'
  {
    Monotone(d, q + 1, q');
    assert d * (q + 1) == d * q + d;
  }

  /** m is the maximum rank over the hashes of this register, 0 when there is none. */
  ghost predicate IsRegister(m: nat, hashes: set<nat>, i: nat, precision: nat) {
    && (forall h :: h in hashes && Index(h, precision) == i ==> RankOf(h, precision) <= m)
    && (m == 0 || exists h :: h in hashes && Index(h, precision) == i && RankOf(h, precision) == m)
  }

  ghost predicate AreRegisters(registers: seq<nat>, hashes: set<nat>, precision: nat) {
    |registers| == Pow2(precision)
    && forall i :: 0 <= i < |registers| ==> IsRegister(registers[i], hashes, i, precision)
  }

  /** The registers are determined by the set of hashes: order and repetition cannot matter. */
  lemma RegistersAreDetermined(a: seq<nat>, b: seq<nat>, hashes: set<nat>, precision: nat)
    requires AreRegisters(a, hashes, precision) && AreRegisters(b, hashes, precision)
    ensures a == b
  {
    forall i | 0 <= i < |a| ensures a[i] == b[i] {
      assert IsRegister(a[i], hashes, i, precision) && IsRegister(b[i], hashes, i, precision);
    }
  }

  lemma RegistersOfUnion(a: seq<nat>, b: seq<nat>, c: seq<nat>, x: set<nat>, y: set<nat>, precision: nat)
    requires AreRegisters(a, x, precision) && AreRegisters(b, y, precision) && AreRegisters(c, x + y, precision)
    ensures forall i :: 0 <= i < |c| ==> c[i] == if a[i] >= b[i] then a[i] else b[i]
  {
    forall i | 0 <= i < |c| ensures c[i] == if a[i] >= b[i] then a[i] else b[i] {
      assert IsRegister(a[i], x, i, precision) && IsRegister(b[i], y, i, precision)
             && IsRegister(c[i], x + y, i, precision);
    }
  }

  /** One hash added to the registers. */
  function AddHash(registers: seq<nat>, h: nat, precision: nat): (r: seq<nat>)
    requires |registers| == Pow2(precision)
    ensures |r| == |registers|
  {
    var i, rank := Index(h, precision), RankOf(h, precision);
    registers[i := if registers[i] >= rank then registers[i] else rank]
  }

  function RegistersAfter(stream: seq<nat>, precision: nat): (r: seq<nat>)
    ensures |r| == Pow2(precision)
  {
    if stream == [] then
      seq(Pow2(precision), _ => 0)
    else
      AddHash(RegistersAfter(stream[..|stream| - 1], precision), stream[|stream| - 1], precision)
  }

  function HashesOf(stream: seq<nat>): set<nat> {
    set h | h in stream
  }

  lemma AddedRegister(registers: seq<nat>, hashes: set<nat>, precision: nat, h: nat)
    requires AreRegisters(registers, hashes, precision)
    ensures AreRegisters(AddHash(registers, h, precision), hashes + {h}, precision)
  {
    var updated := AddHash(registers, h, precision);
    forall j | 0 <= j < |updated| ensures IsRegister(updated[j], hashes + {h}, j, precision) {
      assert IsRegister(registers[j], hashes, j, precision);
      assert h in hashes + {h};
    }
  }

  /** After any stream each register is the maximum rank over the set of hashes added. */
  lemma {:induction false} StreamRegisters(stream: seq<nat>, precision: nat)
    ensures AreRegisters(RegistersAfter(stream, precision), HashesOf(stream), precision)
  {
    if stream != [] {
      var n := |stream| - 1;
      StreamRegisters(stream[..n], precision);
      AddedRegister(RegistersAfter(stream[..n], precision), HashesOf(stream[..n]), precision, stream[n]);
      assert stream == stream[..n] + [stream[n]];
      assert HashesOf(stream) == HashesOf(stream[..n]) + {stream[n]};
    }
  }

  /** Order and repetition are invisible. */
  lemma SameHashesSameRegisters(s: seq<nat>, t: seq<nat>, precision: nat)
    requires HashesOf(s) == HashesOf(t)
    ensures RegistersAfter(s, precision) == RegistersAfter(t, precision)
  {
    StreamRegisters(s, precision);
    StreamRegisters(t, precision);
    RegistersAreDetermined(RegistersAfter(s, precision), RegistersAfter(t, precision), HashesOf(s), precision);
  }

  /** Two streams one after the other give the pointwise maximum. */
  lemma ConcatenationIsMaximum(s: seq<nat>, t: seq<nat>, precision: nat)
    ensures var (a, b, c) := (RegistersAfter(s, precision), RegistersAfter(t, precision),
                             RegistersAfter(s + t, precision));
            forall i :: 0 <= i < |c| ==> c[i] == if a[i] >= b[i] then a[i] else b[i]
  {
    StreamRegisters(s, precision);
    StreamRegisters(t, precision);
    StreamRegisters(s + t, precision);
    assert HashesOf(s + t) == HashesOf(s) + HashesOf(t);
    RegistersOfUnion(RegistersAfter(s, precision), RegistersAfter(t, precision), RegistersAfter(s + t, precision),
                     HashesOf(s), HashesOf(t), precision);
  }

  /** Hashes of `bits` bits (64 here) leave at most bits - precision for the rank. */
  lemma RegistersFit(registers: seq<nat>, hashes: set<nat>, precision: nat, bits: nat)
    requires AreRegisters(registers, hashes, precision) && precision < bits
    requires forall h :: h in hashes ==> h < Pow2(bits)
    ensures forall i :: 0 <= i < |registers| ==> registers[i] <= bits - precision
  {
    forall i | 0 <= i < |registers| ensures registers[i] <= bits - precision {
      assert IsRegister(registers[i], hashes, i, precision);
      if registers[i] > 0 {
        var h :| h in hashes && Index(h, precision) == i && RankOf(h, precision) == registers[i];
        RankOfFits(h, precision, bits);
      }
    }
  }

  lemma RankOfFits(h: nat, precision: nat, bits: nat)
    requires h < Pow2(bits) && precision < bits
    ensures RankOf(h, precision) <= bits - precision
  {
    ShiftFits(h, precision, bits);
    RankFits(Shifted(h, precision), bits - precision);
  }

  lemma ShiftFits(h: nat, precision: nat, bits: nat)
    requires h < Pow2(bits) && precision <= bits
    ensures Shifted(h, precision) < Pow2(bits - precision)
  {
    Pow2Sum(precision, bits - precision);
    QuotientBound(h, Pow2(precision), Pow2(bits - precision));
  }

  lemma Monotone(d: nat, a: nat, b: nat)
    ensures a <= b ==> d * a <= d * b
  {
  }

  lemma QuotientBound(h: nat, d: nat, e: nat)
    requires d > 0 && h < d * e
    ensures Quotient(h, d) < e
  {
    Monotone(d, e, h / d);
  }

  lemma {:induction false} RankOfZero(h: nat, precision: nat)
    requires h < Pow2(precision)
    ensures RankOf(h, precision) == 1 && Shifted(h, precision) == 0
  {
    QuotientBound(h, Pow2(precision), 1);
  }

  /** The run of zero bits at the low end of a number of `width` bits; all of them for zero. */
  function ZeroRun(n: nat, width: nat): (run: nat)
    ensures run <= width
  {
    if width == 0 || n % 2 == 1 then 0 else 1 + ZeroRun(n / 2, width - 1)
  }

  lemma {:induction false} ZeroRunIsRank(n: nat, width: nat)
    requires n < Pow2(width)
    ensures n > 0 ==> ZeroRun(n, width) + 1 == TrailingRank(n) <= width
    ensures n == 0 ==> ZeroRun(n, width) == width
  {
    if width > 0 && n % 2 == 0 {
      assert Pow2(width) == 2 * Pow2(width - 1);
      ZeroRunIsRank(n / 2, width - 1);
    }
  }

  /** The intended rank: the run of zeros among the remaining bits plus one, cut at the number of these bits. */
  function IntendedRank(h: nat, precision: nat, bits: nat): nat
    requires precision < bits
  {
    Capped(ZeroRun(Shifted(h, precision), bits - precision) + 1, bits - precision)
  }

  /** The loop gives it exactly when one of the remaining bits is set, or there is only one. For a hash without
      any, the longest run there is, it gives the least rank instead of the greatest. */
  lemma RankIsIntendedExactlyWhenNonzero(h: nat, precision: nat, bits: nat)
    requires precision < bits && h < Pow2(bits)
    ensures RankOf(h, precision) == IntendedRank(h, precision, bits)
            <==> Shifted(h, precision) != 0 || bits - precision == 1
    ensures Shifted(h, precision) == 0 ==>
              RankOf(h, precision) == 1 && IntendedRank(h, precision, bits) == bits - precision
  {
    ShiftFits(h, precision, bits);
    ZeroRunIsRank(Shifted(h, precision), bits - precision);
  }

  class HyperLogLog {
    const precision: nat
    const bits: nat
    const registers: array<nat>
    ghost var hashes: set<nat>

    ghost predicate Valid()
      reads this, registers
    {
      AreRegisters(registers[..], hashes, precision) && forall h :: h in hashes ==> h < Pow2(bits)
    }

    /** `bits` is the width of the hashes: 64 in the program. */
    constructor (precision: nat, bits: nat)
      ensures Valid() && hashes == {} && fresh(registers) && registers[..] == RegistersAfter([], precision)
              && this.precision == precision && this.bits == bits
    {
      this.precision := precision;
      this.bits := bits;
      registers := new nat[Pow2(precision)](_ => 0);
      hashes := {};
    }

    /** `h` is the number read from the first bytes of the value's digest. */
    method Add(h: nat)
      requires Valid() && h < Pow2(bits)
      modifies this, registers
      ensures Valid() && hashes == old(hashes) + {h}
      ensures registers[..] == AddHash(old(registers[..]), h, precision)
    {
      var index := Index(h, precision);
      var remaining := Shifted(h, precision);
      if bits <= precision {
        Pow2Grows(bits, precision);
        RankOfZero(h, precision);
      } else {
        ShiftFits(h, precision, bits);
      }
      var rank := Rank(remaining, bits - precision);
      CapNeverBinds(remaining, bits - precision);
      AddedRegister(registers[..], hashes, precision, h);
      registers[index] := if registers[index] >= rank then registers[index] else rank;
      hashes := hashes + {h};
      assert registers[..] == AddHash(old(registers[..]), h, precision);
    }
  }
}
