/** The two in-place gate kernels, against the gate action index by index. */
module QuantumKernels {
  import opened Arithmetic
  import opened QuantumIndex

  datatype Gate2 = Gate2(m00: Complex, m01: Complex, m10: Complex, m11: Complex)

  /** A 4 x 4 matrix; the low bit of a row or column index belongs to the first qubit. */
  type Gate4 = m: seq<seq<Complex>> | |m| == 4 && forall i :: 0 <= i < 4 ==> |m[i]| == 4
    witness seq(4, i => seq(4, j => Zero))

  /** The order in which the parallel loop happens to run its `n` iterations. */
  ghost predicate Schedule(order: seq<nat>, n: nat) {
    && (forall b: nat :: b in order <==> b < n)
    && (forall i, j :: 0 <= i < j < |order| ==> order[i] != order[j])
  }

  lemma ScheduleAt(order: seq<nat>, n: nat, j: nat)
    requires Schedule(order, n) && j < |order|
    ensures order[j] < n && order[j] !in order[..j] && order[..j + 1] == order[..j] + [order[j]]
  {
    assert order[j] in order;
  }

  lemma InsideBlock(start: nat, s: nat, bit: nat, i: nat, n: nat)
    requires bit < 2 && i < s && start + 2 * s <= n
    ensures start + bit * s + i < n && start + i + s < n
  {
    MulMono(bit, 1, s);
  }

  lemma WholeBlock(k: nat, s: nat, n: nat)
    requires s > 0 && Quot(k, 2 * s) < Quot(n, 2 * s)
    ensures Low(k, s) + s < n && k < n
  {
    BlockFits(n, 2 * s, Quot(k, 2 * s));
    var block, bit, i := SplitExists(k, s);
    InsideBlock(block * (2 * s), s, bit, i, n);
  }

  /** The amplitude at `k` after a one-qubit gate on the bit of stride `s`. An
      incomplete last block, present when the bit is outside the register, is untouched. */
  function Amp1(v: seq<Complex>, s: nat, m: Gate2, k: nat): Complex
    requires s > 0 && k < |v|
  {
    if Quot(k, 2 * s) < Quot(|v|, 2 * s) then
      WholeBlock(k, s, |v|);
      var a, b := v[Low(k, s)], v[Low(k, s) + s];
      if Bit(k, s) == 0 then m.m00.Times(a).Plus(m.m01.Times(b)) else m.m10.Times(a).Plus(m.m11.Times(b))
    else v[k]
  }

  function Gate1Q(v: seq<Complex>, s: nat, m: Gate2): (w: seq<Complex>)
    requires s > 0
    ensures |w| == |v| && forall k :: 0 <= k < |v| ==> w[k] == Amp1(v, s, m, k)
  {
    seq(|v|, k requires 0 <= k < |v| => Amp1(v, s, m, k))
  }

  /** The indices the kernel has updated: all of the blocks in `done`, and the
      first `i` pairs of block `b`, which begins at index `start`. */
  ghost predicate Updated(done: seq<nat>, b: nat, start: nat, i: nat, s: nat, k: nat)
    requires s > 0
  {
    Quot(k, 2 * s) in done || (Quot(k, 2 * s) == b && Low(k, s) < start + i)
  }

  /** The pair at position `i` of block `b`. */
  lemma PairAt(b: nat, start: nat, i: nat, s: nat)
    requires i < s && start == b * (2 * s)
    ensures Quot(start + i, 2 * s) == b && Low(start + i, s) == start + i && Bit(start + i, s) == 0
    ensures Quot(start + i + s, 2 * s) == b && Low(start + i + s, s) == start + i && Bit(start + i + s, s) == 1
  {
    Split(start + i, s, b, 0, i);
    Split(start + i + s, s, b, 1, i);
  }

  lemma LowIs(k: nat, s: nat, low: nat)
    requires s > 0 && Low(k, s) == low
    ensures k == if Bit(k, s) == 0 then low else low + s
  {
  }

  lemma InBlock(k: nat, s: nat, b: nat, start: nat)
    requires s > 0 && start == b * (2 * s) && Quot(k, 2 * s) == b
    ensures start <= Low(k, s) < start + s
  {
    var block, bit, i := SplitExists(k, s);
  }

  /** The amplitudes when the blocks in `done` and the first `i` pairs of block `b` are updated. */
  ghost predicate Partial1(state: seq<Complex>, v: seq<Complex>, done: seq<nat>, b: nat, start: nat, i: nat, s: nat, m: Gate2)
    requires s > 0
  {
    |state| == |v| &&
    forall k: nat :: k < |v| ==> state[k] == if Updated(done, b, start, i, s, k) then Amp1(v, s, m, k) else v[k]
  }

  /** The pair at position `i` is still untouched, and its two products are what the gate asks for. */
  lemma FreshPair(state: seq<Complex>, v: seq<Complex>, done: seq<nat>, b: nat, start: nat, i: nat, s: nat, m: Gate2)
    requires i < s && b !in done && b < Quot(|v|, 2 * s) && start == b * (2 * s) && Partial1(state, v, done, b, start, i, s, m)
    requires start + i + s < |v|
    ensures var a, c := state[start + i], state[start + i + s];
            && Amp1(v, s, m, start + i) == m.m00.Times(a).Plus(m.m01.Times(c))
            && Amp1(v, s, m, start + i + s) == m.m10.Times(a).Plus(m.m11.Times(c))
  {
    PairAt(b, start, i, s);
    assert state[start + i] == v[start + i] && state[start + i + s] == v[start + i + s];
  }

  lemma Partial1Next(state: seq<Complex>, v: seq<Complex>, done: seq<nat>,
                     b: nat, start: nat, i: nat, s: nat, m: Gate2, state': seq<Complex>)
    requires i < s && b !in done && start == b * (2 * s) && Partial1(state, v, done, b, start, i, s, m)
    requires start + i + s < |v|
    requires state' == state[start + i := Amp1(v, s, m, start + i)][start + i + s := Amp1(v, s, m, start + i + s)]
    ensures Partial1(state', v, done, b, start, i + 1, s, m)
  {
    PairAt(b, start, i, s);
    forall k: nat | k < |v| ensures state'[k] == if Updated(done, b, start, i + 1, s, k) then Amp1(v, s, m, k) else v[k] {
      LowIs(k, s, Low(k, s));
    }
  }

  /** One iteration of the parallel loop. */
  method ApplyBlock1Q(state: array<Complex>, stride: nat, mat: Gate2, b: nat, ghost v: seq<Complex>, ghost done: seq<nat>)
    requires stride > 0 && |v| == state.Length && b < Quot(state.Length, 2 * stride) && b !in done
    requires Partial1(state[..], v, done, b, b * (2 * stride), 0, stride, mat)
    modifies state
    ensures Partial1(state[..], v, done, b, b * (2 * stride), stride, stride, mat)
  {
    BlockFits(state.Length, 2 * stride, b);
    var blockStart := b * (2 * stride);
    for i := 0 to stride
      invariant Partial1(state[..], v, done, b, blockStart, i, stride, mat)
    {
      var idx0 := blockStart + i;
      var idx1 := idx0 + stride;
      ghost var before := state[..];
      FreshPair(before, v, done, b, blockStart, i, stride, mat);
      var a, bVal := state[idx0], state[idx1];
      state[idx0] := mat.m00.Times(a).Plus(mat.m01.Times(bVal));
      state[idx1] := mat.m10.Times(a).Plus(mat.m11.Times(bVal));
      Partial1Next(before, v, done, b, blockStart, i, stride, mat, state[..]);
    }
  }

  /** The amplitudes when exactly the blocks in `done` are updated. */
  ghost predicate Blocks1(state: seq<Complex>, v: seq<Complex>, done: seq<nat>, s: nat, m: Gate2)
    requires s > 0
  {
    |state| == |v| &&
    forall k: nat :: k < |v| ==> state[k] == if Quot(k, 2 * s) in done then Amp1(v, s, m, k) else v[k]
  }

  lemma BlocksPartial(state: seq<Complex>, v: seq<Complex>, done: seq<nat>, b: nat, start: nat, s: nat, m: Gate2)
    requires s > 0 && start == b * (2 * s)
    ensures Blocks1(state, v, done, s, m) <==> Partial1(state, v, done, b, start, 0, s, m)
    ensures Blocks1(state, v, done + [b], s, m) <==> Partial1(state, v, done, b, start, s, s, m)
  {
    forall k: nat
      ensures Updated(done, b, start, s, s, k) <==> Quot(k, 2 * s) in done + [b]
      ensures Updated(done, b, start, 0, s, k) <==> Quot(k, 2 * s) in done
    {
      if Quot(k, 2 * s) == b {
        InBlock(k, s, b, start);
      }
    }
  }

  lemma AllBlocks(state: seq<Complex>, v: seq<Complex>, order: seq<nat>, s: nat, m: Gate2)
    requires s > 0 && Schedule(order, Quot(|v|, 2 * s)) && Blocks1(state, v, order, s, m)
    ensures state == Gate1Q(v, s, m)
  {
    forall k: nat | k < |v| ensures state[k] == Amp1(v, s, m, k) {
      var b: nat := Quot(k, 2 * s);
      assert b in order <==> b < Quot(|v|, 2 * s);
    }
  }

  /** ApplyGate1Q_AVX2: in whatever order the blocks are taken, every amplitude
      ends up as the matrix applied to the old amplitudes of its pair. */
  method ApplyGate1Q(state: array<Complex>, target: nat, mat: Gate2, order: seq<nat>)
    requires Schedule(order, Quot(state.Length, 2 * Pow2(target)))
    modifies state
    ensures state[..] == Gate1Q(old(state[..]), Pow2(target), mat)
  {
    var stride := Pow2(target);
    ghost var v := state[..];
    for j := 0 to |order|
      invariant Blocks1(state[..], v, order[..j], stride, mat)
    {
      var b := order[j];
      ScheduleAt(order, Quot(state.Length, 2 * stride), j);
      BlocksPartial(state[..], v, order[..j], b, b * (2 * stride), stride, mat);
      ApplyBlock1Q(state, stride, mat, b, v, order[..j]);
      BlocksPartial(state[..], v, order[..j], b, b * (2 * stride), stride, mat);
    }
    assert order[..|order|] == order;
    AllBlocks(state[..], v, order, stride, mat);
  }

  // ----- the two-qubit kernel -----

  /** The strides of two distinct qubits of a register of `n` amplitudes. */
  ghost predicate Strides(s0: nat, s1: nat, n: nat) {
    Apart(s0, s1) && Apart(s1, s0) && Tiles(s0, n) && Tiles(s1, n)
  }

  /** `k` with both qubits' bits cleared. */
  function Base(k: nat, s0: nat, s1: nat): nat
    requires s0 > 0 && s1 > 0
  {
    Low(Low(k, s0), s1)
  }

  predicate BothClear(k: nat, s0: nat, s1: nat)
    requires s0 > 0 && s1 > 0
  {
    Bit(k, s0) == 0 && Bit(k, s1) == 0
  }

  /** The corner of the first qubit over an index with both bits clear. */
  lemma Corner1(i: nat, s0: nat, s1: nat, n: nat)
    requires Strides(s0, s1, n) && i < n && BothClear(i, s0, s1)
    ensures i + s0 < n && Bit(i + s0, s0) == 1 && Bit(i + s0, s1) == 0
    ensures Low(i + s0, s0) == i
  {
    SetBit(i, s0);
    OtherBit(i, s0, s1);
    PartnerInRange(i, s0, n);
  }

  /** All four corners: their bits, their base, and that they are indices. */
  lemma Corners(i: nat, s0: nat, s1: nat, n: nat)
    requires Strides(s0, s1, n) && i < n && BothClear(i, s0, s1)
    ensures i + s0 + s1 < n
    ensures Bit(i + s0, s0) == 1 && Bit(i + s0, s1) == 0 && Base(i + s0, s0, s1) == i
    ensures Bit(i + s1, s0) == 0 && Bit(i + s1, s1) == 1 && Base(i + s1, s0, s1) == i
    ensures Bit(i + s0 + s1, s0) == 1 && Bit(i + s0 + s1, s1) == 1 && Base(i + s0 + s1, s0, s1) == i
  {
    Corner1(i, s0, s1, n);
    Corner1(i, s1, s0, n);
    SetBit(i + s0, s1);
    OtherBit(i + s0, s1, s0);
    PartnerInRange(i + s0, s1, n);
    assert Low(i + s0 + s1, s0) == i + s1;
  }

  lemma Cleared(k: nat, s: nat, t: nat)
    requires Apart(s, t)
    ensures Bit(Low(k, s), s) == 0 && Bit(Low(k, s), t) == Bit(k, t)
  {
    ClearBit(k, s);
    if Bit(k, s) != 0 {
      OtherBit(Low(k, s), s, t);
    }
  }

  /** Every index is one of the corners over its base. */
  lemma BaseCorner(k: nat, s0: nat, s1: nat)
    requires Apart(s0, s1) && Apart(s1, s0)
    ensures BothClear(Base(k, s0, s1), s0, s1) && Base(k, s0, s1) <= k
    ensures k == Base(k, s0, s1) + (if Bit(k, s0) == 0 then 0 else s0) + (if Bit(k, s1) == 0 then 0 else s1)
  {
    Cleared(k, s0, s1);
    Cleared(Low(k, s0), s1, s0);
  }

  /** One row of the matrix applied to the four amplitudes over `base`. */
  function Row(v: seq<Complex>, base: nat, s0: nat, s1: nat, row: seq<Complex>): Complex
    requires |row| == 4 && base + s0 + s1 < |v|
  {
    row[0].Times(v[base]).Plus(row[1].Times(v[base + s0])).Plus(row[2].Times(v[base + s1]))
    .Plus(row[3].Times(v[base + s0 + s1]))
  }

  ghost function Amp2(v: seq<Complex>, s0: nat, s1: nat, m: Gate4, k: nat): Complex
    requires Strides(s0, s1, |v|) && k < |v|
  {
    BaseCorner(k, s0, s1);
    Corners(Base(k, s0, s1), s0, s1, |v|);
    Row(v, Base(k, s0, s1), s0, s1, m[Bit(k, s0) + 2 * Bit(k, s1)])
  }

  ghost function Gate2Q(v: seq<Complex>, s0: nat, s1: nat, m: Gate4): (w: seq<Complex>)
    requires Strides(s0, s1, |v|)
    ensures |w| == |v| && forall k :: 0 <= k < |v| ==> w[k] == Amp2(v, s0, s1, m, k)
  {
    seq(|v|, k requires 0 <= k < |v| => Amp2(v, s0, s1, m, k))
  }

  /** The amplitudes, on their way from `v` to `w`, when the iterations in `done` have run. */
  ghost predicate Partial2(state: seq<Complex>, v: seq<Complex>, w: seq<Complex>, s0: nat, s1: nat, done: seq<nat>)
    requires Strides(s0, s1, |v|) && |w| == |v|
  {
    |state| == |v| &&
    forall k: nat :: k < |v| ==> state[k] == if Base(k, s0, s1) in done then w[k] else v[k]
  }

  ghost function Write4(state: seq<Complex>, i: nat, s0: nat, s1: nat, a: Complex, b: Complex, c: Complex, d: Complex): seq<Complex>
    requires i + s0 + s1 < |state|
  {
    state[i := a][i + s0 := b][i + s1 := c][i + s0 + s1 := d]
  }

  /** What the gate puts at the four corners over `i`. */
  lemma CornerAmps(v: seq<Complex>, s0: nat, s1: nat, m: Gate4, i: nat)
    requires Strides(s0, s1, |v|) && i < |v| && BothClear(i, s0, s1)
    ensures i + s0 + s1 < |v|
    ensures Amp2(v, s0, s1, m, i) == Row(v, i, s0, s1, m[0])
    ensures Amp2(v, s0, s1, m, i + s0) == Row(v, i, s0, s1, m[1])
    ensures Amp2(v, s0, s1, m, i + s1) == Row(v, i, s0, s1, m[2])
    ensures Amp2(v, s0, s1, m, i + s0 + s1) == Row(v, i, s0, s1, m[3])
  {
    Corners(i, s0, s1, |v|);
  }

  /** An iteration at an index with a bit set does nothing, and no index has it as base. */
  lemma Partial2Skip(state: seq<Complex>, v: seq<Complex>, w: seq<Complex>, s0: nat, s1: nat, done: seq<nat>, i: nat)
    requires Strides(s0, s1, |v|) && |w| == |v| && !BothClear(i, s0, s1) && Partial2(state, v, w, s0, s1, done)
    ensures Partial2(state, v, w, s0, s1, done + [i])
  {
    forall k: nat | k < |v| ensures Base(k, s0, s1) != i {
      BaseCorner(k, s0, s1);
    }
  }

  /** The corners over `i` are still untouched when its turn comes. */
  lemma FreshCorners(state: seq<Complex>, v: seq<Complex>, w: seq<Complex>, s0: nat, s1: nat, done: seq<nat>, i: nat)
    requires Strides(s0, s1, |v|) && |w| == |v| && i < |v| && i !in done && BothClear(i, s0, s1) && Partial2(state, v, w, s0, s1, done)
    ensures i + s0 + s1 < |v| && state[i] == v[i] && state[i + s0] == v[i + s0]
    ensures state[i + s1] == v[i + s1] && state[i + s0 + s1] == v[i + s0 + s1]
  {
    Corners(i, s0, s1, |v|);
  }

  /** Exactly the corners over `i` have `i` as their base. */
  lemma OverBase(k: nat, s0: nat, s1: nat, n: nat, i: nat)
    requires Strides(s0, s1, n) && i < n && BothClear(i, s0, s1)
    ensures Base(k, s0, s1) == i <==> k == i || k == i + s0 || k == i + s1 || k == i + s0 + s1
  {
    BaseCorner(k, s0, s1);
    Corners(i, s0, s1, n);
  }

  lemma Written4At(state: seq<Complex>, i: nat, s0: nat, s1: nat, w: seq<Complex>, k: nat)
    requires Strides(s0, s1, |state|) && |w| == |state| && i + s0 + s1 < |state| && BothClear(i, s0, s1) && k < |state|
    ensures Write4(state, i, s0, s1, w[i], w[i + s0], w[i + s1], w[i + s0 + s1])[k] == if Base(k, s0, s1) == i then w[k] else state[k]
  {
    OverBase(k, s0, s1, |state|, i);
  }

  lemma Partial2Next(state: seq<Complex>, v: seq<Complex>, w: seq<Complex>, s0: nat, s1: nat, done: seq<nat>, i: nat, state': seq<Complex>)
    requires Strides(s0, s1, |v|) && |w| == |v| && i + s0 + s1 < |v| && BothClear(i, s0, s1) && Partial2(state, v, w, s0, s1, done)
    requires state' == Write4(state, i, s0, s1, w[i], w[i + s0], w[i + s1], w[i + s0 + s1])
    ensures Partial2(state', v, w, s0, s1, done + [i])
  {
    forall k: nat | k < |v| ensures state'[k] == if Base(k, s0, s1) in done + [i] then w[k] else v[k] {
      Written4At(state, i, s0, s1, w, k);
    }
  }

  lemma AllBases(state: seq<Complex>, v: seq<Complex>, w: seq<Complex>, s0: nat, s1: nat, order: seq<nat>)
    requires Strides(s0, s1, |v|) && |w| == |v| && Schedule(order, |v|) && Partial2(state, v, w, s0, s1, order)
    ensures state == w
  {
    forall k: nat | k < |v| ensures state[k] == w[k] {
      BaseCorner(k, s0, s1);
      assert Base(k, s0, s1) in order;
    }
  }

  lemma SameRow(state: seq<Complex>, v: seq<Complex>, i: nat, s0: nat, s1: nat, row: seq<Complex>)
    requires |row| == 4 && |state| == |v| && i + s0 + s1 < |v| && state[i] == v[i] && state[i + s0] == v[i + s0]
    requires state[i + s1] == v[i + s1] && state[i + s0 + s1] == v[i + s0 + s1]
    ensures Row(state, i, s0, s1, row) == Row(v, i, s0, s1, row)
  {
  }

  /** One iteration that updates its corners takes the pass one step further. */
  lemma Partial2Update(state: seq<Complex>, v: seq<Complex>, s0: nat, s1: nat, m: Gate4, done: seq<nat>, i: nat)
    requires Strides(s0, s1, |v|) && i < |v| && i !in done && BothClear(i, s0, s1)
    requires Partial2(state, v, Gate2Q(v, s0, s1, m), s0, s1, done)
    ensures i + s0 + s1 < |v| && s0 != s1 && s0 > 0 && s1 > 0
    ensures Partial2(Write4(state, i, s0, s1, Row(state, i, s0, s1, m[0]), Row(state, i, s0, s1, m[1]), Row(state, i, s0, s1, m[2]),
                            Row(state, i, s0, s1, m[3])), v, Gate2Q(v, s0, s1, m), s0, s1, done + [i])
  {
    var w := Gate2Q(v, s0, s1, m);
    FreshCorners(state, v, w, s0, s1, done, i);
    CornerAmps(v, s0, s1, m, i);
    Corners(i, s0, s1, |v|);
    forall j | 0 <= j < 4 ensures Row(state, i, s0, s1, m[j]) == Row(v, i, s0, s1, m[j]) {
      SameRow(state, v, i, s0, s1, m[j]);
    }
    assert w[i] == Row(state, i, s0, s1, m[0]) && w[i + s0] == Row(state, i, s0, s1, m[1]);
    assert w[i + s1] == Row(state, i, s0, s1, m[2]) && w[i + s0 + s1] == Row(state, i, s0, s1, m[3]);
    Partial2Next(state, v, w, s0, s1, done, i, Write4(state, i, s0, s1, w[i], w[i + s0], w[i + s1], w[i + s0 + s1]));
  }

  lemma QubitStrides(q0: nat, q1: nat, n: nat)
    requires q0 != q1 && q0 < n && q1 < n
    ensures Strides(Pow2(q0), Pow2(q1), Pow2(n))
  {
    QubitsApart(q0, q1);
    QubitsApart(q1, q0);
    QubitTiles(q0, n);
    QubitTiles(q1, n);
  }

  /** The body of the parallel loop, at an index with both bits clear. */
  method UpdateCorners(state: array<Complex>, i: nat, s0: nat, s1: nat, mat: Gate4)
    requires s0 > 0 && s1 > 0 && s0 != s1 && i + s0 + s1 < state.Length
    modifies state
    ensures state[..] == Write4(old(state[..]), i, s0, s1, Row(old(state[..]), i, s0, s1, mat[0]), Row(old(state[..]), i, s0, s1, mat[1]),
                                Row(old(state[..]), i, s0, s1, mat[2]), Row(old(state[..]), i, s0, s1, mat[3]))
  {
    var i00, i01, i10, i11 := i, i + s0, i + s1, i + s0 + s1;
    var v0, v1, v2, v3 := state[i00], state[i01], state[i10], state[i11];
    state[i00] := mat[0][0].Times(v0).Plus(mat[0][1].Times(v1)).Plus(mat[0][2].Times(v2)).Plus(mat[0][3].Times(v3));
    state[i01] := mat[1][0].Times(v0).Plus(mat[1][1].Times(v1)).Plus(mat[1][2].Times(v2)).Plus(mat[1][3].Times(v3));
    state[i10] := mat[2][0].Times(v0).Plus(mat[2][1].Times(v1)).Plus(mat[2][2].Times(v2)).Plus(mat[2][3].Times(v3));
    state[i11] := mat[3][0].Times(v0).Plus(mat[3][1].Times(v1)).Plus(mat[3][2].Times(v2)).Plus(mat[3][3].Times(v3));
  }

  /** ApplyGate2Q_AVX2, for the strides of two distinct qubits of the register: in
      whatever order the iterations run, every amplitude ends up as its row of the
      matrix applied to the old amplitudes that differ from it in the two qubits only. */
  method ApplyGate2Q(state: array<Complex>, ghost n: nat, q0: nat, q1: nat, mat: Gate4, order: seq<nat>)
    requires q0 != q1 && q0 < n && q1 < n && state.Length == Pow2(n) && Schedule(order, state.Length)
    modifies state
    ensures Strides(Pow2(q0), Pow2(q1), state.Length)
    ensures state[..] == Gate2Q(old(state[..]), Pow2(q0), Pow2(q1), mat)
  {
    QubitStrides(q0, q1, n);
    var s0, s1 := Pow2(q0), Pow2(q1);
    ghost var v := state[..];
    for j := 0 to |order|
      invariant Partial2(state[..], v, Gate2Q(v, s0, s1, mat), s0, s1, order[..j])
    {
      var i := order[j];
      ScheduleAt(order, state.Length, j);
      if Bit(i, s0) == 0 && Bit(i, s1) == 0 {
        Partial2Update(state[..], v, s0, s1, mat, order[..j], i);
        UpdateCorners(state, i, s0, s1, mat);
      } else {
        Partial2Skip(state[..], v, Gate2Q(v, s0, s1, mat), s0, s1, order[..j], i);
      }
    }
    assert order[..|order|] == order;
    AllBases(state[..], v, Gate2Q(v, s0, s1, mat), s0, s1, order);
  }
}
