/** The simulator object, and what holds of every circuit it can run. */
module QuantumCircuit {
  import opened Arithmetic
  import opened QuantumIndex
  import opened QuantumKernels

  /** The gate types; `Run` has no branch for the ones summed up in `Other`. */
  datatype GateType = H | X | CX | Other

  datatype GateOp = GateOp(kind: GateType, targets: seq<nat>, controls: seq<nat>)

  /** The gate names qubits of an `n`-qubit register, a controlled gate two distinct ones. */
  predicate Applicable(g: GateOp, n: nat) {
    match g.kind
    case Other => true
    case CX => |g.targets| > 0 && |g.controls| > 0 && g.targets[0] < n && g.controls[0] < n && g.targets[0] != g.controls[0]
    case _ => |g.targets| > 0 && g.targets[0] < n
  }

  function Hadamard(r: real): Gate2 {
    Gate2(Complex(r, 0.0), Complex(r, 0.0), Complex(r, 0.0), Complex(-r, 0.0))
  }

  const PauliX := Gate2(Zero, One, One, Zero)

  const ControlledX: Gate4 :=
    [[One, Zero, Zero, Zero], [Zero, One, Zero, Zero], [Zero, Zero, Zero, One], [Zero, Zero, One, Zero]]

  /** The action of one gate, where `r` is 1 / sqrt(2). */
  ghost function GateAction(v: seq<Complex>, n: nat, r: real, g: GateOp): (w: seq<Complex>)
    requires |v| == Pow2(n) && Applicable(g, n)
    ensures |w| == |v|
  {
    match g.kind
    case H => Gate1Q(v, Pow2(g.targets[0]), Hadamard(r))
    case X => Gate1Q(v, Pow2(g.targets[0]), PauliX)
    case CX =>
      QubitStrides(g.targets[0], g.controls[0], n);
      Gate2Q(v, Pow2(g.targets[0]), Pow2(g.controls[0]), ControlledX)
    case Other => v
  }

  ghost predicate AllApplicable(circuit: seq<GateOp>, n: nat) {
    forall g :: g in circuit ==> Applicable(g, n)
  }

  ghost function CircuitAction(v: seq<Complex>, n: nat, r: real, circuit: seq<GateOp>): (w: seq<Complex>)
    requires |v| == Pow2(n) && AllApplicable(circuit, n)
    ensures |w| == |v|
  {
    if circuit == [] then v
    else
      var m := |circuit| - 1;
      GateAction(CircuitAction(v, n, r, circuit[..m]), n, r, circuit[m])
  }

  // ----- the total squared amplitude -----

  ghost function Norm(v: seq<Complex>): real {
    if v == [] then 0.0 else Norm(v[..|v| - 1]) + v[|v| - 1].Square()
  }

  lemma {:induction false} NormConcat(a: seq<Complex>, b: seq<Complex>)
    ensures Norm(a + b) == Norm(a) + Norm(b)
  {
    if b == [] {
      assert a + b == a;
    } else {
      var n := |b| - 1;
      NormConcat(a, b[..n]);
      assert (a + b)[..|a + b| - 1] == a + b[..n];
    }
  }

  /** The pair of amplitudes at `k` and `k + s` keeps its squared length. */
  predicate PairKept(v: seq<Complex>, w: seq<Complex>, s: nat, k: nat)
    requires |v| == |w|
  {
    k + s < |v| ==> v[k].Square() + v[k + s].Square() == w[k].Square() + w[k + s].Square()
  }

  lemma {:induction false} HalvesKeepNorm(lo: seq<Complex>, hi: seq<Complex>, lo': seq<Complex>, hi': seq<Complex>)
    requires |lo| == |hi| == |lo'| == |hi'|
    requires forall i :: 0 <= i < |lo| ==> lo[i].Square() + hi[i].Square() == lo'[i].Square() + hi'[i].Square()
    ensures Norm(lo) + Norm(hi) == Norm(lo') + Norm(hi')
  {
    if lo != [] {
      var n := |lo| - 1;
      HalvesKeepNorm(lo[..n], hi[..n], lo'[..n], hi'[..n]);
    }
  }

  /** A block of two strides is a lower half and an upper half. */
  lemma BlockKeepsNorm(v: seq<Complex>, w: seq<Complex>, s: nat, start: nat)
    requires |v| == |w| == start + 2 * s
    requires forall k: nat :: start <= k < start + s ==> PairKept(v, w, s, k)
    ensures Norm(v[start..]) == Norm(w[start..])
  {
    var lo, hi := v[start..start + s], v[start + s..];
    var lo', hi' := w[start..start + s], w[start + s..];
    forall i | 0 <= i < |lo| ensures lo[i].Square() + hi[i].Square() == lo'[i].Square() + hi'[i].Square() {
      assert PairKept(v, w, s, start + i);
    }
    HalvesKeepNorm(lo, hi, lo', hi');
    NormConcat(lo, hi);
    NormConcat(lo', hi');
    assert v[start..] == lo + hi && w[start..] == lo' + hi';
  }

  lemma LastBlockKeepsNorm(v: seq<Complex>, w: seq<Complex>, s: nat, c: nat, start: nat)
    requires s > 0 && |v| == |w| == start + 2 * s && start == Times2(c, s)
    requires forall k: nat :: Bit(k, s) == 0 ==> PairKept(v, w, s, k)
    ensures Norm(v[start..]) == Norm(w[start..])
  {
    forall k: nat | start <= k < start + s ensures PairKept(v, w, s, k) {
      Split(k, s, c, 0, k - start);
    }
    BlockKeepsNorm(v, w, s, start);
  }

  /** Summed over all its pairs, the register keeps its norm. */
  lemma {:induction false} PairsKeepNorm(v: seq<Complex>, w: seq<Complex>, s: nat, c: nat)
    requires s > 0 && |v| == |w| == Times2(c, s)
    requires forall k: nat :: Bit(k, s) == 0 ==> PairKept(v, w, s, k)
    ensures Norm(v) == Norm(w)
    decreases c
  {
    if c == 0 {
      assert v == w == [];
    } else {
      MulDistrib(c - 1, 1, 2 * s);
      var start := Times2(c - 1, s);
      LastBlockKeepsNorm(v, w, s, c - 1, start);
      forall k: nat | Bit(k, s) == 0 ensures PairKept(v[..start], w[..start], s, k) {
        assert PairKept(v, w, s, k);
      }
      PairsKeepNorm(v[..start], w[..start], s, c - 1);
      NormConcat(v[..start], v[start..]);
      NormConcat(w[..start], w[start..]);
      assert v == v[..start] + v[start..] && w == w[..start] + w[start..];
    }
  }

  // ----- what each gate does to a pair -----

  /** Hadamard on one pair: the sum and the difference, scaled. */
  lemma HadamardPair(r: real, a: Complex, b: Complex)
    requires 2.0 * r * r == 1.0
    ensures var m := Hadamard(r);
            var p, q := m.m00.Times(a).Plus(m.m01.Times(b)), m.m10.Times(a).Plus(m.m11.Times(b));
            && p.Square() + q.Square() == a.Square() + b.Square()
            && m.m00.Times(p).Plus(m.m01.Times(q)) == a
            && m.m10.Times(p).Plus(m.m11.Times(q)) == b
  {
    var m := Hadamard(r);
    var p, q := m.m00.Times(a).Plus(m.m01.Times(b)), m.m10.Times(a).Plus(m.m11.Times(b));
    assert p == Complex(r * (a.re + b.re), r * (a.im + b.im));
    assert q == Complex(r * (a.re - b.re), r * (a.im - b.im));
    Rotation(r, a.re, b.re);
    Rotation(r, a.im, b.im);
  }

  lemma Rotation(r: real, x: real, y: real)
    requires 2.0 * r * r == 1.0
    ensures var p, q := r * (x + y), r * (x - y);
            p * p + q * q == x * x + y * y && r * (p + q) == x && r * (p - q) == y
  {
    var p, q := r * (x + y), r * (x - y);
    assert r * (p + q) == (2.0 * r * r) * x;
    assert r * (p - q) == (2.0 * r * r) * y;
    assert p * p + q * q == (2.0 * r * r) * (x * x + y * y);
  }

  /** Pauli X exchanges the two amplitudes of a pair. */
  lemma PauliPair(a: Complex, b: Complex)
    ensures PauliX.m00.Times(a).Plus(PauliX.m01.Times(b)) == b
    ensures PauliX.m10.Times(a).Plus(PauliX.m11.Times(b)) == a
  {
  }

  lemma WholeRegister(k: nat, s: nat, n: nat)
    requires Tiles(s, n) && k < n
    ensures Quot(k, 2 * s) < Quot(n, 2 * s) && Low(k, s) + s < n
  {
    var c: nat :| Times2(c, s) == n;
    QuotUnique(n, 2 * s, c, 0);
    QuotBounds(k, 2 * s);
    if Quot(k, 2 * s) >= c {
      MulMono(c, Quot(k, 2 * s), 2 * s);
    }
    WholeBlock(k, s, n);
  }

  /** The two amplitudes a one-qubit gate leaves at a pair. */
  lemma PairAfter(v: seq<Complex>, s: nat, m: Gate2, k: nat)
    requires Tiles(s, |v|) && k < |v| && Bit(k, s) == 0
    ensures k + s < |v|
    ensures Gate1Q(v, s, m)[k] == m.m00.Times(v[k]).Plus(m.m01.Times(v[k + s]))
    ensures Gate1Q(v, s, m)[k + s] == m.m10.Times(v[k]).Plus(m.m11.Times(v[k + s]))
  {
    WholeRegister(k, s, |v|);
    SetBit(k, s);
    WholeRegister(k + s, s, |v|);
  }

  lemma HadamardAt(v: seq<Complex>, w: seq<Complex>, s: nat, r: real, k: nat)
    requires 2.0 * r * r == 1.0 && Tiles(s, |v|) && w == Gate1Q(v, s, Hadamard(r)) && k + s < |v| && Bit(k, s) == 0
    ensures PairKept(v, w, s, k) && |w| == |v|
    ensures Gate1Q(w, s, Hadamard(r))[k] == v[k] && Gate1Q(w, s, Hadamard(r))[k + s] == v[k + s]
  {
    PairAfter(v, s, Hadamard(r), k);
    PairAfter(w, s, Hadamard(r), k);
    HadamardPair(r, v[k], v[k + s]);
  }

  lemma HadamardKeepsNorm(v: seq<Complex>, s: nat, r: real)
    requires 2.0 * r * r == 1.0 && Tiles(s, |v|)
    ensures Norm(Gate1Q(v, s, Hadamard(r))) == Norm(v)
    ensures Gate1Q(Gate1Q(v, s, Hadamard(r)), s, Hadamard(r)) == v
  {
    var w := Gate1Q(v, s, Hadamard(r));
    var u := Gate1Q(w, s, Hadamard(r));
    forall k: nat | Bit(k, s) == 0 ensures PairKept(v, w, s, k) && (k + s < |v| ==> u[k] == v[k] && u[k + s] == v[k + s]) {
      if k + s < |v| {
        HadamardAt(v, w, s, r, k);
      }
    }
    var c: nat :| Times2(c, s) == |v|;
    PairsKeepNorm(v, w, s, c);
    SamePairs(u, v, s);
  }

  lemma PauliAt(v: seq<Complex>, w: seq<Complex>, s: nat, k: nat)
    requires Tiles(s, |v|) && w == Gate1Q(v, s, PauliX) && k + s < |v| && Bit(k, s) == 0
    ensures |w| == |v| && w[k] == v[k + s] && w[k + s] == v[k]
    ensures PairKept(v, w, s, k)
  {
    PairAfter(v, s, PauliX, k);
    PauliPair(v[k], v[k + s]);
  }

  lemma PauliExchanges(v: seq<Complex>, s: nat)
    requires Tiles(s, |v|)
    ensures forall k: nat :: k + s < |v| && Bit(k, s) == 0 ==>
              Gate1Q(v, s, PauliX)[k] == v[k + s] && Gate1Q(v, s, PauliX)[k + s] == v[k]
  {
    var w := Gate1Q(v, s, PauliX);
    forall k: nat | k + s < |v| && Bit(k, s) == 0 ensures w[k] == v[k + s] && w[k + s] == v[k] {
      PauliAt(v, w, s, k);
    }
  }

  lemma PauliKeepsNorm(v: seq<Complex>, s: nat)
    requires Tiles(s, |v|)
    ensures Norm(Gate1Q(v, s, PauliX)) == Norm(v)
    ensures Gate1Q(Gate1Q(v, s, PauliX), s, PauliX) == v
    ensures forall k: nat :: k + s < |v| && Bit(k, s) == 0 ==>
              Gate1Q(v, s, PauliX)[k] == v[k + s] && Gate1Q(v, s, PauliX)[k + s] == v[k]
  {
    var w := Gate1Q(v, s, PauliX);
    forall k: nat | Bit(k, s) == 0 ensures PairKept(v, w, s, k) {
      if k + s < |v| {
        PauliAt(v, w, s, k);
      }
    }
    var c: nat :| Times2(c, s) == |v|;
    PairsKeepNorm(v, w, s, c);
    PauliExchanges(v, s);
    PauliExchanges(w, s);
    SamePairs(Gate1Q(w, s, PauliX), v, s);
  }

  /** Registers that agree on every pair are equal. */
  lemma SamePairs(u: seq<Complex>, v: seq<Complex>, s: nat)
    requires |u| == |v| && Tiles(s, |v|)
    requires forall k: nat :: Bit(k, s) == 0 && k + s < |v| ==> u[k] == v[k] && u[k + s] == v[k + s]
    ensures u == v
  {
    forall k: nat | k < |v| ensures u[k] == v[k] {
      WholeRegister(k, s, |v|);
      ClearBit(k, s);
      LowIs(k, s, Low(k, s));
    }
  }

  // ----- CX -----

  lemma ControlledRow(v: seq<Complex>, base: nat, s0: nat, s1: nat)
    requires base + s0 + s1 < |v|
    ensures Row(v, base, s0, s1, ControlledX[0]) == v[base]
    ensures Row(v, base, s0, s1, ControlledX[1]) == v[base + s0]
    ensures Row(v, base, s0, s1, ControlledX[2]) == v[base + s0 + s1]
    ensures Row(v, base, s0, s1, ControlledX[3]) == v[base + s1]
  {
  }

  /** CX exchanges the target's pair exactly where the control's bit is set. */
  lemma ControlledPair(v: seq<Complex>, s0: nat, s1: nat, k: nat)
    requires Strides(s0, s1, |v|) && k < |v| && Bit(k, s0) == 0
    ensures k + s0 < |v|
    ensures var w := Gate2Q(v, s0, s1, ControlledX);
            if Bit(k, s1) == 0 then w[k] == v[k] && w[k + s0] == v[k + s0]
            else w[k] == v[k + s0] && w[k + s0] == v[k]
  {
    BaseCorner(k, s0, s1);
    var i := Base(k, s0, s1);
    Corners(i, s0, s1, |v|);
    CornerAmps(v, s0, s1, ControlledX, i);
    ControlledRow(v, i, s0, s1);
    assert i + s0 + s1 == i + s1 + s0;
  }

  lemma ControlledKeepsNorm(v: seq<Complex>, s0: nat, s1: nat)
    requires Strides(s0, s1, |v|)
    ensures Norm(Gate2Q(v, s0, s1, ControlledX)) == Norm(v)
    ensures Gate2Q(Gate2Q(v, s0, s1, ControlledX), s0, s1, ControlledX) == v
  {
    var w := Gate2Q(v, s0, s1, ControlledX);
    var u := Gate2Q(w, s0, s1, ControlledX);
    forall k: nat | Bit(k, s0) == 0
      ensures PairKept(v, w, s0, k) && (k + s0 < |v| ==> u[k] == v[k] && u[k + s0] == v[k + s0])
    {
      if k + s0 < |v| {
        ControlledPair(v, s0, s1, k);
        ControlledPair(w, s0, s1, k);
      }
    }
    var c: nat :| Times2(c, s0) == |v|;
    PairsKeepNorm(v, w, s0, c);
    SamePairs(u, v, s0);
  }

  // ----- circuits -----

  lemma GateFacts(v: seq<Complex>, n: nat, r: real, g: GateOp)
    requires 2.0 * r * r == 1.0 && |v| == Pow2(n) && Applicable(g, n)
    ensures Norm(GateAction(v, n, r, g)) == Norm(v)
    ensures GateAction(GateAction(v, n, r, g), n, r, g) == v
  {
    match g.kind
    case H =>
      QubitTiles(g.targets[0], n);
      HadamardKeepsNorm(v, Pow2(g.targets[0]), r);
    case X =>
      QubitTiles(g.targets[0], n);
      PauliKeepsNorm(v, Pow2(g.targets[0]));
    case CX =>
      QubitStrides(g.targets[0], g.controls[0], n);
      ControlledKeepsNorm(v, Pow2(g.targets[0]), Pow2(g.controls[0]));
    case Other =>
  }

  /** Every circuit keeps the total squared amplitude, exactly. */
  lemma {:induction false} CircuitKeepsNorm(v: seq<Complex>, n: nat, r: real, circuit: seq<GateOp>)
    requires 2.0 * r * r == 1.0 && |v| == Pow2(n) && AllApplicable(circuit, n)
    ensures Norm(CircuitAction(v, n, r, circuit)) == Norm(v)
  {
    if circuit != [] {
      var m := |circuit| - 1;
      CircuitKeepsNorm(v, n, r, circuit[..m]);
      GateFacts(CircuitAction(v, n, r, circuit[..m]), n, r, circuit[m]);
    }
  }

  ghost function Reverse(circuit: seq<GateOp>): (c: seq<GateOp>)
    ensures |c| == |circuit| && forall g :: g in c <==> g in circuit
  {
    if circuit == [] then [] else [circuit[|circuit| - 1]] + Reverse(circuit[..|circuit| - 1])
  }

  lemma {:induction false} CircuitConcat(v: seq<Complex>, n: nat, r: real, c: seq<GateOp>, d: seq<GateOp>)
    requires |v| == Pow2(n) && AllApplicable(c, n) && AllApplicable(d, n)
    ensures AllApplicable(c + d, n)
    ensures CircuitAction(v, n, r, c + d) == CircuitAction(CircuitAction(v, n, r, c), n, r, d)
  {
    if d == [] {
      assert c + d == c;
    } else {
      var m := |d| - 1;
      CircuitConcat(v, n, r, c, d[..m]);
      assert (c + d)[..|c + d| - 1] == c + d[..m];
    }
  }

  /** Running a circuit and then its gates in reverse order restores every amplitude. */
  lemma {:induction false} ReverseUndoes(v: seq<Complex>, n: nat, r: real, circuit: seq<GateOp>)
    requires 2.0 * r * r == 1.0 && |v| == Pow2(n) && AllApplicable(circuit, n)
    ensures CircuitAction(CircuitAction(v, n, r, circuit), n, r, Reverse(circuit)) == v
  {
    if circuit != [] {
      var m := |circuit| - 1;
      var rest, g := circuit[..m], circuit[m];
      var u := CircuitAction(v, n, r, rest);
      var w := GateAction(u, n, r, g);
      GateFacts(u, n, r, g);
      CircuitConcat(w, n, r, [g], Reverse(rest));
      assert [g][..0] == [];
      assert CircuitAction(w, n, r, [g]) == GateAction(CircuitAction(w, n, r, []), n, r, g) == u;
      ReverseUndoes(v, n, r, rest);
    }
  }

  /** The state |0...0>. */
  ghost function Ground(size: nat): seq<Complex> {
    seq(size, k => if k == 0 then One else Zero)
  }

  lemma UnitSquare(x: Complex, first: bool)
    requires x == if first then One else Zero
    ensures x.Square() == if first then 1.0 else 0.0
  {
    if first {
      assert x.Square() == 1.0 * 1.0 + 0.0 * 0.0;
    } else {
      assert x.Square() == 0.0 * 0.0 + 0.0 * 0.0;
    }
  }

  ghost function Total(xs: seq<real>): real {
    if xs == [] then 0.0 else Total(xs[..|xs| - 1]) + xs[|xs| - 1]
  }

  lemma {:induction false} NormIsTotal(v: seq<Complex>, xs: seq<real>)
    requires |xs| == |v| && forall k :: 0 <= k < |v| ==> v[k].Square() == xs[k]
    ensures Norm(v) == Total(xs)
  {
    if v != [] {
      NormIsTotal(v[..|v| - 1], xs[..|v| - 1]);
    }
  }

  lemma {:induction false} UnitTotal(xs: seq<real>)
    requires |xs| > 0 && xs[0] == 1.0 && forall k :: 0 < k < |xs| ==> xs[k] == 0.0
    ensures Total(xs) == 1.0
  {
    if |xs| > 1 {
      UnitTotal(xs[..|xs| - 1]);
    } else {
      assert Total(xs[..0]) == 0.0;
    }
  }

  lemma GroundNorm(size: nat)
    requires size > 0
    ensures Norm(Ground(size)) == 1.0
  {
    var v, xs := Ground(size), seq(size, k => if k == 0 then 1.0 else 0.0);
    forall k | 0 <= k < size ensures v[k].Square() == xs[k] {
      UnitSquare(v[k], k == 0);
    }
    NormIsTotal(v, xs);
    UnitTotal(xs);
  }

  // ----- the simulator -----

  class QuantumSimulator {
    const numQubits: nat
    const invSqrt2: real
    const stateVector: array<Complex>
    var circuit: seq<GateOp>

    ghost predicate Valid()
      reads this
    {
      && 2.0 * invSqrt2 * invSqrt2 == 1.0
      && stateVector.Length == Pow2(numQubits)
      && AllApplicable(circuit, numQubits)
    }

    constructor (numQubits: nat, invSqrt2: real)
      requires 2.0 * invSqrt2 * invSqrt2 == 1.0
      ensures Valid() && fresh(stateVector) && this.numQubits == numQubits && this.invSqrt2 == invSqrt2 && circuit == []
      ensures stateVector[..] == Ground(Pow2(numQubits))
    {
      this.numQubits := numQubits;
      this.invSqrt2 := invSqrt2;
      stateVector := new Complex[Pow2(numQubits)](k => Zero);
      circuit := [];
      new;
      stateVector[0] := One;
    }

    method Reset()
      requires Valid()
      modifies this, stateVector
      ensures Valid() && circuit == [] && stateVector[..] == Ground(Pow2(numQubits))
    {
      for k := 0 to stateVector.Length
        invariant forall i :: 0 <= i < k ==> stateVector[i] == Zero
      {
        stateVector[k] := Zero;
      }
      stateVector[0] := One;
      circuit := [];
    }

    method AppendGate(g: GateOp)
      requires Valid() && Applicable(g, numQubits)
      modifies this
      ensures Valid() && circuit == old(circuit) + [g]
    {
      circuit := circuit + [g];
    }

    /** Some order of the `n` parallel iterations; callers may rely on no particular one. */
    static method AnySchedule(n: nat) returns (order: seq<nat>)
      ensures Schedule(order, n)
    {
      order := [];
      for i := 0 to n
        invariant |order| == i && forall j :: 0 <= j < i ==> order[j] == j
      {
        order := order + [i];
      }
      forall b: nat ensures b in order <==> b < n {
        if b < n {
          assert order[b] == b;
        }
      }
    }

    /** The branches of Run's loop. */
    method ApplyOne(g: GateOp)
      requires Valid() && Applicable(g, numQubits)
      modifies stateVector
      ensures stateVector[..] == GateAction(old(stateVector[..]), numQubits, invSqrt2, g)
    {
      if g.kind == H {
        var order := AnySchedule(Quot(stateVector.Length, 2 * Pow2(g.targets[0])));
        ApplyGate1Q(stateVector, g.targets[0], Hadamard(invSqrt2), order);
      } else if g.kind == X {
        var order := AnySchedule(Quot(stateVector.Length, 2 * Pow2(g.targets[0])));
        ApplyGate1Q(stateVector, g.targets[0], PauliX, order);
      } else if g.kind == CX {
        var order := AnySchedule(stateVector.Length);
        ApplyGate2Q(stateVector, numQubits, g.targets[0], g.controls[0], ControlledX, order);
      }
    }

    /** Run leaves the state the circuit's action says, of the same norm, and keeps the circuit. */
    method Run()
      requires Valid()
      modifies stateVector
      ensures Valid()
      ensures stateVector[..] == CircuitAction(old(stateVector[..]), numQubits, invSqrt2, circuit)
      ensures Norm(stateVector[..]) == Norm(old(stateVector[..]))
    {
      ghost var v := stateVector[..];
      for j := 0 to |circuit|
        invariant Valid()
        invariant stateVector[..] == CircuitAction(v, numQubits, invSqrt2, circuit[..j])
      {
        assert circuit[..j + 1][..j] == circuit[..j];
        ApplyOne(circuit[j]);
      }
      assert circuit[..|circuit|] == circuit;
      CircuitKeepsNorm(v, numQubits, invSqrt2, circuit);
    }
  }

  /** From a fresh simulator, any circuit of the three gates leaves total probability 1. */
  method RunFromGround(numQubits: nat, invSqrt2: real, gates: seq<GateOp>) returns (amplitudes: seq<Complex>)
    requires 2.0 * invSqrt2 * invSqrt2 == 1.0 && AllApplicable(gates, numQubits)
    ensures Norm(amplitudes) == 1.0
    ensures amplitudes == CircuitAction(Ground(Pow2(numQubits)), numQubits, invSqrt2, gates)
  {
    var sim := new QuantumSimulator(numQubits, invSqrt2);
    for j := 0 to |gates|
      invariant sim.Valid() && fresh(sim) && fresh(sim.stateVector) && sim.numQubits == numQubits && sim.invSqrt2 == invSqrt2
      invariant sim.circuit == gates[..j] && sim.stateVector[..] == Ground(Pow2(numQubits))
    {
      sim.AppendGate(gates[j]);
      assert gates[..j + 1] == gates[..j] + [gates[j]];
    }
    assert gates[..|gates|] == gates;
    sim.Run();
    GroundNorm(Pow2(numQubits));
    return sim.stateVector[..];
  }
}
