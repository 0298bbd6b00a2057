/** The gates by what they do to amplitudes, and circuits whose outcome is known. */
module QuantumGates {
  import opened Arithmetic
  import opened QuantumIndex
  import opened QuantumKernels
  import opened QuantumCircuit

  function Scaled(r: real, c: Complex): Complex {
    Complex(r * c.re, r * c.im)
  }

  function Minus(a: Complex, b: Complex): Complex {
    Complex(a.re - b.re, a.im - b.im)
  }

  lemma HadamardRow(r: real, a: Complex, b: Complex)
    ensures var m := Hadamard(r);
            && m.m00.Times(a).Plus(m.m01.Times(b)) == Scaled(r, a.Plus(b))
            && m.m10.Times(a).Plus(m.m11.Times(b)) == Scaled(r, Minus(a, b))
  {
  }

  /** The scaled sum where the stride's bit is clear, the scaled difference where it is set. */
  ghost predicate SumAndDifference(v: seq<Complex>, w: seq<Complex>, s: nat, r: real) {
    s > 0 && |w| == |v|
    && forall k: nat :: k < |v| && Bit(k, s) == 0 ==>
         k + s < |v| && w[k] == Scaled(r, v[k].Plus(v[k + s])) && w[k + s] == Scaled(r, Minus(v[k], v[k + s]))
  }

  /** The two amplitudes that differ in the stride's bit change places. */
  ghost predicate Exchange(v: seq<Complex>, w: seq<Complex>, s: nat) {
    s > 0 && |w| == |v|
    && forall k: nat :: k < |v| && Bit(k, s) == 0 ==> k + s < |v| && w[k] == v[k + s] && w[k + s] == v[k]
  }

  predicate ExchangedWhere(v: seq<Complex>, w: seq<Complex>, s: nat, control: nat, k: nat)
    requires |w| == |v| && k + s < |v| && control > 0
  {
    if Bit(k, control) == 1 then w[k] == v[k + s] && w[k + s] == v[k] else w[k] == v[k] && w[k + s] == v[k + s]
  }

  /** They change places where another stride's bit is set, and stay where it is clear. */
  ghost predicate ExchangeWhere(v: seq<Complex>, w: seq<Complex>, s: nat, control: nat) {
    s > 0 && control > 0 && |w| == |v|
    && forall k: nat :: k < |v| && Bit(k, s) == 0 ==> k + s < |v| && ExchangedWhere(v, w, s, control, k)
  }

  lemma HadamardOnPairs(v: seq<Complex>, s: nat, r: real)
    requires Tiles(s, |v|)
    ensures SumAndDifference(v, Gate1Q(v, s, Hadamard(r)), s, r)
  {
    var w := Gate1Q(v, s, Hadamard(r));
    forall k: nat | k < |v| && Bit(k, s) == 0
      ensures k + s < |v| && w[k] == Scaled(r, v[k].Plus(v[k + s])) && w[k + s] == Scaled(r, Minus(v[k], v[k + s]))
    {
      PairAfter(v, s, Hadamard(r), k);
      HadamardRow(r, v[k], v[k + s]);
    }
  }

  lemma PauliOnPairs(v: seq<Complex>, s: nat)
    requires Tiles(s, |v|)
    ensures Exchange(v, Gate1Q(v, s, PauliX), s)
  {
    var w := Gate1Q(v, s, PauliX);
    forall k: nat | k < |v| && Bit(k, s) == 0 ensures k + s < |v| && w[k] == v[k + s] && w[k + s] == v[k] {
      PairAfter(v, s, PauliX, k);
      PauliPair(v[k], v[k + s]);
    }
  }

  lemma ControlledAt(v: seq<Complex>, w: seq<Complex>, s: nat, control: nat, k: nat)
    requires Strides(s, control, |v|) && w == Gate2Q(v, s, control, ControlledX) && k < |v| && Bit(k, s) == 0
    ensures k + s < |v| && ExchangedWhere(v, w, s, control, k)
  {
    ControlledPair(v, s, control, k);
  }

  lemma ControlledOnPairs(v: seq<Complex>, s: nat, control: nat)
    requires Strides(s, control, |v|)
    ensures ExchangeWhere(v, Gate2Q(v, s, control, ControlledX), s, control)
  {
    var w := Gate2Q(v, s, control, ControlledX);
    forall k: nat | k < |v| && Bit(k, s) == 0
      ensures k + s < |v| && ExchangedWhere(v, w, s, control, k)
    {
      ControlledAt(v, w, s, control, k);
    }
  }

  /** What each gate that the simulator runs does to the amplitudes: H sums and subtracts on its target's pairs, X
      exchanges them, CX exchanges its target's pairs where its control's bit is set. */
  lemma GateEffect(v: seq<Complex>, n: nat, r: real, g: GateOp)
    requires |v| == Pow2(n) && Applicable(g, n)
    ensures g.kind == H ==> SumAndDifference(v, GateAction(v, n, r, g), Pow2(g.targets[0]), r)
    ensures g.kind == X ==> Exchange(v, GateAction(v, n, r, g), Pow2(g.targets[0]))
    ensures g.kind == CX ==> ExchangeWhere(v, GateAction(v, n, r, g), Pow2(g.targets[0]), Pow2(g.controls[0]))
    ensures g.kind == Other ==> GateAction(v, n, r, g) == v
  {
    match g.kind
    case H =>
      QubitTiles(g.targets[0], n);
      HadamardOnPairs(v, Pow2(g.targets[0]), r);
    case X =>
      QubitTiles(g.targets[0], n);
      PauliOnPairs(v, Pow2(g.targets[0]));
    case CX =>
      QubitStrides(g.targets[0], g.controls[0], n);
      ControlledOnPairs(v, Pow2(g.targets[0]), Pow2(g.controls[0]));
    case Other =>
  }

  function On(kind: GateType, q: nat): GateOp {
    GateOp(kind, [q], [])
  }

  lemma OneMoreGate(v: seq<Complex>, n: nat, r: real, circuit: seq<GateOp>, g: GateOp)
    requires |v| == Pow2(n) && AllApplicable(circuit, n) && Applicable(g, n)
    ensures AllApplicable(circuit + [g], n)
    ensures CircuitAction(v, n, r, circuit + [g]) == GateAction(CircuitAction(v, n, r, circuit), n, r, g)
  {
    assert (circuit + [g])[..|circuit|] == circuit;
  }

  // ----- H, X and H again -----

  lemma Recombined(r: real, a: Complex, b: Complex)
    requires 2.0 * r * r == 1.0
    ensures var p, q := Scaled(r, a.Plus(b)), Scaled(r, Minus(a, b));
            && Scaled(r, q.Plus(p)) == a
            && Scaled(r, Minus(q, p)) == Scaled(-1.0, b)
  {
    Rotation(r, a.re, b.re);
    Rotation(r, a.im, b.im);
  }

  /** The amplitudes with the stride's bit set are negated, the others stay. */
  ghost predicate Negated(v: seq<Complex>, w: seq<Complex>, s: nat) {
    s > 0 && |w| == |v|
    && forall k: nat :: k < |v| && Bit(k, s) == 0 ==> k + s < |v| && w[k] == v[k] && w[k + s] == Scaled(-1.0, v[k + s])
  }

  lemma FlipsPhase(v: seq<Complex>, a: seq<Complex>, b: seq<Complex>, w: seq<Complex>, s: nat, r: real)
    requires 2.0 * r * r == 1.0 && SumAndDifference(v, a, s, r) && Exchange(a, b, s) && SumAndDifference(b, w, s, r)
    ensures Negated(v, w, s)
  {
    forall k: nat | k < |v| && Bit(k, s) == 0 ensures k + s < |v| && w[k] == v[k] && w[k + s] == Scaled(-1.0, v[k + s]) {
      assert a[k] == Scaled(r, v[k].Plus(v[k + s])) && a[k + s] == Scaled(r, Minus(v[k], v[k + s]));
      assert b[k] == a[k + s] && b[k + s] == a[k];
      assert w[k] == Scaled(r, b[k].Plus(b[k + s])) && w[k + s] == Scaled(r, Minus(b[k], b[k + s]));
      Recombined(r, v[k], v[k + s]);
    }
  }

  lemma ThreeGates(v: seq<Complex>, n: nat, r: real, f: GateOp, g: GateOp, h: GateOp)
    requires |v| == Pow2(n) && Applicable(f, n) && Applicable(g, n) && Applicable(h, n)
    ensures AllApplicable([f] + [g] + [h], n)
    ensures CircuitAction(v, n, r, [f] + [g] + [h]) == GateAction(GateAction(GateAction(v, n, r, f), n, r, g), n, r, h)
  {
    assert [] + [f] == [f];
    OneMoreGate(v, n, r, [], f);
    OneMoreGate(v, n, r, [f], g);
    OneMoreGate(v, n, r, [f] + [g], h);
  }

  /** H, X and H on one qubit negate exactly the amplitudes with the qubit's bit set. */
  lemma PhaseFlip(v: seq<Complex>, n: nat, r: real, q: nat)
    requires 2.0 * r * r == 1.0 && |v| == Pow2(n) && q < n
    ensures AllApplicable([On(H, q)] + [On(X, q)] + [On(H, q)], n)
    ensures Negated(v, CircuitAction(v, n, r, [On(H, q)] + [On(X, q)] + [On(H, q)]), Pow2(q))
  {
    var a := GateAction(v, n, r, On(H, q));
    var b := GateAction(a, n, r, On(X, q));
    var w := GateAction(b, n, r, On(H, q));
    ThreeGates(v, n, r, On(H, q), On(X, q), On(H, q));
    GateEffect(v, n, r, On(H, q));
    GateEffect(a, n, r, On(X, q));
    GateEffect(b, n, r, On(H, q));
    FlipsPhase(v, a, b, w, Pow2(q), r);
  }

  // ----- H on every qubit -----

  function Power(r: real, n: nat): real {
    if n == 0 then 1.0 else r * Power(r, n - 1)
  }

  function EveryH(m: nat): seq<GateOp> {
    if m == 0 then [] else EveryH(m - 1) + [On(H, m - 1)]
  }

  /** The amplitude `p` at the indices below `m`, and zero from there on. */
  ghost predicate SpreadBelow(v: seq<Complex>, m: nat, p: real) {
    forall k :: 0 <= k < |v| ==> v[k] == if k < m then Complex(p, 0.0) else Zero
  }

  lemma Sums(r: real, p: real)
    ensures Scaled(r, Complex(p, 0.0).Plus(Zero)) == Complex(r * p, 0.0) == Scaled(r, Minus(Complex(p, 0.0), Zero))
    ensures Scaled(r, Zero.Plus(Zero)) == Zero == Scaled(r, Minus(Zero, Zero))
  {
  }

  /** Around one stride: indices below it have its bit clear, those in the next stride have it set. */
  lemma AroundStride(k: nat, s: nat)
    requires s > 0
    ensures k < s ==> Bit(k, s) == 0
    ensures s <= k < 2 * s ==> Bit(k, s) == 1
  {
    if k < s {
      QuotUnique(k, s, 0, k);
    } else if k < 2 * s {
      QuotUnique(k, s, 1, k - s);
    }
  }

  lemma SpreadPair(v: seq<Complex>, w: seq<Complex>, s: nat, r: real, p: real, k: nat)
    requires SumAndDifference(v, w, s, r) && SpreadBelow(v, s, p) && k < |v| && Bit(k, s) == 0
    ensures k + s < |w| && w[k] == w[k + s] == if k < s then Complex(r * p, 0.0) else Zero
    ensures k < s || k >= 2 * s
  {
    Sums(r, p);
    AroundStride(k, s);
    assert v[k] == if k < s then Complex(p, 0.0) else Zero;
    assert k + s < |v| && v[k + s] == Zero;
  }

  /** H at the stride where the spread ends doubles it. */
  lemma SpreadNext(v: seq<Complex>, w: seq<Complex>, s: nat, r: real, p: real)
    requires SumAndDifference(v, w, s, r) && SpreadBelow(v, s, p)
    ensures SpreadBelow(w, 2 * s, r * p)
  {
    forall k: nat | k < |w| ensures w[k] == if k < 2 * s then Complex(r * p, 0.0) else Zero {
      ClearBit(k, s);
      SpreadPair(v, w, s, r, p, Low(k, s));
    }
  }

  lemma SpreadStep(v: seq<Complex>, n: nat, r: real, m: nat, p: real, q: real)
    requires |v| == Pow2(n) && m < n && SpreadBelow(v, Pow2(m), p) && q == r * p
    ensures SpreadBelow(GateAction(v, n, r, On(H, m)), Pow2(m + 1), q)
  {
    GateEffect(v, n, r, On(H, m));
    SpreadNext(v, GateAction(v, n, r, On(H, m)), Pow2(m), r, p);
  }

  lemma GroundIsSpread(size: nat)
    ensures SpreadBelow(Ground(size), 1, 1.0)
  {
  }

  /** The state after H on the first `m` qubits. */
  ghost predicate SpreadOver(n: nat, r: real, m: nat) {
    AllApplicable(EveryH(m), n) && SpreadBelow(CircuitAction(Ground(Pow2(n)), n, r, EveryH(m)), Pow2(m), Power(r, m))
  }

  lemma EveryOneMore(m: nat, r: real)
    ensures EveryH(m + 1) == EveryH(m) + [On(H, m)] && Power(r, m + 1) == r * Power(r, m)
  {
  }

  lemma SpreadOneMore(n: nat, r: real, m: nat)
    requires m < n && SpreadOver(n, r, m)
    ensures SpreadOver(n, r, m + 1)
  {
    var circuit, v := EveryH(m), CircuitAction(Ground(Pow2(n)), n, r, EveryH(m));
    EveryOneMore(m, r);
    OneMoreGate(Ground(Pow2(n)), n, r, circuit, On(H, m));
    SpreadStep(v, n, r, m, Power(r, m), Power(r, m + 1));
  }

  lemma {:induction false} SpreadAfter(n: nat, r: real, m: nat)
    requires m <= n
    ensures SpreadOver(n, r, m)
  {
    if m > 0 {
      SpreadAfter(n, r, m - 1);
      SpreadOneMore(n, r, m - 1);
    } else {
      GroundIsSpread(Pow2(n));
    }
  }

  /** H once on each qubit of the ground state leaves the same amplitude at every index. */
  lemma UniformSuperposition(n: nat, r: real)
    ensures AllApplicable(EveryH(n), n)
    ensures forall k :: 0 <= k < Pow2(n) ==> CircuitAction(Ground(Pow2(n)), n, r, EveryH(n))[k] == Complex(Power(r, n), 0.0)
  {
    SpreadAfter(n, r, n);
  }

  // ----- an entangled state -----

  /** H on the first qubit, then CX from it to each other one. */
  function Entangling(m: nat): seq<GateOp>
    requires m > 0
  {
    if m == 1 then [On(H, 0)] else Entangling(m - 1) + [GateOp(CX, [m - 1], [0])]
  }

  /** The amplitude `p` at zero and at `last`, and zero everywhere else. */
  ghost predicate AtEnds(v: seq<Complex>, last: nat, p: real) {
    forall k :: 0 <= k < |v| ==> v[k] == if k == 0 || k == last then Complex(p, 0.0) else Zero
  }

  lemma FirstBit(k: nat)
    ensures Bit(k, 1) == k % 2
  {
    QuotUnique(k, 1, k, 0);
  }

  lemma EndsPair(v: seq<Complex>, w: seq<Complex>, s: nat, p: real, k: nat)
    requires s % 2 == 0 && ExchangeWhere(v, w, s, 1) && AtEnds(v, s - 1, p) && k < |v| && Bit(k, s) == 0
    ensures k + s < |w| && w[k] == (if k == 0 then Complex(p, 0.0) else Zero) && w[k + s] == (if k == s - 1 then Complex(p, 0.0) else Zero)
    ensures k < s || k >= 2 * s
  {
    AroundStride(k, s);
    FirstBit(k);
    assert k + s < |v| && ExchangedWhere(v, w, s, 1, k);
    assert v[k + s] == Zero;
  }

  /** CX at the stride after the last set bit moves the upper amplitude on. */
  lemma EndsNext(v: seq<Complex>, w: seq<Complex>, s: nat, p: real)
    requires s % 2 == 0 && ExchangeWhere(v, w, s, 1) && AtEnds(v, s - 1, p)
    ensures AtEnds(w, 2 * s - 1, p)
  {
    forall k: nat | k < |w| ensures w[k] == if k == 0 || k == 2 * s - 1 then Complex(p, 0.0) else Zero {
      ClearBit(k, s);
      EndsPair(v, w, s, p, Low(k, s));
    }
  }

  lemma EndsStep(v: seq<Complex>, n: nat, r: real, m: nat)
    requires |v| == Pow2(n) && 0 < m < n && AtEnds(v, Pow2(m) - 1, r)
    ensures AtEnds(GateAction(v, n, r, GateOp(CX, [m], [0])), Pow2(m + 1) - 1, r)
  {
    assert Pow2(0) == 1 && Pow2(m) == 2 * Pow2(m - 1);
    GateEffect(v, n, r, GateOp(CX, [m], [0]));
    EndsNext(v, GateAction(v, n, r, GateOp(CX, [m], [0])), Pow2(m), r);
  }

  /** The state after the entangling gates on the first `m` qubits. */
  ghost predicate EntangledOver(n: nat, r: real, m: nat)
    requires m > 0
  {
    AllApplicable(Entangling(m), n) && AtEnds(CircuitAction(Ground(Pow2(n)), n, r, Entangling(m)), Pow2(m) - 1, r)
  }

  lemma EntangledOneMore(n: nat, r: real, m: nat)
    requires 0 < m < n && EntangledOver(n, r, m)
    ensures EntangledOver(n, r, m + 1)
  {
    OneMoreGate(Ground(Pow2(n)), n, r, Entangling(m), GateOp(CX, [m], [0]));
    EndsStep(CircuitAction(Ground(Pow2(n)), n, r, Entangling(m)), n, r, m);
  }

  lemma EntangledFirst(n: nat, r: real)
    requires n > 0
    ensures EntangledOver(n, r, 1)
  {
    SpreadAfter(n, r, 1);
    assert Entangling(1) == EveryH(1) && Power(r, 1) == r && Pow2(1) == 2;
  }

  lemma {:induction false} EntangledAfter(n: nat, r: real, m: nat)
    requires 0 < m <= n
    ensures EntangledOver(n, r, m)
  {
    if m > 1 {
      EntangledAfter(n, r, m - 1);
      EntangledOneMore(n, r, m - 1);
    } else {
      EntangledFirst(n, r);
    }
  }

  /** H and then CX to every other qubit leave the ground state in two amplitudes: no bit set, and all bits set. */
  lemma EntangledState(n: nat, r: real)
    requires n > 0
    ensures AllApplicable(Entangling(n), n)
    ensures forall k :: 0 <= k < Pow2(n) ==>
              CircuitAction(Ground(Pow2(n)), n, r, Entangling(n))[k] == if k == 0 || k == Pow2(n) - 1 then Complex(r, 0.0) else Zero
  {
    EntangledAfter(n, r, n);
  }
}
