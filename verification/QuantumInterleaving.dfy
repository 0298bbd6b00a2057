/** The kernels' parallel loops, load by load and store by store. */
module QuantumInterleaving {
  import opened Arithmetic
  import opened QuantumIndex
  import opened QuantumKernels

  /** What the loop body does once: it loads the amplitudes at some indices in turn, then stores there the rows
      of the matrix applied to them. An iteration of the one-qubit kernel does so for one pair after the other;
      taking the pairs for independent threads allows every interleaving of iterations, and more. */
  datatype Group = Group(at: seq<nat>, rows: seq<seq<Complex>>)

  function Dot(row: seq<Complex>, values: seq<Complex>): Complex
    requires 0 < |row| == |values|
  {
    if |row| == 1 then row[0].Times(values[0])
    else Dot(row[..|row| - 1], values[..|row| - 1]).Plus(row[|row| - 1].Times(values[|row| - 1]))
  }

  /** The groups lie inside the register and share no index. */
  ghost predicate Separate(groups: seq<Group>, n: nat) {
    && (forall g, i :: 0 <= g < |groups| && 0 <= i < |groups[g].at| ==> groups[g].at[i] < n)
    && (forall g, i, h, j :: 0 <= g < |groups| && 0 <= i < |groups[g].at| && 0 <= h < |groups| && 0 <= j < |groups[h].at| ==>
          groups[g].at[i] == groups[h].at[j] ==> g == h && i == j)
    && (forall g :: 0 <= g < |groups| ==> |groups[g].rows| == |groups[g].at|)
    && (forall g, i :: 0 <= g < |groups| && 0 <= i < |groups[g].at| ==> |groups[g].rows[i]| == |groups[g].at|)
  }

  /** The shared amplitudes; for each group the values it has loaded and how many it has stored. */
  datatype Machine = Machine(state: seq<Complex>, loaded: seq<seq<Complex>>, stored: seq<nat>)

  function Begun(v: seq<Complex>, groups: seq<Group>): Machine {
    Machine(v, seq(|groups|, _ => []), seq(|groups|, _ => 0))
  }

  ghost predicate Shaped(m: Machine, groups: seq<Group>) {
    && |m.loaded| == |m.stored| == |groups|
    && Separate(groups, |m.state|)
    && forall g :: 0 <= g < |groups| ==> |m.loaded[g]| <= |groups[g].at| && m.stored[g] <= |groups[g].at|
  }

  /** The next load or store of a group. */
  ghost function Turn(m: Machine, groups: seq<Group>, g: nat): Machine
    requires Shaped(m, groups)
  {
    if g >= |groups| then m
    else
      var group, mine := groups[g], m.loaded[g];
      if |mine| < |group.at| then m.(loaded := m.loaded[g := mine + [m.state[group.at[|mine|]]]])
      else if m.stored[g] < |group.at| then
        m.(state := m.state[group.at[m.stored[g]] := Dot(group.rows[m.stored[g]], mine)], stored := m.stored[g := m.stored[g] + 1])
      else m
  }

  // ----- what any interleaving keeps -----

  /** The amplitudes that a group sees before the pass. */
  function Seen(v: seq<Complex>, at: seq<nat>): (values: seq<Complex>)
    requires forall i :: 0 <= i < |at| ==> at[i] < |v|
    ensures |values| == |at|
  {
    seq(|at|, i requires 0 <= i < |at| => v[at[i]])
  }

  /** What the group leaves at its `i`th index. */
  ghost function Result(v: seq<Complex>, groups: seq<Group>, g: nat, i: nat): Complex
    requires Separate(groups, |v|) && g < |groups| && i < |groups[g].at|
  {
    Dot(groups[g].rows[i], Seen(v, groups[g].at))
  }

  predicate Touches(groups: seq<Group>, k: nat) {
    exists g: nat, i: nat :: g < |groups| && i < |groups[g].at| && groups[g].at[i] == k
  }

  /** A group has loaded old amplitudes only, and stores when it has loaded them all. */
  ghost predicate GroupOk(m: Machine, v: seq<Complex>, groups: seq<Group>, g: nat)
    requires Shaped(m, groups) && |m.state| == |v| && g < |groups|
  {
    && m.loaded[g] == Seen(v, groups[g].at)[..|m.loaded[g]|]
    && (m.stored[g] > 0 ==> |m.loaded[g]| == |groups[g].at|)
    && forall i: nat :: i < |groups[g].at| ==>
         m.state[groups[g].at[i]] == if i < m.stored[g] then Result(v, groups, g, i) else v[groups[g].at[i]]
  }

  ghost predicate Ok(m: Machine, v: seq<Complex>, groups: seq<Group>) {
    && Shaped(m, groups) && |m.state| == |v|
    && (forall g: nat :: g < |groups| ==> GroupOk(m, v, groups, g))
    && forall k: nat :: k < |v| && !Touches(groups, k) ==> m.state[k] == v[k]
  }

  lemma LoadKeeps(m: Machine, v: seq<Complex>, groups: seq<Group>, g: nat)
    requires Ok(m, v, groups) && g < |groups| && |m.loaded[g]| < |groups[g].at|
    ensures Ok(Turn(m, groups, g), v, groups)
  {
    var t := Turn(m, groups, g);
    var i := |m.loaded[g]|;
    assert GroupOk(m, v, groups, g);
    assert m.state[groups[g].at[i]] == v[groups[g].at[i]];
    assert Seen(v, groups[g].at)[..i + 1] == Seen(v, groups[g].at)[..i] + [v[groups[g].at[i]]];
    forall h: nat | h < |groups| ensures GroupOk(t, v, groups, h) {
      assert GroupOk(m, v, groups, h);
    }
  }

  lemma StoreKeeps(m: Machine, v: seq<Complex>, groups: seq<Group>, g: nat)
    requires Ok(m, v, groups) && g < |groups| && |m.loaded[g]| == |groups[g].at| && m.stored[g] < |groups[g].at|
    ensures Ok(Turn(m, groups, g), v, groups)
  {
    var t := Turn(m, groups, g);
    var at, i := groups[g].at, m.stored[g];
    assert GroupOk(m, v, groups, g);
    assert m.loaded[g] == Seen(v, at);
    forall h: nat | h < |groups| ensures GroupOk(t, v, groups, h) {
      assert GroupOk(m, v, groups, h);
      forall j: nat | j < |groups[h].at|
        ensures t.state[groups[h].at[j]] == if j < t.stored[h] then Result(v, groups, h, j) else v[groups[h].at[j]]
      {
        assert groups[h].at[j] == at[i] ==> h == g && j == i;
      }
    }
    assert Touches(groups, at[i]);
  }

  lemma TurnKeeps(m: Machine, v: seq<Complex>, groups: seq<Group>, g: nat)
    requires Ok(m, v, groups)
    ensures Ok(Turn(m, groups, g), v, groups)
  {
    if g < |groups| && |m.loaded[g]| < |groups[g].at| {
      LoadKeeps(m, v, groups, g);
    } else if g < |groups| && m.stored[g] < |groups[g].at| {
      StoreKeeps(m, v, groups, g);
    }
  }

  /** A run of any interleaving, given as the groups in the order of their turns. */
  ghost function Run(v: seq<Complex>, groups: seq<Group>, turns: seq<nat>): (m: Machine)
    requires Separate(groups, |v|)
    ensures Ok(m, v, groups)
  {
    if turns == [] then
      var m := Begun(v, groups);
      assert forall g: nat :: g < |groups| ==> GroupOk(m, v, groups, g);
      m
    else
      var m := Run(v, groups, turns[..|turns| - 1]);
      TurnKeeps(m, v, groups, turns[|turns| - 1]);
      Turn(m, groups, turns[|turns| - 1])
  }

  function TurnsOf(turns: seq<nat>, g: nat): nat {
    if turns == [] then 0 else TurnsOf(turns[..|turns| - 1], g) + if turns[|turns| - 1] == g then 1 else 0
  }

  lemma {:induction false} TurnsAreUsed(v: seq<Complex>, groups: seq<Group>, turns: seq<nat>, g: nat)
    requires Separate(groups, |v|) && g < |groups|
    ensures var m, used := Run(v, groups, turns), |Run(v, groups, turns).loaded[g]| + Run(v, groups, turns).stored[g];
            used == if TurnsOf(turns, g) <= 2 * |groups[g].at| then TurnsOf(turns, g) else 2 * |groups[g].at|
  {
    if turns != [] {
      var m := Run(v, groups, turns[..|turns| - 1]);
      TurnsAreUsed(v, groups, turns[..|turns| - 1], g);
      assert GroupOk(m, v, groups, g);
    }
  }

  /** Every group has had as many turns as it has loads and stores. */
  ghost predicate Complete(groups: seq<Group>, turns: seq<nat>) {
    forall g: nat :: g < |groups| ==> TurnsOf(turns, g) >= 2 * |groups[g].at|
  }

  /** Each group has left its results, and all other amplitudes are the old ones. */
  ghost predicate Settled(w: seq<Complex>, v: seq<Complex>, groups: seq<Group>)
    requires Separate(groups, |v|)
  {
    && |w| == |v|
    && (forall g: nat, i: nat :: g < |groups| && i < |groups[g].at| ==> w[groups[g].at[i]] == Result(v, groups, g, i))
    && (forall k: nat :: k < |v| && !Touches(groups, k) ==> w[k] == v[k])
  }

  /** However the loads and stores of groups that share no index are interleaved, each group ends with its rows
      applied to the amplitudes from before, and nothing else is written. */
  lemma AnyInterleaving(v: seq<Complex>, groups: seq<Group>, turns: seq<nat>)
    requires Separate(groups, |v|) && Complete(groups, turns)
    ensures Settled(Run(v, groups, turns).state, v, groups)
  {
    var m := Run(v, groups, turns);
    forall g: nat, i: nat | g < |groups| && i < |groups[g].at| ensures m.state[groups[g].at[i]] == Result(v, groups, g, i) {
      TurnsAreUsed(v, groups, turns, g);
      assert GroupOk(m, v, groups, g);
    }
  }

  // ----- the one-qubit kernel -----

  /** The pairs of whole blocks begin where the bit is clear. */
  predicate PairBase(p: nat, s: nat, n: nat)
    requires s > 0
  {
    Bit(p, s) == 0 && Quot(p, 2 * s) < Quot(n, 2 * s)
  }

  /** The bases of the pairs that the kernel works on, in some order. */
  ghost predicate PairBases(bases: seq<nat>, s: nat, n: nat)
    requires s > 0
  {
    && (forall p: nat :: p in bases <==> PairBase(p, s, n))
    && forall i, j :: 0 <= i < j < |bases| ==> bases[i] != bases[j]
  }

  function Pairs(bases: seq<nat>, s: nat, m: Gate2): seq<Group> {
    seq(|bases|, g requires 0 <= g < |bases| => Group([bases[g], bases[g] + s], [[m.m00, m.m01], [m.m10, m.m11]]))
  }

  lemma PairIsSeparate(bases: seq<nat>, s: nat, n: nat, g: nat, i: nat)
    requires s > 0 && PairBases(bases, s, n) && g < |bases| && i < 2
    ensures var k := [bases[g], bases[g] + s][i];
            k < n && Low(k, s) == bases[g] && Bit(k, s) == i && Quot(k, 2 * s) == Quot(bases[g], 2 * s)
  {
    var p := bases[g];
    assert PairBase(p, s, n);
    WholeBlock(p, s, n);
    SetBit(p, s);
  }

  lemma PairsAreSeparate(bases: seq<nat>, s: nat, n: nat, m: Gate2)
    requires s > 0 && PairBases(bases, s, n)
    ensures Separate(Pairs(bases, s, m), n)
  {
    var groups := Pairs(bases, s, m);
    forall g, i | 0 <= g < |groups| && 0 <= i < |groups[g].at|
      ensures groups[g].at[i] < n && Low(groups[g].at[i], s) == bases[g] && Bit(groups[g].at[i], s) == i
    {
      PairIsSeparate(bases, s, n, g, i);
    }
  }

  lemma DotTwo(a: Complex, b: Complex, x: Complex, y: Complex)
    ensures Dot([a, b], [x, y]) == a.Times(x).Plus(b.Times(y))
  {
    assert [a, b][..1] == [a] && [x, y][..1] == [x];
  }

  lemma PairResult(v: seq<Complex>, bases: seq<nat>, s: nat, m: Gate2, g: nat, i: nat)
    requires s > 0 && PairBases(bases, s, |v|) && Separate(Pairs(bases, s, m), |v|) && g < |bases| && i < 2
    ensures var k := [bases[g], bases[g] + s][i]; k < |v| && Result(v, Pairs(bases, s, m), g, i) == Amp1(v, s, m, k)
  {
    PairIsSeparate(bases, s, |v|, g, 0);
    PairIsSeparate(bases, s, |v|, g, 1);
    assert PairBase(bases[g], s, |v|);
    var p := bases[g];
    assert Seen(v, Pairs(bases, s, m)[g].at) == [v[p], v[p + s]];
    DotTwo(m.m00, m.m01, v[p], v[p + s]);
    DotTwo(m.m10, m.m11, v[p], v[p + s]);
  }

  lemma PairSettled(w: seq<Complex>, v: seq<Complex>, s: nat, m: Gate2, bases: seq<nat>, k: nat)
    requires s > 0 && PairBases(bases, s, |v|) && Separate(Pairs(bases, s, m), |v|) && Settled(w, v, Pairs(bases, s, m))
    requires k < |v| && Quot(k, 2 * s) < Quot(|v|, 2 * s)
    ensures w[k] == Amp1(v, s, m, k)
  {
    var groups := Pairs(bases, s, m);
    ClearBit(k, s);
    assert PairBase(Low(k, s), s, |v|);
    var g: nat :| g < |bases| && bases[g] == Low(k, s);
    PairResult(v, bases, s, m, g, Bit(k, s));
    assert groups[g].at[Bit(k, s)] == k;
  }

  lemma TouchedPair(bases: seq<nat>, s: nat, m: Gate2, k: nat) returns (g: nat, i: nat)
    requires Touches(Pairs(bases, s, m), k)
    ensures g < |bases| && i < 2 && [bases[g], bases[g] + s][i] == k
  {
    var groups := Pairs(bases, s, m);
    g, i :| g < |groups| && i < |groups[g].at| && groups[g].at[i] == k;
  }

  lemma OutsidePairs(v: seq<Complex>, s: nat, m: Gate2, bases: seq<nat>, k: nat)
    requires s > 0 && PairBases(bases, s, |v|) && Touches(Pairs(bases, s, m), k)
    ensures Quot(k, 2 * s) < Quot(|v|, 2 * s)
  {
    var g, i := TouchedPair(bases, s, m, k);
    PairIsSeparate(bases, s, |v|, g, i);
    assert PairBase(bases[g], s, |v|);
  }

  /** The one-qubit kernel has one outcome, whatever the interleaving of its loads and stores. */
  lemma AnyInterleaving1Q(v: seq<Complex>, s: nat, m: Gate2, bases: seq<nat>, turns: seq<nat>)
    requires s > 0 && PairBases(bases, s, |v|) && Complete(Pairs(bases, s, m), turns)
    ensures Separate(Pairs(bases, s, m), |v|)
    ensures Run(v, Pairs(bases, s, m), turns).state == Gate1Q(v, s, m)
  {
    var groups := Pairs(bases, s, m);
    PairsAreSeparate(bases, s, |v|, m);
    AnyInterleaving(v, groups, turns);
    var w := Run(v, groups, turns).state;
    forall k: nat | k < |v| ensures w[k] == Amp1(v, s, m, k) {
      if Quot(k, 2 * s) < Quot(|v|, 2 * s) {
        PairSettled(w, v, s, m, bases, k);
      } else if Touches(groups, k) {
        OutsidePairs(v, s, m, bases, k);
      }
    }
  }

  // ----- the two-qubit kernel -----

  /** The indices with both bits clear, in some order; the iterations at other indices do nothing. */
  ghost predicate CornerBases(bases: seq<nat>, s0: nat, s1: nat, n: nat)
    requires s0 > 0 && s1 > 0
  {
    && (forall p: nat :: p in bases <==> p < n && BothClear(p, s0, s1))
    && forall i, j :: 0 <= i < j < |bases| ==> bases[i] != bases[j]
  }

  function AllCorners(bases: seq<nat>, s0: nat, s1: nat, m: Gate4): seq<Group> {
    seq(|bases|, g requires 0 <= g < |bases| => Group([bases[g], bases[g] + s0, bases[g] + s1, bases[g] + s0 + s1], m))
  }

  /** The number of a corner, from its bits. */
  function Number(k: nat, s0: nat, s1: nat): nat
    requires s0 > 0 && s1 > 0
  {
    Bit(k, s0) + 2 * Bit(k, s1)
  }

  lemma CornerIsSeparate(bases: seq<nat>, s0: nat, s1: nat, n: nat, m: Gate4, g: nat, i: nat)
    requires Strides(s0, s1, n) && CornerBases(bases, s0, s1, n) && g < |bases| && i < 4
    ensures var k := AllCorners(bases, s0, s1, m)[g].at[i]; k < n && Base(k, s0, s1) == bases[g] && Number(k, s0, s1) == i
  {
    assert bases[g] in bases;
    Corners(bases[g], s0, s1, n);
  }

  lemma CornersAreSeparate(bases: seq<nat>, s0: nat, s1: nat, n: nat, m: Gate4)
    requires Strides(s0, s1, n) && CornerBases(bases, s0, s1, n)
    ensures Separate(AllCorners(bases, s0, s1, m), n)
  {
    var groups := AllCorners(bases, s0, s1, m);
    forall g, i | 0 <= g < |groups| && 0 <= i < |groups[g].at|
      ensures groups[g].at[i] < n && Base(groups[g].at[i], s0, s1) == bases[g] && Number(groups[g].at[i], s0, s1) == i
    {
      CornerIsSeparate(bases, s0, s1, n, m, g, i);
    }
  }

  lemma DotFour(row: seq<Complex>, a: Complex, b: Complex, c: Complex, d: Complex)
    requires |row| == 4
    ensures Dot(row, [a, b, c, d]) == row[0].Times(a).Plus(row[1].Times(b)).Plus(row[2].Times(c)).Plus(row[3].Times(d))
  {
    assert [a, b, c, d][..3] == [a, b, c] && [a, b, c][..2] == [a, b];
    assert row[..3][..2] == [row[0], row[1]];
    DotTwo(row[0], row[1], a, b);
    assert Dot(row[..3], [a, b, c]) == Dot([row[0], row[1]], [a, b]).Plus(row[2].Times(c));
  }

  lemma CornerResult(v: seq<Complex>, bases: seq<nat>, s0: nat, s1: nat, m: Gate4, g: nat, i: nat)
    requires Strides(s0, s1, |v|) && CornerBases(bases, s0, s1, |v|) && Separate(AllCorners(bases, s0, s1, m), |v|) && g < |bases| && i < 4
    ensures bases[g] + s0 + s1 < |v| && Result(v, AllCorners(bases, s0, s1, m), g, i) == Row(v, bases[g], s0, s1, m[i])
  {
    var p := bases[g];
    assert p in bases;
    Corners(p, s0, s1, |v|);
    assert Seen(v, [p, p + s0, p + s1, p + s0 + s1]) == [v[p], v[p + s0], v[p + s1], v[p + s0 + s1]];
    DotFour(m[i], v[p], v[p + s0], v[p + s1], v[p + s0 + s1]);
  }

  lemma CornerNumbered(k: nat, p: nat, s0: nat, s1: nat, n: nat)
    requires Strides(s0, s1, n) && k < n && Base(k, s0, s1) == p
    ensures p < n && BothClear(p, s0, s1) && Number(k, s0, s1) < 4
    ensures [p, p + s0, p + s1, p + s0 + s1][Number(k, s0, s1)] == k
  {
    BaseCorner(k, s0, s1);
  }

  lemma CornerSettled(w: seq<Complex>, v: seq<Complex>, s0: nat, s1: nat, m: Gate4, bases: seq<nat>, k: nat)
    requires Strides(s0, s1, |v|) && CornerBases(bases, s0, s1, |v|) && Separate(AllCorners(bases, s0, s1, m), |v|)
    requires Settled(w, v, AllCorners(bases, s0, s1, m)) && k < |v|
    ensures w[k] == Amp2(v, s0, s1, m, k)
  {
    var p, i := Base(k, s0, s1), Number(k, s0, s1);
    CornerNumbered(k, p, s0, s1, |v|);
    assert p in bases;
    var g: nat :| g < |bases| && bases[g] == p;
    CornerResult(v, bases, s0, s1, m, g, i);
    assert AllCorners(bases, s0, s1, m)[g].at[i] == k;
  }

  /** And so has the two-qubit kernel. */
  lemma AnyInterleaving2Q(v: seq<Complex>, s0: nat, s1: nat, m: Gate4, bases: seq<nat>, turns: seq<nat>)
    requires Strides(s0, s1, |v|) && CornerBases(bases, s0, s1, |v|) && Complete(AllCorners(bases, s0, s1, m), turns)
    ensures Separate(AllCorners(bases, s0, s1, m), |v|)
    ensures Run(v, AllCorners(bases, s0, s1, m), turns).state == Gate2Q(v, s0, s1, m)
  {
    CornersAreSeparate(bases, s0, s1, |v|, m);
    AnyInterleaving(v, AllCorners(bases, s0, s1, m), turns);
    var w := Run(v, AllCorners(bases, s0, s1, m), turns).state;
    forall k: nat | k < |v| ensures w[k] == Amp2(v, s0, s1, m, k) {
      CornerSettled(w, v, s0, s1, m, bases, k);
    }
  }
}
