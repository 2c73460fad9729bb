/** The phase oracle of Grover's search: for every marked bit-string it emits
    an X layer on the qubits where the (reversed) string holds '0', a
    multi-controlled Z over the whole register, and the same X layer again.

    The register is little-endian: qubit 0 is the rightmost character of a
    bit-string.  Gates are given a classical-basis meaning (a bit vector
    indexed by qubit plus a global sign), which is all that is needed to say
    which basis states the oracle marks. */
module GroverOracle {

  /** An elementary block of the oracle circuit.
      X(qubits): one NOT on each listed qubit, applied in list order.
      MCZ(width): a Z controlled by qubits 0 .. width-2 and acting on qubit
      width-1, i.e. a phase flip when the first `width` qubits all read 1. */
  datatype Gate = X(qubits: seq<nat>) | MCZ(width: nat)

  /** A computational basis state |bits> (bits[i] is qubit i) with a global
      sign; `negated` means the amplitude carries a factor -1. */
  datatype Basis = Basis(bits: seq<bool>, negated: bool)

  predicate IsBitString(s: string)
  {
    forall i :: 0 <= i < |s| ==> s[i] == '0' || s[i] == '1'
  }

  // ---------------------------------------------------------------------
  // String handling done by the builder
  // ---------------------------------------------------------------------

  /** `target[::-1]`. */
  function Reverse(s: string): (r: string)
    ensures |r| == |s|
    ensures forall i :: 0 <= i < |s| ==> r[i] == s[|s| - 1 - i]
  {
    if s == [] then [] else Reverse(s[1..]) + [s[0]]
  }

  /** `rev.startswith("0", ind)` for a non-negative index. */
  predicate ZeroAt(rev: string, ind: nat)
  {
    ind < |rev| && rev[ind] == '0'
  }

  /** `[ind for ind in range(n) if rev.startswith("0", ind)]`: the qubits
      that need an X so that the all-ones control of the MCZ becomes an
      open (zero) control there.  Strictly increasing, hence duplicate-free. */
  function ZeroIndices(rev: string, n: nat): (r: seq<nat>)
    ensures forall i: nat :: i in r <==> i < n && ZeroAt(rev, i)
    ensures forall j, k :: 0 <= j < k < |r| ==> r[j] < r[k]
  {
    if n == 0 then []
    else
      var prev := ZeroIndices(rev, n - 1);
      assert forall j :: 0 <= j < |prev| ==> prev[j] in prev;
      prev + (if ZeroAt(rev, n - 1) then [n - 1] else [])
  }

  /** The three blocks appended for one target in a register of n qubits. */
  function TargetBlock(target: string, n: nat): seq<Gate>
  {
    var zeroInds := ZeroIndices(Reverse(target), n);
    [X(zeroInds), MCZ(n), X(zeroInds)]
  }

  /** The whole oracle: the blocks of every target, in list order. */
  function OracleGates(marked: seq<string>, n: nat): (r: seq<Gate>)
    ensures |r| == 3 * |marked|
  {
    if marked == [] then []
    else OracleGates(marked[..|marked| - 1], n) + TargetBlock(marked[|marked| - 1], n)
  }

  /** For each target, in list order, the oracle holds exactly its three
      blocks: X on the zero indices, the MCZ over the register, the same X. */
  lemma {:induction false} OracleBlocks(marked: seq<string>, n: nat, k: nat)
    requires k < |marked|
    ensures |OracleGates(marked, n)| == 3 * |marked|
    ensures OracleGates(marked, n)[3 * k .. 3 * k + 3] == TargetBlock(marked[k], n)
  {
    var init := marked[..|marked| - 1];
    var prefix := OracleGates(init, n);
    assert OracleGates(marked, n) == prefix + TargetBlock(marked[|marked| - 1], n);
    if k < |marked| - 1 {
      OracleBlocks(init, n, k);
      assert 3 * k + 3 <= |prefix|;
      assert (prefix + TargetBlock(marked[|marked| - 1], n))[3 * k .. 3 * k + 3] == prefix[3 * k .. 3 * k + 3];
    } else {
      assert 3 * k == |prefix|;
    }
  }

  /** A gate touches only qubits 0 .. n-1. */
  predicate ActsWithin(g: Gate, n: nat)
  {
    match g
    case X(qs) => InRange(qs, n)
    case MCZ(w) => 1 <= w <= n
  }

  predicate AllActWithin(gates: seq<Gate>, n: nat)
  {
    forall k :: 0 <= k < |gates| ==> ActsWithin(gates[k], n)
  }

  predicate InRange(qs: seq<nat>, n: nat)
  {
    forall j :: 0 <= j < |qs| ==> qs[j] < n
  }

  predicate Distinct(qs: seq<nat>)
  {
    forall j, k :: 0 <= j < k < |qs| ==> qs[j] != qs[k]
  }

  /** The zero indices computed for a register of width n are in range and
      distinct. */
  lemma ZeroIndicesWellFormed(rev: string, n: nat)
    ensures InRange(ZeroIndices(rev, n), n)
    ensures Distinct(ZeroIndices(rev, n))
  {
    var z := ZeroIndices(rev, n);
    forall j | 0 <= j < |z| ensures z[j] < n { assert z[j] in z; }
  }

  /** Every gate of a target block stays inside the register. */
  lemma TargetBlockActsWithin(target: string, n: nat)
    requires n >= 1
    ensures AllActWithin(TargetBlock(target, n), n)
  {
    ZeroIndicesWellFormed(Reverse(target), n);
  }

  /** Every gate of the oracle stays inside the register of width n. */
  lemma {:induction false} OracleActsWithin(marked: seq<string>, n: nat)
    requires n >= 1
    ensures AllActWithin(OracleGates(marked, n), n)
  {
    if marked != [] {
      OracleActsWithin(marked[..|marked| - 1], n);
      TargetBlockActsWithin(marked[|marked| - 1], n);
    }
  }

  // ---------------------------------------------------------------------
  // The circuit object the builder mutates
  // ---------------------------------------------------------------------

  /** `QuantumCircuit(num_qubits)`: a register width and the gates appended
      so far.  The invariant is that no gate reaches outside the register. */
  class Circuit {
    const numQubits: nat
    var gates: seq<Gate>

    ghost predicate Valid()
      reads this
    {
      AllActWithin(gates, numQubits)
    }

    constructor (n: nat)
      ensures Valid()
      ensures numQubits == n && gates == []
    {
      numQubits := n;
      gates := [];
    }

    /** `qc.x(qubits)`: the library rejects a qubit outside the register. */
    method ApplyX(qubits: seq<nat>)
      requires Valid()
      requires InRange(qubits, numQubits)
      modifies this
      ensures Valid()
      ensures gates == old(gates) + [X(qubits)]
    {
      gates := gates + [X(qubits)];
    }

    /** `qc.compose(MCMT(ZGate(), numQubits - 1, 1), inplace=True)`. */
    method ComposeMCZ()
      requires Valid()
      requires numQubits >= 1
      modifies this
      ensures Valid()
      ensures gates == old(gates) + [MCZ(numQubits)]
    {
      gates := gates + [MCZ(numQubits)];
    }
  }

  /** `grover_oracle(marked_states)`: the register width is the length of the
      first marked string, and each target appends its three blocks. */
  method BuildOracle(marked: seq<string>) returns (qc: Circuit)
    requires |marked| > 0
    requires |marked[0]| >= 1
    ensures fresh(qc) && qc.Valid()
    ensures qc.numQubits == |marked[0]|
    ensures qc.gates == OracleGates(marked, |marked[0]|)
  {
    var n := |marked[0]|;
    qc := new Circuit(n);
    var i := 0;
    while i < |marked|
      invariant 0 <= i <= |marked|
      invariant qc.Valid() && qc.numQubits == n
      invariant qc.gates == OracleGates(marked[..i], n)
    {
      var target := marked[i];
      var revTarget := Reverse(target);
      var zeroInds := ZeroIndices(revTarget, n);
      ZeroIndicesWellFormed(revTarget, n);
      qc.ApplyX(zeroInds);
      qc.ComposeMCZ();
      qc.ApplyX(zeroInds);
      assert marked[..i + 1][..i] == marked[..i];
      i := i + 1;
    }
    assert marked[..i] == marked;
  }

  // ---------------------------------------------------------------------
  // Classical-basis semantics of the gates
  // ---------------------------------------------------------------------

  /** One NOT per listed qubit, in order. */
  function FlipAll(bits: seq<bool>, qs: seq<nat>): (r: seq<bool>)
    requires InRange(qs, |bits|)
    ensures |r| == |bits|
    decreases |qs|
  {
    if qs == [] then bits else FlipAll(bits[qs[0] := !bits[qs[0]]], qs[1..])
  }

  /** A layer of NOTs on distinct qubits flips exactly the listed qubits. */
  lemma {:induction false} FlipAllAt(bits: seq<bool>, qs: seq<nat>, i: nat)
    requires InRange(qs, |bits|) && Distinct(qs)
    requires i < |bits|
    ensures FlipAll(bits, qs)[i] == (bits[i] != (i in qs))
    decreases |qs|
  {
    if qs != [] {
      var flipped := bits[qs[0] := !bits[qs[0]]];
      FlipAllAt(flipped, qs[1..], i);
      assert qs[0] in qs;
      if i == qs[0] {
        assert i !in qs[1..] by {
          forall k | 0 <= k < |qs[1..]| ensures qs[1..][k] != i {
            assert qs[1..][k] == qs[k + 1];
          }
        }
      } else {
        assert (i in qs) == (i in qs[1..]) by {
          if i in qs { var k :| 0 <= k < |qs| && qs[k] == i; assert k != 0; assert qs[1..][k - 1] == i; }
        }
      }
    }
  }

  /** A layer of NOTs on distinct qubits undoes itself. */
  lemma FlipAllInvolution(bits: seq<bool>, qs: seq<nat>)
    requires InRange(qs, |bits|) && Distinct(qs)
    ensures FlipAll(FlipAll(bits, qs), qs) == bits
  {
    var once := FlipAll(bits, qs);
    var twice := FlipAll(once, qs);
    forall i | 0 <= i < |bits| ensures twice[i] == bits[i] {
      FlipAllAt(bits, qs, i);
      FlipAllAt(once, qs, i);
    }
  }

  predicate AllOnes(bits: seq<bool>)
  {
    forall i :: 0 <= i < |bits| ==> bits[i]
  }

  /** The effect of one gate on a basis state. */
  function Apply(g: Gate, s: Basis): (t: Basis)
    requires ActsWithin(g, |s.bits|)
    ensures |t.bits| == |s.bits|
  {
    match g
    case X(qs) => Basis(FlipAll(s.bits, qs), s.negated)
    case MCZ(w) => Basis(s.bits, s.negated != AllOnes(s.bits[..w]))
  }

  /** The effect of a gate sequence, applied from first to last. */
  function Run(gates: seq<Gate>, s: Basis): (t: Basis)
    requires AllActWithin(gates, |s.bits|)
    ensures |t.bits| == |s.bits|
  {
    if gates == [] then s else Run(gates[1..], Apply(gates[0], s))
  }

  /** Running two gate sequences one after the other. */
  lemma {:induction false} RunConcat(a: seq<Gate>, b: seq<Gate>, s: Basis)
    requires AllActWithin(a, |s.bits|) && AllActWithin(b, |s.bits|)
    ensures AllActWithin(a + b, |s.bits|)
    ensures Run(a + b, s) == Run(b, Run(a, s))
  {
    var n := |s.bits|;
    assert AllActWithin(a + b, n) by {
      forall k | 0 <= k < |a + b| ensures ActsWithin((a + b)[k], n) {
        if k < |a| { assert (a + b)[k] == a[k]; } else { assert (a + b)[k] == b[k - |a|]; }
      }
    }
    if a != [] {
      assert (a + b)[1..] == a[1..] + b;
      var s' := Apply(a[0], s);
      assert AllActWithin(a[1..], n) by {
        forall k | 0 <= k < |a[1..]| ensures ActsWithin(a[1..][k], n) { assert a[1..][k] == a[k + 1]; }
      }
      RunConcat(a[1..], b, s');
    } else {
      assert a + b == b;
    }
  }

  /** Running three gates, one after the other. */
  lemma RunThree(a: Gate, b: Gate, c: Gate, s: Basis)
    requires ActsWithin(a, |s.bits|) && ActsWithin(b, |s.bits|) && ActsWithin(c, |s.bits|)
    ensures AllActWithin([a, b, c], |s.bits|)
    ensures Run([a, b, c], s) == Apply(c, Apply(b, Apply(a, s)))
  {
    var s1 := Apply(a, s);
    var s2 := Apply(b, s1);
    var s3 := Apply(c, s2);
    assert [c][1..] == [];
    assert Run([c], s2) == Run([], s3);
    assert [b, c][1..] == [c];
    assert Run([b, c], s1) == Run([c], s2);
    assert [a, b, c][1..] == [b, c];
    assert Run([a, b, c], s) == Run([b, c], s1);
  }

  // ---------------------------------------------------------------------
  // Reading a register as a bit-string, and back
  // ---------------------------------------------------------------------

  /** The register written as a bit-string, qubit n-1 first and qubit 0
      last: the convention in which the library prints measurement keys. */
  function ReadOut(bits: seq<bool>): (r: string)
    ensures |r| == |bits| && IsBitString(r)
    ensures forall j :: 0 <= j < |r| ==> r[j] == (if bits[|bits| - 1 - j] then '1' else '0')
  {
    if bits == [] then [] else ReadOut(bits[1..]) + [if bits[0] then '1' else '0']
  }

  /** The basis bit vector that a bit-string names (qubit i is the character
      i places from the right). */
  function Encode(t: string): (bits: seq<bool>)
    ensures |bits| == |t|
    ensures forall i :: 0 <= i < |t| ==> bits[i] == (t[|t| - 1 - i] == '1')
  {
    if t == [] then [] else [t[|t| - 1] == '1'] + Encode(t[..|t| - 1])
  }

  lemma ReadOutEncode(t: string)
    requires IsBitString(t)
    ensures ReadOut(Encode(t)) == t
  {
    SpellsIffReadOut(Encode(t), t);
  }

  lemma EncodeReadOut(bits: seq<bool>)
    ensures Encode(ReadOut(bits)) == bits
  {
    var e := Encode(ReadOut(bits));
    forall i | 0 <= i < |bits| ensures e[i] == bits[i] {
      assert ReadOut(bits)[|bits| - 1 - i] == (if bits[i] then '1' else '0');
    }
  }

  /** The register spells the target: qubit i holds the character i places
      from the right. */
  predicate Spells(bits: seq<bool>, target: string)
  {
    |bits| == |target| && forall i :: 0 <= i < |bits| ==> bits[i] == (target[|target| - 1 - i] == '1')
  }

  lemma SpellsIffReadOut(bits: seq<bool>, target: string)
    requires IsBitString(target) && |bits| == |target|
    ensures Spells(bits, target) <==> ReadOut(bits) == target
  {
    var n := |bits|;
    var read := ReadOut(bits);
    if Spells(bits, target) {
      forall j | 0 <= j < n ensures read[j] == target[j] {
        assert bits[n - 1 - j] == (target[n - 1 - (n - 1 - j)] == '1');
      }
    }
    if read == target {
      forall i | 0 <= i < n ensures bits[i] == (target[n - 1 - i] == '1') {
        assert read[n - 1 - i] == (if bits[n - 1 - (n - 1 - i)] then '1' else '0');
      }
    }
  }

  // ---------------------------------------------------------------------
  // What the oracle marks
  // ---------------------------------------------------------------------

  /** Qubit i is in the X layer of a target iff the target's character for
      qubit i (counted from the right) is '0'. */
  lemma ZeroIndicesSelectZeros(target: string, i: nat)
    requires i < |target|
    ensures i in ZeroIndices(Reverse(target), |target|) <==> target[|target| - 1 - i] == '0'
  {
  }

  /** Running a target block is X layer, then MCZ, then the same X layer. */
  lemma TargetBlockRun(target: string, s: Basis)
    requires |s.bits| == |target| >= 1
    ensures AllActWithin(TargetBlock(target, |target|), |s.bits|)
    ensures var z := ZeroIndices(Reverse(target), |target|);
            Run(TargetBlock(target, |target|), s) == Apply(X(z), Apply(MCZ(|target|), Apply(X(z), s)))
  {
    var n := |target|;
    var z := ZeroIndices(Reverse(target), n);
    ZeroIndicesWellFormed(Reverse(target), n);
    assert TargetBlock(target, n) == [X(z), MCZ(n), X(z)];
    RunThree(X(z), MCZ(n), X(z), s);
  }

  /** After a target's X layer the register is all ones iff, before it, the
      register spelled the target. */
  lemma XLayerOpensControls(target: string, bits: seq<bool>)
    requires IsBitString(target)
    requires |bits| == |target|
    ensures InRange(ZeroIndices(Reverse(target), |target|), |bits|)
    ensures AllOnes(FlipAll(bits, ZeroIndices(Reverse(target), |target|))) <==> Spells(bits, target)
  {
    var n := |target|;
    var z := ZeroIndices(Reverse(target), n);
    ZeroIndicesWellFormed(Reverse(target), n);
    var flipped := FlipAll(bits, z);
    forall i | 0 <= i < n ensures flipped[i] == (bits[i] == (target[n - 1 - i] == '1')) {
      FlipAllAt(bits, z, i);
      ZeroIndicesSelectZeros(target, i);
    }
  }

  /** One target's block: the bit vector comes back unchanged and the sign
      flips iff the register, read from qubit n-1 down to qubit 0, spells the
      target. */
  lemma TargetBlockMarks(target: string, s: Basis)
    requires IsBitString(target) && |target| >= 1
    requires |s.bits| == |target|
    ensures AllActWithin(TargetBlock(target, |target|), |s.bits|)
    ensures Run(TargetBlock(target, |target|), s) == Basis(s.bits, s.negated != (ReadOut(s.bits) == target))
  {
    var n := |target|;
    var z := ZeroIndices(Reverse(target), n);
    TargetBlockRun(target, s);
    XLayerOpensControls(target, s.bits);
    SpellsIffReadOut(s.bits, target);
    var s1 := Apply(X(z), s);
    assert s1.bits[..n] == s1.bits;
    var s2 := Apply(MCZ(n), s1);
    assert s2 == Basis(s1.bits, s.negated != (ReadOut(s.bits) == target));
    FlipAllInvolution(s.bits, z);
  }

  /** Whether t occurs an odd number of times in the list. */
  function OccursOddly(marked: seq<string>, t: string): (odd: bool)
    ensures odd ==> t in marked
  {
    if marked == [] then false
    else OccursOddly(marked[..|marked| - 1], t) != (marked[|marked| - 1] == t)
  }

  predicate SameLengthBitStrings(marked: seq<string>, n: nat)
  {
    forall k :: 0 <= k < |marked| ==> IsBitString(marked[k]) && |marked[k]| == n
  }

  /** The last target's block, run after the oracle of the others. */
  lemma OracleLastBlock(marked: seq<string>, s: Basis)
    requires |s.bits| >= 1 && marked != []
    requires SameLengthBitStrings(marked, |s.bits|)
    ensures var n := |s.bits|;
            var init := marked[..|marked| - 1];
            && AllActWithin(OracleGates(init, n), n)
            && AllActWithin(OracleGates(marked, n), n)
            && SameLengthBitStrings(init, n)
            && AllActWithin(TargetBlock(marked[|marked| - 1], n), n)
            && Run(OracleGates(marked, n), s)
               == Run(TargetBlock(marked[|marked| - 1], n), Run(OracleGates(init, n), s))
  {
    var n := |s.bits|;
    var init := marked[..|marked| - 1];
    var last := marked[|marked| - 1];
    assert OracleGates(marked, n) == OracleGates(init, n) + TargetBlock(last, n);
    OracleActsWithin(init, n);
    TargetBlockActsWithin(last, n);
    RunConcat(OracleGates(init, n), TargetBlock(last, n), s);
    forall k | 0 <= k < |init| ensures IsBitString(init[k]) && |init[k]| == n {
      assert init[k] == marked[k];
    }
  }

  /** The whole oracle keeps every bit vector and flips the sign once per
      occurrence of the register's bit-string among the targets: the sign
      ends up negated iff that bit-string occurs an odd number of times. */
  lemma {:induction false} OracleFlipsPerOccurrence(marked: seq<string>, s: Basis)
    requires |s.bits| >= 1
    requires SameLengthBitStrings(marked, |s.bits|)
    ensures AllActWithin(OracleGates(marked, |s.bits|), |s.bits|)
    ensures Run(OracleGates(marked, |s.bits|), s)
         == Basis(s.bits, s.negated != OccursOddly(marked, ReadOut(s.bits)))
  {
    var n := |s.bits|;
    OracleActsWithin(marked, n);
    if marked != [] {
      var init := marked[..|marked| - 1];
      var last := marked[|marked| - 1];
      OracleLastBlock(marked, s);
      OracleFlipsPerOccurrence(init, s);
      var mid := Run(OracleGates(init, n), s);
      assert mid == Basis(s.bits, s.negated != OccursOddly(init, ReadOut(s.bits)));
      TargetBlockMarks(last, mid);
    }
  }

  predicate DistinctTargets(marked: seq<string>)
  {
    forall j, k :: 0 <= j < k < |marked| ==> marked[j] != marked[k]
  }

  /** In a list without repetitions, occurring an odd number of times is
      occurring at all. */
  lemma {:induction false} DistinctOddIffIn(marked: seq<string>, t: string)
    requires DistinctTargets(marked)
    ensures OccursOddly(marked, t) <==> t in marked
  {
    if marked != [] {
      var init := marked[..|marked| - 1];
      assert DistinctTargets(init);
      DistinctOddIffIn(init, t);
      assert t in marked <==> t in init || t == marked[|marked| - 1];
    }
  }

  /** With pairwise-distinct targets, the oracle negates the sign of a basis
      state iff the state's bit-string is one of the targets, and changes
      nothing else. */
  lemma OracleMarksExactlyTargets(marked: seq<string>, s: Basis)
    requires |s.bits| >= 1
    requires SameLengthBitStrings(marked, |s.bits|)
    requires DistinctTargets(marked)
    ensures AllActWithin(OracleGates(marked, |s.bits|), |s.bits|)
    ensures Run(OracleGates(marked, |s.bits|), s) == Basis(s.bits, s.negated != (ReadOut(s.bits) in marked))
  {
    OracleFlipsPerOccurrence(marked, s);
    DistinctOddIffIn(marked, ReadOut(s.bits));
  }

  /** The same statement over bit vectors: among all registers of width n,
      the oracle flips the sign of exactly the encodings of the targets. */
  lemma OracleFlipsExactlyEncodedTargets(marked: seq<string>, bits: seq<bool>)
    requires |bits| >= 1
    requires SameLengthBitStrings(marked, |bits|)
    requires DistinctTargets(marked)
    ensures AllActWithin(OracleGates(marked, |bits|), |bits|)
    ensures Run(OracleGates(marked, |bits|), Basis(bits, false)).negated
        <==> exists k :: 0 <= k < |marked| && bits == Encode(marked[k])
  {
    OracleMarksExactlyTargets(marked, Basis(bits, false));
    if ReadOut(bits) in marked {
      var k :| 0 <= k < |marked| && marked[k] == ReadOut(bits);
      EncodeReadOut(bits);
    }
    if exists k :: 0 <= k < |marked| && bits == Encode(marked[k]) {
      var k :| 0 <= k < |marked| && bits == Encode(marked[k]);
      ReadOutEncode(marked[k]);
    }
  }

  /** Listing a target twice cancels its marking: the sign flips of the two
      copies undo each other, so the oracle is then the identity. */
  lemma RepeatedTargetCancels(t: string, s: Basis)
    requires IsBitString(t) && |t| >= 1
    requires |s.bits| == |t|
    ensures AllActWithin(OracleGates([t, t], |t|), |t|)
    ensures Run(OracleGates([t, t], |t|), s) == s
  {
    assert SameLengthBitStrings([t, t], |t|);
    OracleFlipsPerOccurrence([t, t], s);
    assert [t, t][..1] == [t];
    assert [t][..0] == [];
    assert !OccursOddly([t, t], ReadOut(s.bits));
  }
}
