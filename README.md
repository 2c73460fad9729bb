# Grover oracle and benchmark post-processing, in Dafny

This project models the two pieces of `quantum_grovers.py` that are the
script's own logic rather than calls into the Qiskit library:

1. **The phase oracle, `grover_oracle`.** For every marked bit-string the
   builder reverses the string (the register is little-endian: qubit 0 is the
   rightmost character), collects the qubit indices whose reversed character
   is `'0'`, and appends three blocks to the circuit: an X layer on those
   qubits, a multi-controlled Z over all `L` qubits, and the same X layer
   again. `L` is the length of the first marked string.
   The model (`oracle.dfy`, module `GroverOracle`) has a `Gate` datatype
   (`X(qubits)`, `MCZ(width)`), a `Circuit` class standing for
   `QuantumCircuit` whose methods append to its gate list, and the builder
   `BuildOracle`, a loop over the targets proved to produce
   `OracleGates(marked, L)`. Gates get a classical-basis meaning: a basis
   state is a bit vector indexed by qubit plus a sign. X flips the listed
   bits one after the other. `MCZ(w)` negates the sign iff qubits
   `0 .. w-1` all read 1; this is the assumed meaning of
   `MCMT(ZGate(), L - 1, 1)`. `ReadOut` writes a register as a bit-string
   with qubit `L-1` first, the convention of the measurement keys the
   benchmark later looks up. The lemmas prove what the source comments
   promise. Each block leaves the bit vector unchanged and flips the sign
   exactly when the register spells the target. With pairwise-distinct
   targets, the oracle flips the sign of exactly the target states.
   In general it flips the sign once per occurrence of a state in the list,
   so a target listed twice is not marked at all.

2. **Result post-processing in `test_grover_on_all_backends`.** For each
   backend and each predefined state, the proportion
   `counts.get(state, 0) / sum(counts.values())` is computed. These
   proportions are averaged over the states, and the average is stored under
   the backend's name. The model (`results.dfy`, module
   `BenchmarkResults`) uses `map<string, nat>` for counts and exact `real`
   arithmetic. Python's `ZeroDivisionError` (a result with no shots, or an
   empty state list) is an `Err` that aborts the whole run, as the uncaught
   exception does. The backend execution `grovers([state], backend)` is a
   parameter `run(name, state)`. The driver method is proved equal to the
   specification function `Benchmark`. `BenchmarkShape` then states that the
   results map has one entry per backend name, each an average in [0, 1].

Facts about the code that shape the model:
- The code appends 3 blocks per target (`qc.x`, `qc.compose`, `qc.x`).
- The code never checks that the targets have the same length. For a shorter
  target, `startswith("0", ind)` reads a position past its end as not '0'.
  `ZeroIndices` models exactly that. Equal length and `{'0','1'}` characters
  are hypotheses of the marking lemmas only.
- The targets form a list, which may repeat an entry. Hence the distinctness
  hypothesis of `OracleMarksExactlyTargets` and the lemma
  `RepeatedTargetCancels`.

## Model

| member | source | states |
|---|---|---|
| `GroverOracle.Reverse` | quantum_grovers.py:57 | the reversed target has the same length, and its character i is the original's character L-1-i |
| `GroverOracle.ZeroIndices` | quantum_grovers.py:58 | index i is selected iff i < L and the reversed target holds '0' at i; the list is strictly increasing, so it has no duplicates |
| `GroverOracle.ZeroAt` | quantum_grovers.py:58 | `rev_target.startswith("0", ind)`: holds iff ind lies inside the reversed target and that character is '0', so a position past the end of a shorter target is never selected; `ZeroIndices` and `ZeroIndicesSelectZeros` state what this selects |
| `GroverOracle.ZeroIndicesSelectZeros` | quantum_grovers.py:57-58 | for a target of length L, qubit i is in the X layer iff `target[L-1-i] == '0'` |
| `GroverOracle.ZeroIndicesWellFormed` | quantum_grovers.py:58 | every selected index lies in [0, L) and no index repeats |
| `GroverOracle.TargetBlock` | quantum_grovers.py:57-63 | the three calls made for one target: X on its zero indices, the MCZ over the register, the same X; `OracleBlocks` places it in the oracle and `TargetBlockMarks` states its effect |
| `GroverOracle.OracleGates` | quantum_grovers.py:56-63 | the oracle holds exactly 3 blocks per marked state |
| `GroverOracle.OracleBlocks` | quantum_grovers.py:56-63 | for the k-th target, in list order, blocks 3k..3k+2 are X(zero indices), MCZ over all L qubits, and the identical X(zero indices) |
| `GroverOracle.TargetBlockActsWithin` | quantum_grovers.py:57-63 | every gate of one target's block touches only qubits in [0, L) |
| `GroverOracle.OracleActsWithin` | quantum_grovers.py:51-63 | every gate of the oracle touches only qubits in [0, L) |
| `GroverOracle.Circuit.constructor` | quantum_grovers.py:53 | a new circuit has the given width and no gates |
| `GroverOracle.Circuit.ApplyX` | quantum_grovers.py:61 | appends one X layer on in-range qubits; the gate list grows by exactly that block and stays within the register |
| `GroverOracle.Circuit.ComposeMCZ` | quantum_grovers.py:62 | appends the MCZ over the whole register; the gate list grows by exactly that block and stays within the register |
| `GroverOracle.BuildOracle` | quantum_grovers.py:50-64 | the returned circuit is new, has width equal to the first target's length, keeps every gate inside the register, and holds exactly `OracleGates(marked, L)` |
| `GroverOracle.FlipAll` | quantum_grovers.py:61 | the assumed meaning of `qc.x(zero_inds)` on a basis state: one NOT per listed qubit, keeping the register width; `FlipAllAt` states which bits change and `FlipAllInvolution` that the second X layer undoes the first |
| `GroverOracle.Apply` | quantum_grovers.py:61-62 | the assumed meaning of one appended gate on a basis state, keeping the register width: X flips bits, the MCZ negates the sign iff the register reads all ones; `TargetBlockMarks` states the combined effect |
| `GroverOracle.Run` | quantum_grovers.py:53-64 | the assumed meaning of the returned circuit on a basis state: its gates applied first to last, in the order they were appended, keeping the register width; `RunConcat` splits it at a block boundary |
| `GroverOracle.RunConcat` | quantum_grovers.py:56-63 | running the gates of two consecutive stretches of the circuit is running the first, then the second |
| `GroverOracle.FlipAllAt` | quantum_grovers.py:61 | an X layer on distinct qubits flips exactly the listed qubits and leaves all others alone |
| `GroverOracle.FlipAllInvolution` | quantum_grovers.py:61-63 | applying the same X layer twice restores the bit vector |
| `GroverOracle.TargetBlockRun` | quantum_grovers.py:61-63 | running a target's block is the X layer, then the MCZ, then the X layer again |
| `GroverOracle.ReadOut` | quantum_grovers.py:122 | the bit-string under which a register appears among the measurement keys that `counts.get(state, 0)` looks up: a bit-string of the register's width whose character j is qubit L-1-j; `ReadOutEncode` and `EncodeReadOut` prove it is a bijection |
| `GroverOracle.XLayerOpensControls` | quantum_grovers.py:58-62 | after a target's X layer all qubits read 1 iff, before it, qubit i held the target's character L-1-i for every i, so the '0' positions act as open controls |
| `GroverOracle.ReadOutEncode` | quantum_grovers.py:57 | writing out the bit vector that a bit-string names gives back the bit-string |
| `GroverOracle.EncodeReadOut` | quantum_grovers.py:57 | naming the bit-string a register reads as gives back the register |
| `GroverOracle.TargetBlockMarks` | quantum_grovers.py:55-63 | one target's block leaves the bit vector unchanged and negates the sign iff the register, read from qubit L-1 down to qubit 0, spells the target |
| `GroverOracle.OracleFlipsPerOccurrence` | quantum_grovers.py:55-64 | for equal-length bit-string targets, the oracle leaves the bit vector unchanged and negates the sign iff the register's bit-string occurs an odd number of times in the list |
| `GroverOracle.OracleMarksExactlyTargets` | quantum_grovers.py:55-64 | with pairwise-distinct targets, the oracle negates the sign of a basis state iff its bit-string is one of the targets; everything else is unchanged |
| `GroverOracle.OracleFlipsExactlyEncodedTargets` | quantum_grovers.py:55-64 | with pairwise-distinct targets, a register of width L gets a negated sign iff it is the encoding of some target |
| `GroverOracle.RepeatedTargetCancels` | quantum_grovers.py:56-63 | a target listed twice yields an oracle that changes no basis state at all |
| `BenchmarkResults.TotalRemove` | quantum_grovers.py:120 | the shot total equals any one entry plus the total of the rest, so the sum does not depend on iteration order |
| `BenchmarkResults.Total` | quantum_grovers.py:120 | `sum(counts.values())`, taking the entries out in an arbitrary order; `TotalRemove` proves the order does not matter and `SumCounts` computes it |
| `BenchmarkResults.ValueAtMostTotal` | quantum_grovers.py:120-122 | the count of any observed state is at most the shot total |
| `BenchmarkResults.SumCounts` | quantum_grovers.py:120 | walking the keys in any order yields the sum of all shot counts |
| `BenchmarkResults.Get` | quantum_grovers.py:122 | `counts.get(state, 0)`: 0 for a state never observed, and never more than the shot total |
| `BenchmarkResults.RatioInUnit` | quantum_grovers.py:122-124 | a count at most the total, divided by a positive total, lies in [0, 1] |
| `BenchmarkResults.Proportion` | quantum_grovers.py:120-124 | the proportion exists iff the shot total is positive (otherwise a zero division); it lies in [0, 1], is 0 when the state is absent from the counts, and is 1 when every shot hit the state |
| `BenchmarkResults.SumBounds` | quantum_grovers.py:127 | a sum of values in [0, 1] lies between 0 and their number |
| `BenchmarkResults.Sum` | quantum_grovers.py:127 | `sum(backend_results)`, adding the proportions in list order; `SumBounds` bounds it |
| `BenchmarkResults.Average` | quantum_grovers.py:127 | the average exists iff the list is non-empty (otherwise a zero division), and lies in [0, 1] when every value does |
| `BenchmarkResults.Proportions` | quantum_grovers.py:116-125 | on success there is one proportion per state, each in [0, 1] (the order is stated by `ProportionsAt`) |
| `BenchmarkResults.ProportionsAt` | quantum_grovers.py:116-125 | on success, entry i of a backend's list is the proportion computed for state i, so the list follows the order of the states |
| `BenchmarkResults.ProportionsOk` | quantum_grovers.py:116-125 | a backend's state loop finishes iff no state's result has zero shots |
| `BenchmarkResults.BackendAverageBounds` | quantum_grovers.py:113-127 | a backend's average exists iff there is at least one state and no result has zero shots, and then lies in [0, 1] |
| `BenchmarkResults.BackendAverage` | quantum_grovers.py:113-127 | the `average_proportion` of one backend; when it exists it lies in [0, 1]; `BackendAverageBounds` states when it exists |
| `BenchmarkResults.ProportionsErrPersists` | quantum_grovers.py:124 | a zero division at some state aborts that backend's whole state loop |
| `BenchmarkResults.BenchmarkErrPersists` | quantum_grovers.py:110-128 | a zero division at some backend aborts the whole benchmark |
| `BenchmarkResults.BenchmarkShape` | quantum_grovers.py:108-132 | the run succeeds iff there are no backends, or there are states and no result has zero shots; the results map then has exactly one key per backend name, holding that backend's average, which lies in [0, 1] |
| `BenchmarkResults.Benchmark` | quantum_grovers.py:108-132 | the `results` dictionary after the backends are processed in order, or the zero-division error; on success every key is a backend name holding a value in [0, 1]; `BenchmarkShape` states exactly when it succeeds and what each entry holds |
| `BenchmarkResults.TestGroverOnAllBackends` | quantum_grovers.py:106-132 | the nested loops return exactly `Benchmark(run, names, states)`: the results map on success, or the zero-division error |

## Left out

- The iteration count `floor(pi / (4 * asin(sqrt(m / 2**L))))` (quantum_grovers.py:71-73) is transcendental floating-point arithmetic and is not modelled. Its domain needs 0 < m <= 2^L.
- `grovers` (quantum_grovers.py:66-97) is not modelled beyond its counts result. It calls `GroverOperator`, `power`, `h`, `measure_all`, `transpile`, `backend.run` and `get_counts`, whose code is not part of this model. In the benchmark, that whole call is the parameter `run(name, state)`.
- The meaning of `MCMT(ZGate(), L - 1, 1)` is assumed: a phase flip when all L qubits read 1. For L = 1 the model treats it as a plain Z. Whether the library accepts zero control qubits is not part of this model. L = 0 is excluded by a precondition of `BuildOracle`.
- `BuildOracle` requires a non-empty target list, because `marked_states[0]` raises `IndexError` on an empty one. The model does not represent that exception.
- `qc.x` with an empty index list is assumed to be the identity: the model appends an `X([])` block that changes no qubit. Only a target whose reversal holds no '0' at positions 0 .. L-1 produces such a call; for targets that are bit-strings of length L, that is an all-ones target ("1", "11", ...). The library may instead reject an empty qubit list, in which case `grover_oracle` would raise at quantum_grovers.py:61 for such a target; the library's code is not part of this model. Block counts in `OracleGates` count calls.
- The X semantics is a classical-basis (permutation) semantics with a global sign. Superpositions and amplitudes are not modelled. The basis-state statements extend to them by linearity, but that is not proved here.
- The backend tables and fake-provider objects (quantum_grovers.py:19-37) are configuration. The backend names are the `names` parameter of `TestGroverOnAllBackends`, and the predefined states are its `states` parameter.
- Backend execution failures, and the commented-out IBM runtime account code (quantum_grovers.py:39-44), involve the network and foreign code.
- The wall-clock timing with `timeit` and the `classical(n)` loop (quantum_grovers.py:137-156) only measure time and print.
- All `print` calls and the module-level script runs (quantum_grovers.py:75, 94, 100, 130, 134-135) are output only.
- Shot sampling is random in the backends. `run` is a fixed function of the backend name and the state, which is enough for a `states` list without repetitions, where the benchmark calls each pair once. With a repeated state the backends would take two independent samples, while the model gives both the same counts.
- Floating-point rounding of the proportion and of the average is not modelled; the arithmetic is exact over `real`.
