# Verified models of the engines

This project models nine engines of the repository in Dafny and proves what their code guarantees. Each
engine is a group of modules: its operations as methods, in the form the source gives them (objects with
fields, loops over arrays, linked records), each method equated to a function or relation on values, and
lemmas about these functions over all inputs, all runs or all interleavings.

| Engine | Modules |
|---|---|
| DAG saga orchestrator | `SagaGraph`, `SagaMachine`, `SagaRuns`, `SagaPause`, `SagaOrchestrator` |
| Quantum state-vector simulator | `QuantumIndex`, `QuantumKernels`, `QuantumInterleaving`, `QuantumCircuit`, `QuantumGates` |
| QUIC receive path (RFC 9000, sections 2.2, 16 and 19.8 to 19.10) | `QuicVarInt`, `QuicFrame`, `QuicStream`, `QuicDelivery`, `QuicEngine`, `QuicPackets`, `QuicOpenFrames` |
| Raft node, storage and cluster | `RaftStorage`, `RaftProtocol`, `RaftCluster`, `RaftAnswers`, `RaftElection`, `RaftVoting`, `RaftLogs` |
| Hazard-pointer domain | `HazardMachine`, `HazardScan`, `HazardPointers`, `HazardDomain` |
| Escrow ledger | `EscrowLedger`, `EscrowSafety`, `EscrowAnswers` |
| Token-bucket limiter | `RateLimiter` |
| MVCC engine | `MvccChains`, `MvccSnapshots`, `MvccEngine` |
| Parquet RLE / bit-packing hybrid | `ParquetBits`, `ParquetUnpack`, `ParquetHybrid`, `ParquetRuns` |

`Options`, `Words`, `Finite` and `Arithmetic` are shared helpers. `dafny verify dfyconfig.toml` checks everything.

## How the engines are modelled

- **Saga.** Each `BEGIN IMMEDIATE` to `COMMIT` block, each reply to a POST and each pause or resume is one atomic
  action. `SagaMachine` is the state machine, `SagaOrchestrator` the object whose methods perform its actions on
  rows, and `SagaRuns` what whole runs guarantee. The source runs its retry loop while `attempt <= max_retries`, so a
  negative limit posts nothing and leaves the step executing for ever; completability is characterised exactly. A pause is written whatever the saga's state, so it can make the journal's rows
  disconnected; when is characterised exactly too.
- **Quantum.** Amplitudes are pairs of reals, and 1 / sqrt(2) is any r with 2 r r = 1. The parallel loops run over any
  permutation of their iterations, and any interleaving of their single loads and stores gives the same.
- **QUIC.** Integers keep their 64-bit widths, and `bytes_received_` wraps. A push replaces the payload at the same
  offset, so a shorter retransmission can lose bytes; what is lost is characterised exactly.
- **Raft.** Nothing in the source makes a node leader, so runs of `TickAll` are elections only, among nodes that
  start with any logs. For Log Matching the
  environment elects: one proposer per term, and leaders send any contiguous part of what they hold. Three places in
  `raft_node.cpp` fall short of the Raft paper and are characterised exactly: an AppendEntries of a candidate's own term
  makes it forget its vote, one with previous index and term zero is accepted below a snapshot and misplaces its entries, and
  one that cuts committed entries off while raising the commit index lowers it.
- **Hazard pointers.** Every atomic load, store and compare-and-swap is a step of its own; any threads interleave, under
  sequential consistency. A pointer taken after its retirement is safe as long as no scan for it has passed the record,
  and only then. Retirements carry a ticket and records an age, as history only.
- **Ledger.** Handlers are atomic and take the time as an argument. The connection is in autocommit mode, so the
  expiry of stale holds stays even when a request is then refused. Made-up ids and the body's digest come with the request.
- **Limiter.** Tokens are reals. A last update of zero marks a bucket as new, so a packet at time zero leaves it new; when that breaks the
  limit is characterised exactly.
- **MVCC.** Records are linked objects; a map from record to link mirrors the heap, and chains are sequences of versions.
- **Parquet.** Shifts and masks are written on natural numbers; the bits combined by `|` never overlap, so adding them is the same.
  `ParquetHybrid.Decoded` says what the decoder makes of any bytes; it is none where the source reads past its input, reads its
  buffer before it is filled, or shifts by the width of its operand or more.

## Model

| member | source | states |
|---|---|---|
| SagaGraph.HasCycle | tasks/dag-saga-orchestrator-api/solution/solve.sh:65-84 | answers true exactly when the dependency graph has a directed cycle; when it answers false, its finish order lists every step once, each after all its dependencies |
| SagaGraph.CycleCheck.Dfs | tasks/dag-saga-orchestrator-api/solution/solve.sh:69-79 | the three-colour search: a true answer comes with a cycle, a false one leaves the node finished after its dependencies and the other colours as they were |
| SagaGraph.TopologicalIsAcyclic | tasks/dag-saga-orchestrator-api/solution/solve.sh:65-84 | a graph whose steps can be listed dependencies first has no directed cycle, which is what makes a false answer right |
| SagaGraph.FindSource | tasks/dag-saga-orchestrator-api/solution/solve.sh:65-84 | in an acyclic graph every nonempty set of steps has one that depends on no other of them |
| SagaGraph.FindSink | tasks/dag-saga-orchestrator-api/solution/solve.sh:65-84 | and one that no other of them depends on |
| SagaMachine.StepKeepsInv | tasks/dag-saga-orchestrator-api/solution/solve.sh:86-203 | every tick, reply, undo, pause and resume keeps the invariant of both phases: executing, completed and compensating steps have all their dependencies completed, and statuses fit the control point |
| SagaMachine.ReachableInv | tasks/dag-saga-orchestrator-api/solution/solve.sh:86-264 | so the invariant holds after every interleaving of these actions |
| SagaMachine.NeverStuckForward | tasks/dag-saga-orchestrator-api/solution/solve.sh:122-137 | in every reachable state the forward loop is paused, dispatches or leaves: it never comes to its branch for pending steps none of which is ready |
| SagaMachine.LeafAlwaysFound | tasks/dag-saga-orchestrator-api/solution/solve.sh:180-190 | while a completed step is left, compensation finds a leaf to undo |
| SagaRuns.PostsBounded | tasks/dag-saga-orchestrator-api/solution/solve.sh:150-163 | in every run no step is posted more than max_retries + 1 times |
| SagaRuns.DependenciesSucceedFirst | tasks/dag-saga-orchestrator-api/solution/solve.sh:122-141 | in every run a step is posted only after each of its dependencies has succeeded |
| SagaRuns.DependentsUndoneFirst | tasks/dag-saga-orchestrator-api/solution/solve.sh:180-203 | in every run a step's undo starts only after every dependent of it that ever succeeded has been undone |
| SagaRuns.Outcomes | tasks/dag-saga-orchestrator-api/solution/solve.sh:86-203 | a run ends with all steps done and nothing undone, or with a step out of retries and exactly the succeeded steps undone, each once |
| SagaRuns.ForwardRounds | tasks/dag-saga-orchestrator-api/solution/solve.sh:89-141 | with any pauses, at most n dispatching passes and n + 1 unpaused ones before the forward loop leaves |
| SagaRuns.WorkIsBounded | tasks/dag-saga-orchestrator-api/solution/solve.sh:86-203 | whatever the replies, the work a run can do is bounded by a measure of the plan alone |
| SagaRuns.WorkIsAvailable | tasks/dag-saga-orchestrator-api/solution/solve.sh:86-203 | until it has ended there is always work it can do, unless it is paused |
| SagaRuns.NegativeLimitHangs | tasks/dag-saga-orchestrator-api/solution/solve.sh:150-163 | a step whose max_retries is negative is never completed or failed in any run, as its loop body never runs |
| SagaRuns.CompletableIffRetriesAllowed | tasks/dag-saga-orchestrator-api/solution/solve.sh:143-165 | a stored saga has a run that completes it if and only if none of its steps has a negative max_retries |
| SagaRuns.SuccessReachable | tasks/dag-saga-orchestrator-api/solution/solve.sh:86-165 | from every reachable state without failures, resuming and succeeding completes the saga |
| SagaPause.PausedTickSleeps | tasks/dag-saga-orchestrator-api/solution/solve.sh:95-98 | a pass of the forward block while the saga is paused changes nothing at all |
| SagaPause.SleepsIffPaused | tasks/dag-saga-orchestrator-api/solution/solve.sh:89-141 | in every reachable state a pass of the forward block changes nothing if and only if the saga is paused |
| SagaPause.TickAfterFailure | tasks/dag-saga-orchestrator-api/solution/solve.sh:100-108 | an unpaused pass that finds a failed step starts the compensation, journals it and changes no step |
| SagaPause.TickWhenDone | tasks/dag-saga-orchestrator-api/solution/solve.sh:110-117 | an unpaused pass that finds every step completed ends the saga as completed and journals it |
| SagaPause.TickStartsTheReady | tasks/dag-saga-orchestrator-api/solution/solve.sh:122-141 | any other unpaused pass starts exactly the pending steps whose dependencies are all completed, all at once and at their first attempt |
| SagaPause.UnwindStartsTheLeaves | tasks/dag-saga-orchestrator-api/solution/solve.sh:169-194 | a pass of the compensation starts undoing exactly the completed steps on which no completed or compensating step depends, paused or not, or ends the saga when none is completed |
| SagaPause.PauseHolds | tasks/dag-saga-orchestrator-api/solution/solve.sh:95-98 | in a run with a pause in the forward phase and no later resume, the set of pending steps never changes after it, and the saga stays paused and does not end, whatever the retry limits |
| SagaPause.PausedIsNotPosted | tasks/dag-saga-orchestrator-api/solution/solve.sh:95-141 | so a step that is pending when its saga is paused is not posted before a resume |
| SagaPause.JournalEndsInStatus | tasks/dag-saga-orchestrator-api/solution/solve.sh:61-63 | in every run the journal begins with the running saga and its last row ends in the saga's present status |
| SagaPause.JournalChainedIff | tasks/dag-saga-orchestrator-api/solution/solve.sh:250-264 | the rows of the journal form a chain of statuses if and only if only running sagas were paused and only paused ones resumed |
| SagaOrchestrator.HasDangling | tasks/dag-saga-orchestrator-api/solution/solve.sh:207-211 | true exactly when some step names a dependency that is not a step of the request |
| SagaOrchestrator.CreateSaga | tasks/dag-saga-orchestrator-api/solution/solve.sh:205-228 | a saga is stored exactly when the request is closed under dependencies, acyclic and without repeated ids, and the stored plan then says what the request said |
| SagaOrchestrator.Orchestrator.Tick | tasks/dag-saga-orchestrator-api/solution/solve.sh:89-141 | one pass of the forward block leaves the rows and the control point that the state machine's tick leaves |
| SagaOrchestrator.Orchestrator.ReadySteps | tasks/dag-saga-orchestrator-api/solution/solve.sh:122-132 | picks exactly the pending steps all of whose dependencies are completed |
| SagaOrchestrator.Orchestrator.Post | tasks/dag-saga-orchestrator-api/solution/solve.sh:150-163 | one attempt at a step: completed on success, failed once the retries are used up, otherwise another attempt is due |
| SagaOrchestrator.Orchestrator.LeafSteps | tasks/dag-saga-orchestrator-api/solution/solve.sh:180-190 | picks exactly the completed steps that no completed or compensating step depends on |
| SagaOrchestrator.Orchestrator.Unwind | tasks/dag-saga-orchestrator-api/solution/solve.sh:169-194 | one pass of the compensation block leaves what the state machine's unwinding step leaves |
| SagaOrchestrator.Orchestrator.Undo | tasks/dag-saga-orchestrator-api/solution/solve.sh:196-201 | a step whose undo was started ends compensated, whatever the POST did |
| SagaOrchestrator.Orchestrator.PauseSaga | tasks/dag-saga-orchestrator-api/solution/solve.sh:250-256 | sets the saga's status and nothing else, in any state |
| SagaOrchestrator.Orchestrator.ResumeSaga | tasks/dag-saga-orchestrator-api/solution/solve.sh:258-264 | sets the saga's status and nothing else, in any state |
| SagaOrchestrator.BuildGraph | tasks/dag-saga-orchestrator-api/solution/solve.sh:66 | the dictionary of dependencies, its keys in the order of first insertion |
| SagaOrchestrator.InsertSteps | tasks/dag-saga-orchestrator-api/solution/solve.sh:220-225 | one pending row per step, unless a step id repeats |
| SagaOrchestrator.Orchestrator.Gather | tasks/dag-saga-orchestrator-api/solution/solve.sh:165 | one run of exec_step per ready step, each at attempt 0 |
| QuantumIndex.Split | tasks/simd-quantum-circuit-simulator/solution/solve.sh:18-27 | an index is block, bit and position in only one way, so pairs never overlap |
| QuantumIndex.OtherBit | tasks/simd-quantum-circuit-simulator/solution/solve.sh:50-54 | setting one qubit's bit leaves the other qubit's bit alone |
| QuantumKernels.ApplyBlock1Q | tasks/simd-quantum-circuit-simulator/solution/solve.sh:23-35 | one iteration of the parallel loop rewrites exactly the pairs of its block, from the amplitudes they had before |
| QuantumKernels.ApplyGate1Q | tasks/simd-quantum-circuit-simulator/solution/solve.sh:12-36 | for any order of the blocks, every amplitude becomes its row of the matrix applied to the two old amplitudes that differ in the target bit |
| QuantumKernels.UpdateCorners | tasks/simd-quantum-circuit-simulator/solution/solve.sh:50-65 | the body of the two-qubit loop rewrites exactly the four amplitudes that differ in the two bits |
| QuantumKernels.ApplyGate2Q | tasks/simd-quantum-circuit-simulator/solution/solve.sh:38-67 | for any order of the iterations and any two distinct qubits, every amplitude becomes its row of the matrix applied to the four old amplitudes that differ in the two bits |
| QuantumInterleaving.AnyInterleaving | tasks/simd-quantum-circuit-simulator/solution/solve.sh:20-67 | however the single loads and stores of loop bodies that share no index are interleaved, each body stores its rows applied to the amplitudes from before the pass, and nothing else is written |
| QuantumInterleaving.AnyInterleaving1Q | tasks/simd-quantum-circuit-simulator/solution/solve.sh:20-35 | so the one-qubit kernel's parallel loop has the outcome of the sequential one in every interleaving of its loads and stores |
| QuantumInterleaving.AnyInterleaving2Q | tasks/simd-quantum-circuit-simulator/solution/solve.sh:46-66 | and so has the two-qubit kernel's |
| QuantumCircuit.PairsKeepNorm | tasks/simd-quantum-circuit-simulator/solution/solve.sh:22-35 | when the squared amplitudes of every pair keep their sum, so does the whole register: the sum re-indexed by pairs |
| QuantumCircuit.HadamardKeepsNorm | tasks/simd-quantum-circuit-simulator/solution/solve.sh:104-110 | H on any qubit keeps the total squared amplitude, given 2 r r = 1 |
| QuantumCircuit.PauliKeepsNorm | tasks/simd-quantum-circuit-simulator/solution/solve.sh:111-116 | X on any qubit keeps the total squared amplitude |
| QuantumCircuit.ControlledKeepsNorm | tasks/simd-quantum-circuit-simulator/solution/solve.sh:117-123 | CX on any two distinct qubits keeps the total squared amplitude |
| QuantumCircuit.CircuitKeepsNorm | tasks/simd-quantum-circuit-simulator/solution/solve.sh:102-126 | every circuit of H, X and CX keeps the total squared amplitude exactly |
| QuantumCircuit.ReverseUndoes | tasks/simd-quantum-circuit-simulator/solution/solve.sh:102-126 | running a circuit and then its gates in reverse order restores every amplitude |
| QuantumCircuit.QuantumSimulator.constructor | tasks/simd-quantum-circuit-simulator/solution/solve.sh:80-84 | a new simulator has 2^n amplitudes, the first one and all others zero, and no gates |
| QuantumCircuit.QuantumSimulator.Reset | tasks/simd-quantum-circuit-simulator/solution/solve.sh:88-92 | back to the ground state, with the circuit cleared |
| QuantumCircuit.QuantumSimulator.Run | tasks/simd-quantum-circuit-simulator/solution/solve.sh:102-126 | the state vector becomes the circuit's action on it, with the same norm; the circuit stays |
| QuantumCircuit.RunFromGround | tasks/simd-quantum-circuit-simulator/solution/solve.sh:80-126 | from a new simulator any circuit leaves total probability 1 |
| QuantumCircuit.QuantumSimulator.AppendGate | tasks/simd-quantum-circuit-simulator/solution/solve.sh:94-96 | the gate goes to the end of the circuit |
| QuantumCircuit.QuantumSimulator.ApplyOne | tasks/simd-quantum-circuit-simulator/solution/solve.sh:103-124 | one turn of the loop over gates leaves the gate's action on the state vector |
| QuantumGates.GateEffect | tasks/simd-quantum-circuit-simulator/solution/solve.sh:102-126 | in amplitudes: H leaves the scaled sum and difference of each pair of its target, X exchanges them, CX exchanges them where its control's bit is set, other gates change nothing |
| QuantumGates.PhaseFlip | tasks/simd-quantum-circuit-simulator/solution/solve.sh:102-126 | H, X and H on one qubit negate exactly the amplitudes with its bit set |
| QuantumGates.UniformSuperposition | tasks/simd-quantum-circuit-simulator/solution/solve.sh:80-126 | H once on each qubit of the ground state leaves the amplitude r^n at every index |
| QuantumGates.EntangledState | tasks/simd-quantum-circuit-simulator/solution/solve.sh:80-126 | H on the first qubit and CX from it to every other leave the ground state in two amplitudes r, where no bit and where all bits are set |
| QuicVarInt.EncodedLength | tasks/quic-stream-multiplexer-engine/environment/src/quic_varint.cpp:5-10 | the least of the four widths that holds the value, for values below 2^62 |
| QuicVarInt.Encode | tasks/quic-stream-multiplexer-engine/environment/src/quic_varint.cpp:12-37 | writes the shortest form of the value, or nothing at all when the destination is too small |
| QuicVarInt.Decode | tasks/quic-stream-multiplexer-engine/environment/src/quic_varint.cpp:39-50 | answers what the two-bit prefix and the bytes after it spell, or none when they are missing |
| QuicVarInt.ReadWide | tasks/quic-stream-multiplexer-engine/environment/src/quic_varint.cpp:39-50 | an integer encoded in any of the widths that hold it is read back, whatever follows |
| QuicVarInt.ReadTruncated | tasks/quic-stream-multiplexer-engine/environment/src/quic_varint.cpp:39-50 | every strict prefix of an encoding is refused |
| QuicVarInt.ReadIsWide | tasks/quic-stream-multiplexer-engine/environment/src/quic_varint.cpp:39-50 | the bytes read are always the encoding of the answer in their width |
| QuicVarInt.EncodeRoundTrip | tasks/quic-stream-multiplexer-engine/environment/src/quic_varint.cpp:5-50 | a value survives encoding and decoding if and only if it is below 2^62 |
| QuicFrame.ParseFrame | tasks/quic-stream-multiplexer-engine/environment/src/quic_frame.cpp:6-69 | advances field by field to the frame and size that the grammar of sections 19.8 to 19.10 gives, or refuses |
| QuicFrame.ParseEncoding | tasks/quic-stream-multiplexer-engine/environment/src/quic_frame.cpp:6-69 | every encoding of a length-bearing frame, in any widths, parses back to the frame and exactly its bytes, whatever follows |
| QuicFrame.PrefixRefused | tasks/quic-stream-multiplexer-engine/environment/src/quic_frame.cpp:6-69 | every strict prefix of one encoded frame is refused |
| QuicFrame.ParsedIsEncoding | tasks/quic-stream-multiplexer-engine/environment/src/quic_frame.cpp:6-69 | nothing else is accepted: the bytes of a parsed frame are one of its encodings, unless it is a STREAM frame without a length |
| QuicFrame.ParseExtends | tasks/quic-stream-multiplexer-engine/environment/src/quic_frame.cpp:6-69 | a frame does not depend on what follows it, unless it takes all there is |
| QuicFrame.SerializeFrame | tasks/quic-stream-multiplexer-engine/environment/src/quic_frame.cpp:71-82 | writes a MAX_DATA frame in shortest form and nothing for any other |
| QuicFrame.SerializedParses | tasks/quic-stream-multiplexer-engine/environment/src/quic_frame.cpp:71-82 | a serialized MAX_DATA frame parses back if and only if its limit is below 2^62 |
| QuicStream.StreamReassembler.PushFrame | tasks/quic-stream-multiplexer-engine/environment/src/quic_stream.cpp:9-19 | a frame of this stream replaces the piece held at its offset and may announce the final size; a frame of another one changes nothing |
| QuicStream.StreamReassembler.ReadFirst | tasks/quic-stream-multiplexer-engine/environment/src/quic_stream.cpp:24-45 | one turn of the read loop at the first piece |
| QuicStream.StreamReassembler.Read | tasks/quic-stream-multiplexer-engine/environment/src/quic_stream.cpp:21-48 | terminates with the bytes, pieces and position that draining the pieces in order gives |
| QuicStream.DrainIsMaximal | tasks/quic-stream-multiplexer-engine/environment/src/quic_stream.cpp:21-48 | a read returns min(max, r) bytes, where r is the length of the contiguous run held from the read position on |
| QuicStream.DrainTakesOwners | tasks/quic-stream-multiplexer-engine/environment/src/quic_stream.cpp:24-45 | each byte comes from the lowest piece that holds its position, which decides overlaps |
| QuicStream.ReadsCompose | tasks/quic-stream-multiplexer-engine/environment/src/quic_stream.cpp:21-48 | reading a bytes and then b returns and leaves what one read of a + b does |
| QuicStream.DrainDropsRead | tasks/quic-stream-multiplexer-engine/environment/src/quic_stream.cpp:41-44 | a piece that a read erases ends at or before the new read position |
| QuicStream.DrainKeepsUnread | tasks/quic-stream-multiplexer-engine/environment/src/quic_stream.cpp:21-48 | what is held beyond the new read position stays held |
| QuicStream.StreamReassembler.constructor | tasks/quic-stream-multiplexer-engine/environment/src/quic_stream.cpp:6-7 | a fresh stream: nothing held, nothing read, no final size |
| QuicDelivery.DeliversInOrder | tasks/quic-stream-multiplexer-engine/environment/src/quic_stream.cpp:9-48 | however a stream is cut into frames, repeated, overlapped, reordered and interleaved with reads, the reads return its first bytes_read bytes, and it is finished exactly when its end was announced and all of it was delivered |
| QuicDelivery.PushLoses | tasks/quic-stream-multiplexer-engine/environment/src/quic_stream.cpp:15-17 | a push loses a held position if and only if only the piece at the frame's offset held it and the frame's payload, which is not empty, is too short for it |
| QuicDelivery.ShorterRetransmissionLoses | tasks/quic-stream-multiplexer-engine/environment/src/quic_stream.cpp:15-17 | a concrete run in which a shorter retransmission loses a byte for good |
| QuicDelivery.FinishesWhenHeld | tasks/quic-stream-multiplexer-engine/environment/src/quic_stream.cpp:21-48 | a large enough read finishes the stream if and only if its end was announced and every unread position is held |
| QuicDelivery.FinishesIffSurvives | tasks/quic-stream-multiplexer-engine/environment/src/quic_stream.cpp:9-48 | a large enough read finishes a cut stream if and only if its end has arrived and each unread byte is borne by some payload that no later payload at the same offset has replaced: a condition on the operations alone, up to the number of bytes read |
| QuicDelivery.HeldIffSurvives | tasks/quic-stream-multiplexer-engine/environment/src/quic_stream.cpp:9-48 | in any run, beyond the read position exactly the positions borne by such payloads are held |
| QuicDelivery.AllArrivedAllRead | tasks/quic-stream-multiplexer-engine/environment/src/quic_stream.cpp:9-48 | so when every byte and the end have arrived and no payload is shorter than an earlier one at its offset, a large enough read completes the stream |
| QuicDelivery.PushHolds | tasks/quic-stream-multiplexer-engine/environment/src/quic_stream.cpp:15-17 | after a push the payload's positions are held, and no others that were not |
| QuicEngine.QuicEngine.GetStream | tasks/quic-stream-multiplexer-engine/environment/src/quic_engine.cpp:8-17 | the stream of the id, a fresh one if it was never mentioned; no other stream changes |
| QuicEngine.QuicEngine.ProcessPacket | tasks/quic-stream-multiplexer-engine/environment/src/quic_engine.cpp:19-39 | terminates; all frames up to the first bytes that are none are dispatched in order, and the answer says whether the whole packet was frames |
| QuicEngine.QuicEngine.GenerateControlFrames | tasks/quic-stream-multiplexer-engine/environment/src/quic_engine.cpp:41-50 | the serialized pending frames in order, after which none is pending |
| QuicEngine.QuicEngine.constructor | tasks/quic-stream-multiplexer-engine/environment/src/quic_engine.cpp:5-6 | no streams and no bytes received |
| QuicEngine.QuicEngine.Handle | tasks/quic-stream-multiplexer-engine/environment/src/quic_engine.cpp:29-37 | one parsed frame changes its own stream, the byte count or the limit, and nothing else |
| QuicPackets.PacketDispatchesItsFrames | tasks/quic-stream-multiplexer-engine/environment/src/quic_engine.cpp:19-39 | the concatenation of any encodings of any length-bearing frames is accepted and dispatches exactly that list |
| QuicPackets.CutPacketIsRefused | tasks/quic-stream-multiplexer-engine/environment/src/quic_engine.cpp:19-39 | a packet cut inside a frame is refused after the frames before the cut were dispatched |
| QuicPackets.BytesAreCounted | tasks/quic-stream-multiplexer-engine/environment/src/quic_engine.cpp:33 | bytes_received grows by the total of all stream payloads, repeated ones included, modulo 2^64 |
| QuicPackets.LimitIsLargest | tasks/quic-stream-multiplexer-engine/environment/src/quic_engine.cpp:34-37 | max_data becomes the largest of the old limit and those announced |
| QuicPackets.StreamsAreIndependent | tasks/quic-stream-multiplexer-engine/environment/src/quic_engine.cpp:8-39 | each stream of a connection behaves as a reassembler of its own that sees its frames and its reads only |
| QuicPackets.ConnectionDeliversInOrder | tasks/quic-stream-multiplexer-engine/environment/src/quic_engine.cpp:19-39 | from bytes on the wire to bytes read: with any packets, accepted or refused, a stream whose frames are cut from one byte sequence delivers a prefix of it, in order |
| QuicPackets.ControlFramesArrive | tasks/quic-stream-multiplexer-engine/environment/src/quic_engine.cpp:41-50 | the control frames one engine generates are accepted by another, which dispatches exactly the MAX_DATA frames that were pending, in order, if their limits are below 2^62 |
| QuicOpenFrames.OpenParses | tasks/quic-stream-multiplexer-engine/environment/src/quic_frame.cpp:33-50 | a STREAM frame without a length parses back to itself, its data being all that is left of the buffer |
| QuicOpenFrames.OpenTakesAll | tasks/quic-stream-multiplexer-engine/environment/src/quic_frame.cpp:33-50 | whatever is accepted without a length reaches to the end of the buffer, and the buffer is its encoding |
| QuicOpenFrames.OpenCutIsShorter | tasks/quic-stream-multiplexer-engine/environment/src/quic_frame.cpp:39-50 | a cut inside the data of such a frame is not noticed: it parses as the frame with less data |
| QuicOpenFrames.OpenPacketDispatches | tasks/quic-stream-multiplexer-engine/environment/src/quic_engine.cpp:19-39 | a packet of length-bearing frames that ends in a frame without a length dispatches exactly these frames |
| QuicOpenFrames.ShortSamples | tasks/quic-stream-multiplexer-engine/environment/src/quic_varint.cpp:39-50 | the one-, two- and four-byte samples of appendix A.1 of RFC 9000 decode to their values |
| RaftStorage.MemoryStorage.GetTerm | tasks/raft-distributed-consensus-engine/environment/src/raft_storage.cpp:38-45 | the term at an index by the offset from the snapshot, zero outside |
| RaftStorage.MemoryStorage.Append | tasks/raft-distributed-consensus-engine/environment/src/raft_storage.cpp:47-52 | the entries go after the last one |
| RaftStorage.MemoryStorage.Truncate | tasks/raft-distributed-consensus-engine/environment/src/raft_storage.cpp:54-61 | everything from the index on goes, but never the snapshot |
| RaftStorage.MemoryStorage.GetEntries | tasks/raft-distributed-consensus-engine/environment/src/raft_storage.cpp:63-72 | the slice of the log from the index on, cut to the size asked for |
| RaftStorage.MemoryStorage.ApplySnapshot | tasks/raft-distributed-consensus-engine/environment/src/raft_storage.cpp:74-84 | the log starts anew at the snapshot |
| RaftStorage.LogIsMap | tasks/raft-distributed-consensus-engine/environment/src/raft_storage.cpp:28-45 | last index, last term and every term agree with the map from index to entry |
| RaftStorage.AppendAligned | tasks/raft-distributed-consensus-engine/environment/src/raft_storage.cpp:47-52 | appending keeps every entry at its own index if and only if the entries go on from the last index |
| RaftStorage.AppendExtendsMap | tasks/raft-distributed-consensus-engine/environment/src/raft_storage.cpp:47-52 | and then adds exactly these entries to the map |
| RaftStorage.TruncateCutsMap | tasks/raft-distributed-consensus-engine/environment/src/raft_storage.cpp:54-61 | truncating removes exactly the entries from the index on |
| RaftStorage.SliceReadsMap | tasks/raft-distributed-consensus-engine/environment/src/raft_storage.cpp:63-72 | a slice is the run of the map from the index on, ending at the size asked for or at the last entry |
| RaftStorage.MemoryStorage.constructor | tasks/raft-distributed-consensus-engine/environment/src/raft_storage.cpp:5-10 | an empty log with its dummy entry, term zero, no vote and no snapshot |
| RaftStorage.MemoryStorage.SaveHardState | tasks/raft-distributed-consensus-engine/environment/src/raft_storage.cpp:22-26 | term and vote are replaced, the log stays |
| RaftCluster.RaftNode.HandleRequestVote | tasks/raft-distributed-consensus-engine/environment/src/raft_node.cpp:58-90 | the node and the reply that the voting rule gives |
| RaftCluster.RaftNode.HandleAppendEntries | tasks/raft-distributed-consensus-engine/environment/src/raft_node.cpp:92-128 | the node and the reply that the append rule gives, with the term from before the message in the reply |
| RaftCluster.RaftNode.HandleInstallSnapshot | tasks/raft-distributed-consensus-engine/environment/src/raft_node.cpp:130-149 | the node and the reply that the snapshot rule gives |
| RaftCluster.RaftNode.StartElection | tasks/raft-distributed-consensus-engine/environment/src/raft_node.cpp:37-56 | the node stands in a new term with its own vote and every reachable peer answers in turn |
| RaftCluster.RaftNode.HandleTick | tasks/raft-distributed-consensus-engine/environment/src/raft_node.cpp:20-35 | a timer counts up, and starts an election or a heartbeat when it is due |
| RaftCluster.RaftNode.Propose | tasks/raft-distributed-consensus-engine/environment/src/raft_node.cpp:151-165 | only a leader appends, with its term and the next index, and then sends to its peers |
| RaftCluster.RaftCluster.SetPartition | tasks/raft-distributed-consensus-engine/environment/src/raft_cluster.cpp:10-18 | blocks exactly the links between the two groups, both ways |
| RaftCluster.RaftCluster.SendRequestVote | tasks/raft-distributed-consensus-engine/environment/src/raft_cluster.cpp:29-40 | a blocked or unknown target changes nothing; otherwise only the target changes, by its handler |
| RaftCluster.RaftCluster.TickAll | tasks/raft-distributed-consensus-engine/environment/src/raft_cluster.cpp:68-79 | every node ticks once, in some order, with all messages delivered at once |
| RaftCluster.RaftNode.constructor | tasks/raft-distributed-consensus-engine/environment/src/raft_node.cpp:7-8 | a follower with no votes and its storage as given |
| RaftCluster.RaftNode.StepDown | tasks/raft-distributed-consensus-engine/environment/src/raft_node.cpp:14-18 | a follower of the term, without a vote |
| RaftCluster.RaftNode.BroadcastHeartbeats | tasks/raft-distributed-consensus-engine/environment/src/raft_node.cpp:167-180 | every reachable peer handles the same heartbeat in turn |
| RaftCluster.RaftCluster.AddNode | tasks/raft-distributed-consensus-engine/environment/src/raft_cluster.cpp:5-8 | the node is known under its id, in place of an earlier one if there was one, and nothing else changes |
| RaftCluster.RaftCluster.ClearPartitions | tasks/raft-distributed-consensus-engine/environment/src/raft_cluster.cpp:20-23 | no link is blocked any more |
| RaftCluster.RaftCluster.SendAppendEntries | tasks/raft-distributed-consensus-engine/environment/src/raft_cluster.cpp:42-53 | a blocked or unknown target changes nothing; otherwise only the target changes, by its handler |
| RaftCluster.RaftCluster.SendInstallSnapshot | tasks/raft-distributed-consensus-engine/environment/src/raft_cluster.cpp:55-66 | the same for snapshots |
| RaftAnswers.VoteIffDeserved | tasks/raft-distributed-consensus-engine/environment/src/raft_node.cpp:58-90 | a vote is given if and only if the request's term is not old, no other vote stands in that term, and its last term and index are lexicographically at least the voter's; and what becomes of term, vote, role, timer and log |
| RaftAnswers.AppendIffAccepted | tasks/raft-distributed-consensus-engine/environment/src/raft_node.cpp:92-128 | an AppendEntries succeeds if and only if its term is not old and its previous entry is in the log; the reply, and what becomes of term, vote, role and timer |
| RaftAnswers.AcceptedEntries | tasks/raft-distributed-consensus-engine/environment/src/raft_node.cpp:115-118 | an accepted message at or above the snapshot leaves the log up to its previous entry followed by exactly its own entries |
| RaftAnswers.CommitAfterAppend | tasks/raft-distributed-consensus-engine/environment/src/raft_node.cpp:120-122 | the commit index becomes min(leader_commit, last index) when the leader's is larger, and stays otherwise |
| RaftAnswers.CommitDecreasesIff | tasks/raft-distributed-consensus-engine/environment/src/raft_node.cpp:115-122 | the commit index decreases if and only if an accepted message with a larger leader commit cuts the log below it, so it is not monotonic as the Raft paper has it |
| RaftAnswers.CommitBeyondLogIff | tasks/raft-distributed-consensus-engine/environment/src/raft_node.cpp:115-122 | after an accepted message the commit index lies beyond the log if and only if it was not raised and lay beyond the new end before |
| RaftAnswers.CommitCanDecrease | tasks/raft-distributed-consensus-engine/environment/src/raft_node.cpp:115-122 | a concrete message that takes the commit index from five to one |
| RaftAnswers.SnapshotIffCurrent | tasks/raft-distributed-consensus-engine/environment/src/raft_node.cpp:130-149 | a snapshot of a current term replaces the log and raises the commit and applied indices, a stale one changes nothing; replies carry the term from before |
| RaftAnswers.TickIff | tasks/raft-distributed-consensus-engine/environment/src/raft_node.cpp:20-35 | the fifteenth tick in a row starts an election, a leader's fifth sends heartbeats, and other ticks are only counted |
| RaftAnswers.PartedIsSilent | tasks/raft-distributed-consensus-engine/environment/src/raft_cluster.cpp:10-66 | once two groups are parted, messages between them change nothing |
| RaftElection.FaithfulUnlessForgotten | tasks/raft-distributed-consensus-engine/environment/src/raft_node.cpp:58-128 | a node that remembers its votes still does after any message if and only if that is not an AppendEntries of its own term while it is a candidate |
| RaftElection.SecondVoteIffForgotten | tasks/raft-distributed-consensus-engine/environment/src/raft_node.cpp:103-105 | after a message some further message gets a second vote of the same term if and only if the message is such an AppendEntries |
| RaftElection.OneVotePerTerm | tasks/raft-distributed-consensus-engine/environment/src/raft_node.cpp:14-128 | a node that never gets one gives at most one vote in each term, for any messages in any order |
| RaftElection.TermsNeverDecrease | tasks/raft-distributed-consensus-engine/environment/src/raft_cluster.cpp:68-79 | in every run of ticks and partitions no node's term goes down |
| RaftElection.RunKeepsVotes | tasks/raft-distributed-consensus-engine/environment/src/raft_cluster.cpp:68-79 | in every such run no node is leader, and each remembers the only vote of its term |
| RaftElection.OneMajorityPerTerm | tasks/raft-distributed-consensus-engine/environment/src/raft_cluster.cpp:68-79 | in every such run of any cluster no two candidates both have a majority of one term |
| RaftElection.TermNeverDecreases | tasks/raft-distributed-consensus-engine/environment/src/raft_node.cpp:14-149 | no message and no timer lowers a node's term |
| RaftElection.ForgottenVoteIsGivenAgain | tasks/raft-distributed-consensus-engine/environment/src/raft_node.cpp:58-105 | a vote forgotten that way is given again to any other candidate whose log is up to date |
| RaftElection.NewNodeVotesTwice | tasks/raft-distributed-consensus-engine/environment/src/raft_node.cpp:20-105 | fifteen ticks, an AppendEntries of term 1 and a vote request make a new node vote twice in term 1 |
| RaftVoting.VotesOfTheDeserved | tasks/raft-distributed-consensus-engine/environment/src/raft_node.cpp:51-55 | a round of vote requests gets the votes of exactly the peers that it reaches and whose vote it deserves |
| RaftVoting.ElectionVotes | tasks/raft-distributed-consensus-engine/environment/src/raft_node.cpp:37-56 | an election gives its candidate its own vote and those of exactly the reachable peers whose vote it deserves with the log it has |
| RaftVoting.CandidateStands | tasks/raft-distributed-consensus-engine/environment/src/raft_node.cpp:37-42 | the candidate is in the next term with its own vote, and nodes that are no peers of it are as before |
| RaftVoting.ProposalIsLogged | tasks/raft-distributed-consensus-engine/environment/src/raft_node.cpp:151-180 | a leader's proposal goes to the next index of its own log, and every reachable peer handles a heartbeat that names it as the previous entry |
| RaftVoting.SupportersAreNotAhead | tasks/raft-distributed-consensus-engine/environment/src/raft_cluster.cpp:68-79 | in every run of elections, among nodes that start with any logs at all, a candidate's log is at least as up to date as that of each of its supporters |
| RaftVoting.WinnerIsNotBehind | tasks/raft-distributed-consensus-engine/environment/src/raft_cluster.cpp:68-79 | so the log of a candidate with a majority never ends before an entry that a majority holds |
| RaftLogs.StoredAligned | tasks/raft-distributed-consensus-engine/environment/src/raft_node.cpp:110-118 | an accepted AppendEntries keeps the log aligned if and only if it has no entries or starts at or above the snapshot |
| RaftLogs.BelowSnapshotIsAccepted | tasks/raft-distributed-consensus-engine/environment/src/raft_node.cpp:110-115 | below the snapshot a message passes the check exactly when its previous term is zero |
| RaftLogs.FirstEntryAfterSnapshot | tasks/raft-distributed-consensus-engine/environment/src/raft_node.cpp:110-118 | a concrete message that passes the check and misplaces an entry |
| RaftLogs.AcceptedIsPrefix | tasks/raft-distributed-consensus-engine/environment/src/raft_node.cpp:110-118 | a receiver that accepts entries ends up with a prefix of the sender's log |
| RaftLogs.ProposeKeeps | tasks/raft-distributed-consensus-engine/environment/src/raft_node.cpp:151-162 | a proposer's new entry clashes with no log, as its own holds every entry of its term |
| RaftLogs.ActionKeepsInv | tasks/raft-distributed-consensus-engine/environment/src/raft_node.cpp:14-165 | every vote, timer, proposal, sending and delivery, lost, repeated or reordered, keeps Log Matching over all logs ever held |
| RaftLogs.LogMatching | tasks/raft-distributed-consensus-engine/environment/src/raft_node.cpp:92-165 | in every run with one proposer per term, two stored logs with an entry of the same index and term agree on all earlier entries both hold and with each other's snapshot |
| RaftLogs.WinKeeps | tasks/raft-distributed-consensus-engine/environment/src/raft_node.cpp:151-165 | a term without a proposer has no entries anywhere, so its first leader starts in order |
| RaftLogs.DeliverAppendKeeps | tasks/raft-distributed-consensus-engine/environment/src/raft_node.cpp:92-128 | delivering an AppendEntries keeps Log Matching, whether it is accepted or refused |
| RaftLogs.DeliverSnapshotKeeps | tasks/raft-distributed-consensus-engine/environment/src/raft_node.cpp:130-149 | delivering a snapshot keeps Log Matching with what the snapshot stands for |
| HazardMachine.StepKeepsInv | tasks/lockfree-memory-allocator-hazard/environment/src/hazard_pointer.cpp:15-56 | every atomic load, store and compare-and-swap of any thread keeps ownership, retired lists and scan progress consistent |
| HazardMachine.RunKeepsInv | tasks/lockfree-memory-allocator-hazard/environment/src/hazard_pointer.cpp:15-56 | so the invariant holds in every interleaving, for any number of threads and records |
| HazardMachine.RetireReclaims | tasks/lockfree-memory-allocator-hazard/environment/src/hazard_pointer.cpp:32-37 | Retire starts a Reclaim exactly when the list has reached thirty-two pointers |
| HazardScan.HeldIsSafe | tasks/lockfree-memory-allocator-hazard/environment/src/hazard_pointer.cpp:39-56 | while a record holds a retired pointer and no scan for it is beyond the record, no step of any thread frees it and no step takes the scan past the record |
| HazardScan.NeverFreedIfTakenInTime | tasks/lockfree-memory-allocator-hazard/environment/src/hazard_pointer.cpp:39-56 | in every interleaving a pointer is not freed that a record has held since any moment at which no scan for it had passed the record, also one after its retirement |
| HazardScan.FreedIffNoneLeftHolds | tasks/lockfree-memory-allocator-hazard/environment/src/hazard_pointer.cpp:42-50 | at any moment of any interleaving, the rest of a scan, left alone, frees its pointer if and only if no record that it has still to look at holds it |
| HazardScan.ScanFinds | tasks/lockfree-memory-allocator-hazard/environment/src/hazard_pointer.cpp:42-50 | the same from any state, also for the null pointer and for a flag read before the record was released |
| HazardScan.RunReleasesEmpty | tasks/lockfree-memory-allocator-hazard/environment/src/hazard_pointer.cpp:25-30 | in every interleaving a record that is not active holds no pointer |
| HazardPointers.OwnersAreExclusive | tasks/lockfree-memory-allocator-hazard/environment/src/hazard_pointer.cpp:15-30 | in every interleaving no two threads own the same record, and an owned record is active |
| HazardPointers.GuardsIfHeldThroughout | tasks/lockfree-memory-allocator-hazard/environment/src/hazard_pointer.cpp:15-37 | a record counts as a guard of a retired pointer if and only if it has held it at every moment since before the retirement |
| HazardPointers.NeverFreedWhileHeld | tasks/lockfree-memory-allocator-hazard/environment/src/hazard_pointer.cpp:39-56 | in every interleaving a pointer is not freed that some record has held since before it was retired |
| HazardPointers.ExactlyOnePlace | tasks/lockfree-memory-allocator-hazard/environment/src/hazard_pointer.cpp:32-56 | each retirement is at every moment at one position of one thread's list, or freed once |
| HazardPointers.ProtectedTooLate | tasks/lockfree-memory-allocator-hazard/environment/src/hazard_pointer.cpp:39-50 | a concrete interleaving in which a pointer first protected after the scan has passed the record is freed while the record holds it |
| HazardPointers.ReclaimIsWaitFree | tasks/lockfree-memory-allocator-hazard/environment/src/hazard_pointer.cpp:39-56 | in any sequence of actions of all threads from the start of a Reclaim, it ends before its thread has been given more steps than a bound fixed at its start |
| HazardPointers.StepsAreCounted | tasks/lockfree-memory-allocator-hazard/environment/src/hazard_pointer.cpp:39-56 | as long as it has not ended, the steps its thread has been given and those it has left are together within that bound |
| HazardPointers.BudgetIs | tasks/lockfree-memory-allocator-hazard/environment/src/hazard_pointer.cpp:41-48 | the bound is 2 n + 1 steps for each retired pointer and one more, with n records |
| HazardPointers.FreeHasNoGuards | tasks/lockfree-memory-allocator-hazard/environment/src/hazard_pointer.cpp:47-50 | a step that frees frees one entry, which no record guards at that moment |
| HazardDomain.HazardPointerDomain.Acquire | tasks/lockfree-memory-allocator-hazard/environment/src/hazard_pointer.cpp:15-23 | the first inactive record, which becomes active, or none when all are in use |
| HazardDomain.HazardPointerDomain.Release | tasks/lockfree-memory-allocator-hazard/environment/src/hazard_pointer.cpp:25-30 | the record ends cleared and inactive, the others as they were |
| HazardDomain.HazardPointerDomain.Reclaim | tasks/lockfree-memory-allocator-hazard/environment/src/hazard_pointer.cpp:39-56 | keeps exactly the hazardous pointers and frees exactly the others, in order |
| HazardDomain.HazardPointerDomain.Retire | tasks/lockfree-memory-allocator-hazard/environment/src/hazard_pointer.cpp:32-37 | adds the pointer, and reclaims from 32 pointers on |
| HazardDomain.SelectSplits | tasks/lockfree-memory-allocator-hazard/environment/src/hazard_pointer.cpp:39-56 | every retired pointer is kept or freed, as often as it was retired |
| HazardDomain.AloneIsReclaim | tasks/lockfree-memory-allocator-hazard/environment/src/hazard_pointer.cpp:39-56 | in every reachable state of the interleaved machine, a thread left alone ends Reclaim with the lists the method computes |
| HazardDomain.HazardPointerDomain.constructor | tasks/lockfree-memory-allocator-hazard/environment/src/hazard_pointer.cpp:8 | all records inactive and empty, nothing retired |
| HazardDomain.HazardPointerDomain.Scan | tasks/lockfree-memory-allocator-hazard/environment/src/hazard_pointer.cpp:43-48 | true exactly when an active record holds the pointer |
| EscrowLedger.Ledger.ExpireStaleHolds | tasks/idempotent-ledger-escrow-api/solution/solve.sh:87-89 | exactly the active holds whose time has come become expired |
| EscrowLedger.Ledger.GetAccountBalances | tasks/idempotent-ledger-escrow-api/solution/solve.sh:91-100 | the account and its balance less its live holds, with stale holds expired even when there is no account |
| EscrowLedger.Ledger.CreateAccountRow | tasks/idempotent-ledger-escrow-api/solution/solve.sh:103-118 | a new account with its two initial rows, or an error and no change when the id exists |
| EscrowLedger.Ledger.ReadAccount | tasks/idempotent-ledger-escrow-api/solution/solve.sh:121-128 | the account and its available balance, or not found |
| EscrowLedger.Ledger.MakeTransfer | tasks/idempotent-ledger-escrow-api/solution/solve.sh:131-169 | replay, refusal or execution of a transfer, with the key stored on success only |
| EscrowLedger.Ledger.PlaceHold | tasks/idempotent-ledger-escrow-api/solution/solve.sh:172-186 | a hold within the available balance, or the refusal that the source gives |
| EscrowLedger.Ledger.Capture | tasks/idempotent-ledger-escrow-api/solution/solve.sh:189-213 | the capture of an active hold, also to an account that does not exist, or the refusal |
| EscrowLedger.Ledger.Void | tasks/idempotent-ledger-escrow-api/solution/solve.sh:216-224 | an active hold becomes voided, or the request is refused |
| EscrowLedger.Ledger.SumHolds | tasks/idempotent-ledger-escrow-api/solution/solve.sh:97-98 | the sum of the account's active holds that have not run out |
| EscrowLedger.Ledger.AddToBalance | tasks/idempotent-ledger-escrow-api/solution/solve.sh:154-155 | an UPDATE of one balance, which does nothing when the account does not exist |
| EscrowLedger.Ledger.Post | tasks/idempotent-ledger-escrow-api/solution/solve.sh:157-160 | one transaction with a debit and a credit row of the same amount |
| EscrowSafety.LedgerBalances | tasks/idempotent-ledger-escrow-api/solution/solve.sh:87-224 | after any requests each transaction's rows sum to zero, each balance is its opening balance plus the rows since, and all accounts together hold what they were opened with, less what was captured to accounts that did not exist |
| EscrowSafety.ConservedIffDestinationExists | tasks/idempotent-ledger-escrow-api/solution/solve.sh:189-205 | a request conserves money, apart from what a new account brings, if and only if it is not a capture of a live hold, for an allowed amount, whose destination has no account: a condition on the tables before it |
| EscrowSafety.RunConservesIff | tasks/idempotent-ledger-escrow-api/solution/solve.sh:87-224 | after a run the accounts hold together what they were opened with if and only if no request of the run was such a capture when it was made |
| EscrowSafety.CaptureForUnknownLoses | tasks/idempotent-ledger-escrow-api/solution/solve.sh:189-213 | three requests that open an account, put its money on hold and capture it for an unknown account: no money is left |
| EscrowSafety.SolventIffNotOverdrawn | tasks/idempotent-ledger-escrow-api/solution/solve.sh:103-118 | a request keeps all live holds covered if and only if it does not ask for a new account with a negative balance: a condition on the tables before it |
| EscrowSafety.HoldsAreCovered | tasks/idempotent-ledger-escrow-api/solution/solve.sh:87-224 | when no account is opened below zero and the clock does not run backwards, each account's live holds are covered by its balance at the last request and ever after |
| EscrowSafety.AlwaysCoveredIff | tasks/idempotent-ledger-escrow-api/solution/solve.sh:87-224 | all holds are covered after every request of a run if and only if no request of it asks for an account with a negative balance under an id that none before it asked for: a condition on the requests alone |
| EscrowSafety.AccountsAreCreated | tasks/idempotent-ledger-escrow-api/solution/solve.sh:103-118 | at any moment of a run an account exists if and only if some earlier request asked to create it |
| EscrowSafety.OpenedBelowZeroIsUncovered | tasks/idempotent-ledger-escrow-api/solution/solve.sh:103-118 | one request that opens an account below zero leaves it uncovered |
| EscrowSafety.RetryIsAnswered | tasks/idempotent-ledger-escrow-api/solution/solve.sh:136-142 | after a success a transfer with its key and tenant gets the stored reply when the body is the same and is refused otherwise |
| EscrowSafety.AtMostOnce | tasks/idempotent-ledger-escrow-api/solution/solve.sh:136-169 | each key of a tenant moves money at most once |
| EscrowSafety.RetriesLeaveNoTrace | tasks/idempotent-ledger-escrow-api/solution/solve.sh:131-169 | any request sequence leaves the tables of the same sequence without the transfers that follow a success with their key and tenant |
| EscrowSafety.Effect | tasks/idempotent-ledger-escrow-api/solution/solve.sh:87-224 | accounts and ledger rows change only by a new account, an executed transfer or a capture, and how |
| EscrowSafety.TimeFreesHolds | tasks/idempotent-ledger-escrow-api/solution/solve.sh:87-100 | as time goes by live holds only run out, so what is covered stays covered |
| EscrowAnswers.OnHoldIsSum | tasks/idempotent-ledger-escrow-api/solution/solve.sh:97-98 | what the SUM query gives is the sum, hold by hold, over the account's active holds that have not run out |
| EscrowAnswers.CreateIffNew | tasks/idempotent-ledger-escrow-api/solution/solve.sh:103-118 | an account is opened under the id asked for, or a made-up one, unless it is taken, with the balance asked for and its initial rows |
| EscrowAnswers.AccountIsDescribed | tasks/idempotent-ledger-escrow-api/solution/solve.sh:121-128 | GetAccount answers the account and its balance less the live holds, and moves nothing |
| EscrowAnswers.TransferIffCovered | tasks/idempotent-ledger-escrow-api/solution/solve.sh:144-152 | a transfer that is no replay succeeds if and only if both accounts exist and its amount is positive and at most the balance less the live holds |
| EscrowAnswers.TransferPays | tasks/idempotent-ledger-escrow-api/solution/solve.sh:154-160 | a transfer that succeeds takes the amount from its source, gives it to its target, and writes one transaction with two rows |
| EscrowAnswers.AvailableCanBeSpent | tasks/idempotent-ledger-escrow-api/solution/solve.sh:91-152 | the number that GetAccount answers is exactly the largest amount that a transfer can move at that moment |
| EscrowAnswers.HoldIffCovered | tasks/idempotent-ledger-escrow-api/solution/solve.sh:172-186 | a hold is placed if and only if its amount is positive and at most the balance less the live holds, and its id is new |
| EscrowAnswers.VoidIff | tasks/idempotent-ledger-escrow-api/solution/solve.sh:216-224 | a void succeeds if and only if the hold exists, is active and has not run out; it is then voided, and its amount is free again on its own account and no other |
| EscrowAnswers.CaptureIff | tasks/idempotent-ledger-escrow-api/solution/solve.sh:189-201 | a capture succeeds if and only if the hold exists, is active and has not run out and the amount is positive and at most the hold's; which refusal it gets otherwise |
| EscrowAnswers.CapturePays | tasks/idempotent-ledger-escrow-api/solution/solve.sh:203-213 | a capture that succeeds settles the hold, frees it, and pays the amount |
| EscrowAnswers.OtherHoldsOnlyExpire | tasks/idempotent-ledger-escrow-api/solution/solve.sh:87-89 | no request changes a hold it is not about, except that active ones whose time has come become expired |
| EscrowAnswers.SettledOnce | tasks/idempotent-ledger-escrow-api/solution/solve.sh:189-224 | in every run a hold is captured or voided at most once: after that each capture and void of it is answered 409 |
| EscrowAnswers.StoredIffSucceeded | tasks/idempotent-ledger-escrow-api/solution/solve.sh:136-169 | a key of a tenant is stored if and only if a transfer with both has succeeded |
| EscrowAnswers.FirstUseIsExecuted | tasks/idempotent-ledger-escrow-api/solution/solve.sh:136-169 | a transfer without a key, or whose key no earlier success of its tenant has used, is decided by what its source can spend |
| RateLimiter.RateLimiter.AllowPacket | tasks/ebpf-xdp-stateful-firewall/environment/src/rate_limiter.cpp:9-28 | only the packet's own bucket changes: refilled, and charged if the packet is allowed |
| RateLimiter.WindowIsPaid | tasks/ebpf-xdp-stateful-firewall/environment/src/rate_limiter.cpp:9-28 | the cost admitted in any window of one subnet's packets is at most the burst plus what the rate earns over the window |
| RateLimiter.NeverDroppedIffWindowsFit | tasks/ebpf-xdp-stateful-firewall/environment/src/rate_limiter.cpp:9-28 | one subnet's packets are never dropped if and only if the cost of every window fits that bound |
| RateLimiter.AdmittedWithinLimits | tasks/ebpf-xdp-stateful-firewall/environment/src/rate_limiter.cpp:9-28 | the same bound in traffic of any subnets mixed |
| RateLimiter.AllAllowedIffWindowsFit | tasks/ebpf-xdp-stateful-firewall/environment/src/rate_limiter.cpp:9-28 | the same equivalence in traffic of any subnets mixed |
| RateLimiter.SubnetsAreIndependent | tasks/ebpf-xdp-stateful-firewall/environment/src/rate_limiter.cpp:11 | a subnet's bucket depends on its own packets only |
| RateLimiter.PaidIffClockHasStarted | tasks/ebpf-xdp-stateful-firewall/environment/src/rate_limiter.cpp:12-16 | for every first timestamp and any limits that are not negative: all windows of all ordered traffic that begins there are paid if and only if the timestamp is not zero or there is no burst |
| RateLimiter.WithinLimitsIffClockHasStarted | tasks/ebpf-xdp-stateful-firewall/environment/src/rate_limiter.cpp:9-28 | the same equivalence for one subnet in traffic of any subnets mixed |
| RateLimiter.ZeroTimestampRefills | tasks/ebpf-xdp-stateful-firewall/environment/src/rate_limiter.cpp:12-16 | two packets at time zero get a full burst each, as the bucket is taken for new each time: the failing half of the equivalence |
| RateLimiter.RateLimiter.constructor | tasks/ebpf-xdp-stateful-firewall/environment/src/rate_limiter.cpp:6-7 | the limits as given and no buckets |
| RateLimiter.TightWindow | tasks/ebpf-xdp-stateful-firewall/environment/src/rate_limiter.cpp:9-28 | while all windows fit, some window accounts for the tokens left exactly |
| RateLimiter.EarnedPerSecond | tasks/ebpf-xdp-stateful-firewall/environment/src/rate_limiter.cpp:18-19 | over whole seconds of 10^9 nanoseconds the earnings are that many times the rate |
| RateLimiter.BackwardsEarns | tasks/ebpf-xdp-stateful-firewall/environment/src/rate_limiter.cpp:18-19 | when a timestamp goes back the bucket earns for the rest of the 64-bit range of nanoseconds |
| RateLimiter.BackwardsRefillsIff | tasks/ebpf-xdp-stateful-firewall/environment/src/rate_limiter.cpp:9-28 | a subnet that spends its burst and goes back in time can spend it again at once if and only if the rate earns it over that range |
| MvccChains.VacuumKeepsVisible | tasks/mvcc-btree-wal-recovery/solution/solve.sh:126-146 | vacuuming changes nothing a transaction sees of any chain, if it reads at global_ts - 1 or later |
| MvccChains.VacuumIsSafeIff | tasks/mvcc-btree-wal-recovery/solution/solve.sh:126-146 | vacuuming is invisible to a transaction for all chains if and only if it reads at global_ts - 1 or later |
| MvccChains.VacuumsAreInvisible | tasks/mvcc-btree-wal-recovery/solution/solve.sh:126-177 | in any run of writes and vacuums a lookup finds what it finds with the vacuums left out |
| MvccChains.VacuumsDoNotChangeScans | tasks/mvcc-btree-wal-recovery/solution/solve.sh:126-209 | and so does a scan |
| MvccChains.SameScan | tasks/mvcc-btree-wal-recovery/solution/solve.sh:193-209 | what Get finds determines what Scan returns |
| MvccChains.WriteIsSeen | tasks/mvcc-btree-wal-recovery/solution/solve.sh:148-191 | a write shows to its own transaction and to those that read at or after its stamp, and hides nothing from the others |
| MvccChains.VacuumedIsPrefix | tasks/mvcc-btree-wal-recovery/solution/solve.sh:126-146 | a vacuum leaves a prefix of each chain |
| MvccChains.VacuumTwice | tasks/mvcc-btree-wal-recovery/solution/solve.sh:126-146 | a second vacuum at the same timestamp finds nothing more to remove |
| MvccSnapshots.UncommittedIsUnseen | tasks/mvcc-btree-wal-recovery/solution/solve.sh:148-191 | a write made without a commit timestamp changes no other transaction's lookup |
| MvccSnapshots.UncommittedIsNotScanned | tasks/mvcc-btree-wal-recovery/solution/solve.sh:148-209 | and no other transaction's scan |
| MvccSnapshots.SeenIffCommitted | tasks/mvcc-btree-wal-recovery/solution/solve.sh:148-177 | another transaction finds a written value that it did not find before if and only if the write was stamped with a commit timestamp that it reads at or after |
| MvccSnapshots.ReadsLastShown | tasks/mvcc-btree-wal-recovery/solution/solve.sh:126-191 | in every run of writes and vacuums a lookup gives the last write of the key that is the reader's own or was stamped at or before its read timestamp, and nothing if there is none |
| MvccSnapshots.UncommittedLeavesNoTrace | tasks/mvcc-btree-wal-recovery/solution/solve.sh:126-191 | so other transactions' unstamped writes can be left out of any run without a reader noticing, whatever the vacuums |
| MvccSnapshots.UncommittedLeavesScans | tasks/mvcc-btree-wal-recovery/solution/solve.sh:126-209 | nor does it show in scans |
| MvccSnapshots.VacuumRemovesExactly | tasks/mvcc-btree-wal-recovery/solution/solve.sh:126-146 | a vacuum removes a version if and only if it comes after one that is below the horizon and has an older one, or is such a one itself and a deletion |
| MvccSnapshots.VacuumLeavesOneOld | tasks/mvcc-btree-wal-recovery/solution/solve.sh:126-146 | after a vacuum only the oldest version of a chain can be below the horizon |
| MvccEngine.StorageEngine.BeginTransaction | tasks/mvcc-btree-wal-recovery/solution/solve.sh:35-39 | a new transaction id and the current global timestamp |
| MvccEngine.StorageEngine.Put | tasks/mvcc-btree-wal-recovery/solution/solve.sh:148-161 | a value version goes in front of the key's chain |
| MvccEngine.StorageEngine.Delete | tasks/mvcc-btree-wal-recovery/solution/solve.sh:179-191 | a deletion goes in front of the key's chain |
| MvccEngine.StorageEngine.Get | tasks/mvcc-btree-wal-recovery/solution/solve.sh:163-177 | the value of the first version the transaction sees, unless that is a deletion |
| MvccEngine.StorageEngine.Scan | tasks/mvcc-btree-wal-recovery/solution/solve.sh:193-209 | exactly the keys in range for which Get finds a value, in key order, with these values |
| MvccEngine.StorageEngine.VacuumChain | tasks/mvcc-btree-wal-recovery/solution/solve.sh:129-145 | relinks one chain in place, cutting it where the rule says |
| MvccEngine.StorageEngine.Vacuum | tasks/mvcc-btree-wal-recovery/solution/solve.sh:126-146 | relinks every chain in place; keys stay |
| MvccEngine.StorageEngine.constructor | tasks/mvcc-btree-wal-recovery/solution/solve.sh:18-19 | an empty index, timestamp 1 and transaction id 1 |
| MvccEngine.StorageEngine.CutAfter | tasks/mvcc-btree-wal-recovery/solution/solve.sh:137-138 | unlinking one record cuts its own chain there and no other |
| MvccEngine.StorageEngine.Walk | tasks/mvcc-btree-wal-recovery/solution/solve.sh:168-175 | the walk along a chain finds what its first visible version says |
| ParquetBits.FieldAt | tasks/simd-parquet-columnar-decoder/environment/src/bit_unpack.cpp:14-16 | shifting and masking gives each field of a packed number back, whatever is above the fields |
| ParquetUnpack.Unpack8 | tasks/simd-parquet-columnar-decoder/environment/src/bit_unpack.cpp:6-17 | the eight fields of the first bytes, in place at the span; nothing else changes, and nothing at all when an argument is degenerate |
| ParquetUnpack.UnpackGroup | tasks/simd-parquet-columnar-decoder/environment/src/bit_unpack.cpp:6-17 | unpacking gives a packed group back, whatever bytes come after it |
| ParquetUnpack.Unpack32 | tasks/simd-parquet-columnar-decoder/environment/src/bit_unpack.cpp:19-26 | four groups, each from its own bytes, as far as the input reaches |
| ParquetUnpack.FourGroups | tasks/simd-parquet-columnar-decoder/environment/src/bit_unpack.cpp:19-26 | four packed groups in a row come out as their 32 values |
| ParquetHybrid.ReadHeader | tasks/simd-parquet-columnar-decoder/environment/src/bit_unpack.cpp:33-38 | the header that the bytes up to the first without continuation bit spell, cut to 32 bits, also when the input ends first |
| ParquetHybrid.DecodeRun | tasks/simd-parquet-columnar-decoder/environment/src/bit_unpack.cpp:30-61 | one run of any bytes leaves the output and the position that the specification of a run gives, wherever that is defined |
| ParquetHybrid.DecodeRLE | tasks/simd-parquet-columnar-decoder/environment/src/bit_unpack.cpp:28-63 | on every input, width and output on which the decoder stays within its buffers and the shifts the language defines, it terminates with what the specification of the whole input gives |
| ParquetHybrid.ReadValue | tasks/simd-parquet-columnar-decoder/environment/src/bit_unpack.cpp:42-46 | the value of a repeated run, from as many bytes as the width needs or as the input still has |
| ParquetHybrid.UnpackPacked | tasks/simd-parquet-columnar-decoder/environment/src/bit_unpack.cpp:51-60 | a bit-packed run leaves the output and the position that the specification of its groups gives, also when the input ends inside one |
| ParquetRuns.EncodedDecodes | tasks/simd-parquet-columnar-decoder/environment/src/bit_unpack.cpp:28-63 | any well-formed mix of repeated and bit-packed runs, with headers of any length up to five bytes, stays within the buffers and yields exactly its first total_vals values after what the output held, whatever bytes come after a sufficient encoding |
| ParquetRuns.FirstValues | tasks/simd-parquet-columnar-decoder/environment/src/bit_unpack.cpp:28-63 | decoded into an empty output, an encoding gives back the first total_vals of its values |
| ParquetRuns.HeaderReads | tasks/simd-parquet-columnar-decoder/environment/src/bit_unpack.cpp:33-38 | a LEB128 header is read back in any number of bytes that holds it |
| ParquetRuns.GroupsRead | tasks/simd-parquet-columnar-decoder/environment/src/bit_unpack.cpp:50-60 | packed groups come out in order, up to the total, and what follows them is left |
| ParquetRuns.RunReads | tasks/simd-parquet-columnar-decoder/environment/src/bit_unpack.cpp:30-61 | a run is read back as its values, and the next run is found where it begins |
| ParquetRuns.CutGroupReadsZeros | tasks/simd-parquet-columnar-decoder/environment/src/bit_unpack.cpp:6-17 | a bit-packed group that the end of the input cuts short reads as if zeros followed |

## Left out

- HTTP, FastAPI, pydantic's field checks, JSON, SQLite, UUIDs, clocks, sleeping and logging: requests are values, ids and times are arguments.
- The saga journal, and the rows a failed INSERT leaves: `create_saga` with a saga id that exists.
- Python's recursion limit in `has_cycle`.
- Atomicity of ledger handlers and of saga blocks: it is assumed, not proved of SQLite; so is that transaction ids do not repeat.
- Reconcile with its HMAC, and the near-duplicate ledger at the top level of the repository.
- Rounding of floating-point numbers, SIMD intrinsics, and gates other than H, X and CX, which `Run` ignores.
- QuantumKernels.ApplyGate2Q: one qubit named twice, qubits outside the register, for which the source writes past the amplitudes, and numbers of amplitudes other than the simulator's 2^n.
- QuantumCircuit.QuantumSimulator.AppendGate: gates that name a qubit outside the register or one qubit twice; the source stores them without a check.
- QuantumCircuit.QuantumSimulator.ApplyOne: the same gates.
- `OptimizeDAG`, measurement and sampling of the simulator.
- Locks and memory orders of the QUIC engine, Raft, the limiter and the storage engine.
- QUIC flow control on streams: MAX_STREAM_DATA is parsed and then ignored, as in the source; Ack and ResetStream frames are never parsed there.
- QuicEngine.QuicEngine.ProcessPacket: packets longer than 2^63 - 1 bytes, the largest object of a 64-bit process, because positions of their data could wrap around.
- QuicEngine.QuicEngine.Handle: STREAM frames with positions from 2^64 on, as for `QuicStream.StreamReassembler.PushFrame`; no packet of the modelled size parses to one.
- QuicStream.StreamReassembler.PushFrame: data at positions from 2^64 on, whose segment ends would wrap; section 19.8 of RFC 9000 forbids positions from 2^62 on.
- Raft: terms and indices are unbounded, so wrap-around at 2^64 is not modelled; a node without a cluster, pre-vote, joint consensus, leader commit and vote counting are not in the model or not in the source.
- RaftElection.RunKeepsVotes: an id is added once only in its runs, because a replaced storage forgets its votes; so it is in the other results over runs of `RaftElection`.
- RaftCluster.RaftCluster.AddNode: nodes that share a storage, that belong to another cluster or that list themselves as peers.
- RaftCluster.RaftNode.StartElection: a node without a cluster, which sends nothing, and one that lists itself as a peer, which locks its own mutex twice.
- RaftCluster.RaftNode.HandleTick: the same two kinds of nodes.
- RaftCluster.RaftNode.Propose: the same two kinds of nodes.
- RaftCluster.RaftNode.BroadcastHeartbeats: the same two kinds of nodes.
- RaftLogs.LogMatching: deliveries that `RaftLogs.StoredAligned` shows to misplace entries are excluded from its runs; snapshots are delivered as prefixes of their sender's log.
- HazardPointers.NeverFreedWhileHeld: threads release and write only records they own, and memory that is freed and allocated again counts as a new retirement.
- RateLimiter.WindowIsPaid: needs timestamps that do not go back, and costs, rate and burst that are not negative; that they are also positive is needed exactly as `RateLimiter.PaidIffClockHasStarted` says.
- Recovery, checkpoints, the write-ahead log and the write sets of transactions in the MVCC engine; `global_ts_` changes in recovery only, so it is constant here.
- ParquetUnpack.Unpack8: widths from 10 on, whose eighth field is shifted by 64 bits or more, which the language leaves undefined.
- ParquetUnpack.Unpack32: widths from 10 on, for the same reason.
- ParquetHybrid.DecodeRLE: inputs for which `ParquetHybrid.Decoded` is none, as the language leaves undefined what the source does there; likewise for the methods it calls.
- ParquetRuns.EncodedDecodes: packed groups of widths above 8, as eight such values have more than the 64 bits of the source's buffer, and repeated values of more than 32 bits.
- The other engines of the repository: TLS, WASM, OAuth, the B-tree stub, flash attention, the octree, the volume renderer, HNSW and connection tracking.
