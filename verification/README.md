# Private set intersection by class-group polynomial algebra: a verified model

This project models, in Dafny 4.11, the three layers of the repository and proves what each layer is for.

1. **Polynomial engine over Z_q** (`cg_rf_common.hpp`). The in-place iterative NTT with its bit-reversal swaps,
   butterfly stages and inverse scaling; schoolbook, Karatsuba and NTT multiplication behind one dispatcher;
   subproduct trees with remainder descent; interpolation up a tree; barycentric evaluation from factorial
   denominators; and the selectors that choose a strategy. Every route is proved to return the *same vector*, and
   that vector is defined independently: the canonical (reduced, trimmed) form of the exact integer polynomial
   product, of the exact vanishing polynomial, or of Lagrange's formula.
2. **Protocols on top of it**. PSI over OPA over OLE with the exactness theorem, the reveal step of two-way PSI, the
   masked-Horner reduction of OPE, key-mauling firewalls, and three-round OLE through both firewalls. Ciphertexts
   are pairs of elements of abstract commutative groups; all randomness is universally quantified. `PsiRuns`
   composes PSI with the exchanges that carry it.
3. **Concurrency and transport**. The worker pool's `parallel_for`, the four-process pipelines over bounded FIFO lanes
   (batched RF-OLE in two rounds, three-round OLE in four passes over shared sockets), and the lock-step direct
   exchange, as state machines with explicit steps. For every interleaving: invariants, no stuck state before the
   end, a strictly decreasing measure, and the final data; for the direct exchange, exactly when it completes at
   all. The integer codec with partial reads and writes is modelled beside them.

## How the model reads

- Polynomials are `seq<int>` coefficient vectors over the integers, constant term first (`Poly.dfy`). Identities are
  proved exactly, by evaluating both sides at every integer, and then reduced modulo q. `Norm` is the canonical
  vector; `NormUnique` says a residue class has only one.
- `Engine.Config` holds q, the base g and the tuning knobs the program reads from its environment. The comparison
  with the fixed 128-bit constant is replaced by a domain predicate: the NTT is on, and n is a power of two up to
  `2^maxLog`, which divides q - 1. `EngineOk` adds the two runtime checks of `ntt_primitive_root` on the largest
  domain, and that q is prime; `SmallEngine` shows an instance. The NTT method itself does not assume the checks: it
  returns an error exactly when they fail.
- Loops of the source are loops here; vectors the source fills in a loop are `seq` variables reassigned in the loop,
  and the transform works in place on an `array`. A thrown exception is `Results.Err`.
- What a contract promises is spelled out where a name could hide it: powers of the base, floors of lane positions,
  bytes of a word, draws of a stream, and the key, randomness and plaintext of each ciphertext on each link
  (`ClassGroup.Sealed`, `RfOle.OnLink`, `Ole3Runs.OnLink3`).
- `parallel_for` bodies that write one slot per index appear as `for` loops. `PoolRuns.PoolTheorem` is what justifies
  that: each index exactly once, and nothing still running afterwards.
- In the pipeline a `Station` is one process in one pass. Receiving or sending one item on one lane, computing a
  chunk, and moving to the next chunk are the steps; any station with an enabled step may take it. Every lane of
  every link has its own capacity. A process enters a pass only when its own part of all earlier passes is over, and
  passes of one direction share the sockets, so an item is sent only if everything queued there leaves room
  (`Phases.CanMove`, `Phases.RoomTheorem`). What a pass starts from is read from the buffers of the process it starts at.
- In the lock-step exchange the receiver's sending and reading halves are two stations whose gate is the receiver's
  program order.
- Groups are given by their operations and a membership test. `SchemeOk` states what is assumed of the class groups:
  commutative groups, a homomorphic lift, `f` of order q, and discrete logarithms in its subgroup.
  `SmallPlainOk` and `SmallCompactOk` show instances.

## Findings

- **Compact variant.** `make_enc_zero_pair` and the firewall loops leave `pk^s` in Cl_G, while encryption lifts it to
  Cl_Delta. A firewall hop keeps the plaintext if the lift fixes that element, and, whenever the element belongs to
  Cl_Delta at all, only then (`ForwardHop`, `InverseHop`; the same for the fused operations in `FusedForward` and
  `FusedInverse`). About an element outside Cl_Delta group laws say nothing, so there only the first half is stated.
  `CompactHopFails` is a compact scheme in which one hop changes the plaintext. No constructor of `CG_Scheme`
  (`third_party/cg_ahe/cg_ahe.hpp:53-81`) turns the compact variant on, and without it the lift fixes everything
  (`NotCompactTrivial`).
- **Forcing the NTT.** With `CG_POLY_EVAL_METHOD=ntt` the PSI receiver evaluates the reconstructed polynomial at its own
  elements. That succeeds if and only if its set is, in order, an NTT domain and the masked polynomial has no more
  coefficients than the set has elements (`ReconstructionExact`, and `RunPsi` for both parties in every mode). Since
  the masked polynomial has |S_A| + |S_B| + 1 coefficients unless the leading ones of the two masks cancel modulo q
  (`MaskedLead`), it fails on every set, NTT domain or not, for all other masks (`ForcedNttFails`).
- **Chunk sizes of direct OLE.** The lock-step exchange needs the receiver's chunks to end where chunks of the sender
  end: k >= n or j divides k, for k items per chunk at the receiver and j at the sender. It also needs room: wherever
  the sender pauses inside a receiver's chunk, either all answers up to there fit into their lanes or all items still
  to be sent fit into theirs. These two conditions are exact: a run completes if and only if both hold, and then
  every interleaving does (`DirectExact`, `DirectTheorem`, `DirectStalls`). Equal chunk sizes satisfy both at any
  capacity (`EqualChunksOk`); lanes that hold a whole chunk of the receiver always satisfy the second
  (`WideLanesOk`); chunks of 10 against chunks of 1 over a lane with room for one item violate it
  (`NarrowLaneFails`). The program compares chunk sizes only when lane validation is switched on.
- **Codec limits.** The sender refuses integers one bit earlier than the receiver would: those that fill the last
  allowed byte completely (`SenderStricter`).
- **Two-way PSI.** With an exact result on B's side, A's output is the intersection if and only if 0 is not in A, or 0
  is in B, or no slot is unused (`RevealExact`). For any masks, A's filter removes whatever only the mask let through,
  and B gives up exactly when the masks let more elements through than there are slots (`RunTwoWay`).

## Model

| member | source | states |
|---|---|---|
| `Engine.ChecksDown` | `cg_rf_common.hpp:599-637` | checks that pass on one domain pass on every smaller one, so no later stage of the transform throws |
| `Engine.TableIsRoots` | `cg_rf_common.hpp:599-637` | roots computed separately per stage are compatible: each is the square of the next, and the one of order 2 is -1; from the checks alone |
| `Engine.TablesInverse` | `cg_rf_common.hpp:669-672` | the modular inverses used by the inverse direction are again such roots |
| `Engine.LengthInvertible` | `cg_rf_common.hpp:690-698` | the domain size is invertible modulo q |
| `Engine.SupportedMeans` | `cg_rf_common.hpp:584-597` | the domains are exactly the powers of two up to the limit, and only with the NTT on |
| `Engine.RootIsPower` | `cg_rf_common.hpp:618-623` | the roots are the base raised to (q-1)/n exactly, so entry k of a domain is that power to the k |
| `Dft.ButterflyLow` | `cg_rf_common.hpp:674-687` | lower butterfly output from the transforms of the even and odd halves |
| `Dft.ButterflyHigh` | `cg_rf_common.hpp:674-687` | upper butterfly output, with the twiddle negated |
| `Dft.TransformTwice` | `cg_rf_common.hpp:651-699` | transforming with the roots and then with their inverses multiplies every entry by n |
| `NttInplace.ReverseIncrement` | `cg_rf_common.hpp:657-661` | the inner bit loop turns the reversal of i - 1 into the reversal of i |
| `NttInplace.BitReverse` | `cg_rf_common.hpp:657-664` | the conditional swaps leave exactly the bit-reversed input |
| `NttInplace.EntryButterfly` | `cg_rf_common.hpp:673-687` | one butterfly of any block and stage produces the entries of the next stage |
| `NttInplace.RunBlock` | `cg_rf_common.hpp:673-687` | one block in place: its entries advance one stage, reduced; nothing else changes |
| `NttInplace.RunStage` | `cg_rf_common.hpp:668-688` | one pass over all blocks advances the whole vector one stage |
| `NttInplace.Stages` | `cg_rf_common.hpp:668-688` | all stages; fails exactly when a root check fails |
| `NttInplace.Ntt` | `cg_rf_common.hpp:651-699` | forward, entry k ends as the value of the input at (g^((q-1)/n))^k modulo q; backward, as the scaled inverse transform; fails exactly when a root check fails |
| `NttInplace.ForwardValue` | `cg_rf_common.hpp:651-688` | the forward result is evaluation at the explicit powers of the base, whatever the root is called |
| `NttPoly.RoundTrips` | `cg_rf_common.hpp:651-699` | forward and inverse transforms undo each other on every vector |
| `NttPoly.NttDomainPoints` | `cg_rf_common.hpp:639-649` | point k is (g^((q-1)/n))^k modulo q, in order; exact error condition |
| `NttPoly.PolyEvalBatchNtt` | `cg_rf_common.hpp:1204-1220` | one forward transform equals evaluation point by point, at the explicit powers of the base; exact error condition |
| `NttPoly.LagrangeInterpolateNtt` | `cg_rf_common.hpp:1222-1234` | one inverse transform gives a canonical polynomial that takes the given values at the explicit powers of the base; exact error condition |
| `NttPoly.NextPow2Correct` | `cg_rf_common.hpp:571-581` | the rounded size is a power of two in [n, 2n) |
| `NttPoly.PolyMulNttMod` | `cg_rf_common.hpp:849-881` | padding, three transforms and trimming return the canonical product |
| `Poly.NormUnique` | `cg_rf_common.hpp:549-564` | a residue class of polynomials has one reduced, trimmed vector |
| `Poly.FactorTheorem` | `cg_rf_common.hpp:937-950` | a polynomial minus its value at r is divisible by X - r |
| `Poly.TooManyRoots` | `cg_rf_common.hpp:1338-1352` | over a prime field a polynomial with as many distinct roots as coefficients is zero |
| `Poly.InterpolationUnique` | `cg_rf_common.hpp:1369-1411` | polynomials of fewer than n coefficients agreeing at n distinct points are congruent |
| `PolyOps.PolyTrim` | `cg_rf_common.hpp:549-556` | trailing zeros go, one coefficient stays |
| `PolyOps.PolyModQ` | `cg_rf_common.hpp:558-564` | the canonical form of the vector |
| `PolyOps.PolyAddMod` | `cg_rf_common.hpp:720-735` | the canonical form of the exact sum |
| `PolyOps.PolySubMod` | `cg_rf_common.hpp:737-752` | the canonical form of the exact difference |
| `PolyOps.PolyMulNaiveMod` | `cg_rf_common.hpp:754-774` | the double loop returns the canonical form of the exact product |
| `PolyOps.PolyEval` | `cg_rf_common.hpp:1072-1088` | Horner's loop returns the value of the polynomial modulo q |
| `PolyOps.LinearFromRootCorrect` | `cg_rf_common.hpp:937-950` | the two coefficients are canonical and congruent to X - root |
| `PolyOps.PolyDerivativeMod` | `cg_rf_common.hpp:1354-1367` | the canonical form of the formal derivative |
| `PolyOps.DerivEval` | `cg_rf_common.hpp:1354-1367` | its value is the derivative defined by the product rule |
| `PolyOps.LongDivision` | `cg_rf_common.hpp:1109-1121` | after the loop dividend = divisor * quotient + low part, modulo q |
| `PolyOps.PolyModMonic` | `cg_rf_common.hpp:1090-1127` | a canonical remainder shorter than the divisor and congruent to the dividend; error only for an empty divisor |
| `PolyOps.RemainderUnique` | `cg_rf_common.hpp:1090-1127` | no other canonical vector is such a remainder |
| `PolyMul.KaratsubaIdentity` | `cg_rf_common.hpp:902-918` | the three-product identity, exactly, for any split |
| `PolyMul.KaratsubaCorrect` | `cg_rf_common.hpp:902-918` | assembled recursive results are congruent to the product |
| `PolyMul.AddShifted` | `cg_rf_common.hpp:923-932` | an accumulation loop with its early break adds exactly the coefficients that fit |
| `PolyMul.BreaksDropZeros` | `cg_rf_common.hpp:923-932` | every coefficient the two breaks skip is zero, for arbitrarily lopsided operands |
| `PolyMul.PolyMulMod` | `cg_rf_common.hpp:883-935` | whichever branch is taken the result is the canonical product; recursion on the longer operand terminates, writes stay in bounds |
| `Vanishing.NormVanishProduct` | `cg_rf_common.hpp:968-983` | the product of two tree nodes is the node of their joined points |
| `Vanishing.NormVanishShape` | `cg_rf_common.hpp:1053-1069` | a vanishing polynomial is monic of degree the number of its points |
| `Vanishing.RootsOnly` | `cg_rf_common.hpp:1053-1069` | over a prime field it has no roots beyond its points |
| `ProductTree.FlattenGroups` | `cg_rf_common.hpp:968-983` | no level of the tree loses, repeats or reorders a point, odd levels included |
| `ProductTree.PolyBuildProductTree` | `cg_rf_common.hpp:957-984` | every node of every level is the canonical vanishing polynomial of the points below it |
| `ProductTree.PolyFromRoots` | `cg_rf_common.hpp:1053-1069` | the top of the tree is the canonical vanishing polynomial of all roots |
| `ProductTree.RemainderValue` | `cg_rf_common.hpp:1145-1154` | a remainder modulo a node has the dividend's values at the node's points |
| `ProductTree.DescendLevel` | `cg_rf_common.hpp:1145-1155` | one level of the descent keeps that for every node, including a last child without sibling |
| `ProductTree.PolyEvalBatchWithProductTree` | `cg_rf_common.hpp:1129-1164` | the leaves hold the values at all points; error exactly for a tree of the wrong size |
| `ProductTree.PolyEvalBatchHorner` | `cg_rf_common.hpp:1236-1253` | values point by point |
| `ProductTree.PublicEvalPoints` | `cg_rf_common.hpp:993-1019` | point k is (g^((q-1)/n))^k modulo q on a domain size, and k + 1 otherwise |
| `ProductTree.IsPublicEvalPoints` | `cg_rf_common.hpp:1021-1031` | true exactly for those points |
| `ProductTree.PolyEvalBatchProductTree` | `cg_rf_common.hpp:1166-1181` | values at arbitrary points |
| `ProductTree.PolyEvalBatchAuto` | `cg_rf_common.hpp:1274-1309` | one answer on every branch of the selector; error exactly when the NTT is forced on points or degrees that do not fit |
| `Interp.PublicPointsDistinct` | `cg_rf_common.hpp:1338-1352` | the public points are distinct modulo q if and only if n <= q, on both kinds of points |
| `Interp.RequirePublicEvalPointsDistinct` | `cg_rf_common.hpp:1338-1352` | the guard passes exactly when the points are distinct |
| `Interp.PsiOpaPointCount` | `cg_rf_common.hpp:1327-1336` | at least the bound, less than twice it, a domain size when the NTT is on; exact error condition |
| `Interp.CombNode` | `cg_rf_common.hpp:1393-1408` | cross-multiplying accumulators with sibling nodes gives the accumulator of the joined points |
| `Interp.WeightLeaves` | `cg_rf_common.hpp:1382-1391` | the weights are y_i over the product of differences; fails exactly when two points coincide |
| `Interp.Denominators` | `cg_rf_common.hpp:1378-1380` | P'(x_i) is the product of the differences to the other points |
| `Interp.LagrangeInterpolateFromTree` | `cg_rf_common.hpp:1369-1411` | Lagrange's interpolating polynomial; exact error condition |
| `Interp.LagrangeInterpolatePublicPoints` | `cg_rf_common.hpp:1413-1433` | the same polynomial on both routes, for every n <= q |
| `Lagrange.DerivativeAtRoot` | `cg_rf_common.hpp:1378-1380` | Leibniz: the derivative of a vanishing polynomial at a root is the product of the differences |
| `Lagrange.DenominatorsNonzero` | `cg_rf_common.hpp:1338-1352` | all denominators are invertible if and only if the points are distinct |
| `Lagrange.InterpolantFits` | `cg_rf_common.hpp:1369-1411` | Lagrange's formula takes the given values |
| `Lagrange.InterpolantUnique` | `cg_rf_common.hpp:1369-1411` | any polynomial of that many coefficients with those values is the interpolant |
| `Interp.EvaluateThenInterpolate` | `cg_rf_common.hpp:1369-1433` | evaluating and then interpolating is the identity on canonical polynomials |
| `Interp.InterpolateThenEvaluate` | `cg_rf_common.hpp:1369-1433` | interpolating and then evaluating is the identity on reduced vectors |
| `Barycentric.DenominatorFormula` | `cg_rf_common.hpp:1459-1462` | D_i = i! (N-1-i)! with the alternating sign |
| `Barycentric.LagrangeDenominatorInverses` | `cg_rf_common.hpp:1441-1478` | inverses of the denominators; fails exactly when N > q |
| `Barycentric.EvalOne` | `cg_rf_common.hpp:1502-1541` | prefix products, suffix products and the weighted sum give Lagrange's formula at any target, nodes included |
| `Barycentric.LagrangeEvalBatch` | `cg_rf_common.hpp:1483-1543` | barycentric evaluation equals the interpolant at every target |
| `Barycentric.LagrangeEvalBatchAuto` | `cg_rf_common.hpp:1554-1593` | every branch returns the values of the same interpolant; exact error condition |
| `Barycentric.Reconstruction` | `cg_rf_common.hpp:1554-1593` | values of p at the public points are turned into values of p at the targets |
| `Psi.ValidatePsiSet` | `cg_rf_common.hpp:188-200` | accepts exactly the non-empty, duplicate-free sets of field elements within the limit |
| `Psi.PointCount` | `cg_psi_sender.cpp:73` | the point count, when it succeeds, and for which sizes it fails |
| `Psi.OpaEvaluate` | `cg_opa.hpp:41-47` | one side's evaluation for OPA; exact error condition |
| `Psi.OpaValues` | `cg_opa.hpp:28-98` | OLE on the evaluations gives the values of b + a * x |
| `Psi.PsiSender` | `cg_psi_sender.cpp:70-92` | the OLE inputs are r_A and p_A * r'_A at the public points; it succeeds exactly for a valid set, a point count within the limits and the field, and, when the NTT is forced, a point count that is a domain |
| `Psi.PsiReceiverInputs` | `cg_psi_receiver.cpp:85-99` | the OLE inputs are p_B at the public points; the same exact success condition |
| `Psi.PsiReceiverFinish` | `cg_psi_receiver.cpp:103-117` | the output is S_B filtered by the zero test on reconstructed values |
| `Psi.VanishesOnSet` | `cg_psi_receiver.cpp:107-110` | p_A vanishes at a field element exactly when it is in A |
| `Psi.MaskedDegree` | `cg_psi_sender.cpp:78-85` | q_A + r_A * p_B never has more coefficients than there are points |
| `Psi.MaskedValue` | `cg_psi_receiver.cpp:107-117` | at an element of B it vanishes exactly when the element is in A or is a root of r'_A |
| `Psi.PsiExact` | `cg_psi_receiver.cpp:85-117` | for all sets and masks the output is exactly, in S_B order, the accepted elements |
| `Psi.ReconstructionExact` | `cg_rf_common.hpp:1274-1285` | the receiver's reconstruction succeeds if and only if the NTT is not forced, or its set is an NTT domain at least as large as the masked polynomial's coefficient count |
| `Psi.MaskedLead` | `cg_psi_sender.cpp:78-85` | the masked polynomial has m_A + m_B + 1 coefficients modulo q if and only if the leading coefficients of the masks do not cancel |
| `Psi.ForcedNttFails` | `cg_rf_common.hpp:1281-1285` | for all such masks a receiver that forces the NTT fails, whatever its set |
| `Psi.RunPsi` | `cg_psi_sender.cpp:70-92` | both parties, each in any evaluation mode and tuning: exact output and exact success condition |
| `Psi2.SendReveal` | `cg_psi2_receiver.cpp:107-119` | a fixed number of slots, zero-padded; error exactly when the result is too large |
| `Psi2.ReceiveReveal` | `cg_psi2_sender.cpp:102-121` | first occurrences of A's own elements |
| `Psi2.RevealOutput` | `cg_psi2_sender.cpp:102-121` | for any duplicate-free result: A's elements of it, plus a false zero under an exact condition |
| `Psi2.RevealExact` | `cg_psi2_receiver.cpp:109-119` | exact if and only if 0 is not in A, or 0 is in B, or no slot is unused |
| `Psi2.FilterRemovesMasks` | `cg_psi2_sender.cpp:102-121` | filtering B's accepted elements by A's set gives B's set filtered by A's, for every mask |
| `Psi2.TwoWayOutput` | `cg_psi2_sender.cpp:102-121` | A's output for any masks: that, plus a false zero exactly when 0 is in A, not in B, and a slot is left over |
| `Psi2.RunTwoWay` | `cg_psi2_receiver.cpp:80-119` | both programs composed: both outputs, and the exact condition under which they complete |
| `PsiRuns.OutputsFinish` | `cg_psi_receiver.cpp:103-117` | OLE outputs on the parties' evaluations always lead to the exact result of the receiver's last step |
| `PsiRuns.PsiOverRf` | `cg_rf_psi_receiver.cpp:82-102` | PSI carried by the firewalled pipeline: every interleaving is bounded, never stuck, and ends with the exact accepted elements |
| `PsiRuns.PsiOverDirect` | `cg_psi_receiver.cpp:99-117` | PSI carried by the direct exchange: the same under the exact completion condition, and no run ends otherwise |
| `Lanes.LaneSize` | `cg_rf_ole_batch.hpp:56-64` | lane sizes differ by at most one |
| `Lanes.LaneRangeFloors` | `cg_rf_ole_batch.hpp:56-64` | a lane runs from the floor of n * lane / lanes to the floor of n * (lane + 1) / lanes; fails exactly on a bad count or lane |
| `Lanes.LanePartition` | `cg_rf_ole_batch.hpp:56-64` | every index lies on exactly one lane, the one with n * lane < (i + 1) * lanes <= n * (lane + 1) |
| `Lanes.BoundariesCut` | `cg_rf_ole_batch.hpp:56-64` | the ranges are consecutive, cover [0, n) in order, and cut at the floors of n * l / lanes |
| `Lanes.IntersectionClips` | `cg_rf_ole_batch.hpp:66-75` | fails exactly on a bad count or lane; otherwise exactly the indices of the chunk that the floors assign to the lane |
| `Lanes.ActiveLanes` | `cg_rf_ole_batch.hpp:186-197` | exactly the lanes to which the floors assign some index of the range, ascending; exact error condition |
| `Lanes.CarriedAll` | `cg_rf_ole_batch.hpp:198-223` | the lanes together carry every index of a range once |
| `Chain.StepKeeps` | `cg_rf_ole_batch.hpp:198-223` | every step of every station keeps the invariant: positions, buffers, and queue contents in order |
| `ChainRuns.RecvProgress` | `cg_rf_receiver_firewall_opa.cpp:85-113` | a lane waiting for an item is served or something upstream can move |
| `ChainRuns.Progress` | `cg_rf_receiver_firewall_opa.cpp:85-144` | an unfinished chain always has an enabled step, whatever the chunk sizes, lanes and capacities |
| `ChainRuns.StepDecreases` | `cg_rf_receiver_firewall_opa.cpp:85-144` | every step decreases the measure |
| `ChainRuns.ChainTheorem` | `cg_rf_receiver_firewall_opa.cpp:85-113` | all interleavings of one round: bounded, never stuck, every item processed by every station |
| `ChainRuns.LaneTransport` | `cg_rf_ole_batch.hpp:198-232` | for any two chunkings and any lanes the sent vector arrives index for index |
| `Phases.SourceReady` | `cg_rf_ole_batch.hpp:422-443` | when a pass starts, the process it starts at holds the complete results of the earlier passes it needs |
| `Phases.MoveKeeps` | `cg_rf_sender_firewall_opa.cpp:82-141` | every move of any process in any pass keeps the invariant of all passes and decreases the measure |
| `Phases.SeparateKept` | `cg_rf_ole_batch.hpp:394-399` | a process that has begun a pass is through with all earlier ones; every move keeps this |
| `Phases.SendRoom` | `cg_rf_sender_firewall_ole3.cpp:49-59` | in the first unfinished pass a sender shares its sockets with nothing else, whatever other passes are doing |
| `Phases.SystemProgress` | `cg_rf_sender_firewall_opa.cpp:82-141` | processes that run their passes in order over shared sockets are never deadlocked before the end |
| `Phases.PhasesTheorem` | `cg_rf_sender_firewall_opa.cpp:82-141` | all interleavings of any number of passes, forward or back: bounded, never stuck, passes separate, final data |
| `Phases.OnTheWire` | `cg_rf_ole_batch.hpp:198-232` | in every reachable state a queued item is what its station made of some index |
| `Phases.RoomTheorem` | `cg_network.hpp:36-44` | in every reachable state the items of all passes on one lane fit into its room |
| `Phases.CanComplete` | `cg_rf_sender_firewall_opa.cpp:82-141` | from every reachable state some run completes |
| `LockStep.AlignedKept` | `cg_ope_common.hpp:180-214` | with nested chunks every step keeps the sender inside the receiver's chunk, through with it, or leaving the one before |
| `LockStep.DirectProgress` | `cg_ope_common.hpp:180-214` | nested chunks and room enough: never deadlocked |
| `LockStep.EqualChunksOk` | `cg_ope_common.hpp:186-189` | equal chunk sizes are nested and need no room beyond one item per lane |
| `LockStep.WideLanesOk` | `cg_ope_common.hpp:186-189` | lanes that hold a chunk of the receiver give room enough for any chunk size of the sender |
| `LockStep.NarrowLaneFails` | `cg_ope_common.hpp:272-274` | nested chunks alone are not enough: 10 against 1 over a lane with room for one item |
| `LockStepRuns.OneChunkInFlight` | `cg_ope_common.hpp:180-214` | at most one chunk of the receiver in flight in either direction |
| `LockStepRuns.DirectTheorem` | `cg_ope_common.hpp:272-300` | nested chunks and room enough: all interleavings are bounded, never stuck, and every answer is in place when the acknowledgement is due |
| `LockStepRuns.DirectStalls` | `cg_ope_common.hpp:272-274` | otherwise no interleaving ever finishes |
| `LockStepRuns.DirectExact` | `cg_ope_common.hpp:180-300` | a run completes if and only if the chunks are nested and there is room enough, for any chunk sizes, lanes and capacities |
| `PoolProof.RunStep` | `cg_thread_pool.hpp:91-92` | an index is called by the one worker that claimed it, and had not run before |
| `PoolProof.ClaimBlock` | `cg_thread_pool.hpp:88-90` | a claimed block is disjoint from every other one and keeps the coverage |
| `PoolProof.StepKeeps` | `cg_thread_pool.hpp:63-145` | every atomic action keeps the pool's invariant, for any number of concurrent calls |
| `PoolRuns.ReturnedOutcome` | `cg_thread_pool.hpp:113-122` | a call returns only when its tasks are all finished; each index exactly once if nothing throws; otherwise an exception of an index that ran |
| `PoolRuns.ReturnedStable` | `cg_thread_pool.hpp:113-122` | nothing of a returned call changes any more |
| `PoolRuns.FirstExceptionKept` | `cg_thread_pool.hpp:94-100` | the first recorded exception stays the one to be rethrown |
| `PoolRuns.Progress` | `cg_thread_pool.hpp:105-145` | sleeping callers and workers are never left with work to do |
| `PoolRuns.StepDecreases` | `cg_thread_pool.hpp:63-145` | every action decreases the measure |
| `PoolRuns.Drained` | `cg_thread_pool.hpp:45-52` | the destructor joins only after every queued task was executed |
| `PoolRuns.PoolTheorem` | `cg_thread_pool.hpp:63-145` | all interleavings: bounded, never stuck, outcomes as promised |
| `PoolRuns.SerialFor` | `cg_thread_pool.hpp:65-68` | the pool without workers calls the indices in order up to the first that throws, and has the same outcome |
| `PoolThrows.CursorDrains` | `cg_thread_pool.hpp:86-89` | once an exception is recorded, a step moves the cursor only if a worker that had already looked uses up its turn |
| `PoolThrows.ThrowTheorem` | `cg_thread_pool.hpp:82-100` | all runs: whole chunks are handed out, no task records two exceptions, and after the first one the cursor moves by at most one chunk per worker that was about to claim |
| `PoolThrows.TaskCountMeans` | `cg_thread_pool.hpp:79` | at most one task per worker, none without a block, and all of them only if there are enough blocks |
| `ClassGroup.EncryptCorrect` | `third_party/cg_ahe/bicycl/cl/CL_HSM_utils.inl:162-185` | an encryption encrypts its plaintext under the secret key |
| `ClassGroup.DecryptCorrect` | `third_party/cg_ahe/bicycl/cl/CL_HSM_utils.inl:122-135` | decryption returns the plaintext modulo q |
| `ClassGroup.AddCorrect` | `third_party/cg_ahe/cg_ahe.hpp:141-152` | plaintexts add |
| `ClassGroup.CMultCorrect` | `third_party/cg_ahe/cg_ahe.hpp:158-163` | the plaintext is multiplied by the scalar |
| `ClassGroup.MaulPkCorrect` | `cg_rf_common.hpp:400-410` | the mauled public key belongs to sk + rho |
| `ClassGroup.MaulForwardCorrect` | `cg_rf_common.hpp:369-381` | the ciphertext moves to the mauled key, the plaintext stays |
| `ClassGroup.MaulInverseCorrect` | `cg_rf_common.hpp:385-397` | and back |
| `ClassGroup.MaulRoundTrip` | `cg_rf_common.hpp:369-397` | the two maulings undo each other on every ciphertext |
| `ClassGroup.FusedForward` | `cg_rf_common.hpp:423-447` | the fused form equals mauling plus an encryption of zero if the lift fixes the precomputed element, and only then if that element is one of Cl_Delta |
| `ClassGroup.FusedInverse` | `cg_rf_common.hpp:450-472` | the same for the inverse direction |
| `ClassGroup.ForwardHop` | `cg_rf_receiver_firewall_opa.cpp:59-113` | one firewall hop moves pk to pk * h^rho and keeps the plaintext if, and for elements of Cl_Delta only if, the lift fixes the rerandomizing element |
| `ClassGroup.InverseHop` | `cg_rf_receiver_firewall_opa.cpp:116-144` | one hop back, with the same condition |
| `ClassGroup.CompactHopFails` | `cg_ole3_common.hpp:42-53` | a compact scheme where the unlifted pair changes the plaintext |
| `ClassGroup.SealedUnique` | `third_party/cg_ahe/bicycl/cl/CL_HSM_utils.inl:162-185` | key, randomness and plaintext determine both halves of a ciphertext |
| `ClassGroup.EncryptSeals` | `third_party/cg_ahe/bicycl/cl/CL_HSM_utils.inl:162-185` | encryption uses exactly the randomness it is given |
| `ClassGroup.ForwardSeals` | `cg_rf_common.hpp:423-447` | a forward hop adds its own randomness to the ciphertext's and rho to the key |
| `ClassGroup.InverseSeals` | `cg_rf_common.hpp:450-472` | a hop back adds its own randomness and takes rho off |
| `RfOle.Keys` | `cg_rf_common.hpp:400-410` | the keys the two firewalls publish belong to k + rho1 and k + rho1 + rho2 |
| `RfOle.ForwardLinks` | `cg_rf_receiver_firewall_opa.cpp:85-113` | Round 1: what leaves the Receiver, R-RF, S-RF and the Sender, down to the randomness each has added |
| `RfOle.BackwardLinks` | `cg_rf_receiver_firewall_opa.cpp:116-144` | Round 2: what S-RF and R-RF pass on, each with its own randomness added, and what is decrypted |
| `RfOle.OneItem` | `cg_rf_ole_batch.hpp:430-443` | for one index, the ciphertext on every link, with its key, its accumulated randomness and its plaintext; and the Receiver decrypts (a*x + b) mod q |
| `RfOle.DirectItem` | `cg_ope_common.hpp:140-229` | the same for the direct exchange: both ciphertexts and the decrypted value |
| `RfOle.RfWire` | `cg_rf_ole_batch.hpp:246-355` | in every reachable state of the two rounds each queued ciphertext is exactly the one its link must carry |
| `RfOle.RfOleTheorem` | `cg_rf_ole_batch.hpp:246-355` | batched RF-OLE: every interleaving is bounded, never stuck, keeps the rounds apart, and ends with (a*x + b) mod q everywhere |
| `RfOle.DirectOleTheorem` | `cg_ope_common.hpp:140-229` | direct OLE for any two chunk sizes: under the exact condition every interleaving ends with (a*x + b) mod q everywhere, otherwise none ends |
| `RfOle.DirectWire` | `cg_ope_common.hpp:180-214` | in every reachable state of the direct exchange each queued ciphertext is exactly the one it must be |
| `Ole3.TransformFwdBatch` | `cg_ole3_common.hpp:73-105` | the chunked loops maul and rerandomize every ciphertext, each with its own randomness |
| `Ole3.TransformFwdBlindBatch` | `cg_ole3_common.hpp:107-147` | the same after adding an encrypted blind under the incoming key |
| `Ole3.TransformInvBatch` | `cg_ole3_common.hpp:149-180` | the inverse direction |
| `Ole3.AddPlainBlindMod` | `cg_ole3_common.hpp:193-206` | entrywise modular addition; error exactly on a size mismatch |
| `Ole3.AlignA` | `cg_rf_sender_firewall_ole3.cpp:49-51` | through a firewall the a-ciphertexts encrypt a + blind under the mauled key, with the randomness of blind and hop added |
| `Ole3.AlignB` | `cg_rf_receiver_firewall_ole3.cpp:50-51` | the b-ciphertexts keep their plaintext under the mauled key, with the randomness of the hop added |
| `Ole3.AlignY` | `cg_rf_sender_firewall_ole3.cpp:54-55` | the answers return under the previous key, with the randomness of the hop added |
| `Ole3.ReceiverCompute` | `cg_rf_ole3_receiver.cpp:58-81` | the receiver's ciphertexts encrypt a*x + b + r, with randomness x times that of a, plus that of b and of r |
| `Ole3.DecryptAll` | `cg_rf_ole3_sender.cpp:77-93` | the sender recovers the masked values modulo q |
| `Ole3.Round3` | `cg_rf_sender_firewall_ole3.cpp:57-61` | both b-blinds are added to z and the receiver's mask comes off |
| `Ole3.RunOle3` | `cg_rf_ole3_receiver.cpp:58-102` | the receiver gets ((a + a' + a'') * x + b + b' + b'') mod q at every index |
| `Ole3Runs.LinksA` | `cg_rf_sender_firewall_ole3.cpp:49-51` | the a-ciphertext on each link: plaintext a plus the blinds so far, key, accumulated randomness |
| `Ole3Runs.LinksB` | `cg_rf_receiver_firewall_ole3.cpp:50-51` | the same for b, which is only aligned |
| `Ole3Runs.LinksY` | `cg_rf_ole3_sender.cpp:77-93` | the answer on each link back, and what the sender decrypts: (a + a' + a'') * x + b + r modulo q |
| `Ole3Runs.LinksZ` | `cg_rf_sender_firewall_ole3.cpp:57-61` | the plain value on each link, with the blinds added so far modulo q |
| `Ole3Runs.Outcome` | `cg_rf_ole3_receiver.cpp:94-102` | for one index, what every link of the four passes carries, and the sanitized value at the end |
| `Ole3Runs.Ole3Theorem` | `cg_rf_receiver_firewall_ole3.cpp:36-59` | three-round OLE as four passes over shared sockets: every interleaving is bounded, never stuck, keeps the passes apart, and ends with the sanitized OLE outputs |
| `Ole3Runs.Ole3Wire` | `cg_rf_receiver_firewall_ole3.cpp:36-59` | in every reachable state of the four passes each queued item is exactly the one its link must carry |
| `Ope.BuildOpeSenderOleInputs` | `cg_ope_common.hpp:91-121` | the OLE inputs chain the masks; error exactly below degree 1 |
| `Ope.FinishOpeReceiver` | `cg_ope_common.hpp:123-138` | folds the outputs; error exactly when there are none |
| `Ope.MaskedState` | `cg_ope_common.hpp:91-138` | receiver state plus current mask is Horner's state, after every instance |
| `Ope.OpeCorrect` | `cg_ope_common.hpp:72-138` | for all masks the folded outputs are the polynomial's value |
| `Ope.RunOpe` | `cg_ope_common.hpp:72-138` | both sides composed return p(alpha) mod q |
| `Sampler.Pigeonhole` | `cg_rf_common.hpp:1630-1634` | everything below the scan is taken, so the scan stays inside the domain |
| `Sampler.SampleUnique` | `cg_rf_common.hpp:1611-1644` | adds exactly count new distinct elements for every stream of draws: each is the first good draw after fewer than 64 bad ones, or after 64 of them the least unseen number; the stream moves exactly past what was looked at; exact error condition |
| `Sampler.PickedUnique` | `cg_rf_common.hpp:1611-1644` | stream, seen elements and count determine the whole result and where the stream continues |
| `Sampler.DrawsTaken` | `cg_rf_common.hpp:1630-1641` | if the first draws are non-zero, distinct and unseen they are the result and nothing else is drawn |
| `Sampler.OnlyDraws` | `cg_rf_common.hpp:1630-1641` | unless 64 draws in a row hold nothing new, the result is the new draws in order, up to the last one looked at |
| `Sampler.MakeRandomPsiSets` | `cg_rf_common.hpp:1646-1684` | exact sizes, no duplicates, intersection of exactly min/5 elements, the shared part and the rest of either set each picked from its own stream; once the outer checks pass no inner one fails |
| `Codec.WordIsBigEndian` | `cg_network.hpp:71-76` | a word is written and read in network order: its four bytes have the word as their big-endian value |
| `Codec.WireLayout` | `cg_network.hpp:157-170` | an encoding is a sign word of 0 or 1, the byte count and the magnitude, all big-endian, without leading zero |
| `Codec.LayoutUnique` | `cg_network.hpp:157-170` | no other bytes have that layout |
| `Codec.DecodesLayout` | `cg_network.hpp:171-186` | bytes of that layout within the limit are accepted as their integer, whatever follows |
| `Codec.DecodeWire` | `cg_network.hpp:157-186` | what is sent is read back and nothing behind it is touched |
| `Codec.OnlyCanonical` | `cg_network.hpp:171-186` | an accepted prefix is the encoding of the value it yields |
| `Codec.SenderStricter` | `cg_network.hpp:157-163` | exactly which integers the sender refuses |
| `Codec.RecvAll` | `cg_network.hpp:58-68` | exactly len bytes despite partial and interrupted reads; error exactly when the stream is too short |
| `Codec.SendAll` | `cg_network.hpp:47-57` | everything is written despite partial and interrupted writes |
| `Codec.SendMpz` | `cg_network.hpp:157-170` | writes exactly the bytes of that layout; error exactly when the integer is too large or the peer is gone |
| `Codec.RecvMpz` | `cg_network.hpp:171-186` | succeeds exactly when bytes of that layout within the limit are in front, and consumes exactly them |
| `Codec.SendCt` | `cg_network.hpp:189-213` | a ciphertext is sent as its six integers in order; exact error condition |
| `Codec.RecvCt` | `cg_network.hpp:195-218` | and is read back as the first six decodable integers of the stream; fails exactly when there are not six |
| `Codec.DecodeWireAll` | `cg_network.hpp:189-218` | rows of integers, such as the six of a ciphertext, come back one by one |
| `Codec.OnlyCanonicalAll` | `cg_network.hpp:189-218` | and only the sender's own bytes decode to them |

## Left out

- BICYCL, GMP, NTL and OpenSSL internals; group laws and discrete logarithms in the subgroup of order q are assumed,
  and modular inverses are computed by extended Euclid.
- The `CG_USE_NTL_POLY` branches, the `*_profiled` variants and all timing output.
- Primality of the 128-bit modulus: q prime is a hypothesis. That the base 3 yields good roots for that modulus is the
  hypothesis `EngineOk`; when the checks fail the NTT methods return errors, but the selectors are only stated under it.
- Caches of points, trees, roots and denominators: they return what is recomputed here. The mutexes around them are not
  modelled.
- `ntt_domain_supported` does not itself compare n with the 2-adic part of q - 1; the model's domain predicate does.
- Overflow of `size_t` in `next_power_of_two_size`, and the wrap-around of the pool's cursor: counts are unbounded here.
- The C++ memory model: the pool's atomics are sequentially consistent steps. Spurious wake-ups are not steps; a
  notification is one step that wakes all sleeping workers.
- Threads of one lane transfer are steps of their lanes; cancellation by `shutdown` after an I/O error, TCP connection
  set-up, retries, the metadata handshake and the transfer of public keys are not part of the state machines.
- Passes that share a socket have one queue each and a common room; that they cannot overtake one another in the
  socket is not a step of its own, because a process is through with a pass before it reads from the next.
- The batched sender computes its answers after all of Round 1 and encrypts b on a helper thread. In the model each
  answer is computed when its chunk has arrived; nothing of Round 2 moves earlier either way.
- Environment parsing, file formats, argument handling, offline checkers and scripts.
- Distributions of randomness, cryptographic security and false-positive probabilities.
- The unbatched single-lane programs (`cg_receiver.cpp` and its siblings): the same algebra without chunks.
- Codec.Socket: a call may be interrupted only finitely often.
