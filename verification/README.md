# A verified model of UMBRA's trade mediation and q = 7933 blind signatures

This project models the hard core of the `tradep2p` code base in Dafny and proves properties of the model. `dafny verify
dfyconfig.toml` checks all of it.

It covers four components.

**The exact NTRU trapdoor algebra.** `RealPoly` develops the ring of polynomials with x^n = -1 once, over the reals; `IntPoly`
lifts it to the integers and `Galois` adds conjugation, embedding and the field norm. `IntegerRing`, `NtruSolve`, `ModRing`,
`ModInverse`, `Reduce`, `GlobalReduce`, `RealRing`, `RealSolve`, `FalconTree`, `FastSampling`, `Sign`, `HashToPoint`,
`KeyGeneration` and `SignerQ7933` model the program's loops and recursions over it; `TrapdoorBasis` sees a key as a basis over
the reals, `TreeForms` a signing tree as the quadratic form it stands for. The program re-checks its own invariants at run
time and throws on what "should never happen". Such a branch either holds `assert false` (the integer rings, the solver, the
inverse, both reducers), or returns a value standing for the throw (`None` in `FalconTree` and `FastSampling`, `InternalError`
in `Sign`, `FailedCheck` in `KeyGeneration`) together with a theorem that says when that value cannot occur. The chain is
closed from end to end: every key that leaves generation satisfies fG - gF = q with g invertible, for every such key the
public key and the signing tree exist, and whatever the signer returns its own verification accepts, for any output of the
samplers, exactly when the norm bound is small enough for the narrowing to 64 bits (`NarrowedSignature`). How long a signature
is, is accounted for draw by draw (`SignatureNorm`).

**The journal.** `JournalFormat` is the byte format, `JournalReplay` what a log means, `JournalRecovery` opening, rollback
detection and crashes, `JournalBinding` the hash chain, `JournalGenuine` what checkpoint signatures vouch for, `JournalObject`
the live object over its two files. Hash and signatures are functions passed in; all that is assumed of signing is that the
signatures a journal makes verify, and, in `JournalGenuine` alone, that nothing else does. Results about the hash are stated
as equality or an explicit collision.

**The settlement session.** `Settlement` is the mediator's protocol as a transition function with its reachable states and
exact measure, `SettlementScript` the exact sequences of events it accepts, `Ledger` what changes hands over a run,
`MediatorSession` the mutable session object refining it. `Agreement` compares the journal's transition relation with the
mediator. `FeePositionChange` works out what a restart under another fee position does, for every state a session can be in.

**Credential issuance and transport.** `Issuance` is a step protocol of a bounded queue, any number of workers, exclusive
markers, temporary files, renames, failures, collection and crashes; `IssuanceSafety`, `IssuanceAccount`, `IssuanceCapacity`
and `IssuanceCollision` prove what all its interleavings keep and where it fails, `IssuanceRest` and `IssuanceProgress` what
it leaves behind and that it gets anywhere. `Chunks` and `WireQ7933` carry the requests.

Outcomes: an argument the program throws on is a `Refused` or a fault value of the model; requests for randomness, clocks and
the SHAKE stream are parameters. Integers are unbounded except where a width matters (wire and file fields, the chunk counter,
the round counter, narrowing to 64 bits), where it is written out.

Two places where the code departs from what its comments say are kept as the code has them. The journal's transition relation
is described as mirroring the mediator, but lacks the edges of an early fee (`Agreement.StepAdmitted`). The fee position is
described as mattering only for transitions that have not happened yet, but it is not persisted, and a session restored under
another position can be charged twice, never be charged, complete without a trade, or not complete before its 32-bit round
counter wraps. Over every run, cut and pair of positions the session can still settle exactly if and only if a check on its
phase, its round and the two positions holds, and then every way of completing it does
(`FeePositionChange.RestartUnderAnotherPosition`).

## Model

| member | source | states |
|---|---|---|
| IntPoly.MulAssoc | src/blindsig_blns7933_integer_ring.cpp:78-97 | Negacyclic multiplication is associative, for every length; proved once over the reals by letting one factor act on the other and lifted to the integers. |
| IntPoly.MulComm | src/blindsig_blns7933_integer_ring.cpp:78-97 | Negacyclic multiplication is commutative. |
| IntPoly.ActCoefficient | src/blindsig_blns7933_integer_ring.cpp:78-97 | Each coefficient of a product is the dot product with the reversed, sign-wrapped other factor: the ring product defined by shifting is the convolution with x^n = -1. |
| IntegerRing.MulPoly | src/blindsig_blns7933_integer_ring.cpp:78-97 | The double loop over the coefficient vector computes the ring product of the padded operands; it throws exactly on an operand longer than the degree. |
| IntegerRing.AddPoly | src/blindsig_blns7933_integer_ring.cpp:58-66 | The addition loop computes the sum of the padded operands; refused exactly on an over-long operand. |
| IntegerRing.SubPoly | src/blindsig_blns7933_integer_ring.cpp:68-76 | The subtraction loop computes the difference of the padded operands; refused exactly on an over-long operand. |
| IntegerRing.Conjugate | src/blindsig_blns7933_integer_ring.cpp:99-105 | Negating odd coefficients in place gives the image under x to -x. |
| Galois.ConjMul | src/blindsig_blns7933_integer_ring.cpp:99-105 | Conjugation is a ring homomorphism. |
| Galois.EmbedMul | src/blindsig_blns7933_integer_ring.cpp:132-146 | Embedding the half ring by x to x squared is multiplicative. |
| Galois.EmbedFieldNorm | src/blindsig_blns7933_integer_ring.cpp:107-130 | The field norm, embedded back, is exactly a times its conjugate: nothing is lost by keeping the even coefficients. |
| Galois.FieldNormMul | src/blindsig_blns7933_integer_ring.cpp:107-130 | The field norm is multiplicative. |
| IntegerRing.FieldNormPoly | src/blindsig_blns7933_integer_ring.cpp:107-130 | The method returns the field norm of the padded operand; its throw on a non-zero odd coefficient is unreachable. |
| IntegerRing.EmbedHalf | src/blindsig_blns7933_integer_ring.cpp:132-146 | The loop computes the embedding; refused exactly when the degree is not a power of two above one or the half is too long. |
| NtruSolve.ExtendedGcd | src/blindsig_blns7933_ntrusolve.cpp:16-57 | For all integers, signs and zeros included, the loop returns a Bezout combination, and its gcd is one exactly when the arguments are coprime. |
| NtruSolve.VerifyRelation | src/blindsig_blns7933_ntrusolve.cpp:65-83 | Accepts exactly when fG - gF is the constant q in the ring. |
| NtruSolve.LiftSolves | src/blindsig_blns7933_ntrusolve.cpp:152-174 | A solution for the field norms in the half ring, lifted by embedding and conjugates, solves fG - gF = q one level up. |
| NtruSolve.BaseCaseSolves | src/blindsig_blns7933_ntrusolve.cpp:117-145 | At degree one, Bezout coefficients of f and g scaled by q solve the equation. |
| NtruSolve.SolveRecursive | src/blindsig_blns7933_ntrusolve.cpp:103-181 | At every level the result satisfies fG - gF = q exactly, the base-case and lift re-checks never throw, and there is a result if and only if the iterated field norms of f and g are coprime. |
| NtruSolve.Solve | src/blindsig_blns7933_ntrusolve.cpp:85-101 | The public solver: the same for operands padded to any power-of-two degree, refused exactly on a bad degree, modulus or length. |
| ModRing.ScalarMod | src/blindsig_blns7933.cpp:35-41 | Reduction through a truncating remainder gives the canonical residue, for negative operands too. |
| ModRing.CongAct | src/blindsig_blns7933.cpp:125-143 | Ring multiplication respects congruence mod q, so reducing operands first changes nothing. |
| ModRing.MulQ | src/blindsig_blns7933.cpp:125-143 | The reducing double loop gives the canonical residues of the exact ring product. |
| ModRing.EqualQ | src/blindsig_blns7933.cpp:212-214 | Equality after canonicalisation is congruence mod q. |
| ModInverse.ScalarInverse | src/blindsig_blns7933.cpp:43-63 | For any modulus above one, returns a canonical inverse exactly when one exists; for a prime modulus that is every non-zero residue. |
| ModInverse.BuildAugmented | src/blindsig_blns7933.cpp:146-163 | The matrix built column by column is multiplication by a, with the constant one as right-hand side. |
| ModInverse.EliminateColumn | src/blindsig_blns7933.cpp:165-197 | One Gauss-Jordan step, row swap included, keeps the solutions of the system and clears its column; for a prime modulus it stops only when no pivot is left. |
| ModInverse.MissingPivotNotUnit | src/blindsig_blns7933.cpp:165-172 | A column without pivot yields a zero divisor, so a was not a unit. |
| ModInverse.Eliminate | src/blindsig_blns7933.cpp:165-197 | When elimination finishes its last column is the inverse; for a prime modulus it stops early only when a is not a unit. |
| ModInverse.Inverse | src/blindsig_blns7933.cpp:145-210 | For prime q returns x exactly when a is a unit, with a x = 1; the final self-check never throws. |
| Modulus7933.ModulusIsPrime | include/tradep2p/blindsig_blns7933.hpp:27 | The production modulus 7933 is prime, so every result above that asks for a prime modulus applies to it. |
| Sign.DerivePublic | src/blindsig_blns7933.cpp:306-315 | Returns f / g mod q; for prime q it does so exactly when g is invertible. |
| Sign.SignatureVerifies | src/blindsig_blns7933_sign.cpp:157-216 | For every key with fG - gF = q, every target and every pair of integer polynomials a sampler might return, t s0 + s1 is congruent to the target. |
| Sign.VerifyTarget | src/blindsig_blns7933_sign.cpp:226-243 | Accepts exactly the pairs within the norm bound with t s0 + s1 congruent to the target. |
| Sign.RoundToPolyQ | src/blindsig_blns7933_sign.cpp:77-94 | Refuses exactly when some coefficient is further than the tolerance from the nearest integer; otherwise each coefficient is that integer, held at the ends of the 64-bit range. |
| Sign.SignTarget | src/blindsig_blns7933_sign.cpp:157-216 | Returns the first attempt within the bound, and gives up exactly when none of those allowed is; for bounds below (2^63 - 1)^2 a signature is accepted by verification under every public key of the key; over a tree of the right shape no internal error can occur, whatever the sampler draws. |
| SignatureNorm.NormIsCost | src/blindsig_blns7933_sign.cpp:157-216 | For every key with fG - gF = q, every tree that represents its Gram matrix, every target and every draw: the squared norm of what an attempt computes is the sum over its draws of their weighted squared errors. |
| SignatureNorm.SignatureNormIsCost | src/blindsig_blns7933_sign.cpp:157-216 | The same of every signature returned, for bounds below (2^63 - 1)^2. |
| NarrowedSignature.AcceptedExactlyBelowLimit | src/blindsig_blns7933_sign.cpp:77-94 | For every key with its public key and every bound: each attempt within the bound is a signature, for all targets and all sampler outputs, if and only if the bound is below (2^63 - 1)^2. |
| Sign.BuildSigningTree | src/blindsig_blns7933_sign.cpp:96-106 | For every key with fG - gF = q, its polynomials padded to the degree, the tree exists, has the right shape and positive leaves and represents the Gram matrix of the key: no throw on the way is reachable; refused exactly on an over-long polynomial or a degree that is not a power of two of at least two. |
| HashToPoint.HashToPoint | src/blindsig_blns7933_sign.cpp:108-155 | Refines: the first n words below 5q of the stream, reduced mod q, in order, for any even prefix growth; refused exactly when 5q does not fit 16 bits. |
| HashToPoint.FirstAcceptedUnique | src/blindsig_blns7933_sign.cpp:132-153 | The result does not depend on how far the stream was extended. |
| HashToPoint.AcceptedWordByWord | src/blindsig_blns7933_sign.cpp:140-153 | Each word below 5q gives its residue at the place that says how many such words came before it, and no other word gives anything. |
| HashToPoint.FiveWordsEach | src/blindsig_blns7933_sign.cpp:109-113 | Every residue is kept from exactly five 16-bit words, all congruent to it, so reduction favours none. |
| SignerQ7933.ValidateCanonical | src/blindsig_ntru_q7933.cpp:91-106 | Accepts exactly the polynomials of full degree with every coefficient in [0, q). |
| SignerQ7933.NtruSigner.Create | src/blindsig_ntru_q7933.cpp:38-85 | For prime q the constructor accepts exactly the keys of the right degrees whose relation holds and whose g is a unit; the checks on the derived public key and on the tree cannot fail, and the tree represents the key's Gram matrix. |
| SignerQ7933.NtruSigner.SignTargetPoly | src/blindsig_ntru_q7933.cpp:108-113 | Returns the first attempt within the bound, or nothing when no attempt allowed is; every signature is accepted under the object's own public key and bound, for every bound below (2^63 - 1)^2; refused exactly on a non-canonical target. |
| SignerQ7933.NtruSigner.VerifyTargetPoly | src/blindsig_ntru_q7933.cpp:115-120 | Verification under the object's own key accepts exactly the short solutions of t s0 + s1 = target. |
| KeyGeneration.TryCandidate | src/blindsig_blns7933.cpp:233-303 | One turn of the rejection loop: rejected exactly on a non-unit g, a failed quality test or non-coprime norms; a key it yields satisfies fG - gF = q with g a unit, and its F, G are the narrowed outcome of both reductions in turn: Babai rounds for as long as they shorten, then passes until every shift is reduced or the passes are used up; of all its checks and throws only the final one can fail, and only on a coefficient outside 64 bits. |
| KeyGeneration.Generate | src/blindsig_blns7933.cpp:219-304 | The loop returns the first usable candidate of the draws, and every key it returns is a trapdoor with invertible g that went through both reductions. |
| Reduce.NegacyclicShift | src/blindsig_blns7933_reduce.cpp:11-29 | The shift loop multiplies by a power of x in the ring, wrapping with sign; refused exactly on an over-long operand or a shift out of range. |
| Reduce.NormChange | src/blindsig_blns7933_reduce.cpp:60-64 | Adding c times a shift of (f, g) changes the squared norm by exactly the predicted delta. |
| Reduce.BestIntegerCoordinate | src/blindsig_blns7933_reduce.cpp:66-86 | Truncated division and its neighbours find a global minimiser of the delta over all integers. |
| Reduce.TryShift | src/blindsig_blns7933_reduce.cpp:141-174 | A step adds the globally best integer multiple of one shift, lowers the squared norm by exactly the predicted delta and keeps fG - gF = q and the coset; without a step the shift is already reduced. Both self-checks of the source are unreachable. |
| Reduce.ReduceBasis | src/blindsig_blns7933_reduce.cpp:111-197 | Keeps the relation and the coset, lowers the norm at least by one per accepted step; on convergence every shift is reduced, without it every pass allowed was made and shortened; must converge once the pass limit exceeds the initial squared norm. |
| Reduce.ReducedBound | src/blindsig_blns7933_reduce.cpp:66-86 | On convergence twice the inner product with any shift is at most the squared norm of (f, g). |
| Reduce.TranslateKeepsRelation | src/blindsig_blns7933_babai_reduce.cpp:231-242 | Adding any ring multiple of (f, g) to (F, G) keeps fG - gF = q. |
| GlobalReduce.BuildGram | src/blindsig_blns7933_babai_reduce.cpp:187-208 | The loop over the upper triangle fills the whole symmetric matrix of inner products of the shifts of (f, g). |
| GlobalReduce.GramHasNoKernel | src/blindsig_blns7933_babai_reduce.cpp:79-135 | For every solution of fG - gF = q with q nonzero that Gram matrix has no kernel: a vector it kills multiplies f and g to zero, and so q too. |
| GlobalReduce.Project | src/blindsig_blns7933_babai_reduce.cpp:79-135 | The real solve of a round returns the orthogonal projection of (F, G) on the real multiples of (f, g); both throws on a singular matrix are unreachable. |
| GlobalReduce.ReduceGlobally | src/blindsig_blns7933_babai_reduce.cpp:139-273 | For every integer polynomial the projections might be rounded to: each accepted round subtracts the rounded projection and shortens, relation and coset are kept, and the reason for stopping is the true one: nothing to subtract, no gain, or the limit; refused exactly on the constructor's and the input's conditions, with every later throw unreachable. |
| GlobalReduce.RoundsReduce | src/blindsig_blns7933_babai_reduce.cpp:210-262 | With rounding to nearest, a reduction that subtracted anything or had nothing to subtract leaves (F, G) with a projection of at most one half in every coefficient. |
| RealRing.MulReal | src/blindsig_blns7933_real_ring.cpp:102-128 | The double loop over exact reals computes the ring product of the padded operands; refused exactly on an over-long operand. |
| RealRing.HermitianAdjoint | src/blindsig_blns7933_real_ring.cpp:130-138 | The loop computes the adjoint of the padded operand; refused exactly on an over-long operand. |
| RealAdjoint.AdjMul | src/blindsig_blns7933_real_ring.cpp:130-138 | The adjoint of a product is the product of the adjoints. |
| RealAdjoint.InnerAdjoint | src/blindsig_blns7933_real_ring.cpp:130-138 | Multiplying by the adjoint is transposition with respect to the inner product. |
| RealSolve.Solve | src/blindsig_blns7933_real_ring.cpp:20-63 | Pivoting elimination and back substitution return a solution, or fail together with an explicit non-zero kernel vector. |
| RealRing.Div | src/blindsig_blns7933_real_ring.cpp:140-155 | Returns the quotient of the padded operands in the ring, or fails only when multiplication by the divisor has a non-zero kernel; refused exactly on an over-long operand. |
| RealRing.SplitPoly | src/blindsig_blns7933_real_ring.cpp:157-169 | Even and odd coefficients, of half the length. |
| RealRing.MergePoly | src/blindsig_blns7933_real_ring.cpp:171-182 | Interleaving, the inverse of splitting. |
| RealSplit.MergeSplit | src/blindsig_blns7933_real_ring.cpp:157-182 | Merging what was split gives the polynomial back. |
| RealForms.CompleteSquare | src/blindsig_blns7933_ldl.cpp:47-57 | The quadratic form of the Gram matrix is a square in one diagonal plus the Schur complement's form. |
| RealForms.SchurPositive | src/blindsig_blns7933_ldl.cpp:47-57 | The Schur complement of a positive definite self-adjoint Gram matrix is positive definite and self-adjoint. |
| RealForms.SplitPositive | src/blindsig_blns7933_ldl.cpp:93-116 | A positive definite diagonal, split into halves, gives a positive definite Gram matrix one level down. |
| RealForms.GramPositive | src/blindsig_blns7933_ldl.cpp:24-45 | The Gram matrix of a basis with fG - gF = q is self-adjoint and positive definite. |
| FalconTree.BuildGramMatrix | src/blindsig_blns7933_ldl.cpp:24-45 | The method computes the Gram matrix of the padded basis; refused exactly on an over-long polynomial. |
| FalconTree.LdlStep | src/blindsig_blns7933_ldl.cpp:47-57 | G = L D L* exactly, and the division cannot fail on a positive definite matrix. |
| TreeForms.NodeRepresents | src/blindsig_blns7933_ldl.cpp:47-57 | If the children represent the diagonal entries of the decomposition, the node represents the matrix. |
| TreeForms.HalfRepresents | src/blindsig_blns7933_ldl.cpp:93-116 | A tree that represents the half-size matrix of a self-adjoint diagonal entry represents that entry, with even and odd halves in the order sampling uses. |
| FalconTree.BuildRecursive | src/blindsig_blns7933_ldl.cpp:59-117 | On a positive definite matrix the recursion always returns: self-adjointness survives every split, so the degree-two check cannot fail. The tree has the shape its degree calls for and positive leaves, and it represents its matrix: for all u, v the form of the matrix is the sum of squares, weighted by (sigma / width) squared, that descending the tree with its multipliers gives. |
| FalconTree.BuildFalconTree | src/blindsig_blns7933_ldl.cpp:119-131 | The public entry: refused exactly when the degree is not a power of two of at least two; a tree it returns represents the matrix. |
| FastSampling.SamplingExactly | src/blindsig_blns7933_sampling.cpp:16-76 | Sampling meets a mismatch exactly over a tree that does not go with the degree, whatever the sampler draws; otherwise it returns integral polynomials of full length and makes twice the degree draws, each the sampler's answer in its order. |
| FastSampling.SamplingNeverFails | src/blindsig_blns7933_sampling.cpp:16-76 | Over a tree built at the same degree sampling never fails. |
| FastSampling.NearestPlane | src/blindsig_blns7933_sampling.cpp:43-76 | What sampling misses its target by, in the sum of squares the tree stands for, is exactly what its draws missed their centres by. |
| FastSampling.NearestPlaneLaw | src/blindsig_blns7933_sampling.cpp:43-76 | The nearest plane law: over a tree that represents a Gram matrix and for every draw, the form of the error is the sum over all draws of (sigma / width) squared times the squared distance of the value drawn from the centre it was drawn at. |
| Settlement.StepKeepsReachable | src/mediator.cpp:64-320 | Every accepted event leads from a reachable state to a reachable one. |
| Settlement.StepCounts | src/mediator.cpp:171-305 | Every accepted event but an abort brings the session exactly one event nearer to completion: a strict measure. |
| Settlement.NeverStuck | src/mediator.cpp:64-320 | From every reachable state short of the end some non-abort event is accepted. |
| Settlement.CanComplete | src/mediator.cpp:64-320 | Every session that is not aborted can be completed, in exactly the events its measure says. |
| Settlement.EventsOfACompletedSession | src/mediator.cpp:171-305 | A completed run accepted exactly 1 + 4 rounds + 2 events, plus one for a fee and one more for its confirmation. |
| SettlementScript.CompletedExactlyByScript | src/mediator.cpp:64-320 | A sequence of events is a completed session if and only if it is the script: who reports which transfer of which round, when the fee is due and confirmed, and where the gate is acknowledged, in one of the two orders. |
| SettlementScript.AcceptedExactlyByScript | src/mediator.cpp:64-320 | A sequence of events is accepted from the start, without an abort, if and only if it is a beginning of the script. |
| SettlementScript.EveryTransferReportedOnce | src/mediator.cpp:171-224 | In a completed session, for each round and party, the party reports its transfer as sent exactly once and the other party as received exactly once; the only further report is the creator's of the fee. |
| SettlementScript.ReportsAreProper | src/mediator.cpp:159-224 | In every run, aborted ones included: sent is reported by the sender and received by the other party, for this room and the round that follows those received in full, and a receipt comes right after the report of that very transfer. |
| Settlement.RestoreResumes | src/mediator.cpp:18-62 | From a restored session every continuation goes as it would have gone, once the acknowledgements forgotten by a restart inside the gate are given again. |
| Ledger.TranchesSum | src/protocol.cpp:399-408 | The tranches of all rounds add up to the total: integer division loses nothing. |
| Ledger.NeverMoreThanOneLegApart | src/mediator.cpp:102-157 | At every state of every run, aborted ones included, each party's acknowledged amount is the sum of its tranches for the finished rounds plus at most one, and the parties are at most one leg apart. |
| Ledger.CompletedSession | src/mediator.cpp:213-287 | At completion both totals have been exchanged exactly; the fee leg happened once at the configured position, or never without a fee; one receipt gate opened, acknowledged by both, just before the last transfer. |
| Ledger.GateGuardsTheLastTransfer | src/mediator.cpp:237-305 | A transfer can be announced with the gate untouched exactly while more than one is left; the last one only after both acknowledgements. |
| Ledger.RestoredSession | src/mediator.cpp:18-62 | Cut a run anywhere, restore and complete: same amounts, fee and gate, with only the forgotten acknowledgements as extra events. |
| FeePositionChange.RestartUnderAnotherPosition | include/tradep2p/mediator.hpp:99-123 | For every run, every cut, every new fee position and demand for confirmation: the restored session can be completed with both totals exchanged, one fee and one gate if and only if a check on phase, round and the two positions holds, and then every way of completing it does so. |
| FeePositionChange.HarmlessMeans | include/tradep2p/mediator.hpp:99-123 | That check says exactly: not aborted, both positions agree on whether the fee lies behind, and the new position could have reached the state or it is the fee leg before the last of several rounds restored with the fee before the first. |
| FeePositionChange.PastTheFinalGate | src/mediator.cpp:237-305 | Every session in the gate before a final fee, or in that fee leg, restored with an early one: no run completes it before the round counter has wrapped, and by then more than the totals has been paid. |
| FeePositionChange.NeverCompleted | src/mediator.cpp:237-305 | A concrete such session. |
| FeePositionChange.CompletedWithoutATrade | src/mediator.cpp:171-199 | A concrete session waiting for its early fee that, restored with the fee after the last round, completes on the fee alone with nothing exchanged and no gate. |
| FeePositionChange.FeeNeverPaid | src/mediator.cpp:18-62 | A concrete session with its fee after the last round that, restored with the fee before the first, completes without paying it. |
| FeePositionChange.FeePaidTwice | src/mediator.cpp:18-62 | A concrete session that pays before the first round and, restored with the fee after the last, pays again. |
| MediatorSession.Session.Create | src/mediator.cpp:8-16 | Accepts exactly the rooms whose terms, address, id and fee validate, in the initial state. |
| MediatorSession.Session.Resume | src/mediator.cpp:18-62 | Accepts exactly validating terms with round and leg in range; from the persisted part of a reachable state it yields that state with the gate acknowledgements cleared. |
| MediatorSession.Session.Join | src/mediator.cpp:64-87 | Refines the join event, for every session created or restored: accepted exactly when the protocol accepts it, with its next state; refused without effect; a reachable session stays reachable. |
| MediatorSession.Session.SenderReportedSent | src/mediator.cpp:171-211 | Refines the sent event, for tranches and for the fee leg, for every session created or restored under any fee position: accepted only from the sender it names, for this room and round. |
| MediatorSession.Session.ReceiverReportedReceived | src/mediator.cpp:213-224 | Refines the received event: accepted only from the party that is not the sender, for this room, round and sender; refused without effect. |
| MediatorSession.Session.AdvanceAfterReceipt | src/mediator.cpp:237-287 | The in-place advance equals the protocol's transition, the 32-bit round counter included. |
| MediatorSession.Session.ConfirmFeeReceived | src/mediator.cpp:226-235 | Refines the operator's confirmation, for every session created or restored. |
| MediatorSession.Session.AcknowledgeFinalReceipt | src/mediator.cpp:289-305 | Refines a gate acknowledgement, for every session created or restored; a second one by the same party is refused. |
| MediatorSession.Session.AbortSession | src/mediator.cpp:307-319 | Refines abort: refused only when complete; the stored reason is never empty and never over 128 characters: the one given, cut if longer, or the default for an empty one. |
| MediatorSession.Session.TurnIsWhatIsRecorded | src/mediator.cpp:128-157 | The turn announced before a leg asks for the sender's asset, sent to the other party's address, never zero; the two reports for that turn are accepted one after the other, and the sender's recorded payments have then grown by exactly the announced amount and nobody else's. |
| MediatorSession.Session.FeeTurnIsWhatIsRecorded | src/mediator.cpp:128-157 | The fee turn asks the creator for exactly the fee, in its asset and to its address; the report for it is accepted and counts as one fee leg of the ledger. |
| Bytes.DecodeEncodedAll | src/journal.cpp:50-156 | Reading back any written sequence of fields gives the same values and leaves exactly what follows. |
| Bytes.EncodeDecodedAll | src/journal.cpp:50-156 | Whatever can be read is the one writing of the values read. |
| JournalFormat.ParseEncoded | src/journal.cpp:235-274 | Parsing undoes the encoding of every record. |
| JournalFormat.EncodeParsed | src/journal.cpp:660-745 | A body that parses is the one encoding of its record. |
| JournalFormat.BodyIsBounded | src/journal.cpp:176-181 | No record the journal writes exceeds the length its reader accepts. |
| JournalFormat.HeadRoundTrip | src/journal.cpp:481-534 | Decoding undoes the encoding of every head pointer. |
| JournalFormat.HeadIsCanonical | src/journal.cpp:502-534 | A head file that decodes is the one encoding of its checkpoint, except exactly for version 2 naming the Ed25519 suite. |
| JournalReplay.PrefixReplays | src/journal.cpp:627-801 | Any byte prefix of a log of accepted records replays to exactly its whole records and reports nothing. |
| JournalReplay.ReplayedIsEncoded | src/journal.cpp:627-801 | Conversely a log that replays is, up to a torn tail, the encoding of accepted records. |
| JournalReplay.ReplaysExactly | src/journal.cpp:627-801 | A byte string replays without fault if and only if it is the encoding of accepted records followed by a torn tail: less than a header, or less than the admissible length it announces. |
| JournalReplay.LogReplays | src/journal.cpp:579-856 | Replaying everything a live journal wrote rebuilds entries, chain head, last checkpoint and per-trade states. |
| JournalRecovery.RollbackExactly | src/journal.cpp:808-856 | Against the head file of any checkpoint ever written, a log cut at any byte opens with its whole records, or reports rollback precisely when they hold no checkpoint as far along; never tampering. |
| JournalRecovery.CrashReopens | src/journal.cpp:858-992 | A crash at any byte of an append or checkpoint, or between log and head file, reopens without fault with the write in full or not at all, and leaves a disk the same holds for again. |
| JournalRecovery.EveryHistoryReopens | src/journal.cpp:579-992 | Over every history of writes, crashes and reopenings the journal never reports a fault and holds exactly the writes that reached the disk in full. |
| JournalBinding.ChainBinds | src/journal.cpp:235-256 | Two hash chains with equal heads after n entries agree on all n, or a position is returned where different inputs hash equally. |
| JournalBinding.LogsBind | src/journal.cpp:660-705 | Any two logs that replay and end with as many entries and the same chain head hold the same entries, or exhibit a collision. |
| JournalBinding.CheckpointBinds | src/journal.cpp:706-733 | A checkpoint found in two accepted logs pins the same entries up to the one it names, or exhibits a collision. |
| JournalGenuine.SignedBytesInjective | src/journal.cpp:276-284 | The bytes signed for a checkpoint determine its index, hash and time. |
| JournalGenuine.SuiteSignedBytesInjective | src/journal.cpp:286-297 | The same of the suite-tagged form, with the suite. |
| JournalGenuine.FormsAreDistinct | src/journal.cpp:194-200 | No bytes are signed for both forms. |
| JournalGenuine.EveryCheckpointWasMade | src/journal.cpp:706-775 | If the keys verify only what one journal signed, every checkpoint in any log that replays has the form, suite, index, hash and time of one that journal made. |
| JournalGenuine.OpenedIsGenuine | src/journal.cpp:579-856 | Under the same condition any log and head file that open hold, up to the last checkpoint, exactly the entries of that journal, or exhibit a collision; the head names a checkpoint it made, no further than the last one and with the hash of the entry in the log. |
| JournalObject.ReplayAcceptsWhatAppendWrites | src/journal.cpp:858-905 | Replay accepts an entry exactly when append, given its content, would have written that very entry. |
| JournalObject.StatesAreTracked | src/journal.cpp:685-697 | The rebuilt per-trade states are those the entries determine. |
| JournalObject.Journal.OpenFiles | src/journal.cpp:579-856 | The opening method reports the fault the specification gives, leaves the truncated log, and otherwise yields a journal whose files would reopen to the same state. |
| JournalObject.Journal.ReplayLog | src/journal.cpp:633-801 | The replay loop computes the specified replay. |
| JournalObject.Journal.Append | src/journal.cpp:858-905 | Refused without effect exactly on a malformed transition or an over-long mediator id; otherwise appends one record of the fields given, stamped with the clock if they carry no time, linked to the last entry, and the journal still reopens to its own state. |
| JournalObject.Journal.WriteCheckpoint | src/journal.cpp:907-940 | Refused only when empty; otherwise writes the signed checkpoint of the last entry to log and head, and the journal still reopens to its own state. |
| JournalObject.Journal.WriteCheckpointMlDsa65 | src/journal.cpp:942-992 | The same for the suite-tagged form, on a journal opened with or without the ML-DSA-65 key; afterwards the journal still reopens exactly when it has that key, and otherwise opening reports tampering. |
| JournalObject.Journal.ReopensAsIs | src/journal.cpp:579-856 | At any time, opening the files of a live journal rebuilds exactly its state, so later appends are accepted or refused identically. |
| JournalObject.Journal.LatestForTrade | src/journal.cpp:994-1001 | Finds the last entry of a trade, present exactly when the trade is tracked and carrying its tracked state. |
| Agreement.StepAdmitted | src/journal.cpp:308-351 | Step by step the journal's relation admits exactly the mediator's transitions other than the early-fee edges. |
| Agreement.CompletedSessionJournals | src/journal.cpp:308-351 | Journalling every phase of a completed session is accepted throughout exactly when the fee is zero or comes after the last round. |
| Agreement.EarlyFeeIsRefused | src/mediator.cpp:81-86 | A concrete completed session with an early fee that the journal refuses. |
| IssuanceSafety.StepIsSafe | src/blindsig_signer_q7933.cpp:197-293 | Every step of every worker, every failed call and every crash keeps the issuance rights safe, given fresh ticket ids. |
| IssuanceSafety.OneTicketPerContext | src/blindsig_signer_q7933.cpp:250-277 | Over every interleaving with failures and crashes anywhere: at most one durable ticket per context ever, its marker still there, no half-written ticket visible, and every ticket made is present or was collected. |
| IssuanceSafety.RollBackRemovesItsOwn | src/q7933_issuance_store.cpp:129-132 | Only a rollback removes a marker, only the one its own worker created in this boot, and only under a right that never got a ticket. |
| IssuanceSafety.RollBackFreesTheRight | src/blindsig_signer_q7933.cpp:250-277 | While a worker holds a right another's claim is rejected; after its rollback the claim succeeds. |
| IssuanceAccount.EveryTicketWasEarned | src/blindsig_signer_q7933.cpp:197-293 | Over every interleaving with fresh draws, failures and crashes: of every job at most as many tickets were ever made as verdicts let it pass, and at most as many verdicts as it was submitted; those made are those present and those collected; every ticket is of a job that passed and every marker of a context one of whose jobs passed. |
| IssuanceRest.NoRightIsBurned | src/blindsig_signer_q7933.cpp:250-277 | Without a crash and without a failed marker write or rollback, whatever else fails: every marker belongs to a ticket or to a job under way and every temporary file to one being written; at rest every marker has its ticket and no temporary file is left. |
| IssuanceProgress.EveryJobCanBeIssued | src/blindsig_signer_q7933.cpp:132-293 | From any state with an idle worker, an empty queue and room in the store, every job whose right is unused can be taken through to its durable ticket, under any free id. |
| IssuanceProgress.DrawsAgain | src/blindsig_ticket_store_q7933.cpp:361-375 | A worker draws again on an id that is taken, eight times in all, and only then gives up. |
| IssuanceCollision.CollidingDrawsIssueTwice | src/blindsig_ticket_store_q7933.cpp:225-250 | Without fresh ids there is a run in which one context gets two durable tickets. |
| IssuanceCapacity.StoreIsBounded | src/blindsig_ticket_store_q7933.cpp:341-376 | With an unlocked, non-atomic directory count the store never holds more than its limit plus all workers but one, over every interleaving. |
| IssuanceCapacity.QueueIsBounded | src/blindsig_signer_q7933.cpp:132-170 | The queue never exceeds its capacity. |
| IssuancePath.RecordNameInjective | src/q7933_issuance_store.cpp:47-57 | Different issuance contexts have different marker files. |
| Chunks.ChunkRoundTrip | src/blindsig_wire.cpp:189-213 | Encoding and decoding a chunk of admissible declared length are mutual inverses. |
| Chunks.ChunkAssembler.AddChunk | src/blindsig_wire.cpp:270-310 | The method's answer and fields are those of the assembly function, throws included. |
| Chunks.AssemblerAccepts | src/blindsig_wire.cpp:270-310 | The assembler takes exactly the streams that are in order, constant in their declarations and of the declared length, and holds exactly their concatenated data. |
| Chunks.ChunkedAssembles | src/blindsig_client_q7933.cpp:264-282 | Cutting up any non-empty request within the limit and feeding the pieces gives it back byte for byte; a longer one is refused. |
| Chunks.SendChunked | src/blindsig_client_q7933.cpp:264-282 | The loop emits the pieces in order, covering the request, and the assembler completes on them with the same bytes. |
| WireQ7933.RequestRoundTrip | src/blindsig_wire_q7933.cpp:217-304 | Encoding and decoding requests are mutual inverses, for raw and credential requests and for every byte string. |
| WireQ7933.ResponseRoundTrip | src/blindsig_wire_q7933.cpp:190-215 | Encoding and decoding responses with a known status are mutual inverses, signed coefficients included. |
| WireQ7933.SignatureFitsWire | src/blindsig_ntru_q7933.cpp:18-23 | Every coefficient of a signature within the production norm bound lies within 10499 of zero. |
| WireQ7933.SignatureTravels | src/blindsig_wire_q7933.cpp:190-215 | A signature within the bound converts to signed 16-bit words and comes back unchanged from its encoded response. |

## Left out

- HashToPoint.HashToPoint: takes a witness that the stream holds enough accepted words, since without one the loop does not end; that such a prefix exists is a probabilistic statement about SHAKE256.
- IssuanceSafety.StepIsSafe: like the results over runs that rest on it, assumes that no two workers hold the same drawn ticket id at once; `IssuanceCollision.CollidingDrawsIssueTwice` shows why. That 32 random bytes make this so is probabilistic. That freshness is also necessary in each single run is not claimed.
- KeyGeneration.Generate: runs over a finite sequence of drawn candidates; that the loop ends is probabilistic.
- MediatorSession.Session.Resume: a persisted state that no session could have reached is accepted as the code accepts it and the methods cover it, but the theorems over whole runs start from a new session or from what one persisted.
- Sign.RoundToPolyQ: takes the decimal library's conversion to 64 bits to stop at the ends of the range.
- ModRing.MulQ: does not model 64-bit overflow of intermediate products, which cannot occur for the production modulus.
- RealSolve.Solve: the 256-digit decimals are exact reals, so the singularity threshold is zero and rounding error does not exist; the same holds for the tree, the sampling centres and division.
- GlobalReduce.ReduceGlobally: the rounded projections are arbitrary integer polynomials, so nothing is said about how many rounds are accepted; `GlobalReduce.RoundsReduce` takes them to be nearest.
- FalconTree.BuildRecursive: the square root is any function that is positive on positive numbers; that the tree represents its matrix is stated for one that is exact on them.
- The Gaussian samplers, the generator of randomness and the quality bound: distributions are not modelled.
- Bit lengths and other diagnostics of the solver and the reducers.
- Write errors that leave a live journal in use after a partial write; a torn write is always a crash here, and fsync is taken to have worked.
- The journal's trade-id keys are the ids themselves instead of their hexadecimal text.
- mark_signed, find, list_pending and the ticket file's own codec, and the signing of a ticket by the operator: they add easy members only.
- The reply callbacks, the subprocess that verifies proofs and the temporary receipt file: a verdict is an arbitrary boolean.
- ready_message of the session and the wire encoding of turns.
- The q = 12289 signer and client, the keystores, HTTP dashboards, history, login, recognition, disclosure, registry and lobby modules.
- Wiping of secrets from memory.
- Working in place: the elimination matrices, coefficient vectors and buffers are sequences reassigned by the loops; no two of them alias in the source.
