# A verified model of Brix's proof kernel, canonical codec and knowledge base

Four connected parts of the repository are modelled and proved.

- **The proof kernel and the elaborator that feeds it.** `KernelTerms` and
  `KernelRules` give the terms and the typing rules of the acceptance procedure
  as functions that carry the step budget. `KernelChecker` is the procedure as
  it runs: one mutable budget, one mutable hypothesis stack, the λ-spine and the
  right-nested composition chain walked by loops. It refines the rules, the
  loops agree with recursion (`KernelRefinement`), it accepts exactly what a
  derivation system without budgets derives (`KernelDerivations`,
  `KernelCompleteness`), what it carefully accepts is true (`KernelModels`,
  `KernelSoundness`, `KernelScoping`, `KernelConservativity`;
  `KernelCounterexamples` shows what care is for), and its budget is real
  (`KernelBudget`). `ElabTree`, `ElabProofs`, `ElabDecides` and `ElabBuilder`
  build a proposition and a de Bruijn term from a derivation tree, prove when the
  kernel accepts it, and verify an untrusted term by deriving all of it again.
- **The order-preserving codec and exact decimals.** `CanonBytes`, `IntCodec`,
  `Decimal` and `DecimalReader` prove that byte order is numeric order and that
  reading inverts writing; the second encoder of the cross-check script gives the
  same bytes. `Fractions`, `DecimalMath`, `DecimalDivision` and `DecimalText`
  prove division, rounding and decimal text against real numbers.
- **The revision store.** `KbStore`, `KbRuns`, `KbCommits` and `KbOps` are a
  store of files on a machine that may stop between any two writes, with HEAD as
  the commit point, for any file format that reads back what is within its
  bounds; `RevisionJson`, `RevisionGrammar` and `RevisionFiles` are the JSON format
  of revision records, and `KbFiles` proves that it is such a format. `Utf8`,
  `CanonFraming`, `Revision` and `Certificate` are the encodings behind the hash
  chain and the certificate envelope.
- **What a decision depends on, and the strict JSON reader.** `DecisionPlan`,
  `PlanRuns`, `DepGraph`, `DepPaths` and `KbDiff` prove what a run is, that the
  static dependency graph is exactly the paths of references and means
  non-interference, and what a diff of two revisions says; `StrictJson`,
  `JsonGrammar`, `JsonRoundTrip` and `JsonParser` prove the reader against a
  grammar written without it, and against every printer.

Where the source works by updating state, the model has a class or a method with
loops, each proved equal to a specification function; the theorems are about
that function. Digests of the kernel, hashes, Unicode folding, lowering and the
decisions of a complete run are parameters, so every theorem holds for every
choice of them, under the hypotheses it names.

Places where the code does not do what one might expect, each with an input that
shows it and an account of when it does:

- **Capture.** The kernel's substitution does not treat the motive of a
  `Preserves` as a binder, though its comment calls it capture-avoiding, and
  nothing tests that the objects written in a term are closed. It is
  capture-avoiding if and only if no open object is substituted under a
  `Preserves` (`KernelModels.InstantiateAvoidsCapture`); a closed goal that is
  false is accepted by a term that does so
  (`KernelCounterexamples.CaptureAcceptsAFalsehood`).
- **One identity for all open witnesses.** Every variable has the same witness
  identity, so composition and tensor can take one open witness for another
  (`KernelCounterexamples.SentinelAcceptsAFalsehood`).
- **Eigenvariables.** The one that `Unpack` invents is compared with the
  conclusion only; a hypothesis may already speak of it
  (`KernelCounterexamples.UnpackAcceptsAFalsehood`), and if it occurs nowhere, a
  constant composed from it still gives it away
  (`KernelCounterexamples.ComposedConstantAcceptsAFalsehood`). It is also named
  after the steps left (`KernelBudget.UnpackDependsOnBudget`).
- Hence soundness is stated for *careful* runs, `Unpack` and open objects
  included: no instantiation captures, only closed witnesses free of
  eigenvariables are compared by identity, no registry row names an
  eigenvariable, and every eigenvariable is unused when it is chosen. A caller can
  test this by following the run (`KernelSoundness.CheckCareful`), and two
  conditions on the term and the goal alone imply it
  (`KernelScoping.TameIsCareful`).
- The unrolled composition loop can report a different first failure than
  recursion (`KernelRefinement.FirstFailureCanDiffer`).
- **Records that cannot be read back.** A revision record longer than 1 MiB is
  written but not read. The comment on that bound says that no record is that
  long, but a result reports every declared input without a value in a line of
  its own, and nothing bounds their number below what a 1 MiB source can declare:
  a program of 30,841 inputs and no values makes `init` commit such a record,
  after which `verify` fails and no operation commits again
  (`KbFiles.UnsetInputsOversize`, `KbRuns.OversizedRecordSticks`). In every run
  `verify` succeeds if and only if the last record's printed text is within the
  bound and its number is an `i64` (`KbFiles.RealRunsVerify`).

## Model

| member | source | states |
|---|---|---|
| KernelSoundness.AcceptanceSound | crates/brix-kernel/src/check.rs:77-110 | whatever the kernel accepts in a careful run, by any term, `Unpack` included, for any proposition, open or closed, is true in every model in which realizations respect witness identity, are closed under composition and tensor, and contain every registry row |
| KernelSoundness.CheckSound | crates/brix-kernel/src/check.rs:149-206 | careful checking is sound under any true hypothesis stack |
| KernelSoundness.InferSound | crates/brix-kernel/src/check.rs:515-530 | careful synthesis gives a true proposition under any true hypothesis stack |
| KernelSoundness.UnpackSound | crates/brix-kernel/src/check.rs:246-303 | opening an existential is sound when its eigenvariable is unused: the constant may be given the value that exists, and the goal does not notice |
| KernelSoundness.PresSound | crates/brix-kernel/src/check.rs:799-833 | carrying a motive along a realization is sound for the forward reading of Preserves |
| KernelModels.InstantiateAvoidsCapture | crates/brix-kernel/src/term.rs:216-300 | the de Bruijn substitution behind every rule is capture-avoiding if and only if no open object is substituted under a `Preserves` |
| KernelModels.AvoidHolds | crates/brix-kernel/src/term.rs:216-222 | capture-avoiding substitution of any object, open or closed, is evaluation at its value |
| KernelModels.InstantiateHolds | crates/brix-kernel/src/term.rs:216-300 | hence so is the kernel's, wherever it captures nothing |
| KernelScoping.TameAcceptanceSound | crates/brix-kernel/src/check.rs:77-110 | soundness for whoever looks only at an Unpack-free term and the goal: all written objects are closed, or witnesses are closed and no motive mentions a binder around it |
| KernelScoping.TameIsCareful | crates/brix-kernel/src/check.rs:77-110 | under either condition every accepting run is careful |
| KernelCounterexamples.CaptureAcceptsAFalsehood | crates/brix-kernel/src/term.rs:265-300 | a closed goal, false in an admissible model, that the kernel accepts by an Unpack-free term because a motive's hole captures an open witness |
| KernelCounterexamples.SentinelAcceptsAFalsehood | crates/brix-kernel/src/term.rs:39-41 | variables share one witness identity: what one open witness realizes is accepted of another |
| KernelCounterexamples.UnpackAcceptsAFalsehood | crates/brix-kernel/src/check.rs:278-293 | the eigenvariable is compared with the conclusion alone, so a proposition false in an admissible model is accepted when a hypothesis already names its constant |
| KernelCounterexamples.ComposedConstantAcceptsAFalsehood | crates/brix-kernel/src/check.rs:376-437 | that the eigenvariable occurs nowhere in goal and hypotheses is not enough: the identity of a constant composed from it suffices |
| KernelConservativity.AcceptedRealizationIsDerived | crates/brix-kernel/src/check.rs:675-712 | a realization accepted in a careful run is one the registry rows already yield by composition and tensor, with the same endpoints and witness identity |
| KernelConservativity.AcceptanceConsistent | crates/brix-kernel/src/check.rs:77-110 | in careful runs no atom is proved outright and no two distinct objects are proved equal |
| KernelRefinement.CheckAgrees | crates/brix-kernel/src/check.rs:149-206 | the rules with the unrolled composition chain and the plain recursive rules succeed together, with equal results and steps left; where they differ both fail, the loop with a mismatch |
| KernelRefinement.CompAgrees | crates/brix-kernel/src/check.rs:837-993 | the unrolled chain gives the same proposition, left-folded witness and steps left as recursion whenever either succeeds |
| KernelRefinement.FirstFailureCanDiffer | crates/brix-kernel/src/check.rs:920-935 | which failure is reported first does differ: a four-step budget on which the loop reports a mismatch and recursion exhaustion |
| KernelBudget.BudgetSuffices | crates/brix-kernel/src/check.rs:37-69 | two steps a node and two depth units a level never run out, on any term, Unpack included |
| KernelBudget.VerdictIsFinal | crates/brix-kernel/src/check.rs:174-206 | on Unpack-free terms every verdict other than exhaustion is unchanged under every larger budget |
| KernelBudget.UnpackDependsOnBudget | crates/brix-kernel/src/check.rs:771-792 | Unpack-freeness is needed for that: one goal refused as malformed on a budget and accepted on the next |
| KernelCompleteness.AcceptanceExact | crates/brix-kernel/src/check.rs:77-110 | the implemented procedure accepts if and only if the contexts agree and there is a derivation, in a system with one constructor a rule that knows neither budgets nor the procedure, whose eigenvariables are the ones chosen and which the budget reaches: as many steps and depth units as the derivation has |
| KernelCompleteness.DerivedIsAccepted | crates/brix-kernel/src/check.rs:77-110 | completeness: a derivation, at the eigenvariables that are chosen, is accepted on two steps a node and two depth units a level |
| KernelCompleteness.DerivableIffAccepted | crates/brix-kernel/src/check.rs:77-110 | for terms without `Unpack`, acceptance on any ample budget is derivability |
| KernelCompleteness.FoundIsChecked | crates/brix-kernel/src/check.rs:214-512 | whether a rule looks at the goal makes no difference without `Unpack`: what is derived by synthesis is derived by checking |
| KernelCompleteness.ContainsExact | crates/brix-kernel/src/check.rs:112-147 | the test for an eigenvariable finds an object exactly where it is a part of an object of the proposition |
| KernelDerivations.CheckFinds | crates/brix-kernel/src/check.rs:214-512 | for every derivation, rule by rule: checking succeeds with exactly the steps left that the derivation does not take, if the budget reaches, and is exhausted otherwise |
| KernelDerivations.CheckDerives | crates/brix-kernel/src/check.rs:214-512 | the converse: from every successful check a derivation is built with the same steps, levels and eigenvariables |
| KernelDerivations.InferFinds | crates/brix-kernel/src/check.rs:541-673 | the same of synthesis, from derivation to run |
| KernelDerivations.InferDerives | crates/brix-kernel/src/check.rs:541-673 | and from run to derivation |
| KernelDerivations.LookupDenotes | crates/brix-kernel/src/check.rs:548-568 | an index denotes the hypothesis it counts to from the innermost, a name the innermost hypothesis that has it |
| KernelChecker.Checker.CheckType | crates/brix-kernel/src/check.rs:149-206 | the λ-spine loop with its pushes and pops returns the recursive rule's result and steps, with hypothesis stack and depth restored on every exit |
| KernelChecker.Checker.CheckRule | crates/brix-kernel/src/check.rs:214-512 | each checking rule, run on the mutable state, equals its specification and restores stack and depth |
| KernelChecker.Checker.InferRealizesComp | crates/brix-kernel/src/check.rs:837-993 | the chain loop, which collects witnesses and folds them from the end, equals the chain rule and restores the depth it took |
| KernelChecker.Checker.InferUnpack | crates/brix-kernel/src/check.rs:741-796 | opening an existential in synthesis pushes one hypothesis, pops it on every exit, and refuses a result that mentions the eigenvariable |
| KernelChecker.Accept | crates/brix-kernel/src/check.rs:77-110 | a run of the mutable machine on a fresh budget gives the acceptance verdict |
| ElabProofs.ElaborationComplete | crates/brix-elaborate/src/tree_proof.rs:365-408 | for every well-formed tree and every admissible choice of closed leaves the built term is accepted against the built proposition or the budget runs out, and never the latter on an ample budget |
| ElabProofs.EmitInfers | crates/brix-elaborate/src/tree_proof.rs:317-355 | the emitted term synthesizes the tree's realization: every index `binders-1-open` hits its own hypothesis, in exactly one step a node |
| ElabProofs.ClassifyLeafCloses | crates/brix-elaborate/src/tree_proof.rs:259-268 | a leaf is closed by a candidate relation that admits it, and left open exactly when none does |
| ElabProofs.ElaboratedProofMeans | crates/brix-elaborate/src/lib.rs:308-360 | end to end: where the open leaves hold, so does the composite realization of an elaborated tree, in every admissible model |
| ElabDecides.ElaborateDecides | crates/brix-elaborate/src/lib.rs:308-360 | elaboration succeeds if and only if the structure was verified, the tree is well formed and the budget reaches the exact cost of the built proof; the error says which; every leaf then has one occurrence, in order, closed exactly when some candidate closes the leaf, and the antecedents are the rest |
| ElabDecides.BuiltProofDecides | crates/brix-elaborate/src/tree_proof.rs:365-408 | the built proof of a well-formed tree is accepted if and only if the budget has a step for every node and binder and a depth unit for every level and binder, one more of each for a single leaf; on any smaller budget it is exhausted |
| ElabDecides.AcceptedIffWellFormed | crates/brix-elaborate/src/lib.rs:319-324 | submitted all the same, the proof built for a tree that is not well formed is not accepted on any budget that would suffice |
| ElabDecides.RelationClosesExact | crates/brix-elaborate/src/tree_proof.rs:240-256 | a relation may close a leaf if and only if it is a typing relation and the kernel has a row of it that says what the leaf says |
| ElabDecides.FirstCandidate | crates/brix-elaborate/src/tree_proof.rs:259-268 | the candidate chosen is the first that closes the leaf |
| ElabProofs.ReadRecovers | crates/brix-elaborate/src/tree_proof.rs:471-505 | reading a term back recovers exactly the closure pattern it was emitted for |
| ElabProofs.VerifyExact | crates/brix-elaborate/src/tree_proof.rs:518-568 | verification of an untrusted term succeeds with a given pattern if and only if the term is that pattern's canonical term, in the right context, the pattern is admissible and the kernel accepts |
| ElabProofs.VerifiedAccount | crates/brix-elaborate/src/tree_proof.rs:432-460 | a verified proof's antecedents are exactly its open occurrences in leaf order, and every closed one is a registry row for that leaf |
| ElabProofs.RecheckExact | crates/brix-elaborate/src/tree_proof.rs:190-222 | an elaborated proof rechecks if and only if the derivation and the context are its own and the budget does not run out |
| ElabProofs.RecheckOnLargerBudget | crates/brix-elaborate/src/tree_proof.rs:210-222 | it rechecks on every budget at least as large as the one it was elaborated on |
| ElabTree.WitnessRoutesAgree | crates/brix-elaborate/src/lib.rs:206-240 | the witness object of a tree has the witness identity the tree itself carries |
| ElabBuilder.Cursor.EmitTerm | crates/brix-elaborate/src/tree_proof.rs:317-355 | the cursor walk emits the specified term and moves by the leaves and open leaves passed |
| ElabBuilder.BuildProof | crates/brix-elaborate/src/tree_proof.rs:365-408 | the loops build the implication from the last antecedent back and one binder per open leaf |
| ElabBuilder.Sink.Read | crates/brix-elaborate/src/tree_proof.rs:471-505 | the pushing reader appends the pattern the term shows, and fails exactly where shapes differ |
| ElabBuilder.VerifyTree | crates/brix-elaborate/src/tree_proof.rs:518-568 | the imperative verifier, running the mutable kernel, equals the specified verification |
| ElabBuilder.ElaborateDecomposition | crates/brix-elaborate/src/lib.rs:126-194 | the loops over a chain of n ≥ 1 steps build the tree proof of the left-nested tree with every leaf open |
| ElabBuilder.ElaborateDecompositionAccepted | crates/brix-elaborate/src/lib.rs:126-194 | every such chain is accepted, with five steps and three depth units a generator, or the budget runs out |
| IntCodec.UintOrder | crates/brix-canon/src/int_codec.rs:41-51 | unsigned encodings compare as the numbers do whatever follows them, and none is a prefix of another |
| IntCodec.IntOrder | crates/brix-canon/src/int_codec.rs:75-93 | the same for signed values over all of i128, negatives complemented |
| IntCodec.DecodeUintExact | crates/brix-canon/src/int_codec.rs:54-72 | decoding returns a value if and only if its encoding is at the front of the input, and takes exactly those bytes |
| IntCodec.DecodeIntExact | crates/brix-canon/src/int_codec.rs:96-139 | the same for signed values: the decoder accepts the encoder's output followed by anything, and nothing else |
| IntCodec.EncodeUint | crates/brix-canon/src/int_codec.rs:41-51 | skipping the leading zero bytes of the sixteen-byte form appends the minimal encoding |
| IntCodec.EncodeInt | crates/brix-canon/src/int_codec.rs:75-93 | the signed encoder appends category and magnitude, complemented when negative |
| IntCodec.ReadUint | crates/brix-canon/src/int_codec.rs:54-72 | the accumulating decoder equals the specified decoder, errors included; sixteen bytes never overflow |
| IntCodec.ReadInt | crates/brix-canon/src/int_codec.rs:96-139 | the signed decoder equals the specified one, i128::MIN and every error included |
| IntCodec.ScriptUintAgrees | scripts/canon_crosscheck.py:67-80 | the second encoder gives the same bytes on all of u128 and refuses exactly the rest |
| IntCodec.ScriptIntAgrees | scripts/canon_crosscheck.py:83-102 | the second encoder gives the same bytes on all of i128 |
| CanonBytes.ComplementReverses | crates/brix-canon/src/decimal.rs:113-135 | complementing reverses the byte order of strings that differ before either ends |
| CanonBytes.ComplementKeepsPrefixOrder | crates/brix-canon/src/decimal.rs:30-35 | and only of those: a strict prefix stays first after complementing, so prefix-freeness is needed |
| Decimal.DecimalOrder | crates/brix-canon/src/decimal.rs:139-151 | for all i128 coefficients and u8 scales, byte order of the encodings is the order of unscaled·10^-scale whatever follows them, and equal bytes mean equal numbers |
| Decimal.NumberIsQuotient | crates/brix-canon/src/decimal.rs:38-51 | the number meant is the coefficient divided by the power of ten |
| Decimal.NewDenotes | crates/brix-canon/src/decimal.rs:57-72 | normalizing keeps the number, never raises the scale and leaves no trailing zero behind the point |
| Decimal.NormalUnique | crates/brix-canon/src/decimal.rs:40-47 | two normal decimals denote one number exactly when they are equal |
| Decimal.NewDecimal | crates/brix-canon/src/decimal.rs:57-72 | the normalization loop computes the specified normal form |
| Decimal.CanonWrite | crates/brix-canon/src/decimal.rs:120-136 | the writer, digits pushed and magnitudes complemented, appends the specified encoding |
| Decimal.ScriptDecimal | scripts/canon_crosscheck.py:150-178 | trimming the digit string in the cross-check script gives the same bytes as normalizing first, for every coefficient and scale |
| DecimalReader.ReadBack | crates/brix-canon/src/decimal.rs:159-227 | reading an encoding followed by arbitrary bytes gives the value and takes exactly its bytes, i128::MIN included |
| DecimalReader.ReadExact | crates/brix-canon/src/decimal.rs:159-227 | bytes are read as a decimal if and only if they are the zero sign, or a sign, an exponent, at least one digit and the terminator, complemented behind the negative sign, whose scale is a byte and whose coefficient is an i128 |
| DecimalReader.CanonicalBytes | crates/brix-canon/src/decimal.rs:159-227 | of those, the bytes are the encoder's own if and only if no zero stands in front of the digits and none at their end behind the point |
| DecimalReader.Read | crates/brix-canon/src/decimal.rs:159-227 | the byte-at-a-time reader, complementing as it goes, equals the reader that complements the whole tail first, errors included |
| DecimalReader.AccumulateDigits | crates/brix-canon/src/decimal.rs:208-222 | checked accumulation with the sign applied at each step overflows exactly when the whole coefficient does |
| Fractions.CoprimeDivides | crates/brix-canon/src/decimal_math.rs:156-161 | what shares no factor with a numerator and divides its multiple divides the other factor (Euclid's lemma, from the combination the gcd is) |
| Fractions.ReducedMeans | crates/brix-canon/src/decimal_math.rs:163-196 | cancelling before and after scaling leaves the exact ratio in lowest terms |
| Fractions.GcdLoop | crates/brix-canon/src/decimal_math.rs:156-161 | the loop computes the greatest common divisor |
| DecimalMath.RatioIsExact | crates/brix-canon/src/decimal_math.rs:165-196 | the reduced fraction and its sign are the exact quotient moved to the output scale |
| DecimalMath.DivRoundIsRounding | crates/brix-canon/src/decimal_math.rs:220-249 | on all admitted operands the result is the rounding its mode prescribes for the exact quotient, refused only when the reduced fraction or that rounding does not fit |
| DecimalMath.RoundingIsUnique | crates/brix-canon/src/decimal_math.rs:233-243 | each mode prescribes at most one integer: its defining inequality, half-even ties on even |
| DecimalMath.LongDivideMeans | crates/brix-canon/src/decimal_math.rs:198-216 | at every scale of the long division coefficient and remainder make up the quotient; it stops at the least exact scale, or because none up to 18 is exact, or on an overflow |
| DecimalMath.SumsAreExact | crates/brix-canon/src/decimal_math.rs:106-132 | sums and differences are exact, and subtracting what was added gives a normal operand back |
| DecimalMath.ProductsAreExact | crates/brix-canon/src/decimal_math.rs:145-154 | products are exact and within scale |
| DecimalMath.SumsDecide | crates/brix-canon/src/decimal_math.rs:106-143 | a sum, difference or negation is given if and only if the scales are admitted and, at the larger scale, operands and result are within the i128 range |
| DecimalMath.ProductsDecide | crates/brix-canon/src/decimal_math.rs:145-154 | a product is r if and only if the product of the coefficients is an i128 and r is the normal decimal of scale at most 18 that equals it |
| DecimalDivision.DivExactDecides | crates/brix-canon/src/decimal_math.rs:198-216 | exact division returns r if and only if r is the normal decimal of scale at most 18 equal to a/b: it succeeds on every representable quotient, so no intermediate of one overflows |
| DecimalDivision.InexactMeansNoDecimal | crates/brix-canon/src/decimal_math.rs:198-216 | a refusal as inexact means no coefficient of any size with scale at most 18 is the quotient |
| DecimalDivision.RatioOf | crates/brix-canon/src/decimal_math.rs:165-196 | cancelling and checked scaling on 128-bit values compute the specified ratio; powers and quotients always fit |
| DecimalDivision.LongDivisionLoop | crates/brix-canon/src/decimal_math.rs:198-216 | the loop computes the specified long division, overflow checks in the same places |
| DecimalDivision.DecimalDivExact | crates/brix-canon/src/decimal_math.rs:198-216 | the code equals the specified exact division, errors included |
| DecimalDivision.DecimalDivRound | crates/brix-canon/src/decimal_math.rs:220-249 | the code equals the specified rounded division, errors included |
| DecimalText.ParseOfFormat | crates/brix-canon/src/decimal_math.rs:56-100 | formatting and parsing back gives every normal decimal of scale at most 18 |
| DecimalText.FormatIsShortest | crates/brix-canon/src/decimal_math.rs:87-100 | no shorter text parses to the decimal than the one written, and no other of that length: no sign on what is not negative, no needless zero in front or behind |
| DecimalText.ParseDenotes | crates/brix-canon/src/decimal_math.rs:56-85 | a parse succeeds on written text exactly when some admitted decimal is the number all its digits spell, and then gives that one |
| DecimalText.ParsedIsWritten | crates/brix-canon/src/decimal_math.rs:56-71 | text other than a sign, digits and at most one point with digits behind it is refused as invalid |
| DecimalText.AccumulateText | crates/brix-canon/src/decimal_math.rs:76-82 | the checked 128-bit accumulation fails exactly when the digits spell 2^128 or more |
| CanonFraming.TakeBytesExact | crates/brix-canon/src/lib.rs:595-601 | a framed field is taken off the front exactly when its frame stands there, with its bytes alone |
| CanonFraming.TakeUintExact | crates/brix-canon/src/lib.rs:549-553 | the same for a 64-bit integer |
| CanonFraming.WriteList | crates/brix-canon/src/lib.rs:331-340 | the list writer appends a count and each element framed, in order |
| CanonFraming.ReadFrame | crates/brix-canon/src/lib.rs:595-601 | the reader's position moves as specified and overlong lengths are refused |
| Certificate.DecodeExact | crates/brix-kernel/src/certificate.rs:197-239 | an envelope decodes to given fields if and only if it is byte for byte their encoding and the term claims the envelope's context |
| Certificate.ValidateExact | crates/brix-kernel/src/certificate.rs:245-265 | validation succeeds exactly on the encoding of the expected material whose term embeds the requested context, and returns that encoding's identity |
| Certificate.NoPrefixDecodes | crates/brix-kernel/src/certificate.rs:216-222 | no extension of a decodable envelope decodes, hence no strict prefix of one |
| Certificate.DecodeMaterial | crates/brix-kernel/src/certificate.rs:197-239 | the reader walks the seven fields in order with the specified error for each |
| Certificate.EncodeMaterial | crates/brix-kernel/src/certificate.rs:160-172 | the writer produces the specified envelope |
| Utf8.EncodeInjective | crates/brix-kb/src/revision.rs:437-441 | the bytes of a text, which the preimage holds, determine it |
| Revision.PreimageDetermines | crates/brix-kb/src/revision.rs:316-331 | two records share a digest preimage if and only if they agree up to NFC folding of names; on folded names the preimage is injective |
| Revision.SameDigestSameRecord | crates/brix-kb/src/revision.rs:316-331 | a hash that does not collide on two preimages tells their records apart |
| Revision.HeadPinsHistory | crates/brix-kb/src/ops.rs:826-895 | the digest of the last record of a chain pins every record before it and their number |
| Revision.DigestsPin | crates/brix-kb/src/ops.rs:826-895 | where digests tell records apart up to folding, equal last digests pin two chains record by record up to folding |
| Revision.Digest | crates/brix-kb/src/revision.rs:316-331 | the writer appends tag, number, parent, ids, paths, change and result in that order before hashing |
| Revision.WriteChange | crates/brix-kb/src/revision.rs:60-77 | each change writes its ordinal and its own payload |
| Revision.WriteResult | crates/brix-kb/src/revision.rs:207-230 | a result writes status, optional candidate, four optional digests and diagnostics |
| KbRuns.RunsAreSound | crates/brix-kb/src/ops.rs:200-214 | in every run, at every moment, crashes between any two writes included: HEAD names the end of an unbroken chain of stored, reproducible revisions, and no committed revision is ever altered or lost |
| KbRuns.ScriptSafe | crates/brix-kb/src/ops.rs:379-668 | an operation cut short anywhere leaves the history as it was or grown by exactly the record it reports; run to the end it commits exactly when it reports one |
| KbStore.PastHeadKeeps | crates/brix-kb/src/ops.rs:194-199 | a revision file past HEAD is not history, and writing over such an orphan changes none |
| KbStore.HeadCommits | crates/brix-kb/src/ops.rs:200-214 | moving HEAD commits exactly one reproducible record whose parent is the old HEAD digest |
| KbStore.ManifestCommits | crates/brix-kb/src/ops.rs:442-466 | for `init` the manifest, written last, is the commit point |
| KbRuns.VerifyExact | crates/brix-kb/src/ops.rs:826-895 | for any faithful file format, `verify` accepts a directory, however it came about, if and only if it holds an unbroken chain of readable, reproducible revisions that HEAD names |
| KbRuns.RunsVerify | crates/brix-kb/src/ops.rs:826-895 | in every run `verify` succeeds if and only if the last record is within the bounds of the reader |
| KbRuns.InitVerifies | crates/brix-kb/src/ops.rs:379-466 | the knowledge base `init` makes passes `verify` if and only if its first record is within the bounds |
| KbFiles.RealVerifyExact | crates/brix-kb/src/ops.rs:826-895 | with JSON files, undecodable ones and stale digests among them: `verify` accepts if and only if the files decode to such a chain, each with its own digest |
| KbFiles.RealRunsVerify | crates/brix-kb/src/ops.rs:826-895 | in every run `verify` succeeds if and only if the last record's printed text has at most 1 MiB and its number is an `i64` |
| KbFiles.RealIsFaithful | crates/brix-kb/src/revision.rs:333-428 | the JSON format reads back every record within the bounds and refuses every other, so what is proved of the store holds of it |
| KbFiles.UnsetInputsOversize | crates/brix-kb/src/ops.rs:324-337 | a program that declares too many inputs and an empty snapshot: `init` commits a record beyond the bound and `verify` then fails |
| KbFiles.ReplayExact | crates/brix-kb/src/pipeline.rs:77-102 | replaying valid values reports missing inputs if and only if some declared input has none, with a line for each, in the order of declaration, and nothing decided |
| KbFiles.RealHeadPinsHistory | crates/brix-kb/src/ops.rs:826-895 | two knowledge bases that verify with the same HEAD digest hold the same revisions up to the folding of names, and the same ones if names are folded, absent a hash collision on their preimages |
| RevisionFiles.StoredDigestDecides | crates/brix-kb/src/revision.rs:352-428 | a file with a record's fields and any stored digest reads as malformed beyond the bounds, as the record if the digest is its own, and as a digest mismatch otherwise |
| RevisionFiles.WrittenReadsBack | crates/brix-kb/src/revision.rs:333-428 | writing a record and reading the file gives the record back within the bounds and is refused beyond them |
| RevisionFiles.EditIsRefused | crates/brix-kb/src/revision.rs:413-426 | fields edited without the digest are refused, unless the hash collides |
| RevisionFiles.DiagnosticsTakeSpace | crates/brix-kb/src/revision.rs:232-242 | a printed record is at least as long as its diagnostics with their quotes, line breaks and indentation |
| RevisionJson.RecordBack | crates/brix-kb/src/revision.rs:352-412 | decoding undoes the document that is written, field by field, nulls, changes and statuses included |
| RevisionGrammar.FileExact | crates/brix-kb/src/revision.rs:352-428 | any text is accepted as the file of a record if and only if it is within the bound and spells a document of that record with the record's digest: keys in any order and no other, hexadecimal in either case, null or nothing for what is absent, white space and escapes as one likes |
| RevisionGrammar.RecordExact | crates/brix-kb/src/revision.rs:352-412 | a document decodes to a record and a digest if and only if it spells them, for every change and status |
| RevisionJson.HexToDigest | crates/brix-kb/src/revision.rs:451-468 | the loops accept exactly 64 hexadecimal digits and fill the 32 bytes they spell |
| RevisionJson.HexBack | crates/brix-kb/src/revision.rs:451-468 | a digest reads back from its hexadecimal form |
| KbRuns.OversizedRecordSticks | crates/brix-kb/src/ops.rs:244-254 | after it no operation commits again |
| KbRuns.HeadDigestPinsHistory | crates/brix-kb/src/ops.rs:826-895 | for any faithful file format, two knowledge bases that verify with the same HEAD digest hold the same revisions, absent a digest collision among their records |
| KbRuns.AssertMerges | crates/brix-kb/src/ops.rs:476-537 | asserting merges the values into the inputs, newer ones winning, and keeps the program |
| KbRuns.RetractRemoves | crates/brix-kb/src/ops.rs:543-604 | retracting removes exactly the named values, each of which was set |
| KbRuns.ProgramKeepsAccepted | crates/brix-kb/src/ops.rs:610-668 | changing the program keeps exactly the values its declarations accept one by one |
| KbRuns.RetractUndoesAssert | crates/brix-kb/src/ops.rs:543-604 | retracting freshly asserted names brings back the snapshot and the result of two revisions before |
| KbCommits.AssertDecides | crates/brix-kb/src/ops.rs:476-537 | an assertion commits if and only if nobody holds the lock, the tip is readable, something is asserted, and the merged inputs are valid, fit and have a replay; each failure has its error, and the record committed is given in full: number, parent, program, snapshot, the names asserted, result |
| KbCommits.RetractDecides | crates/brix-kb/src/ops.rs:543-604 | a retraction commits if and only if something is retracted, nobody holds the lock, the tip is readable, every name is set and given once, and what is left fits and has a replay; errors and record in full |
| KbCommits.ProgramDecides | crates/brix-kb/src/ops.rs:610-668 | a program change commits if and only if nobody holds the lock, the tip is readable, the source loads, and the values its declarations accept fit and have a replay; the record names the old program and the values dropped |
| KbCommits.InitDecides | crates/brix-kb/src/ops.rs:379-466 | a knowledge base is made if and only if there is none, nobody holds the lock, the source loads, and the inputs are valid, fit and have a replay; errors and record in full |
| KbCommits.CommitLeaves | crates/brix-kb/src/ops.rs:200-214 | run to the end an operation leaves the lock as it was; with an error it leaves every revision and HEAD as they were; with a record it adds that one file, points HEAD at it and touches no other revision |
| KbCommits.TipFound | crates/brix-kb/src/ops.rs:244-254 | the tip is read if and only if its file is readable, and whoever reads it finds the current plan and inputs |
| KbOps.KnowledgeBase.Perform | crates/brix-kb/src/ops.rs:379-668 | the process performs the writes of its operation in order, up to where the machine stops, and drops the lock on every way out but a crash |
| KbOps.KnowledgeBase.StoreAndCommit | crates/brix-kb/src/ops.rs:513-533 | objects are stored before the revision file, and the revision file before HEAD |
| KbOps.KnowledgeBase.RemoveNames | crates/brix-kb/src/ops.rs:563-579 | removing names one after the other fails on a name not set or given twice, and else removes exactly those |
| KbOps.KnowledgeBase.KeepAccepted | crates/brix-kb/src/ops.rs:625-638 | each value checked alone is kept or dropped |
| KbOps.KnowledgeBase.CheckAll | crates/brix-kb/src/ops.rs:826-895 | the loop carrying the expected parent equals the specified verification |
| KbOps.EndedIsStep | crates/brix-kb/src/ops.rs:60-92 | however an operation ends, what it leaves on disk is a step of a run |
| DepGraph.FactNonInterference | crates/brix-kb/src/deps.rs:137-225 | if two input sets agree on the inputs a rule reaches, its fact is the same in both, for plans with distinct names |
| DepGraph.ProposalNonInterference | crates/brix-kb/src/deps.rs:176-195 | the same for a proposal's guard and value |
| DepGraph.EvalAgrees | crates/brix-kb/src/deps.rs:49-134 | an expression reads no reference that the walk does not collect, binders of folds, filters, maps, matches and comprehensions included |
| DepGraph.ShadowedInputInterferes | crates/brix-kb/src/deps.rs:144-160 | distinct names are needed: a `let` that takes an input's name hides what it reads |
| DepPaths.CollectedIsMentioned | crates/brix-kb/src/deps.rs:49-134 | a reference is collected if and only if it occurs as a subexpression |
| DepPaths.ReachExact | crates/brix-kb/src/deps.rs:202-225 | a rule is reached if and only if a path of references through earlier rules leads to it, and an input if and only if such a path, continued through lets, does; the latest earlier declaration of a name counts, and an input hides a `let` |
| DepPaths.GraphExact | crates/brix-kb/src/deps.rs:137-197 | so the graph holds for each rule exactly the rules and inputs to which paths lead |
| DepPaths.ProposalGraphExact | crates/brix-kb/src/deps.rs:176-197 | the same for proposals, from guard, value and what they declare |
| PlanRuns.FactsExact | crates/brix-lower/src/finite_decision/runtime.rs:985-1024 | a plan has just one run, in which each `let` and then each rule has the value of its expression where those before it have theirs, up to the first that has none; the facts are its rules' values by name |
| KbDiff.ChangedFactsAreExplained | crates/brix-kb/src/diff.rs:242-266 | under an unchanged program every changed fact lists at least one input that did change, and only such inputs |
| KbDiff.NoInputChangeNoFactChange | crates/brix-kb/src/diff.rs:97-190 | with no input changed the diff of facts is empty |
| KbDiff.DiffExact | crates/brix-kb/src/diff.rs:166-266 | for every name: the diff lists it as changed if and only if both revisions derive it with different values, and then from the first value to the second; as unchanged, added or removed exactly when it is; the reasons are exactly the changed inputs and the changed facts to which paths of references lead from its rule in the second program |
| KbDiff.RevisionFactsExact | crates/brix-kb/src/diff.rs:156-165 | a revision whose declared inputs are all set has the facts of that run over their values, and any other has none |
| KbDiff.RefCollector.Collect | crates/brix-kb/src/deps.rs:49-134 | the mutable walk inserts exactly the specified references |
| KbDiff.BuildDepGraph | crates/brix-kb/src/deps.rs:137-197 | the loops over lets, rules and proposals fill the specified graph |
| KbDiff.FollowRules | crates/brix-kb/src/deps.rs:213-222 | following direct rules through the map collects exactly what they reach |
| KbDiff.DiffFacts | crates/brix-kb/src/diff.rs:166-266 | the loops sort every fact into changed, same, added and removed, a changed one with its value before and after and with its reasons |
| KbDiff.DiffRevisions | crates/brix-kb/src/diff.rs:97-290 | the diff of two revisions says of every fact what became of it, from which value to which, and why: by path of references, as in DiffExact |
| JsonRoundTrip.ParseOfPrint | crates/brix-kb/src/strict_json.rs:242-263 | printing a value with any white space and any choice of escapes and parsing it gives the value back if no object repeats a key, numbers are `i64`s, nesting is at most sixteen and the text fits, and is refused otherwise |
| JsonRoundTrip.ValueFails | crates/brix-kb/src/strict_json.rs:299-324 | a printed value that the reader may not return is never taken for another one |
| JsonRoundTrip.UnicodeBack | crates/brix-kb/src/strict_json.rs:399-426 | the escaped form of every scalar reads back, surrogate pairs included (section 7 of RFC 8259) |
| JsonRoundTrip.StringBack | crates/brix-kb/src/strict_json.rs:371-450 | every string reads back from its quoted form |
| JsonGrammar.DocumentExact | crates/brix-kb/src/strict_json.rs:242-263 | a text is accepted as a value if and only if it is white space, a spelling of the value and white space, repeats no key at any level, holds only `i64` numbers, nests at most sixteen deep and fits the bound; spellings are trees of tokens defined without the reader: white space anywhere between tokens, any escape of each character, no raw control character, leading zeros, no fraction and no exponent |
| JsonGrammar.TreeReads | crates/brix-kb/src/strict_json.rs:299-572 | every tree in front of what may follow a value is read as its meaning if the reader may return that, and refused otherwise |
| JsonGrammar.ValueTaken | crates/brix-kb/src/strict_json.rs:299-572 | whatever is read is white space and a tree that means the value, in front of the rest |
| JsonGrammar.StringTaken | crates/brix-kb/src/strict_json.rs:371-450 | a string that is read is a spelling of its characters, each plain, in a short escape, as a code unit or as a surrogate pair |
| JsonGrammar.Hex4Exact | crates/brix-kb/src/strict_json.rs:454-469 | four characters are read as a code unit if and only if they are hexadecimal digits, in either case, that spell it |
| StrictJson.ParseValue | crates/brix-kb/src/strict_json.rs:299-324 | whatever is accepted repeats no key at any level and nests within the depth left; every call takes at least one character |
| StrictJson.ParseDocument | crates/brix-kb/src/strict_json.rs:242-263 | an accepted document repeats no key, holds only `i64` numbers and nests at most sixteen deep; which texts are accepted is DocumentExact |
| JsonParser.ReadDocument | crates/brix-kb/src/strict_json.rs:242-263 | the parser that moves a position and a depth accepts exactly the spellings of values it may return, with nothing but white space around them, and returns those values; its errors are the specified ones |
| JsonParser.Parser.ReadValue | crates/brix-kb/src/strict_json.rs:299-324 | on success the depth is restored and the position is where the specification leaves off |
| JsonParser.Parser.ReadFields | crates/brix-kb/src/strict_json.rs:496-537 | the field loop, comparing each key with those before it, equals the specified field list |
| JsonParser.Parser.ReadString | crates/brix-kb/src/strict_json.rs:371-450 | the string loop equals the specified string, escape by escape |
| JsonParser.Parser.ReadHex4 | crates/brix-kb/src/strict_json.rs:454-469 | the four-digit loop equals the specified code unit |

## Left out

- KernelSoundness.AcceptanceSound: is stated for careful runs, because the kernel leaves out the tests that make a run careful and accepts falsehoods without them, as the four inputs of KernelCounterexamples show; a run that is not careful may still end in a true proposition.
- KernelConservativity.AcceptedRealizationIsDerived: is about careful runs, as the soundness it rests on.
- KernelScoping.TameIsCareful: covers Unpack-free terms; with `Unpack` a run has to be followed to tell whether it is careful.
- KernelBudget.VerdictIsFinal: does not cover Unpack, whose eigenvariable is named after the steps left.
- KernelBudget.BudgetSuffices: gives a sufficient budget; the least one is the size of a derivation, as KernelDerivations.CheckFinds says.
- KernelCompleteness.DerivableIffAccepted: leaves out `Unpack`, whose eigenvariable depends on the steps left; AcceptanceExact covers it at the eigenvariables that are chosen.
- KernelCompleteness.AcceptanceExact: says when a term is accepted; which of several faults a rejection reports is not pinned beyond exhaustion and the context.
- ElabProofs.RecheckExact: takes derivation identities to be collision-free.
- KbRuns.RunsAreSound: takes writers to be serialised and each file write to be atomic, because `init` looks for the manifest before it takes the lock and an object file is created and then written without a rename; plan and snapshot identities are collision-free, and package files do not change.
- KbFiles.RealHeadPinsHistory: asks that the hash not collide on the preimages of the two histories.
- KbFiles.UnsetInputsOversize: leaves the language out: that a source of 1 MiB can declare that many inputs is not part of this model.
- DepGraph.FactNonInterference: is about an evaluator written for this model, with the constructors the reference walk handles; primitive operations are parameters, and the run-wide step budget and entity-indexed rules are not modelled.
- KbCommits.AssertDecides: the order in which a change lists names is a parameter.
- KbDiff.DiffRevisions: compares inputs and facts; declarations, candidates, entities and the decision are not compared.
- DecimalReader.ReadBack: is not a uniqueness claim: the reader also accepts digit strings that are not normal and normalizes them, as ReadExact and CanonicalBytes say.
- DecimalMath.DivRoundIsRounding: an intermediate overflow is refused even where the rounded result would fit, as in the code; the lemma says exactly when.
- DecimalMath.SumsDecide: alignment may overflow where the sum would fit, as in the code.
- JsonParser.ReadDocument: works on Unicode scalars; offsets in errors, UTF-8 validation, and the split between a short and a malformed escape that ends in multi-byte characters are not modelled. Leading zeros are accepted, as in the code.
- Certificate.ValidateExact: takes propositions and terms as byte strings of which a term's first field is its context; their own encoders are not modelled.
- Revision.PreimageDetermines: NFC folding is a parameter.
- RevisionJson.RecordBack: a text is a sequence of Unicode scalars; files that are not UTF-8 are not modelled.
- KbFiles.RealVerifyExact: `kb.json`, HEAD, programs and snapshots are there and decode, or count as absent; only revision files are modelled as text.
- Error message texts and source offsets.
- Publication of audited sources, the receipt text, and the concrete primitive registry.
- Sets, maps, bags and records of the canonical writer, floats, quantities and money.
- The command line, `serve`, the world runtime, packages, the audit bundle, and the language front end.
