# Verified core of the Cerberus daemon

A Dafny model of the parts of the Cerberus daemon whose correctness spans whole runs: the causal CRDT
engine, the eUTXO ledger with optimistic settlement, the signed capability envelope with delegation and
revocation gossip, the network audio path, and four smaller pieces (scheduler, key matcher, erasure-coded
chunk store, byte-quota guards). `dafny verify dfyconfig.toml` checks everything.

How it is organised. Each component has a value-level description of its state and steps, imperative
methods or classes in the shape of the Go code whose contracts tie them to those steps, and theorems about
every run of the steps. Where many contracts go through one definition (when a window has elapsed, which write
a read returns, what is under a path, how a gap is filled), a theorem says what that definition means without
using it.

| component | files |
|---|---|
| integers, byte strings, big-endian fields | `Machine.dfy` |
| CRDT engine | `Clocks.dfy`, `Register.dfy`, `Documents.dfy` (one document), `Convergence.dfy`, `Beliefs.dfy`, `Resolutions.dfy`, `Assertions.dfy`, `Engine.dfy` (the object) |
| ledger and settlement | `Sums.dfy`, `LedgerModel.dfy` (transition system), `LedgerRuns.dfy`, `Ledger.dfy` (the object) |
| capabilities | `Envelope.dfy`, `Canonical.dfy`, `Decoder.dfy`, `Delegation.dfy`, `Revocation.dfy` |
| audio | `Packet.dfy`, `JitterBuffer.dfy`, `Playback.dfy` (what is heard), `AudioPath.dfy`, `AudioNodes.dfy` |
| smaller pieces | `Scheduler.dfy`, `KeyExpr.dfy`, `ChunkStore.dfy`, `QuotaGuard.dfy` |

Modelling choices that matter for reading the contracts:

- Go maps are iterated in any order, and `sort.Slice` may order equal keys either way. Registers and open
  conflicts are therefore described as a set and a map; the methods build them in an arbitrary order. The
  sort of caveats is a function parameter: any function that returns its argument sorted by key.
- 64-bit arithmetic wraps where the Go code lets it: clock ticks, UTXO and transaction ids, block heights,
  sequence numbers, `TargetFrames * 4`, `int64(limit) + 1`. Where a promise fails because of it, a theorem
  gives the exact condition.
- Signatures are a predicate that accepts what the key signs. The erasure code and the content hash are
  function parameters, assumed to rebuild from any k shards and to be injective; `ReplicationIsErasure`
  shows that the first assumption can be met. The loop filter of the receiver runs over the reals.
- I/O, clocks and randomness are parameters: streams are byte sequences, `now` and fresh ids are arguments,
  the durable store is a map that does not fail, JSON is a faithful encoding.

Where the code does not do what one would expect, the model follows the code and says when it does:

- Replicas that received the same ops agree exactly when happens-before orders the writes to each key
  (`ConvergeExactly`), which it does on clocks without zero entries. A zero entry can make two clocks happen
  before each other (`MutualBeforeExactly`, `ZeroEntryDiverges`), make a write be taken for another it does not
  equal the other way round (`AsymmetricEqualDiverges`), or break transitivity (`IntransitiveDiverges`).
- A write that is taken for a live zero-entry write supersedes others and is then not kept, so it can undo a
  resolution: one stays on top as long as every later write keeps it covered (`RunCoverExactly`,
  `ResolutionHolds`, `UndoneExample`).
- A write from another domain can change a contested belief register without touching the conflict list
  (`OtherDomainExactly`, `OtherDomainExample`).
- `Resolve` fails to settle a conflict when the resolver's counter is at its maximum and a live write
  mentions the resolver or carries every other counter (`ResolveExactly`, `ExhaustedExample`). A clockless
  assertion by such an agent can be lost while the caller is told its value (`ReportExactly`, `LostExample`),
  and one with room can be taken for a zero-entry write of the same value (`AssertedExactly`, `ShadowedExample`).
- Agents whose names agree in their first 32 bytes, missing bytes counting as zero, are one actor: the later
  assertion replaces the earlier one and no conflict is raised (`ActorsExactly`, `AgentsConflictExactly`).
- A failed `OpenOptimistic` leaves the payment in escrow without a claim, and value can be minted or paid
  to the escrow owner; the escrow equation accounts for it (`Conservation`). `Settle` has no owner check, and
  an opening may name the escrow owner: escrow stays covered exactly when no call takes more out of it than
  it can spare (`CoverageExactly`, `EscrowSpentExample`, `RepledgedExample`), which ordinary calls never do
  (`OrdinaryIsRun`). Once it is not covered, a Finalize that reports underflow has already paid and can be made
  again (`UnderflowPays`); supply is what was minted exactly when no payout pays more than it releases
  (`SupplyExactly`). A wrapping block height reopens elapsed windows (`AdvanceReopensExactly`, `ReopenedExample`).
- Caveats are sorted and compared by the text `name=value`, which two different caveats can share. Then a
  grant has more than one canonical encoding (`CanonicalUniqueExactly`), an issued envelope opens only if the
  sort leaves sorted caveats in place (`ReadBackExactly`), and a child can pass `checkNarrower`
  without its parent's caveat (`CaveatsKeptExactly`, `MaskedExample`). `checkNarrower` does not compare the
  resource's kind and node (`NarrowerSoundExactly`, `MovedExample`), and refuses a child without a quota under a
  parent whose quota bounds nothing (`NarrowerExactly`).
- A root issued with a parent outside its ancestor list is denied when that parent is revoked, while what was
  issued under it is not (`ChainInForceExactly`, `UnrecordedParentExample`).
- A revocation of the empty id is published but ignored by receivers (`AgreeExactly`, `EmptyIdExample`).
- With `TargetFrames` of 2^61 or more and no larger `MaxFrames`, the effective `MaxFrames` can wrap to zero
  and the receiver plays nothing (`EndToEnd`, `WrappedExample`). Formats with more samples per packet than
  the cap are sent, and break the stream at the receiver (`Relay`).
- A byte quota of 2^63-1 or more makes the server's `LimitReader` end at once (`ReceivePayload`); the
  largest limit makes `copyQuota` ask for zero bytes for ever (`WantIsEmptyExactly`, `CopyQuota`).

## Model

| member | source | states |
|---|---|---|
| Clocks.MergeMax | daemon/state/state.go:67-74 | folding a clock in entry by entry, in any order, gives the lattice join |
| Clocks.JoinIsAbove | daemon/state/state.go:67-74 | the join is above both clocks and introduces no zero entry |
| Clocks.JoinIsLeast | daemon/state/state.go:67-74 | anything above both clocks is above their join |
| Clocks.BeforeIsStrictOrder | daemon/state/state.go:88-106 | on zero-free clocks happens-before is a strict partial order compatible with domination |
| Clocks.MutualBeforeExactly | daemon/state/state.go:76-101 | two clocks happen before each other iff they read the same everywhere and differ in length |
| Register.Absorb | daemon/state/state.go:122-156 | the resulting register has no duplicates and, as a set, is unchanged by a stale write, else drops what the write supersedes and adds it unless a live write is taken for it |
| Register.AbsorbKeepsFrontier | daemon/state/state.go:115-156 | where happens-before orders the writes, absorbing one into the maximal writes of a set gives the maximal writes of the larger set |
| Register.FaithfulIsTame | daemon/state/state.go:76-106 | happens-before orders a set of writes in which clocks that are equal to the code, or read the same, are the same |
| Register.SortDots | daemon/state/state.go:149-154 | an ordered arrangement of the same writes; nothing is promised about equal keys |
| Register.IsConflicted | daemon/state/state.go:158-171 | true iff two live writes carry different values |
| Register.LwwValue | daemon/state/state.go:173-187 | returns the value of a live write no other live write beats: the largest value among those with the highest own counter |
| Register.LwwIsUnique | daemon/state/state.go:189-207 | that value does not depend on the order of the writes |
| Register.ReadExactly | daemon/state/state.go:189-207 | a value is the one read iff a live write of it has the highest own counter and the largest value among those that have it |
| Register.HighestCounterWins | daemon/state/state.go:199-201 | a live write whose own counter is above every other's is the one read |
| Register.OrderedExactly | daemon/state/state.go:149-154 | a register is ordered by actor, and by value within an actor |
| Machine.LessExactly | daemon/state/state.go:149-154 | Go's string order is decided at the first byte that differs, or by the end of the shorter string |
| Documents.RunIsReplay | daemon/state/state.go:323-338 | every run of deliveries, local ticks and resolutions equals a replay of ordinary stamped writes |
| Documents.RunKeepsBelow | daemon/state/state.go:323-338 | in every reachable state each live write's clock is at or below the document clock |
| Convergence.Frontier | daemon/state/state.go:305-363 | after any delivery sequence each register is exactly the happens-before-maximal delivered writes, and the clock is the least upper bound of the delivered clocks |
| Convergence.Converge | daemon/state/state.go:417-430 | replicas given the same ops in any order with any repetition hold equal clocks and registers |
| Convergence.ConvergeExactly | daemon/state/state.go:122-156 | replicas given the same ops of a set always agree iff for each key any two writes are told apart and happens-before is transitive |
| Convergence.CommuteExactly | daemon/state/state.go:122-156 | two different writes give one register in either order iff neither is taken for the other and they are not each before the other |
| Convergence.ClocksConverge | daemon/state/state.go:323-329 | document clocks agree whatever the ops' clocks are |
| Convergence.ZeroFreeIsCausal | daemon/state/state.go:76-106 | ops with zero-free clocks meet the condition of convergence |
| Convergence.ReadsAgree | daemon/state/state.go:517-533 | reads of a key on such replicas return the same value |
| Convergence.RunsConverge | daemon/state/state.go:440-488 | the same for runs that mix deliveries, clockless ops and resolutions |
| Convergence.ZeroEntryDiverges | daemon/state/state.go:76-101 | with clocks that differ in a zero entry two replicas keep whichever op came first |
| Convergence.AsymmetricEqualDiverges | daemon/state/state.go:76-86 | of two concurrent writes that are equal one way only, each order keeps whichever came first |
| Convergence.IntransitiveDiverges | daemon/state/state.go:76-106 | three ops of which any two commute leave different registers in different orders |
| Beliefs.IndexAgreement | daemon/state/state.go:340-409 | in every run of belief ops and resolutions the open list has an entry exactly for each subject with two or more live values, with the live writes as candidates |
| Beliefs.OtherDomainExactly | daemon/state/state.go:340-354 | a write from another domain keeps that agreement iff in every register it touches it is stale, or is taken for a live write and supersedes none, or the register is uncontested and agrees with it wherever it leaves a write standing |
| Beliefs.UndisputedExactly | daemon/state/state.go:122-171 | absorbing a write leaves what is contested unchanged iff that holds of the register before |
| Beliefs.OtherDomainExample | daemon/state/state.go:340-354 | in a run, such a write superseding both sides of a conflict ends the agreement |
| Beliefs.BeliefReplicasAgree | daemon/state/state.go:417-438 | belief replicas that received the same ops agree on the whole document, open conflicts included |
| Resolutions.ResolveExactly | daemon/state/state.go:446-479 | a resolution leaves exactly the winning write iff the resolver's counter has room or no live write blocks it, and then the conflict is cleared |
| Resolutions.ResolvedReads | daemon/state/state.go:446-479 | after such a resolution the subject reads the winning value |
| Resolutions.ExhaustedExample | daemon/state/state.go:446-479 | in a run, a resolver whose counter is at its maximum cannot settle a conflict it took part in |
| Resolutions.ResolutionDominates | daemon/state/state.go:440-470 | however the run goes on without zero entries, a delivery at or below the document clock at resolution time never changes that register |
| Resolutions.ResolutionHolds | daemon/state/state.go:440-470 | the same for any continuation in which every write to the subject keeps the resolution's clock covered |
| Resolutions.CoverExactly | daemon/state/state.go:122-156 | a covered clock stays covered by absorbing a write iff the write is stale, or joins the register, or leaves a covering write |
| Resolutions.RunCoverExactly | daemon/state/state.go:122-156 | along any continuation a clock stays covered throughout iff every write to the subject meets that |
| Resolutions.UndoneExample | daemon/state/state.go:122-156 | two zero-entry ops remove a resolution's winner, and the losing write comes back when delivered again |
| Resolutions.RunIsClean | daemon/state/state.go:323-329 | runs of zero-free ops without an exhausted counter reach only states the two theorems above cover |
| Assertions.RefinesMap | cmd/cerberusd/rpc.go:989-1004 | with clockless assertions only, each register is one write per agent, that agent's latest value, and the clock counts assertions |
| Assertions.ConflictExactly | cmd/cerberusd/rpc.go:1005-1015 | a conflict is open on a subject iff two agents' latest values differ |
| Assertions.AssertedExactly | cmd/cerberusd/rpc.go:994-1004 | after a clockless assertion the write is live iff it was live already, or nothing live is taken for a fresh tick, or nothing live outranks a wrapped one |
| Assertions.ReportExactly | cmd/cerberusd/rpc.go:1005-1014 | what the caller is told is what is live iff it is not the case that the counter was used up and an uncontested other value outranks the wrapped tick |
| Assertions.LostExample | cmd/cerberusd/rpc.go:989-1014 | one delivered op uses up an agent's counter and its next assertion is lost |
| Assertions.ShadowedExample | cmd/cerberusd/rpc.go:989-1014 | an assertion with room in its counter gets no new write after a zero-entry write of the same value by the agent |
| Engine.Upsert | daemon/state/state.go:386-397 | changes the subject's entry only, and keeps one entry per subject |
| Engine.Clear | daemon/state/state.go:399-409 | removes the subject's entry only |
| Engine.AbsorbKey | daemon/state/state.go:332-338 | only the named register changes, by absorbing the write |
| Engine.NoteKey | daemon/state/state.go:340-349 | the subject is open and surfaced iff its register is contested, with its writes as candidates |
| Engine.PatchLoop | daemon/state/state.go:331-355 | in any key order every patched register absorbs its write, and exactly the contested subjects are open and surfaced |
| Engine.Fold | daemon/state/state.go:318-355 | stamping, clock folding and the patch loop together are the document step the theorems are about |
| Engine.ResolveDoc | daemon/state/state.go:452-479 | reports whether the subject was contested; the clock join over the live writes adds nothing to the document clock, and the result is the document's resolution step |
| Engine.CrdtEngine.ApplyOp | daemon/state/state.go:305-363 | one op changes only its own document, by the document step; a malformed delta changes nothing; what it surfaces is what it leaves open |
| Engine.CrdtEngine.Merge | daemon/state/state.go:417-430 | stops at the first malformed op; every document goes through exactly its own ops of the processed prefix; returns, op after op, the subjects each left open |
| Engine.MergeFrontier | daemon/state/state.go:417-430 | merging well-formed ops with non-empty zero-free clocks into an empty engine, in any order, leaves in each register exactly the happens-before-maximal of the values the ops wrote to it |
| Engine.CrdtEngine.Resolve | daemon/state/state.go:446-488 | succeeds iff the subject is contested, changes only that document, by the resolution step |
| Engine.CrdtEngine.Conflicts | daemon/state/state.go:432-438 | one entry per open subject with its candidates |
| Engine.CrdtEngine.Read | daemon/state/state.go:517-533 | absent iff nothing was written to the key, else the largest value among the live writes with the highest own counter |
| Engine.CrdtEngine.Persist | daemon/state/state.go:280-301 | stores the document and its list, dropping an empty list, and touches no other document |
| Engine.ReportedValues | cmd/cerberusd/rpc.go:1005-1014 | finds the subject's conflict iff there is one, and reports its live values |
| Engine.ActorsExactly | cmd/cerberusd/rpc.go:994-997 | two agent names are one actor iff their first 32 bytes agree, missing ones read as zero |
| Engine.AgentsConflictExactly | cmd/cerberusd/rpc.go:989-1014 | two agents asserting different values of a subject of an empty document conflict iff they are two actors |
| Engine.AssertBelief | cmd/cerberusd/rpc.go:994-1015 | reports a conflict iff the register is contested, and returns as a set the register's live values iff the assertion was not lost |
| LedgerRuns.Conservation | daemon/ledger/settlement.go:127-203 | in every run supply equals what was minted, and escrow equals what pending claims are owed plus what strayed into it and was not taken out again |
| LedgerRuns.EscrowCovers | daemon/ledger/settlement.go:22-29 | escrow always covers pending claims, with equality iff nothing strayed, and no 64-bit sum wraps |
| LedgerRuns.SettlementNeverUnderflows | daemon/ledger/settlement.go:199-201 | in every run a Finalize of a pending claim past its window and a valid Challenge inside it succeed: the underflow error is unreachable |
| LedgerRuns.PendingIsCovered | daemon/ledger/settlement.go:331-335 | a pending claim's payment plus bond is within escrow, so the 64-bit sum is exact |
| LedgerRuns.FinalizePays | daemon/ledger/settlement.go:304-343 | a successful Finalize moves payment plus bond from escrow to the provider and changes no other balance |
| LedgerRuns.ChallengePays | daemon/ledger/settlement.go:345-404 | a successful Challenge moves the payment to the consumer and the bond to the challenger out of escrow and changes no other balance |
| LedgerRuns.ExactlyOnce | daemon/ledger/settlement.go:325-341 | over any calls each claim is reported paid out at most once, never both ways, exactly as its recorded state says |
| LedgerRuns.OpenMoves | daemon/ledger/settlement.go:260-302 | a successful opening takes the payment from the consumer and the bond from the provider into escrow, touches nobody else, and records exactly those terms |
| LedgerRuns.TradeSettles | daemon/ledger/settlement.go:304-343 | a claim opened earlier in the run and finalised any time later pays the provider the payment and bond it was opened with |
| LedgerRuns.TradeReverses | daemon/ledger/settlement.go:345-404 | challenged instead, the consumer gets back the payment and the challenger the bond it was opened with |
| LedgerRuns.TermsKept | daemon/ledger/settlement.go:50-61 | however any calls go on, a claim stays on record with its opening terms |
| LedgerRuns.NoChallengeAfterWindow | daemon/economy/settle.go:115-127 | under the settler's clock, once a claim could be finalised no later challenge of it succeeds |
| LedgerRuns.WindowExactly | daemon/ledger/settlement.go:63-70 | a window has elapsed iff the height has reached opening height plus length, or the last height if that is past 64 bits |
| LedgerRuns.WindowDecides | daemon/ledger/settlement.go:304-404 | in any run after an opening a Finalize succeeds iff the claim is pending and its window ended, and a Challenge iff it is pending, the window has not ended, and the proof contradicts the claimed output for its component and input |
| LedgerRuns.DisputePeriod | daemon/economy/settle.go:115-127 | under the settler's clock a claim opened at height b with window n can be disputed and not be paid out until height b + n, and then the reverse |
| LedgerRuns.HeightIsSum | daemon/ledger/ledger.go:82-95 | over any calls the height is the blocks advanced, modulo 2^64 |
| LedgerRuns.SealedRefuses | daemon/ledger/settlement.go:266-268 | in the Sealed profile nothing but minting and advancing ever succeeds and no claim is recorded |
| LedgerRuns.AdvanceReopensExactly | daemon/ledger/ledger.go:82-95 | an elapsed window reopens iff the block height wraps below its end |
| LedgerRuns.ReopenedExample | daemon/ledger/ledger.go:82-95 | a window that elapsed at height 10 is open again after the height wraps to zero |
| LedgerRuns.SettleCoverageExactly | daemon/ledger/ledger.go:146-178 | a Settle keeps coverage iff the input is not escrow's, or goes back to escrow, or fits in what escrow can spare |
| LedgerRuns.OpenCoverageExactly | daemon/ledger/settlement.go:254-302 | an opening keeps coverage iff it fails or what it pledges of the escrow owner's own records can be spared |
| LedgerRuns.CoverageExactly | daemon/ledger/settlement.go:22-29 | over any calls by anyone escrow covers the pending claims throughout iff no call takes more out of escrow than it can spare |
| LedgerRuns.OrdinaryIsRun | daemon/ledger/settlement.go:22-29 | calls that never name the escrow owner and never settle an escrow record keep escrow covered throughout |
| LedgerRuns.SupplyExactly | daemon/ledger/settlement.go:304-404 | over any calls supply is at least what was minted, and exactly that iff no payout underflowed or wrapped its sum |
| LedgerRuns.UnderflowPays | daemon/ledger/settlement.go:331-337 | a Finalize that reports underflow has paid the provider and leaves the claim finalisable |
| LedgerRuns.RepledgedExample | daemon/economy/settle.go:85-113 | after one mint and one opening, a second opening in the escrow owner's name leaves the claims uncovered |
| LedgerRuns.EscrowSpentExample | daemon/ledger/ledger.go:146-178 | after one mint and one opening, a Settle of the escrow record leaves the pending claim uncovered |
| LedgerModel.PayBalance | daemon/ledger/ledger.go:166-177 | spending an input with change moves exactly the amount from its owner to the payee |
| LedgerModel.ReleaseBalance | daemon/ledger/settlement.go:153-203 | a release takes exactly its amount out of escrow and out of the supply, or all escrow holds if that is less, and touches no other owner |
| Ledger.ReleaseEscrow | daemon/ledger/settlement.go:153-203 | in any key order only escrow records are spent or split, by exactly the amount; underflow is reported iff escrow held less, and then all of it is gone |
| Ledger.SumRecords | daemon/ledger/settlement.go:228-252 | the read loop returns the 64-bit sum of the counted records |
| Ledger.UtxoLedger.MintLocked | daemon/ledger/ledger.go:97-111 | adds one record under the current id and advances the wrapping counter |
| Ledger.UtxoLedger.PayFrom | daemon/ledger/ledger.go:169-177 | spends the input, returns change to its owner, pays the amount, and returns the payee's record id |
| Ledger.UtxoLedger.SettleClaim | daemon/ledger/settlement.go:335-341 | releases exactly payment plus bond and closes the claim, or on underflow leaves it pending |
| Ledger.UtxoLedger.Mint | daemon/ledger/ledger.go:97-118 | one new record under the next id |
| Ledger.UtxoLedger.Balance | daemon/ledger/ledger.go:120-144 | the owner's balance modulo 2^64 |
| Ledger.UtxoLedger.TotalSupply | daemon/ledger/settlement.go:228-252 | the total supply modulo 2^64 |
| Ledger.UtxoLedger.AdvanceBlock | daemon/ledger/ledger.go:82-95 | adds to the height with wrap-around and returns it |
| Ledger.UtxoLedger.Settle | daemon/ledger/ledger.go:146-178 | succeeds iff enabled and the input is worth the amount, then only pays with change, and returns the id that holds the payment |
| Ledger.UtxoLedger.Lock | daemon/ledger/settlement.go:124-151 | succeeds iff the input exists, belongs to the owner and is worth the amount |
| Ledger.UtxoLedger.OpenOptimistic | daemon/ledger/settlement.go:254-302 | is the opening step, including the failed opening that strands the payment |
| Ledger.UtxoLedger.Finalize | daemon/ledger/settlement.go:304-343 | is the finalising step of the transition system, returns the payment, and does nothing when sealed |
| Ledger.UtxoLedger.Challenge | daemon/ledger/settlement.go:345-404 | is the slashing step, returns refund and award, and does nothing when sealed |
| Ledger.SettleCompletedTask | daemon/economy/settle.go:85-113 | refuses unnamed principals, else opens out of the consumer's input at the ledger's own height, with the default window when none is given, and records the claim field by field under the id returned |
| Envelope.SortUniqueExactly | daemon/auth/signedcap.go:394-396 | the sort of the caveats is one sequence iff no two different ones share a key |
| Envelope.SortPairs | daemon/auth/signedcap.go:394-396 | insertion sort: an ordered permutation by caveat key |
| Envelope.SortedStays | daemon/auth/signedcap.go:394-396 | insertion sort leaves sorted caveats as they are, also those that share a key |
| Envelope.NoEqualsIsDistinct | daemon/auth/signedcap.go:357 | caveats whose names contain no '=' have distinct keys |
| Canonical.RoundTrip | daemon/auth/signedcap.go:380-419 | every encodable grant decodes from any canonical encoding to itself, up to caveat order and printed values |
| Canonical.DecodeOfEncode | daemon/auth/signedcap.go:479-526 | the decoder inverts the encoder field by field |
| Canonical.EncodingIsInjective | daemon/auth/signedcap.go:372-419 | equal bytes come from the same grant |
| Canonical.PrintedIsKept | daemon/auth/signedcap.go:397-401 | a grant whose one caveat is a text shares its encoding only with grants whose one caveat prints as that text |
| Canonical.FixedExactly | daemon/auth/signedcap.go:584-588 | a fixed-size field of the right length is kept and one of any other length reads as zeros |
| Canonical.DecodedIsEncodable | daemon/auth/signedcap.go:479-526 | whatever decodes is within the length prefixes and array types of the encoding |
| Canonical.ReadsExactly | daemon/auth/signedcap.go:454-470 | bytes pass decoding and re-encoding iff they are a canonical encoding whose caveats the sort leaves in place |
| Canonical.ReadBackExactly | daemon/auth/signedcap.go:380-470 | an encodable grant's canonical encoding is read back as that grant iff sorting its sorted caveats again changes nothing |
| Decoder.DecodeCanonical | daemon/auth/signedcap.go:479-526 | decodes as specified, and whatever counts are claimed the loops turn at most once per four input bytes plus one |
| Decoder.Cursor.FieldLoop | daemon/auth/signedcap.go:490-500 | stops at the first error; every other turn consumes four bytes |
| Decoder.Cursor.PairLoop | daemon/auth/signedcap.go:501-504 | the same for the caveats loop |
| Decoder.Cursor.Read | daemon/auth/signedcap.go:536-542 | too little input sets the error for good and reads nothing; otherwise exactly the next bytes |
| Decoder.Cursor.U8 | daemon/auth/signedcap.go:543-550 | the next byte, or zero with the error set |
| Decoder.Cursor.Num | daemon/auth/signedcap.go:551-558 | the next big-endian number, or zero with the error set |
| Decoder.Cursor.U64 | daemon/auth/signedcap.go:559-566 | the next eight bytes as a uint64 |
| Decoder.Cursor.Bytes | daemon/auth/signedcap.go:567-576 | the next length-prefixed field |
| Decoder.Cursor.QuotaField | daemon/auth/signedcap.go:577-582 | a quota iff the flag byte is one |
| Decoder.Cursor.ParentField | daemon/auth/signedcap.go:506-510 | a parent iff the flag byte is one |
| Decoder.DecodeNeedsVersion | daemon/auth/signedcap.go:479-484 | nothing decodes without the version byte in front |
| Decoder.CanonicalBytes | daemon/auth/signedcap.go:380-419 | returns the canonical encoding of the grant under the given sort |
| Canonical.CanonicalUniqueExactly | daemon/auth/signedcap.go:372-379 | a grant has one canonical encoding iff no two different caveats share a key |
| Decoder.OpenEnvelope | daemon/auth/signedcap.go:454-470 | accepts exactly the canonical encodings, with caveats where the sort leaves them, followed by 64 bytes, and returns their grant and signature |
| Delegation.NarrowerIsPreorder | daemon/auth/signedcap.go:292-333 | narrowing is reflexive and transitive |
| Delegation.NarrowerSoundExactly | daemon/auth/signedcap.go:288-355 | what a narrower child allows by right, place, path, quota, caveats and time its parent allows, iff no caveat is masked and the resource keeps its kind and node, or the child allows nothing |
| Delegation.NarrowerExactly | daemon/auth/signedcap.go:288-355 | a usable child is narrower, unmasked and in place iff its parent allows everything it allows and it has a quota where the parent has one |
| Delegation.CaveatsKeptExactly | daemon/auth/signedcap.go:307-316 | a narrower child has every caveat of its parent iff none is masked by a different caveat of the same key |
| Delegation.NoEqualsNeverMasked | daemon/auth/signedcap.go:357 | caveats whose names contain no '=' are never masked |
| Delegation.MaskedExample | daemon/auth/signedcap.go:307-316 | a child without its parent's caveat passes, and allows what the parent does not |
| Delegation.MovedExample | daemon/auth/signedcap.go:292-333 | so does a child that names another node |
| Delegation.PathPrefixTransitive | daemon/auth/signedcap.go:359-370 | being under a path is transitive across segment boundaries |
| Delegation.PathUnderExactly | daemon/auth/signedcap.go:359-370 | for paths of non-empty slash-free segments, absolute or relative, one is under another iff the other's segments are the first of its own, or the other is empty |
| Delegation.SiblingIsNotUnder | daemon/auth/signedcap.go:359-370 | a longer name is not under a shorter one |
| Delegation.UnderDirectory | daemon/auth/signedcap.go:359-370 | under a path that ends in a slash is what starts with it |
| Delegation.Issue | daemon/auth/signedcap.go:139-182 | fails iff there are no rights; returns the filled grant's canonical encoding with its signature, which for an encodable grant opens to that grant iff its caveats settle, and otherwise to nothing |
| Delegation.FilledIds | daemon/auth/signedcap.go:139-172 | a minted capability has its issuer's identity and a non-zero id and nonce, keeping those the caller chose and every other field |
| Delegation.DistinctKeysSettle | daemon/auth/signedcap.go:394-396 | caveats with distinct keys settle under every sort |
| Delegation.IssueAttenuated | daemon/auth/signedcap.go:184-216 | succeeds iff the parent opens, signed or not, to a grant the derived child is narrower than and there are rights; the envelope opens to that child, directly under the parent, if its caveats settle |
| Delegation.DerivedAsSaid | daemon/auth/signedcap.go:196-211 | a child that says where and when allows exactly what it says |
| Delegation.DerivedByDefault | daemon/auth/signedcap.go:196-211 | a child that says neither gets its parent's place and window and passes the check iff its rights and caveats do |
| Delegation.DefaultsApart | daemon/auth/signedcap.go:196-211 | each default applies exactly when its own field is unset |
| Delegation.CheckInForce | daemon/auth/signedcap.go:248-272 | too early iff before the start, expired iff at or after a set expiry, granted iff in the window with no id it stands on revoked |
| Delegation.InForceExactly | daemon/auth/signedcap.go:248-272 | a grant with rights is in force iff some use is allowed at that time and neither its own, an ancestor's nor its parent's id is revoked |
| Delegation.ReasonExactly | daemon/auth/signedcap.go:248-272 | too early is before every use, expired is after every use, revoked is while some use is allowed |
| Delegation.JudgedOverTime | daemon/auth/signedcap.go:248-253 | what is expired stays expired and what is not yet valid was not valid before, whatever is revoked |
| Delegation.Verify | daemon/auth/signedcap.go:218-273 | grants exactly the sealed grants in force, so some use is allowed at that time; what does not open is a bad envelope; what opens is judged by issuer, signature, window and revocation in that order |
| Delegation.ChainNarrows | daemon/auth/signedcap.go:193-216 | along a chain of any length every descendant is narrower than every ancestor |
| Delegation.ChainAncestors | daemon/auth/signedcap.go:207-211 | a grant's ancestor list is the root's followed by the ids from the root to its parent |
| Delegation.ChainInForceExactly | daemon/auth/signedcap.go:254-271 | in-force carries from a descendant to an ancestor at any time under any revocation predicate iff the root's own parent, if it matters, is recorded in the descendant, or the descendant is never in force |
| Delegation.RevocationCascades | daemon/auth/signedcap.go:258-266 | revoking any grant denies everything issued under it |
| Delegation.UnrecordedParentExample | daemon/auth/signedcap.go:254-271 | revoking the parent of a root that does not list it denies the root and not its child |
| Delegation.ChainContains | daemon/auth/signedcap.go:184-216 | along a chain without masked caveats or moved resources every descendant's authority is part of every ancestor's |
| Revocation.Issuer.Revoke | daemon/auth/auth.go:238-252 | records the id and publishes exactly one copy per hook |
| Revocation.Issuer.HookPublish | daemon/auth/gossip.go:69-78 | one more publication per local revoke |
| Revocation.Issuer.ApplyRevocation | daemon/auth/auth.go:254-262 | records the id and publishes nothing |
| Revocation.Issuer.Receive | daemon/auth/gossip.go:102-116 | ignores unreadable events and empty ids |
| Revocation.Mesh.RevokeAt | daemon/auth/auth.go:238-252 | a local revocation at one of the hooked issuers is a step of the network |
| Revocation.Mesh.DeliverTo | daemon/auth/gossip.go:102-116 | a message received by an issuer is a step of the network |
| Revocation.Gossip | daemon/auth/gossip.go:69-117 | issuers driven through any events hold exactly the state of the network's run |
| Revocation.GossipInvariant | daemon/auth/gossip.go:69-117 | over any delivery pattern the published list is exactly the local revokes, nodes hold their own revokes and nothing nobody revoked |
| Revocation.OnlyGrows | daemon/auth/auth.go:123-134 | along every run a node's set only grows |
| Revocation.Convergence | daemon/auth/gossip.go:1-12 | once every message reached a node it holds exactly the non-empty ids revoked anywhere, and the empty id iff it revoked it itself |
| Revocation.AgreeExactly | daemon/auth/gossip.go:110-114 | two such nodes agree iff both or neither revoked the empty id |
| Revocation.EmptyIdExample | daemon/auth/gossip.go:110-114 | the empty id, revoked at one of two nodes and delivered to both, is held only by the first |
| Packet.WireRoundTrip | daemon/audio/transport.go:68-115 | a packet survives the wire, with any trailing bytes, iff its sample count is within the cap |
| Packet.UnwireExactly | daemon/audio/transport.go:85-115 | bytes are read as a packet iff they start with its wire form and it is within the cap |
| Packet.SampleIsLittleEndian | daemon/audio/transport.go:78-82 | a sample's bytes, low first, are its value modulo 2^16 |
| Machine.BigEndian | daemon/audio/transport.go:68-77 | the first byte of a number field is the most significant |
| Packet.RecvFramed | daemon/audio/streamtransport.go:43-97 | a framed packet within the bound comes out whole and the rest of the stream is untouched |
| Packet.RecvExactly | daemon/audio/streamtransport.go:75-97 | a packet comes off the stream iff the stream starts with it framed and it is within the bound |
| Packet.RecvTruncated | daemon/audio/streamtransport.go:75-97 | a stream cut inside a packet ends unexpectedly, and cleanly only where it is empty |
| JitterBuffer.RunKeepsInv | daemon/audio/receiver.go:107-164 | under any loss, duplication and reordering the buffer holds exactly the accepted frames still to play, within its bound, every packet is accounted for, and the sink is the reference playout |
| JitterBuffer.InvExactly | daemon/audio/receiver.go:107-153 | that holds all along a run iff no packet is accepted after the playout position has wrapped |
| JitterBuffer.SinkSlot | daemon/audio/receiver.go:137-164 | sink slot i is the frame accepted for anchor+i, else the configured gap fill; sink length is played plus concealed |
| Playback.HeardSlot | daemon/audio/receiver.go:137-164 | in every run a slot holds its accepted frame; else a whole frame of zeros, or in hold mode the frame of the nearest earlier slot that has one, unless that is empty |
| Playback.FirstPacketAnchors | daemon/audio/receiver.go:112-119 | the first packet to arrive gives the stream its format and first slot for good |
| Playback.TakenExactly | daemon/audio/receiver.go:120-134 | in every run a packet is taken iff its slot is not passed, has no accepted frame and the buffer has room, and else counted as dropped |
| Playback.Reassembled | daemon/audio/receiver.go:107-135 | packets offered in any order, the earliest first and no more than fit, are all played by PlayBuffered, each in its slot, with none dropped |
| Playback.PaceFollowsOccupancy | daemon/audio/receiver.go:166-194 | sustained over-fill drains two frames a tick, sustained under-fill with no head holds, and in between a tick writes one |
| Playback.HeadIsPlayed | daemon/audio/receiver.go:186-192 | a frame that is there for the next slot is always played |
| Playback.FilterResponse | daemon/audio/receiver.go:173-179 | at constant occupancy the filter closes in on the error by a tenth of the distance a tick |
| Playback.DefaultsExactly | daemon/audio/receiver.go:35-43 | a zero configuration means target 3 and maximum 12, a consistent one is kept, and a maximum below the target becomes four times it |
| JitterBuffer.RunKeepsLevel | daemon/audio/receiver.go:166-194 | in every run the buffer stays within capacity and the loop filter between minus the target and the most the buffer can exceed it by |
| JitterBuffer.TickKeepsInv | daemon/audio/receiver.go:202-217 | a tick of zero, one or two frames keeps the receiver's invariant |
| JitterBuffer.OfferKeepsInv | daemon/audio/receiver.go:107-135 | an offered packet is accepted into its slot or counted as dropped |
| JitterBuffer.DrainPlaysAll | daemon/audio/receiver.go:219-240 | PlayBuffered empties the buffer up to the last sequence number, plays every buffered frame in its slot even when the loop holds, and overshoots the last by at most one concealed slot |
| AudioPath.EndToEnd | daemon/audio/receiver.go:242-272 | a broadcast reaches the sink frame for frame with nothing concealed, dropped or left, iff the effective MaxFrames is at least one or the source is empty |
| AudioPath.WrappedExample | daemon/audio/receiver.go:35-43 | a target of 2^62 frames wraps the effective MaxFrames to zero and a one-frame broadcast plays nothing |
| AudioPath.OversizedBreaks | daemon/audio/streamtransport.go:75-97 | a frame over the sample cap ends the stream as broken with nothing played |
| AudioPath.RoomyUnlessWrapped | daemon/audio/receiver.go:35-43 | the effective MaxFrames is at least one unless four times the target wraps |
| AudioPath.PacketAt | daemon/audio/sender.go:45-56 | packet i carries frame i, sequence number i and sample position 480 i, modulo 2^64 |
| AudioPath.StampsCountSamples | daemon/audio/audio.go:91-99 | a frame's samples are the channels times what the timestamp advances |
| AudioPath.CorruptIsSkipped | daemon/audio/receiver.go:262-266 | a framed packet that is not readable is counted as dropped and the stream goes on |
| AudioNodes.EncodePacket | daemon/audio/transport.go:68-83 | the filled buffer is the packet's wire form |
| AudioNodes.DecodePacket | daemon/audio/transport.go:85-115 | accepts exactly well-formed buffers and returns their packet |
| AudioNodes.Pipe.Send | daemon/audio/streamtransport.go:43-56 | appends the length-prefixed packet |
| AudioNodes.Pipe.Receive | daemon/audio/streamtransport.go:75-97 | returns the next packet, a clean end only on a boundary, and rejects oversized lengths |
| AudioNodes.Sender.SendFrame | daemon/audio/sender.go:31-58 | ships one matching frame under the next sequence and timestamp; otherwise nothing moves |
| AudioNodes.Sender.Run | daemon/audio/sender.go:60-78 | the stream gains exactly the numbered packets of the frames before the first mismatch |
| AudioNodes.Receiver.Offer | daemon/audio/receiver.go:107-135 | is the offer step of the state machine |
| AudioNodes.Receiver.PlayOne | daemon/audio/receiver.go:137-153 | is the playout step: the buffered frame for the slot, or the concealment |
| AudioNodes.Receiver.Conceal | daemon/audio/receiver.go:155-164 | the held frame in hold mode when there is one, else silence |
| AudioNodes.Receiver.DllAdjust | daemon/audio/receiver.go:166-194 | filters the occupancy error and asks for two, none or one frames |
| AudioNodes.Receiver.Tick | daemon/audio/receiver.go:202-217 | is the tick step, loop filter included, and returns the number of frames written |
| AudioNodes.Receiver.PlayBuffered | daemon/audio/receiver.go:219-240 | terminates and is the drain of the state machine |
| AudioNodes.Receiver.Run | daemon/audio/receiver.go:242-272 | processes the whole stream packet by packet and drains at a clean end, whatever is on it |
| AudioPath.ListenKeepsReady | daemon/audio/receiver.go:107-135 | whatever a receiver hears, nothing is ever buffered behind the playout position, so it can be drained |
| AudioNodes.Relay | daemon/audio/receiver.go:242-272 | sender, framing and receiver together: the sink holds exactly the source's matching frames iff the receiver can buffer one and they are within the sample cap, or there are none |
| Scheduler.Rank | daemon/scheduler/scheduler.go:77-98 | the feasible nodes, each once, in descending score |
| Scheduler.PipelineSpreads | daemon/scheduler/scheduler.go:120-143 | every pipeline standby is on another node than its primary, and up to as many consecutive shards as nodes use distinct nodes |
| Scheduler.PipelineCovers | daemon/scheduler/scheduler.go:120-143 | each shard is placed in order, with the next shard's node as standby |
| Scheduler.PipelineNode | daemon/scheduler/scheduler.go:131-138 | nodes come in the order of the ranking, which comes round again after its last |
| Scheduler.PipelineTakesBest | daemon/scheduler/scheduler.go:120-143 | the first shard goes to a best node and later ones to no better ones until the ranking comes round |
| Scheduler.Placer.Place | daemon/scheduler/scheduler.go:100-118 | fails iff no node is feasible; else stores the shard on a node no feasible one outscores, with one the others do not outscore standing by if there is one |
| Scheduler.Placer.PlacePipeline | daemon/scheduler/scheduler.go:120-143 | fails iff no node is feasible; else stores the round-robin plan over a ranking |
| Scheduler.Placer.Reroute | daemon/scheduler/scheduler.go:145-184 | promotes the standby, or else takes the best other node, with the best of the rest standing by; a successful reroute mentions the lost node nowhere; a failed one changes nothing and means no other node is feasible |
| Scheduler.RerouteTakesBest | daemon/scheduler/scheduler.go:145-184 | losing the first primary promotes its standby with a best of the other nodes standing by for the lost shard; otherwise the first shard goes to a best node other than the lost one |
| Scheduler.Placer.RerouteNode | daemon/scheduler/scheduler.go:186-214 | afterwards a plan has a primary on the lost node only if unchanged and no other node is feasible; other plans are untouched |
| Scheduler.Placer.UpdateNode | daemon/scheduler/scheduler.go:70-75 | records the latest telemetry and keeps every stored plan |
| KeyExpr.MatchChunks | daemon/mesh/keyexpr.go:26-55 | terminates and decides matching |
| KeyExpr.MatchIffCut | daemon/mesh/keyexpr.go:5-13 | a key matches iff it can be cut into consecutive pieces, one fitting each pattern chunk |
| KeyExpr.MatchConcat | daemon/mesh/keyexpr.go:26-55 | a concatenated pattern matches iff the key splits between the two parts |
| KeyExpr.SplitKeyOfJoin | daemon/mesh/keyexpr.go:18-24 | a key splits into the chunks it was joined from, with or without surrounding slashes |
| KeyExpr.MatchKey | daemon/mesh/keyexpr.go:14-16 | true iff the split key can be cut along the split expression |
| ChunkStore.Put | daemon/dfs/dfs.go:143-188 | the manifest describes exactly the slices of the input, for every length; it fails iff the store refuses a shard of one of them |
| ChunkStore.SliceSizes | daemon/dfs/dfs.go:143-188 | every slice has the chunk size but the last, which is no longer and not empty |
| ChunkStore.RootBindsShards | daemon/dfs/dfs.go:175-188 | under an injective hash with ids of one length, manifests have the same root iff they list the same shards |
| ChunkStore.PutChunk | daemon/dfs/dfs.go:190-220 | addresses every shard of the encoded chunk in order; fails iff the store refuses one of them |
| ChunkStore.GetChunk | daemon/dfs/dfs.go:253-299 | a chunk that comes back rests on k shards that hash to their ids, a rebuilt set that passes verification, and its join to the recorded length |
| ChunkStore.Get | daemon/dfs/dfs.go:222-251 | the concatenated chunks, or nothing if one fails, has the wrong number of ids, or the shard counts are zero |
| ChunkStore.ChunkExactly | daemon/dfs/dfs.go:253-299 | a stored chunk comes back iff at least k shards answer with matching bytes; substituted shards never alter it |
| ChunkStore.GetOfPut | daemon/dfs/dfs.go:222-251 | Get after Put returns exactly the bytes iff each chunk has k valid shards, and otherwise an error |
| ChunkStore.ReplicationIsErasure | daemon/dfs/dfs.go:46-51 | the assumption on the code can be met |
| QuotaGuard.CopyQuota | daemon/dataplane/frame.go:98-138 | for any chunking, below the largest limit it ends with exactly the first limit bytes and an overrun report iff there are more; at the largest limit it never moves a byte of a non-empty stream |
| QuotaGuard.WantIsEmptyExactly | daemon/dataplane/frame.go:106-113 | a read request is empty iff the limit is the largest uint64 and nothing was copied |
| QuotaGuard.QuotaReader.Read | daemon/dataplane/server.go:398-422 | hands on bytes up to the quota, reports an overrun iff a byte remains at the ceiling, and then for good |
| QuotaGuard.Limited.Read | daemon/dataplane/server.go:320-322 | a spent budget ends at once; otherwise at most the budget is read |
| QuotaGuard.BudgetExactly | daemon/dataplane/server.go:320-323 | the reader's budget is limit plus one iff the limit is below 2^63-1, and otherwise not positive |
| QuotaGuard.ReceivePayload | daemon/dataplane/server.go:314-339 | a sink draining in any piece sizes gets the first limit bytes with the right overrun report iff the limit is below 2^63-1 or there is nothing to transfer |

## Left out

- Registers, documents and clocks are values held in the engine's maps; sharing of register pointers is not captured.
- `Open` of the CRDT engine and of the ledger from a non-empty store, `Snapshot` and `Checkpoint`: durability of a store that does not fail adds only copies.
- Ledger crashes between two store writes, and reads of Balance or TotalSupply that race a writer: operations are atomic.
- The ledger's string keys: ids are used directly, so the injectivity of decimal keys is taken for granted.
- LedgerRuns.Conservation: runs are those in which minted supply fits in 64 bits, the id counters have room, and no call takes more out of escrow than it can spare; CoverageExactly shows the last to be exactly what coverage needs, and OrdinaryIsRun that ordinary calls meet it.
- Assertions.RefinesMap: for up to 2^64-1 assertions in a document, after which an agent's counter can wrap.
- Which order `sort.Slice` gives two different caveats of one key: theorems hold for every sort function, and say where the order matters.
- VerifyChild, the bearer-token issuer, key custody and Ed25519 itself.
- JitterBuffer.RunKeepsInv: sink writes succeed.
- AudioNodes.Receiver.Run: context cancellation is not modelled.
- MemTransport and the OS audio backends: a queue and device bindings.
- Scheduler concurrency between collecting the keys and rerouting in RerouteNode, and the default cost model's formula: any cost model is allowed.
- Carrying all shards over a reroute: the code keeps only the first, and so does the model.
- ChunkStore.Put: a read error of the input other than its end is not modelled.
- Write errors of a destination or sink in the quota guards and the receiver.
- Remote shard fan-out, 9P, the mesh transport, metrics, telemetry, gateway and lifecycle code: foreign or easy.
