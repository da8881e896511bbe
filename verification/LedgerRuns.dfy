/** Conservation, escrow coverage and exactly-once settlement over every run of the ledger. */
module LedgerRuns {
  import opened Machine
  import opened Sums
  import opened LedgerModel

  /** A run: each call with the state it left and whether it reported success. */
  datatype Trace = Start(openMesh: bool) | Then(prev: Trace, e: Event, s: State, ok: bool)

  function Last(t: Trace): State {
    match t
    case Start(openMesh) => Initial(openMesh)
    case Then(_, _, s, _) => s
  }

  /** What escrow holds beyond what pending claims are owed. */
  ghost function Spare(s: State): int { Balance(s.utxos, Only(ESCROW)) - Owed(s.claims) }

  /** What an opening pledges out of escrow's own records. */
  function Repledged(o: Opening): nat {
    (if o.consumer == ESCROW then o.payment else 0) + (if o.provider == ESCROW then o.bond else 0)
  }

  /** Minted supply fits in 64 bits, and the id counters are not exhausted. */
  ghost predicate Fits(s: State, e: Event) {
    Room(s, 4) && s.nextTx < MAX64 && (e.DoMint? ==> Balance(s.utxos, Everyone) + e.value < TWO64)
  }

  /** The call takes out of escrow no more than escrow can spare. */
  ghost predicate Spares(s: State, e: Event) {
    match e
    case DoSettle(input, to, amt) =>
      amt > 0 && CanSettle(s, input, amt) && s.utxos[input].owner == ESCROW && to != ESCROW ==> amt <= Spare(s)
    case DoOpen(o) => Repledged(o) > 0 && CanOpen(s, o) ==> Repledged(o) <= Spare(s)
    case _ => true
  }

  ghost predicate Allowed(s: State, e: Event) { Fits(s, e) && Spares(s, e) }

  ghost predicate IsRun(t: Trace) {
    match t
    case Start(_) => true
    case Then(prev, e, s, ok) => IsRun(prev) && Allowed(Last(prev), e) && Step(Last(prev), e, s, ok)
  }

  /** A sequence of calls of any kind by anyone. */
  ghost predicate Calls(t: Trace) {
    match t
    case Start(_) => true
    case Then(prev, e, s, ok) => Calls(prev) && Fits(Last(prev), e) && Step(Last(prev), e, s, ok)
  }

  lemma {:induction false} RunIsCalls(t: Trace)
    requires IsRun(t)
    ensures Calls(t)
  {
    hide Step, Fits;
    if t.Then? { RunIsCalls(t.prev); }
  }

  function Minted(t: Trace): nat {
    match t
    case Start(_) => 0
    case Then(prev, e, _, _) => Minted(prev) + if e.DoMint? then e.value else 0
  }

  /** What a call adds to what escrow can spare. */
  function Stray(s: State, e: Event, ok: bool): int {
    match e
    case DoMint(owner, value) => if owner == ESCROW then value else 0
    case DoSettle(input, to, amt) =>
      if ok && input in s.utxos
      then (if to == ESCROW then amt else 0) - (if s.utxos[input].owner == ESCROW then amt else 0)
      else 0
    case DoOpen(o) =>
      var out: int := Repledged(o);
      if CanOpen(s, o) then -out else if Strands(s, o) && o.consumer != ESCROW then o.payment else 0
    case DoFinalize(tx, _) =>
      if ok && tx in s.claims && s.claims[tx].provider == ESCROW then s.claims[tx].payment + s.claims[tx].bond else 0
    case DoChallenge(tx, _, _, challenger) =>
      if ok && tx in s.claims
      then (if s.claims[tx].consumer == ESCROW then s.claims[tx].payment else 0)
           + (if challenger == ESCROW then s.claims[tx].bond else 0)
      else 0
    case DoAdvance(_) => 0
  }

  function Stranded(t: Trace): int {
    match t
    case Start(_) => 0
    case Then(prev, e, _, ok) => Stranded(prev) + Stray(Last(prev), e, ok)
  }

  ghost predicate Inv(s: State, minted: nat, stranded: int) {
    Ids(s)
    && Balance(s.utxos, Everyone) == minted < TWO64
    && Spare(s) == stranded >= 0
  }

  /** A pending claim is covered, so its 64-bit payment-plus-bond sum does not wrap. */
  lemma PendingIsCovered(s: State, minted: nat, stranded: int, tx: u64)
    requires Inv(s, minted, stranded) && tx in s.claims && s.claims[tx].state.Pending?
    ensures s.claims[tx].payment + s.claims[tx].bond <= Balance(s.utxos, Only(ESCROW)) < TWO64
    ensures (s.claims[tx].payment + s.claims[tx].bond) % TWO64 == s.claims[tx].payment + s.claims[tx].bond
  {
    TotalContains(s.claims, Owes, tx);
    EscrowWithinSupply(s.utxos);
  }

  /** When escrow covers the claim the release succeeds, and only escrow pays. */
  lemma SettleEffect(paid: State, tx: u64, how: ClaimState, s': State, ok: bool, amt: u64)
    requires Ids(paid) && tx in paid.claims && amt == paid.claims[tx].payment + paid.claims[tx].bond
    requires Balance(paid.utxos, Only(ESCROW)) >= amt && Settles(paid, tx, how, s', ok)
    ensures ok && Ids(s') && s'.claims == paid.claims[tx := paid.claims[tx].(state := how)]
    ensures Balance(s'.utxos, Everyone) == Balance(paid.utxos, Everyone) - amt
    ensures forall o :: Balance(s'.utxos, Only(o)) == Balance(paid.utxos, Only(o)) - if o == ESCROW then amt else 0
  {
    hide Balance;
    var m :| Released(paid.utxos, amt, m, ok) && s' == if ok then Close(paid.(utxos := m), tx, how) else paid.(utxos := m);
    forall o ensures Balance(m, Only(o)) == Balance(paid.utxos, Only(o)) - if o == ESCROW then amt else 0 {
      ReleaseBalance(paid.utxos, amt, m, true, o);
    }
    ReleaseBalance(paid.utxos, amt, m, true, ESCROW);
  }

  lemma CloseOwed(claims: map<u64, Claim>, tx: u64, how: ClaimState)
    requires tx in claims && claims[tx].state.Pending? && !how.Pending?
    ensures Owed(claims[tx := claims[tx].(state := how)]) == Owed(claims) - claims[tx].payment - claims[tx].bond
  {
    TotalUpdate(claims, Owes, tx, claims[tx].(state := how));
  }

  /** Closing a paid-out claim: escrow and what it owes shrink together. */
  lemma SettleKeepsInv(s: State, paid: State, tx: u64, how: ClaimState, s': State, ok: bool, minted: nat,
      stranded: int, extra: nat)
    requires Inv(s, minted, stranded) && tx in s.claims && s.claims[tx].state.Pending? && !how.Pending?
    requires Ids(paid) && paid.claims == s.claims && paid.nextTx == s.nextTx
    requires Balance(paid.utxos, Everyone) == minted + s.claims[tx].payment + s.claims[tx].bond
    requires Balance(paid.utxos, Only(ESCROW)) == Balance(s.utxos, Only(ESCROW)) + extra
    requires Settles(paid, tx, how, s', ok)
    ensures ok && Inv(s', minted, stranded + extra)
    ensures s'.claims == s.claims[tx := s.claims[tx].(state := how)]
    ensures forall o :: Balance(s'.utxos, Only(o)) ==
              Balance(paid.utxos, Only(o)) - if o == ESCROW then s.claims[tx].payment + s.claims[tx].bond else 0
  {
    hide Balance, Owed, Settles, Ids;
    PendingIsCovered(s, minted, stranded, tx);
    SettleEffect(paid, tx, how, s', ok, s.claims[tx].payment + s.claims[tx].bond);
    CloseOwed(s.claims, tx, how);
  }

  lemma ProviderBalance(s: State, c: Claim, w: Whose)
    requires Ids(s) && Room(s, 1) && c.payment + c.bond < TWO64
    ensures Ids(PaidProvider(s, c)) && PaidProvider(s, c).claims == s.claims && PaidProvider(s, c).nextTx == s.nextTx
    ensures Balance(PaidProvider(s, c).utxos, w) == Balance(s.utxos, w) + Weight(Utxo(c.provider, c.payment + c.bond), w)
  {
    MintBalance(s, c.provider, c.payment + c.bond, w);
  }

  lemma FinalizeKeepsInv(s: State, tx: u64, s': State, ok: bool, minted: nat, stranded: int)
    requires Inv(s, minted, stranded) && Room(s, 1) && tx in s.claims && s.claims[tx].state.Pending?
    requires PaidProvider(s, s.claims[tx]).claims == s.claims
    requires Settles(PaidProvider(s, s.claims[tx]), tx, Finalized, s', ok)
    ensures var c := s.claims[tx];
            ok && Inv(s', minted, stranded + if c.provider == ESCROW then c.payment + c.bond else 0)
    ensures s'.claims == s.claims[tx := s.claims[tx].(state := Finalized)]
    ensures forall o :: Balance(s'.utxos, Only(o)) == Balance(s.utxos, Only(o))
              + (if o == s.claims[tx].provider then s.claims[tx].payment + s.claims[tx].bond else 0)
              - (if o == ESCROW then s.claims[tx].payment + s.claims[tx].bond else 0)
  {
    hide Balance, Settles, Ids, PaidProvider, Owed;
    var c, paid := s.claims[tx], PaidProvider(s, s.claims[tx]);
    PendingIsCovered(s, minted, stranded, tx);
    forall w ensures Balance(paid.utxos, w) == Balance(s.utxos, w) + Weight(Utxo(c.provider, c.payment + c.bond), w)
                     && Ids(paid) && paid.nextTx == s.nextTx {
      ProviderBalance(s, c, w);
    }
    SettleKeepsInv(s, paid, tx, Finalized, s', ok, minted, stranded, if c.provider == ESCROW then c.payment + c.bond else 0);
  }

  lemma ChallengerBalance(s: State, c: Claim, challenger: Owner, w: Whose)
    requires Ids(s) && Room(s, 2)
    ensures Ids(PaidChallenger(s, c, challenger)) && PaidChallenger(s, c, challenger).claims == s.claims
    ensures PaidChallenger(s, c, challenger).nextTx == s.nextTx
    ensures Balance(PaidChallenger(s, c, challenger).utxos, w) ==
            Balance(s.utxos, w) + Weight(Utxo(c.consumer, c.payment), w) + Weight(Utxo(challenger, c.bond), w)
  {
    MintBalance(s, c.consumer, c.payment, w);
    if c.bond > 0 { MintBalance(Mint(s, c.consumer, c.payment), challenger, c.bond, w); }
  }

  lemma ChallengeKeepsInv(s: State, tx: u64, challenger: Owner, s': State, ok: bool, minted: nat, stranded: int)
    requires Inv(s, minted, stranded) && Room(s, 2) && tx in s.claims && s.claims[tx].state.Pending?
    requires PaidChallenger(s, s.claims[tx], challenger).claims == s.claims
    requires Settles(PaidChallenger(s, s.claims[tx], challenger), tx, Slashed, s', ok)
    ensures ok && Inv(s', minted, stranded + (if s.claims[tx].consumer == ESCROW then s.claims[tx].payment else 0)
                                           + (if challenger == ESCROW then s.claims[tx].bond else 0))
    ensures s'.claims == s.claims[tx := s.claims[tx].(state := Slashed)]
    ensures forall o :: Balance(s'.utxos, Only(o)) == Balance(s.utxos, Only(o))
              + (if o == s.claims[tx].consumer then s.claims[tx].payment else 0)
              + (if o == challenger then s.claims[tx].bond else 0)
              - (if o == ESCROW then s.claims[tx].payment + s.claims[tx].bond else 0)
  {
    var c := s.claims[tx];
    var paid := PaidChallenger(s, c, challenger);
    hide Balance, Settles, Ids, PaidChallenger, Owed;
    ChallengerBalance(s, c, challenger, Everyone);
    forall o ensures Balance(paid.utxos, Only(o)) == Balance(s.utxos, Only(o)) + (if o == c.consumer then c.payment else 0)
                                                     + (if o == challenger then c.bond else 0) {
      ChallengerBalance(s, c, challenger, Only(o));
    }
    SettleKeepsInv(s, paid, tx, Slashed, s', ok, minted, stranded,
                   (if c.consumer == ESCROW then c.payment else 0) + (if challenger == ESCROW then c.bond else 0));
  }

  /** A payment moves what escrow can spare by what it takes from escrow and gives to it. */
  lemma PaySpare(s: State, input: u64, to: Owner, amt: u64)
    requires Ids(s) && Room(s, 2) && input in s.utxos && s.utxos[input].value >= amt
    ensures var s' := Pay(s, input, to, amt);
            Ids(s') && s'.next <= s.next + 2 && s'.nextTx == s.nextTx && s'.claims == s.claims
            && Balance(s'.utxos, Everyone) == Balance(s.utxos, Everyone)
            && Spare(s') == Spare(s) + (if to == ESCROW then amt else 0) - (if s.utxos[input].owner == ESCROW then amt else 0)
  {
    PayBalance(s, input, to, amt, Everyone);
    PayBalance(s, input, to, amt, Only(ESCROW));
    hide Balance, Owed;
  }

  lemma RecordSpare(s: State, c: Claim)
    requires Ids(s) && s.nextTx < MAX64 && c.state.Pending?
    ensures Ids(Record(s, c)) && Record(s, c).utxos == s.utxos && Spare(Record(s, c)) == Spare(s) - c.payment - c.bond
  {
    TotalInsert(s.claims, Owes, s.nextTx, c);
  }

  lemma OpenSpare(s: State, o: Opening)
    requires Ids(s) && Room(s, 4) && s.nextTx < MAX64
    ensures Ids(Open(s, o)) && Balance(Open(s, o).utxos, Everyone) == Balance(s.utxos, Everyone)
    ensures Spare(Open(s, o)) == Spare(s) + Stray(s, DoOpen(o), CanOpen(s, o))
  {
    hide Balance, Pay, Ids, Owed, Spare, Record;
    if s.enabled && CanLock(s, o.payInput, o.consumer, o.payment) {
      PaySpare(s, o.payInput, ESCROW, o.payment);
      if CanOpen(s, o) {
        if o.bond > 0 { PaySpare(AfterPayment(s, o), o.bondInput, ESCROW, o.bond); }
        RecordSpare(Locked(s, o), NewClaim(o));
      }
    }
  }

  lemma StepKeepsInv(s: State, e: Event, s': State, ok: bool, minted: nat, stranded: int)
    requires Inv(s, minted, stranded) && Allowed(s, e) && Step(s, e, s', ok)
    ensures Inv(s', minted + (if e.DoMint? then e.value else 0), stranded + Stray(s, e, ok))
    ensures e.DoFinalize? ==> ok == CanFinalize(s, e.tx, e.now)
    ensures e.DoChallenge? ==> ok == CanChallenge(s, e.tx, e.fraud, e.now)
  {
    hide Balance, Owed, Pay, Open, Settles;
    match e
    case DoMint(owner, value) =>
      MintBalance(s, owner, value, Everyone);
      MintBalance(s, owner, value, Only(ESCROW));
    case DoSettle(input, to, amt) => if ok { PaySpare(s, input, to, amt); }
    case DoOpen(o) => OpenSpare(s, o);
    case DoFinalize(tx, now) => if CanFinalize(s, tx, now) { FinalizeKeepsInv(s, tx, s', ok, minted, stranded); }
    case DoChallenge(tx, f, now, challenger) =>
      if CanChallenge(s, tx, f, now) { ChallengeKeepsInv(s, tx, challenger, s', ok, minted, stranded); }
    case DoAdvance(n) =>
  }

  /** In every run the supply is what was minted, and escrow holds exactly what pending claims are owed
      plus what strayed into it. */
  lemma {:induction false} Conservation(t: Trace)
    requires IsRun(t)
    ensures Inv(Last(t), Minted(t), Stranded(t))
  {
    match t
    case Start(_) =>
    case Then(prev, e, s, ok) =>
      Conservation(prev);
      StepKeepsInv(Last(prev), e, s, ok, Minted(prev), Stranded(prev));
  }

  /** Coverage; its equality fails exactly by what strayed. */
  lemma {:induction false} EscrowCovers(t: Trace)
    requires IsRun(t)
    ensures Balance(Last(t).utxos, Only(ESCROW)) >= Owed(Last(t).claims)
    ensures Balance(Last(t).utxos, Only(ESCROW)) == Owed(Last(t).claims) <==> Stranded(t) == 0
    ensures Balance(Last(t).utxos, Everyone) == Minted(t) < TWO64
  {
    hide IsRun;
    Conservation(t);
  }

  /** The escrow-underflow error is unreachable: in every run a pending claim past its window is
      finalised by any Finalize call, and a valid challenge inside it succeeds. */
  lemma {:induction false} SettlementNeverUnderflows(t: Trace, e: Event, s': State, ok: bool)
    requires IsRun(t) && Allowed(Last(t), e) && Step(Last(t), e, s', ok)
    ensures e.DoFinalize? ==> (ok <==> CanFinalize(Last(t), e.tx, e.now))
    ensures e.DoChallenge? ==> (ok <==> CanChallenge(Last(t), e.tx, e.fraud, e.now))
  {
    hide IsRun, Step;
    Conservation(t);
    StepKeepsInv(Last(t), e, s', ok, Minted(t), Stranded(t));
  }

  /** A successful Finalize pays exactly the provider out of escrow; nobody else's balance moves. */
  lemma {:induction false} FinalizePays(t: Trace, tx: u64, now: u64, s': State, o: Owner)
    requires IsRun(t) && Allowed(Last(t), DoFinalize(tx, now)) && Step(Last(t), DoFinalize(tx, now), s', true)
    ensures tx in Last(t).claims
    ensures var c := Last(t).claims[tx];
            Balance(s'.utxos, Only(o)) == Balance(Last(t).utxos, Only(o))
              + (if o == c.provider then c.payment + c.bond else 0) - (if o == ESCROW then c.payment + c.bond else 0)
  {
    hide IsRun, Balance, Settles;
    Conservation(t);
    FinalizeKeepsInv(Last(t), tx, s', true, Minted(t), Stranded(t));
  }

  /** A successful Challenge refunds the consumer and awards the bond, out of escrow; nobody else's
      balance moves. */
  lemma {:induction false} ChallengePays(t: Trace, tx: u64, f: FraudProof, now: u64, challenger: Owner, s': State, o: Owner)
    requires IsRun(t) && Allowed(Last(t), DoChallenge(tx, f, now, challenger))
    requires Step(Last(t), DoChallenge(tx, f, now, challenger), s', true)
    ensures tx in Last(t).claims
    ensures var c := Last(t).claims[tx];
            Balance(s'.utxos, Only(o)) == Balance(Last(t).utxos, Only(o))
              + (if o == c.consumer then c.payment else 0) + (if o == challenger then c.bond else 0)
              - (if o == ESCROW then c.payment + c.bond else 0)
  {
    hide IsRun, Balance, Settles;
    Conservation(t);
    ChallengeKeepsInv(Last(t), tx, challenger, s', true, Minted(t), Stranded(t));
  }

  // ---------- exactly when escrow stays covered ----------

  ghost predicate Covers(s: State) { Balance(s.utxos, Only(ESCROW)) >= Owed(s.claims) }

  /** Settle has no owner check: spending an escrow record keeps coverage only into escrow itself or out
      of what escrow can spare. */
  lemma SettleCoverageExactly(s: State, input: u64, to: Owner, amt: u64, minted: nat, stranded: int)
    requires Inv(s, minted, stranded) && Room(s, 2) && CanSettle(s, input, amt)
    ensures Covers(Pay(s, input, to, amt)) <==> s.utxos[input].owner != ESCROW || to == ESCROW || amt <= stranded
  {
    hide Balance, Owed, Pay;
    PaySpare(s, input, to, amt);
  }

  /** An opening may name the escrow owner and pledge its records again: coverage is kept only if what it
      pledges can be spared. */
  lemma OpenCoverageExactly(s: State, o: Opening, minted: nat, stranded: int)
    requires Inv(s, minted, stranded) && Room(s, 4) && s.nextTx < MAX64
    ensures Covers(Open(s, o)) <==> !CanOpen(s, o) || Repledged(o) <= stranded
  {
    hide Balance, Owed, Open, CanOpen, Strands;
    OpenSpare(s, o);
  }

  ghost predicate CoveredThroughout(t: Trace) {
    Covers(Last(t)) && (t.Then? ==> CoveredThroughout(t.prev))
  }

  lemma StepCoversExactly(s: State, e: Event, s': State, ok: bool, minted: nat, stranded: int)
    requires Inv(s, minted, stranded) && Fits(s, e) && Step(s, e, s', ok)
    ensures Covers(s') <==> Spares(s, e)
  {
    hide Balance, Owed, Pay, Open, Settles, CanOpen;
    match e
    case DoSettle(input, to, amt) => if ok { SettleCoverageExactly(s, input, to, amt, minted, stranded); }
    case DoOpen(o) => OpenCoverageExactly(s, o, minted, stranded);
    case _ =>
      hide Step;
      StepKeepsInv(s, e, s', ok, minted, stranded);
  }

  /** Whatever calls are made, escrow covers the pending claims all along if and only if no call takes
      more out of escrow than it can spare. */
  lemma {:induction false} CoverageExactly(t: Trace)
    requires Calls(t)
    ensures CoveredThroughout(t) <==> IsRun(t)
  {
    hide Balance, Owed, Step, Covers;
    match t
    case Start(openMesh) => NothingOwed(openMesh);
    case Then(prev, e, s, ok) =>
      CoverageExactly(prev);
      if IsRun(prev) {
        Conservation(prev);
        StepCoversExactly(Last(prev), e, s, ok, Minted(prev), Stranded(prev));
      }
  }

  /** The call does not name the escrow owner and spends none of its records. */
  predicate Ordinary(s: State, e: Event) {
    match e
    case DoSettle(input, _, _) => input in s.utxos ==> s.utxos[input].owner != ESCROW
    case DoOpen(o) => o.consumer != ESCROW && o.provider != ESCROW
    case _ => true
  }

  ghost predicate OrdinaryThroughout(t: Trace) { t.Then? ==> OrdinaryThroughout(t.prev) && Ordinary(Last(t.prev), t.e) }

  /** Runs of ordinary calls are among those the theorems speak of, and covered all along. */
  lemma {:induction false} OrdinaryIsRun(t: Trace)
    requires Calls(t) && OrdinaryThroughout(t)
    ensures IsRun(t) && CoveredThroughout(t)
  {
    hide Step, Fits, Covers;
    if t.Then? { OrdinaryIsRun(t.prev); }
    CoverageExactly(t);
  }

  // ---------- exactly when supply is what was minted ----------

  lemma StepIds(s: State, e: Event, s': State, ok: bool)
    requires Ids(s) && Fits(s, e) && Step(s, e, s', ok)
    ensures Ids(s')
  {
    hide Balance, Owed, Pay, Open, Settles;
    match e
    case DoMint(owner, value) => MintBalance(s, owner, value, Everyone);
    case DoSettle(input, to, amt) => if ok { PaySpare(s, input, to, amt); }
    case DoOpen(o) => OpenSpare(s, o);
    case DoFinalize(tx, now) =>
      if CanFinalize(s, tx, now) {
        MintBalance(s, s.claims[tx].provider, (s.claims[tx].payment + s.claims[tx].bond) % TWO64, Everyone);
        SettledIds(PaidProvider(s, s.claims[tx]), tx, Finalized, s', ok);
      }
    case DoChallenge(tx, f, now, challenger) =>
      if CanChallenge(s, tx, f, now) {
        ChallengerBalance(s, s.claims[tx], challenger, Everyone);
        SettledIds(PaidChallenger(s, s.claims[tx], challenger), tx, Slashed, s', ok);
      }
    case DoAdvance(n) =>
  }

  lemma SettledIds(paid: State, tx: u64, how: ClaimState, s': State, ok: bool)
    requires Ids(paid) && tx in paid.claims && Settles(paid, tx, how, s', ok)
    ensures Ids(s')
  {
    hide Balance;
  }

  lemma {:induction false} CallsIds(t: Trace)
    requires Calls(t)
    ensures Ids(Last(t))
  {
    hide Step, Fits, Ids;
    match t
    case Start(openMesh) => NoIds(openMesh);
    case Then(prev, e, s, ok) =>
      CallsIds(prev);
      StepIds(Last(prev), e, s, ok);
  }

  lemma NoIds(openMesh: bool)
    ensures Ids(Initial(openMesh))
  {
  }

  /** A payout that pays more than it releases: the release underflows after the shares were minted, or a
      challenge's shares add up to more than 64 bits. */
  predicate Overpays(s: State, e: Event, ok: bool) {
    match e
    case DoFinalize(tx, now) => CanFinalize(s, tx, now) && !ok
    case DoChallenge(tx, fraud, now, _) =>
      CanChallenge(s, tx, fraud, now) && (!ok || s.claims[tx].payment + s.claims[tx].bond >= TWO64)
    case _ => false
  }

  lemma SettledSupply(paid: State, tx: u64, how: ClaimState, s': State, ok: bool)
    requires tx in paid.claims && Settles(paid, tx, how, s', ok)
    ensures var amt := (paid.claims[tx].payment + paid.claims[tx].bond) % TWO64;
            (ok <==> Balance(paid.utxos, Only(ESCROW)) >= amt)
            && Balance(s'.utxos, Everyone) ==
               Balance(paid.utxos, Everyone) - if ok then amt else Balance(paid.utxos, Only(ESCROW))
  {
    hide Balance;
    var amt := (paid.claims[tx].payment + paid.claims[tx].bond) % TWO64;
    var m :| Released(paid.utxos, amt, m, ok) && s' == if ok then Close(paid.(utxos := m), tx, how) else paid.(utxos := m);
    ReleaseBalance(paid.utxos, amt, m, ok, ESCROW);
  }

  /** Apart from what is minted, a call never lowers the supply, and raises it exactly when it overpays. */
  lemma StepSupply(s: State, e: Event, s': State, ok: bool)
    requires Ids(s) && Fits(s, e) && Step(s, e, s', ok)
    ensures Balance(s'.utxos, Everyone) >= Balance(s.utxos, Everyone) + if e.DoMint? then e.value else 0
    ensures Balance(s'.utxos, Everyone) == Balance(s.utxos, Everyone) + (if e.DoMint? then e.value else 0)
          <==> !Overpays(s, e, ok)
  {
    hide Balance, Owed, Pay, Open, Settles;
    match e
    case DoMint(owner, value) => MintBalance(s, owner, value, Everyone);
    case DoSettle(input, to, amt) => if ok { PaySpare(s, input, to, amt); }
    case DoOpen(o) => OpenSpare(s, o);
    case DoFinalize(tx, now) => if CanFinalize(s, tx, now) { FinalizeSupply(s, tx, s', ok); }
    case DoChallenge(tx, f, now, challenger) =>
      if CanChallenge(s, tx, f, now) { ChallengeSupply(s, tx, challenger, s', ok); }
    case DoAdvance(n) =>
  }

  lemma ProviderMinted(s: State, c: Claim, amt: u64, w: Whose)
    requires Ids(s) && Room(s, 1) && amt == (c.payment + c.bond) % TWO64
    ensures PaidProvider(s, c).claims == s.claims && PaidProvider(s, c).enabled == s.enabled
    ensures Balance(PaidProvider(s, c).utxos, w) == Balance(s.utxos, w) + Weight(Utxo(c.provider, amt), w)
  {
    hide Balance;
    MintBalance(s, c.provider, amt, w);
  }

  lemma FinalizeSupply(s: State, tx: u64, s': State, ok: bool)
    requires Ids(s) && Room(s, 1) && tx in s.claims && PaidProvider(s, s.claims[tx]).claims == s.claims
    requires Settles(PaidProvider(s, s.claims[tx]), tx, Finalized, s', ok)
    ensures Balance(s'.utxos, Everyone) >= Balance(s.utxos, Everyone)
    ensures Balance(s'.utxos, Everyone) == Balance(s.utxos, Everyone) <==> ok
  {
    var c := s.claims[tx];
    hide Balance, Settles, PaidProvider;
    ProviderMinted(s, c, (c.payment + c.bond) % TWO64, Everyone);
    SettledSupply(PaidProvider(s, c), tx, Finalized, s', ok);
  }

  lemma ChallengeSupply(s: State, tx: u64, challenger: Owner, s': State, ok: bool)
    requires Ids(s) && Room(s, 2) && tx in s.claims && PaidChallenger(s, s.claims[tx], challenger).claims == s.claims
    requires Settles(PaidChallenger(s, s.claims[tx], challenger), tx, Slashed, s', ok)
    ensures Balance(s'.utxos, Everyone) >= Balance(s.utxos, Everyone)
    ensures Balance(s'.utxos, Everyone) == Balance(s.utxos, Everyone) <==> ok && s.claims[tx].payment + s.claims[tx].bond < TWO64
  {
    hide Balance, Settles, PaidChallenger, Ids;
    var c := s.claims[tx];
    ChallengerSupply(s, c, challenger);
    WrappedSum(c.payment, c.bond);
    SettledSupply(PaidChallenger(s, c, challenger), tx, Slashed, s', ok);
  }

  lemma ChallengerSupply(s: State, c: Claim, challenger: Owner)
    requires Ids(s) && Room(s, 2)
    ensures Balance(PaidChallenger(s, c, challenger).utxos, Everyone) == Balance(s.utxos, Everyone) + c.payment + c.bond
  {
    hide Balance, PaidChallenger, Ids;
    ChallengerBalance(s, c, challenger, Everyone);
  }

  lemma WrappedSum(a: u64, b: u64)
    ensures (a + b) % TWO64 == if a + b < TWO64 then a + b else a + b - TWO64
  {
  }

  ghost predicate NeverOverpays(t: Trace) { t.Then? ==> NeverOverpays(t.prev) && !Overpays(Last(t.prev), t.e, t.ok) }

  /** Whatever calls are made, supply is at least what was minted, and exactly that if and only if no payout
      ever paid more than it released. */
  lemma {:induction false} SupplyExactly(t: Trace)
    requires Calls(t)
    ensures Balance(Last(t).utxos, Everyone) >= Minted(t)
    ensures Balance(Last(t).utxos, Everyone) == Minted(t) <==> NeverOverpays(t)
  {
    match t
    case Start(openMesh) => assert Balance(Initial(openMesh).utxos, Everyone) == 0;
    case Then(prev, e, s, ok) =>
      hide Balance, Step, Fits, Overpays;
      SupplyExactly(prev);
      CallsIds(prev);
      assert Fits(Last(prev), e);
      StepSupply(Last(prev), e, s, ok);
  }

  lemma ShortRelease(paid: State, tx: u64, how: ClaimState, s': State, o: Owner)
    requires tx in paid.claims && Settles(paid, tx, how, s', false)
    ensures s'.claims == paid.claims && s'.enabled == paid.enabled
    ensures o != ESCROW ==> Balance(s'.utxos, Only(o)) == Balance(paid.utxos, Only(o))
    ensures Balance(paid.utxos, Only(ESCROW)) < (paid.claims[tx].payment + paid.claims[tx].bond) % TWO64
  {
    hide Balance;
    var amt := (paid.claims[tx].payment + paid.claims[tx].bond) % TWO64;
    var m :| Released(paid.utxos, amt, m, false) && s' == paid.(utxos := m);
    ReleaseBalance(paid.utxos, amt, m, false, o);
  }

  /** A Finalize that reports underflow has paid the provider and leaves the claim pending, so it can be made
      again. */
  lemma UnderflowPays(s: State, tx: u64, now: u64, s': State)
    requires Ids(s) && Room(s, 1) && CanFinalize(s, tx, now) && Step(s, DoFinalize(tx, now), s', false)
    ensures s'.claims == s.claims && CanFinalize(s', tx, now)
    ensures var c := s.claims[tx];
            Balance(s'.utxos, Only(c.provider)) == Balance(s.utxos, Only(c.provider)) + (c.payment + c.bond) % TWO64
  {
    var c := s.claims[tx];
    hide Balance, Settles, PaidProvider, WindowElapsed;
    ProviderMinted(s, c, (c.payment + c.bond) % TWO64, Only(c.provider));
    ShortRelease(PaidProvider(s, c), tx, Finalized, s', c.provider);
  }

  lemma NothingOwed(openMesh: bool)
    ensures Covers(Initial(openMesh))
  {
  }

  // ---------- exactly once ----------

  predicate Pays(e: Event, ok: bool, tx: u64, how: ClaimState) {
    ok && ((how.Finalized? && e.DoFinalize? && e.tx == tx) || (how.Slashed? && e.DoChallenge? && e.tx == tx))
  }

  /** How often a claim was paid out that way. */
  function Payouts(t: Trace, tx: u64, how: ClaimState): nat {
    match t
    case Start(_) => 0
    case Then(prev, e, _, ok) => Payouts(prev, tx, how) + if Pays(e, ok, tx, how) then 1 else 0
  }

  predicate InState(s: State, tx: u64, how: ClaimState) { tx in s.claims && s.claims[tx].state == how }

  predicate SameTerms(c: Claim, d: Claim) { c.(state := Pending) == d.(state := Pending) }

  /** A claim's terms never change, and its state only moves from pending by its own payout. */
  lemma StepClaims(s: State, e: Event, s': State, ok: bool, tx: u64)
    requires Ids(s) && s.nextTx < MAX64 && Step(s, e, s', ok)
    ensures tx in s.claims ==> tx in s'.claims && SameTerms(s'.claims[tx], s.claims[tx])
    ensures tx in s.claims ==>
              s'.claims[tx].state == (if Pays(e, ok, tx, Finalized) then Finalized
                                      else if Pays(e, ok, tx, Slashed) then Slashed else s.claims[tx].state)
    ensures tx in s.claims && (Pays(e, ok, tx, Finalized) || Pays(e, ok, tx, Slashed)) ==> s.claims[tx].state.Pending?
    ensures tx !in s.claims ==> !Pays(e, ok, tx, Finalized) && !Pays(e, ok, tx, Slashed)
    ensures tx !in s.claims && tx in s'.claims ==> s'.claims[tx].state.Pending?
  {
    hide Released, Total;
  }

  /** Over any run each claim is paid out exactly as often as its final state says: at most once, and
      never both to the provider and to the challenger. */
  lemma {:induction false} ExactlyOnce(t: Trace, tx: u64)
    requires Calls(t)
    ensures Payouts(t, tx, Finalized) == if InState(Last(t), tx, Finalized) then 1 else 0
    ensures Payouts(t, tx, Slashed) == if InState(Last(t), tx, Slashed) then 1 else 0
    ensures Payouts(t, tx, Finalized) + Payouts(t, tx, Slashed) <= 1
  {
    match t
    case Start(_) =>
    case Then(prev, e, s, ok) =>
      ExactlyOnce(prev, tx);
      CallsIds(prev);
      hide Step;
      StepClaims(Last(prev), e, s, ok, tx);
  }

  lemma {:induction false} RunIds(t: Trace)
    requires IsRun(t)
    ensures Ids(Last(t))
  {
    hide IsRun;
    Conservation(t);
  }

  // ---------- the whole life of a claim ----------

  /** `t` goes on from `t0`. */
  ghost predicate Extends(t: Trace, t0: Trace) { t == t0 || (t.Then? && Extends(t.prev, t0)) }

  lemma {:induction false} LastStep(t: Trace)
    requires Calls(t) && t.Then?
    ensures Step(Last(t.prev), t.e, t.s, t.ok) && Last(t.prev).nextTx < MAX64
  {
  }

  /** However a run goes on, a claim stays on record with the terms it was opened with. */
  lemma {:induction false} TermsKept(t: Trace, t0: Trace, tx: u64)
    requires Calls(t) && Extends(t, t0) && tx in Last(t0).claims
    ensures tx in Last(t).claims && SameTerms(Last(t).claims[tx], Last(t0).claims[tx])
  {
    if t != t0 {
      TermsKept(t.prev, t0, tx);
      CallsIds(t.prev);
      LastStep(t);
      hide Calls, Step;
      StepClaims(Last(t.prev), t.e, t.s, t.ok, tx);
    }
  }

  lemma PayOwner(s: State, input: u64, to: Owner, amt: u64, o: Owner)
    requires Ids(s) && Room(s, 2) && input in s.utxos && s.utxos[input].value >= amt
    ensures var s' := Pay(s, input, to, amt);
            Ids(s') && s'.next <= s.next + 2 && s'.claims == s.claims && s'.nextTx == s.nextTx
            && Balance(s'.utxos, Only(o)) == Balance(s.utxos, Only(o))
                  - (if o == s.utxos[input].owner then amt else 0) + (if o == to then amt else 0)
  {
    PayBalance(s, input, to, amt, Only(o));
    hide Balance;
  }

  /** A successful opening takes the payment from the consumer and the bond from the provider into escrow,
      touches nobody else, and records exactly those terms. */
  lemma OpenMoves(s: State, opening: Opening, o: Owner)
    requires Ids(s) && Room(s, 4) && s.nextTx < MAX64 && CanOpen(s, opening)
    ensures var s' := Open(s, opening);
            Balance(s'.utxos, Only(o)) == Balance(s.utxos, Only(o))
              - (if o == opening.consumer then opening.payment else 0) - (if o == opening.provider then opening.bond else 0)
              + (if o == ESCROW then opening.payment + opening.bond else 0)
            && s.nextTx in s'.claims && s.nextTx !in s.claims
            && s'.claims[s.nextTx].consumer == opening.consumer && s'.claims[s.nextTx].provider == opening.provider
            && s'.claims[s.nextTx].payment == opening.payment && s'.claims[s.nextTx].bond == opening.bond
            && s'.claims[s.nextTx].openedAt == opening.now && s'.claims[s.nextTx].window == opening.window
            && s'.claims[s.nextTx].binding == opening.binding && s'.claims[s.nextTx].state.Pending?
  {
    assert s.nextTx !in s.claims;
    hide Pay, Balance, Ids;
    PayOwner(s, opening.payInput, ESCROW, opening.payment, o);
    if opening.bond > 0 { PayOwner(AfterPayment(s, opening), opening.bondInput, ESCROW, opening.bond, o); }
  }

  /** A claim opened at `t0` and finalised any time later pays its provider the payment and the bond it
      was opened with: with the opening, the payment has moved from consumer to provider and the bond is
      back. */
  lemma {:induction false} TradeSettles(t0: Trace, opening: Opening, s1: State, t: Trace, now: u64, s': State, o: Owner)
    requires IsRun(t) && Extends(t, Then(t0, DoOpen(opening), s1, true)) && IsRun(Then(t0, DoOpen(opening), s1, true))
    requires Allowed(Last(t), DoFinalize(Last(t0).nextTx, now)) && Step(Last(t), DoFinalize(Last(t0).nextTx, now), s', true)
    ensures Balance(s'.utxos, Only(o)) == Balance(Last(t).utxos, Only(o))
              + (if o == opening.provider then opening.payment + opening.bond else 0)
              - (if o == ESCROW then opening.payment + opening.bond else 0)
  {
    var t1, tx := Then(t0, DoOpen(opening), s1, true), Last(t0).nextTx;
    OpenedTerms(t0, opening, s1);
    RunIsCalls(t);
    hide IsRun, Calls, Step, Balance, Extends;
    TermsKept(t, t1, tx);
    FinalizePays(t, tx, now, s', o);
  }

  /** Challenged instead, the consumer is made whole and the provider's bond goes to the challenger. */
  lemma {:induction false} TradeReverses(t0: Trace, opening: Opening, s1: State, t: Trace, f: FraudProof, now: u64,
      challenger: Owner, s': State, o: Owner)
    requires IsRun(t) && Extends(t, Then(t0, DoOpen(opening), s1, true)) && IsRun(Then(t0, DoOpen(opening), s1, true))
    requires Allowed(Last(t), DoChallenge(Last(t0).nextTx, f, now, challenger))
    requires Step(Last(t), DoChallenge(Last(t0).nextTx, f, now, challenger), s', true)
    ensures Balance(s'.utxos, Only(o)) == Balance(Last(t).utxos, Only(o))
              + (if o == opening.consumer then opening.payment else 0) + (if o == challenger then opening.bond else 0)
              - (if o == ESCROW then opening.payment + opening.bond else 0)
  {
    var t1, tx := Then(t0, DoOpen(opening), s1, true), Last(t0).nextTx;
    OpenedTerms(t0, opening, s1);
    RunIsCalls(t);
    hide IsRun, Calls, Step, Balance, Extends;
    TermsKept(t, t1, tx);
    ChallengePays(t, tx, f, now, challenger, s', o);
  }

  lemma {:induction false} OpenedTerms(t0: Trace, opening: Opening, s1: State)
    requires IsRun(Then(t0, DoOpen(opening), s1, true))
    ensures Last(t0).nextTx in s1.claims && SameTerms(s1.claims[Last(t0).nextTx], NewClaim(opening))
  {
    RunIds(t0);
    hide Balance, Pay;
    OpenMoves(Last(t0), opening, ESCROW);
  }

  // ---------- the dispute window under the settler's clock ----------

  /** The settler passes the ledger's own block height, which does not wrap. */
  predicate Clocked(s: State, e: Event) {
    match e
    case DoFinalize(_, now) => now == s.block
    case DoChallenge(_, _, now, _) => now == s.block
    case DoOpen(o) => o.now == s.block
    case DoAdvance(n) => s.block + n < TWO64
    case _ => true
  }

  /** `t` goes on from `t0` driven by the settler. */
  ghost predicate Driven(t: Trace, t0: Trace) {
    t == t0 || (t.Then? && Driven(t.prev, t0) && Clocked(Last(t.prev), t.e))
  }

  lemma ElapsedStays(c: Claim, d: Claim, b: u64, b': u64)
    requires SameTerms(c, d) && WindowElapsed(c, b) && b <= b'
    ensures WindowElapsed(d, b')
  {
  }

  lemma StepClock(s: State, e: Event, s': State, ok: bool)
    requires Step(s, e, s', ok) && Clocked(s, e)
    ensures s.block <= s'.block
  {
    hide Released, Total;
  }

  lemma {:induction false} DrivenClock(t: Trace, t0: Trace)
    requires Calls(t) && Driven(t, t0)
    ensures Extends(t, t0) && Last(t0).block <= Last(t).block
  {
    if t != t0 {
      DrivenClock(t.prev, t0);
      LastStep(t);
      hide Calls, Step;
      StepClock(Last(t.prev), t.e, t.s, t.ok);
    }
  }

  /** Once a claim could be finalised, no later challenge of it succeeds. */
  lemma {:induction false} NoChallengeAfterWindow(t: Trace, t0: Trace, tx: u64, f: FraudProof)
    requires Calls(t) && Driven(t, t0)
    requires tx in Last(t0).claims && WindowElapsed(Last(t0).claims[tx], Last(t0).block)
    ensures !CanChallenge(Last(t), tx, f, Last(t).block)
  {
    hide Calls, Driven, Extends, WindowElapsed;
    DrivenClock(t, t0);
    TermsKept(t, t0, tx);
    ElapsedStays(Last(t0).claims[tx], Last(t).claims[tx], Last(t0).block, Last(t).block);
  }

  /** AdvanceBlock itself wraps: an elapsed window is open again exactly when the height wraps below its
      end. */
  lemma AdvanceReopensExactly(c: Claim, b: u64, n: u64)
    requires WindowElapsed(c, b)
    ensures !WindowElapsed(c, (b + n) % TWO64) <==> b + n >= TWO64 && !WindowElapsed(c, b + n - TWO64)
  {
    assert (b + n) % TWO64 == if b + n < TWO64 then b + n else b + n - TWO64;
  }

  /** A fresh ledger with five credits of a consumer. */
  function Funded(): State { Mint(Initial(true), "c", 5) }

  lemma FundedInv()
    ensures Inv(Funded(), 5, 0)
  {
    assert |"c"| != |ESCROW|;
    var s := Initial(true);
    assert Balance(s.utxos, Everyone) == Balance(s.utxos, Only(ESCROW)) == Owed(s.claims) == 0;
    hide Balance, Owed;
    MintBalance(s, "c", 5, Everyone);
    MintBalance(s, "c", 5, Only(ESCROW));
  }

  lemma FundedOpening(o: Opening)
    requires o.payInput == 1 && o.consumer == "c" && o.provider == "p" && o.payment == 5 && o.bond == 0
    ensures Open(Funded(), o).utxos == map[2 := Utxo(ESCROW, 5)] && Open(Funded(), o).enabled
    ensures Open(Funded(), o).next == 3 && Open(Funded(), o).nextTx == 2
  {
    assert CanOpen(Funded(), o);
  }

  lemma FundedClaim(o: Opening)
    requires o.payInput == 1 && o.consumer == "c" && o.provider == "p" && o.payment == 5 && o.bond == 0
    ensures Inv(Open(Funded(), o), 5, 0)
  {
    assert |"c"| != |ESCROW| && |"p"| != |ESCROW|;
    FundedInv();
    assert CanOpen(Funded(), o) && Stray(Funded(), DoOpen(o), true) == 0;
    hide Balance, Owed, Open, CanOpen, Spare, Stray;
    OpenSpare(Funded(), o);
  }

  /** Once they are locked for a claim, a Settle of the escrow record takes them away from under it. */
  lemma EscrowSpentExample(o: Opening)
    requires o.payInput == 1 && o.consumer == "c" && o.provider == "p" && o.payment == 5 && o.bond == 0
    ensures var s := Open(Funded(), o);
            Covers(s) && CanSettle(s, 2, 5) && !Covers(Pay(s, 2, "x", 5))
  {
    hide Open, Pay, Balance, Owed;
    FundedClaim(o);
    FundedOpening(o);
    assert |"x"| != |ESCROW|;
    SettleCoverageExactly(Open(Funded(), o), 2, "x", 5, 5, 0);
  }

  /** Or a second opening, in the escrow owner's name, pledges the same record for another claim. */
  lemma RepledgedExample(o: Opening, again: Opening)
    requires o.payInput == 1 && o.consumer == "c" && o.provider == "p" && o.payment == 5 && o.bond == 0
    requires again.payInput == 2 && again.consumer == ESCROW && again.provider == "p" && again.payment == 5 && again.bond == 0
    ensures var s := Open(Funded(), o);
            Covers(s) && CanOpen(s, again) && !Covers(Open(s, again))
  {
    hide Open, Pay, Balance, Owed;
    FundedClaim(o);
    FundedOpening(o);
    OpenCoverageExactly(Open(Funded(), o), again, 5, 0);
  }

  /** A full turn of the block counter reopens a window that had elapsed. */
  lemma ReopenedExample(c: Claim)
    requires c.openedAt == 0 && c.window == 5
    ensures WindowElapsed(c, 10) && !WindowElapsed(c, (10 + (TWO64 - 10)) % TWO64)
  {
  }

  // ---------- the dispute window, in blocks ----------

  /** The height at which a claim's window ends; one that lies past the 64-bit range is its last height. */
  function WindowEnd(openedAt: u64, window: u64): u64 {
    if openedAt + window < TWO64 then openedAt + window else MAX64
  }

  lemma WindowExactly(c: Claim, now: u64)
    ensures WindowElapsed(c, now) <==> WindowEnd(c.openedAt, c.window) <= now
  {
    WrappedSum(c.openedAt, c.window);
  }

  /** The proof is about the work the claim is for, and the honest output is another than the claimed one. */
  predicate Contradicts(f: FraudProof, b: Binding) {
    f.component == b.component && f.input == b.input && f.claimed == b.output && f.actual != b.output
  }

  lemma {:induction false} EnabledKept(t: Trace, t0: Trace)
    requires Calls(t) && Extends(t, t0)
    ensures Last(t).enabled == Last(t0).enabled
  {
    if t != t0 {
      EnabledKept(t.prev, t0);
      StepKeepsEnabled(Last(t.prev), t.e, t.s, t.ok);
    }
  }

  lemma StepKeepsEnabled(s: State, e: Event, s': State, ok: bool)
    requires Step(s, e, s', ok)
    ensures s'.enabled == s.enabled
  {
    hide Released, Total;
  }

  lemma OpenedEnabled(s: State, o: Opening, s': State)
    requires Step(s, DoOpen(o), s', true)
    ensures s'.enabled
  {
    hide Pay;
    assert CanOpen(s, o);
    LockedKeepsEnabled(s, o);
  }

  lemma LockedKeepsEnabled(s: State, o: Opening)
    requires CanOpen(s, o)
    ensures Open(s, o).enabled == s.enabled
  {
  }

  /** In any run after a claim was opened, it can be finalised exactly while pending from the end of its
      window on, and challenged exactly while pending before that, by a proof that contradicts it. */
  lemma {:induction false} WindowDecides(t0: Trace, o: Opening, s1: State, t: Trace, e: Event, s': State, ok: bool)
    requires IsRun(t) && Extends(t, Then(t0, DoOpen(o), s1, true)) && IsRun(Then(t0, DoOpen(o), s1, true))
    requires Allowed(Last(t), e) && Step(Last(t), e, s', ok)
    ensures var tx, end := Last(t0).nextTx, WindowEnd(o.now, o.window);
            tx in Last(t).claims
            && (e.DoFinalize? && e.tx == tx ==> (ok <==> Last(t).claims[tx].state.Pending? && end <= e.now))
            && (e.DoChallenge? && e.tx == tx ==>
                  (ok <==> Last(t).claims[tx].state.Pending? && e.now < end && Contradicts(e.fraud, o.binding)))
  {
    var t1, tx := Then(t0, DoOpen(o), s1, true), Last(t0).nextTx;
    OpenedTerms(t0, o, s1);
    OpenedEnabled(Last(t0), o, s1);
    RunIsCalls(t);
    hide IsRun, Calls, Extends, Step, Allowed;
    TermsKept(t, t1, tx);
    EnabledKept(t, t1);
    SettlementNeverUnderflows(t, e, s', ok);
    var c := Last(t).claims[tx];
    assert c.openedAt == o.now && c.window == o.window && c.binding == o.binding;
    if e.DoFinalize? { WindowExactly(c, e.now); }
    if e.DoChallenge? { WindowExactly(c, e.now); }
  }

  /** Under the settler's clock: opened at height b with window n, a claim can be disputed and not be paid out
      until height b + n. */
  lemma {:induction false} DisputePeriod(t0: Trace, o: Opening, s1: State, t: Trace, e: Event, s': State, ok: bool)
    requires IsRun(t) && Driven(t, Then(t0, DoOpen(o), s1, true)) && IsRun(Then(t0, DoOpen(o), s1, true))
    requires Allowed(Last(t), e) && Step(Last(t), e, s', ok) && Clocked(Last(t0), DoOpen(o)) && Clocked(Last(t), e)
    requires Last(t0).nextTx in Last(t).claims && Last(t).claims[Last(t0).nextTx].state.Pending?
    requires Last(t0).block + o.window < TWO64
    ensures e.DoFinalize? && e.tx == Last(t0).nextTx ==> (ok <==> Last(t).block >= Last(t0).block + o.window)
    ensures e.DoChallenge? && e.tx == Last(t0).nextTx && Contradicts(e.fraud, o.binding) ==>
              (ok <==> Last(t).block < Last(t0).block + o.window)
  {
    RunIsCalls(t);
    DrivenClock(t, Then(t0, DoOpen(o), s1, true));
    hide IsRun, Calls, Extends, Driven, Step, Allowed;
    WindowDecides(t0, o, s1, t, e, s', ok);
  }

  // ---------- the Sealed profile ----------

  /** In the Sealed profile nothing but minting and advancing ever succeeds, and no claim is ever recorded. */
  lemma {:induction false} SealedRefuses(t: Trace)
    requires Calls(t) && Extends(t, Start(false))
    ensures Last(t).claims == map[] && (t.Then? && t.ok ==> t.e.DoMint? || t.e.DoAdvance?)
    ensures Balance(Last(t).utxos, Everyone) == Minted(t)
  {
    EnabledKept(t, Start(false));
    if t.Then? {
      SealedRefuses(t.prev);
      EnabledKept(t.prev, Start(false));
      CallsIds(t.prev);
      hide Calls, Extends, Balance, Pay, Open, Settles;
      SealedStep(Last(t.prev), t.e, t.s, t.ok);
    } else {
      assert Balance(Initial(false).utxos, Everyone) == 0;
    }
  }

  lemma SealedStep(s: State, e: Event, s': State, ok: bool)
    requires Ids(s) && !s.enabled && s.claims == map[] && Fits(s, e) && Step(s, e, s', ok)
    ensures s'.claims == map[] && (ok ==> e.DoMint? || e.DoAdvance?)
    ensures Balance(s'.utxos, Everyone) == Balance(s.utxos, Everyone) + if e.DoMint? then e.value else 0
  {
    hide Balance, Pay, Settles;
    if e.DoMint? { MintBalance(s, e.owner, e.value, Everyone); }
  }

  // ---------- the block height ----------

  function Advanced(t: Trace): nat {
    match t
    case Start(_) => 0
    case Then(prev, e, _, _) => Advanced(prev) + if e.DoAdvance? then e.n else 0
  }

  lemma StepHeight(s: State, e: Event, s': State, ok: bool)
    requires Step(s, e, s', ok)
    ensures s'.block == if e.DoAdvance? then (s.block + e.n) % TWO64 else s.block
  {
    hide Released, Total;
  }

  /** Over any calls the height is the blocks advanced so far, modulo 2^64. */
  lemma {:induction false} HeightIsSum(t: Trace)
    requires Calls(t)
    ensures Last(t).block == Advanced(t) % TWO64
  {
    if t.Then? {
      HeightIsSum(t.prev);
      StepHeight(Last(t.prev), t.e, t.s, t.ok);
      hide Calls, Step;
      if t.e.DoAdvance? { AddModulo(Advanced(t.prev), t.e.n); }
    }
  }
}
