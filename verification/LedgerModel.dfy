/** The eUTXO ledger with optimistic settlement (daemon/ledger) as a transition system. */
module LedgerModel {
  import opened Machine
  import opened Sums

  type Owner = string
  const ESCROW: Owner := "__escrow__"

  datatype Utxo = Utxo(owner: Owner, value: u64)

  datatype ClaimState = Pending | Finalized | Slashed

  datatype Binding = Binding(task: string, component: string, input: string, output: string)

  datatype Claim = Claim(consumer: Owner, provider: Owner, payment: u64, bond: u64, openedAt: u64, window: u64,
                         binding: Binding, state: ClaimState)

  datatype FraudProof = FraudProof(component: string, input: string, claimed: string, actual: string)

  datatype State = State(utxos: map<u64, Utxo>, next: u64, claims: map<u64, Claim>, nextTx: u64, block: u64, enabled: bool)

  function Initial(openMesh: bool): State { State(map[], 1, map[], 1, 0, openMesh) }

  // ---------- what is counted ----------

  datatype Whose = Everyone | Only(owner: Owner) | Except(owner: Owner)

  function Weight(u: Utxo, w: Whose): nat {
    match w
    case Everyone => u.value
    case Only(o) => if u.owner == o then u.value else 0
    case Except(o) => if u.owner != o then u.value else 0
  }

  function Counted(w: Whose): Utxo -> nat { (u: Utxo) => Weight(u, w) }

  ghost function Balance(m: map<u64, Utxo>, w: Whose): nat { Total(m, Counted(w)) }

  /** What escrow owes for one claim: payment and bond while it is pending, nothing afterwards. */
  function Owes(c: Claim): nat { if c.state.Pending? then c.payment + c.bond else 0 }

  ghost function Owed(claims: map<u64, Claim>): nat { Total(claims, Owes) }

  lemma SupplySplits(m: map<u64, Utxo>, o: Owner)
    ensures Balance(m, Everyone) == Balance(m, Only(o)) + Balance(m, Except(o))
  {
    TotalSplit(m, Counted(Everyone), Counted(Only(o)), Counted(Except(o)));
  }

  // ---------- the operations ----------

  /** `mintLocked`: the id counter is a uint64 and wraps. */
  function Mint(s: State, owner: Owner, value: u64): State {
    s.(utxos := s.utxos[s.next := Utxo(owner, value)], next := (s.next + 1) % TWO64)
  }

  function Spend(s: State, input: u64): State { s.(utxos := s.utxos - {input}) }

  /** Spends `input`, returns the change to its owner and pays `amt` to `to`. */
  function Pay(s: State, input: u64, to: Owner, amt: u64): State
    requires input in s.utxos && s.utxos[input].value >= amt
  {
    var u := s.utxos[input];
    var s1 := Spend(s, input);
    Mint(if u.value > amt then Mint(s1, u.owner, u.value - amt) else s1, to, amt)
  }

  /** The id of the payee's record: the change, if any, takes the id before it. */
  function PayeeId(s: State, input: u64, amt: u64): u64
    requires input in s.utxos
  {
    if s.utxos[input].value > amt then (s.next + 1) % TWO64 else s.next
  }

  predicate CanSettle(s: State, input: u64, amt: u64) {
    s.enabled && input in s.utxos && s.utxos[input].value >= amt
  }

  predicate CanLock(s: State, input: u64, owner: Owner, amt: u64) {
    input in s.utxos && s.utxos[input].owner == owner && s.utxos[input].value >= amt
  }

  /** The arguments of OpenOptimistic. */
  datatype Opening = Opening(now: u64, payInput: u64, consumer: Owner, payment: u64, bondInput: u64, provider: Owner, bond: u64,
                             window: u64, binding: Binding)

  function NewClaim(o: Opening): Claim {
    Claim(o.consumer, o.provider, o.payment, o.bond, o.now, o.window, o.binding, Pending)
  }

  function Record(s: State, c: Claim): State {
    s.(claims := s.claims[s.nextTx := c], nextTx := (s.nextTx + 1) % TWO64)
  }

  function AfterPayment(s: State, o: Opening): State
    requires CanLock(s, o.payInput, o.consumer, o.payment)
  {
    Pay(s, o.payInput, ESCROW, o.payment)
  }

  /** The payment lock succeeded and the bond lock failed: the payment stays in escrow, unclaimed. */
  predicate Strands(s: State, o: Opening) {
    s.enabled && CanLock(s, o.payInput, o.consumer, o.payment)
    && o.bond > 0 && !CanLock(AfterPayment(s, o), o.bondInput, o.provider, o.bond)
  }

  predicate CanOpen(s: State, o: Opening) {
    s.enabled && CanLock(s, o.payInput, o.consumer, o.payment)
    && (o.bond > 0 ==> CanLock(AfterPayment(s, o), o.bondInput, o.provider, o.bond))
  }

  function Locked(s: State, o: Opening): State
    requires CanOpen(s, o)
  {
    var s1 := AfterPayment(s, o);
    if o.bond > 0 then Pay(s1, o.bondInput, ESCROW, o.bond) else s1
  }

  function Open(s: State, o: Opening): State {
    if CanOpen(s, o) then Record(Locked(s, o), NewClaim(o))
    else if Strands(s, o) then AfterPayment(s, o)
    else s
  }

  /** WindowElapsed, with its guard against a wrapping end block. */
  predicate WindowElapsed(c: Claim, now: u64) {
    var end := (c.openedAt + c.window) % TWO64;
    now >= if end < c.openedAt then MAX64 else end
  }

  predicate CanFinalize(s: State, tx: u64, now: u64) {
    s.enabled && tx in s.claims && s.claims[tx].state.Pending? && WindowElapsed(s.claims[tx], now)
  }

  predicate ValidFraud(f: FraudProof, b: Binding) {
    f.component == b.component && f.input == b.input && f.claimed == b.output && f.actual != f.claimed
  }

  predicate CanChallenge(s: State, tx: u64, f: FraudProof, now: u64) {
    s.enabled && tx in s.claims && s.claims[tx].state.Pending? && !WindowElapsed(s.claims[tx], now)
    && ValidFraud(f, s.claims[tx].binding)
  }

  /** What releaseEscrowLocked promises: only escrow records are spent or reduced, and by exactly `amt`.
      `ok` is false when escrow held less than that, and then all of it is gone. */
  ghost predicate Released(m: map<u64, Utxo>, amt: u64, m': map<u64, Utxo>, ok: bool) {
    (forall k :: k in m && m[k].owner != ESCROW ==> k in m' && m'[k] == m[k])
    && (forall k :: k in m' ==> k in m && m'[k].owner == m[k].owner && (m[k].owner != ESCROW ==> m'[k] == m[k]))
    && (ok <==> Balance(m, Only(ESCROW)) >= amt)
    && Balance(m', Only(ESCROW)) == if ok then Balance(m, Only(ESCROW)) - amt else 0
  }

  function PaidProvider(s: State, c: Claim): State {
    Mint(s, c.provider, (c.payment + c.bond) % TWO64)
  }

  function PaidChallenger(s: State, c: Claim, challenger: Owner): State {
    var s1 := Mint(s, c.consumer, c.payment);
    if c.bond > 0 then Mint(s1, challenger, c.bond) else s1
  }

  function Close(s: State, tx: u64, how: ClaimState): State
    requires tx in s.claims
  {
    s.(claims := s.claims[tx := s.claims[tx].(state := how)])
  }

  /** A payout: mint the shares, release the escrow, close the claim; on underflow the claim stays open. */
  ghost predicate Settles(paid: State, tx: u64, how: ClaimState, s': State, ok: bool)
    requires tx in paid.claims
  {
    var c := paid.claims[tx];
    exists m :: Released(paid.utxos, (c.payment + c.bond) % TWO64, m, ok)
                && s' == if ok then Close(paid.(utxos := m), tx, how) else paid.(utxos := m)
  }

  datatype Event =
    | DoMint(owner: Owner, value: u64)
    | DoSettle(input: u64, to: Owner, amt: u64)
    | DoOpen(o: Opening)
    | DoFinalize(tx: u64, now: u64)
    | DoChallenge(tx: u64, fraud: FraudProof, now: u64, challenger: Owner)
    | DoAdvance(n: u64)

  /** One call of the ledger: from `s`, the call may leave `s'` and report success or not. */
  ghost predicate Step(s: State, e: Event, s': State, ok: bool) {
    match e
    case DoMint(owner, value) => ok && s' == Mint(s, owner, value)
    case DoSettle(input, to, amt) =>
      ok == CanSettle(s, input, amt) && s' == if ok then Pay(s, input, to, amt) else s
    case DoOpen(o) => ok == CanOpen(s, o) && s' == Open(s, o)
    case DoFinalize(tx, now) =>
      if CanFinalize(s, tx, now) then Settles(PaidProvider(s, s.claims[tx]), tx, Finalized, s', ok)
      else !ok && s' == s
    case DoChallenge(tx, fraud, now, challenger) =>
      if CanChallenge(s, tx, fraud, now) then Settles(PaidChallenger(s, s.claims[tx], challenger), tx, Slashed, s', ok)
      else !ok && s' == s
    case DoAdvance(n) => ok && s' == s.(block := (s.block + n) % TWO64)
  }

  // ---------- what each operation does to balances ----------

  /** Ids handed out so far are below the counters, with room for one more call. */
  predicate Ids(s: State) {
    (forall k :: k in s.utxos ==> k < s.next) && (forall t :: t in s.claims ==> t < s.nextTx)
  }

  predicate Room(s: State, mints: nat) { s.next + mints < TWO64 }

  lemma MintBalance(s: State, owner: Owner, value: u64, w: Whose)
    requires Ids(s) && Room(s, 1)
    ensures Ids(Mint(s, owner, value)) && Mint(s, owner, value).next == s.next + 1
    ensures Balance(Mint(s, owner, value).utxos, w) == Balance(s.utxos, w) + Weight(Utxo(owner, value), w)
  {
    TotalInsert(s.utxos, Counted(w), s.next, Utxo(owner, value));
  }

  lemma SpendBalance(s: State, input: u64, w: Whose)
    requires Ids(s) && input in s.utxos
    ensures Ids(Spend(s, input)) && Spend(s, input).next == s.next
    ensures Balance(Spend(s, input).utxos, w) + Weight(s.utxos[input], w) == Balance(s.utxos, w)
  {
    TotalRemove(s.utxos, Counted(w), input);
  }

  lemma PayBalance(s: State, input: u64, to: Owner, amt: u64, w: Whose)
    requires Ids(s) && Room(s, 2) && input in s.utxos && s.utxos[input].value >= amt
    ensures var s' := Pay(s, input, to, amt);
            Ids(s') && s.next < s'.next <= s.next + 2
            && Balance(s'.utxos, w) + Weight(Utxo(s.utxos[input].owner, amt), w) == Balance(s.utxos, w) + Weight(Utxo(to, amt), w)
  {
    hide Mint, Spend, Balance, Ids;
    var u, s1 := s.utxos[input], Spend(s, input);
    SpendBalance(s, input, w);
    if u.value > amt {
      MintBalance(s1, u.owner, u.value - amt, w);
      MintBalance(Mint(s1, u.owner, u.value - amt), to, amt, w);
    } else {
      MintBalance(s1, to, amt, w);
    }
  }

  /** Releasing touches nobody else's balance, and takes exactly `amt` out of the supply, or what escrow
      held if that is less. */
  lemma ReleaseBalance(m: map<u64, Utxo>, amt: u64, m': map<u64, Utxo>, ok: bool, o: Owner)
    requires Released(m, amt, m', ok)
    ensures o != ESCROW ==> Balance(m', Only(o)) == Balance(m, Only(o))
    ensures Balance(m', Everyone) == Balance(m, Everyone) - if ok then amt else Balance(m, Only(ESCROW))
  {
    if o != ESCROW { TotalAgrees(m, m', Counted(Only(o))); }
    TotalAgrees(m, m', Counted(Except(ESCROW)));
    SupplySplits(m, ESCROW);
    SupplySplits(m', ESCROW);
  }

  lemma EscrowWithinSupply(m: map<u64, Utxo>)
    ensures Balance(m, Only(ESCROW)) <= Balance(m, Everyone)
  {
    SupplySplits(m, ESCROW);
  }
}
