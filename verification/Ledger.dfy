/** The ledger object (daemon/ledger) and the settler that drives it (daemon/economy/settle.go). The store
    is a map of records that does not fail; its key listing comes in no particular order. */
module Ledger {
  import opened Machine
  import opened Sums
  import opened LedgerModel

  lemma {:induction false} EmptyTotal<V>(m: map<u64, V>, f: V -> nat)
    requires m.Keys == {}
    ensures Total(m, f) == 0
  {
  }

  /** The records listed in `keys`. */
  function Listed(m: map<u64, Utxo>, keys: set<u64>): map<u64, Utxo> { map k | k in m && k in keys :: m[k] }

  lemma ListedStep(m: map<u64, Utxo>, todo: set<u64>, k: u64, w: Whose)
    requires todo <= m.Keys && k in todo
    ensures Balance(Listed(m, todo), w) == Weight(m[k], w) + Balance(Listed(m, todo - {k}), w)
  {
    TotalRemove(Listed(m, todo), Counted(w), k);
    assert Listed(m, todo) - {k} == Listed(m, todo - {k});
  }

  lemma AllListed(m: map<u64, Utxo>, w: Whose)
    ensures Balance(Listed(m, m.Keys), w) == Balance(m, w)
  {
    assert Listed(m, m.Keys) == m;
  }

  lemma NoneListed(m: map<u64, Utxo>, w: Whose)
    ensures Balance(Listed(m, {}), w) == 0
  {
    EmptyTotal(Listed(m, {}), Counted(w));
  }

  /** The read loop of Balance and TotalSupply: a uint64 accumulator over the listed records. */
  method SumRecords(m: map<u64, Utxo>, w: Whose) returns (sum: u64)
    ensures sum == Balance(m, w) % TWO64
  {
    hide Balance, Listed;
    sum := 0;
    ghost var seen: nat := 0;
    var todo := m.Keys;
    AllListed(m, w);
    while todo != {}
      invariant todo <= m.Keys
      invariant seen + Balance(Listed(m, todo), w) == Balance(m, w) && sum == seen % TWO64
    {
      var k :| k in todo;
      ListedStep(m, todo, k, w);
      AddModulo(seen, Weight(m[k], w));
      seen := seen + Weight(m[k], w);
      sum := (sum + Weight(m[k], w)) % TWO64;
      todo := todo - {k};
    }
    NoneListed(m, w);
  }

  lemma DropRecord(m: map<u64, Utxo>, k: u64, w: Whose)
    requires k in m
    ensures Balance(m - {k}, w) + Weight(m[k], w) == Balance(m, w)
  {
    TotalRemove(m, Counted(w), k);
  }

  lemma RewriteRecord(m: map<u64, Utxo>, k: u64, u: Utxo, w: Whose)
    requires k in m
    ensures Balance(m[k := u], w) + Weight(m[k], w) == Balance(m, w) + Weight(u, w)
  {
    TotalUpdate(m, Counted(w), k, u);
  }

  /** `releaseEscrowLocked`: spends escrow records in listing order, splitting the last one. */
  method ReleaseEscrow(m: map<u64, Utxo>, amt: u64) returns (r: map<u64, Utxo>, ok: bool)
    ensures Released(m, amt, r, ok)
  {
    hide Balance, Listed;
    r := m;
    if amt == 0 { return r, true; }
    var remaining: u64, todo := amt, m.Keys;
    ghost var w := Only(ESCROW);
    AllListed(m, w);
    while todo != {} && remaining != 0
      invariant todo <= m.Keys && remaining <= amt
      invariant Untouched(m, r, todo)
      invariant Balance(r, w) + amt == Balance(m, w) + remaining
      invariant remaining != 0 ==> Balance(Listed(m, todo), w) + amt == Balance(m, w) + remaining
      decreases todo
    {
      var k :| k in todo;
      ListedStep(m, todo, k, w);
      var u := r[k];
      if u.owner == ESCROW {
        if u.value <= remaining {
          DropRecord(r, k, w);
          r := r - {k};
          remaining := remaining - u.value;
        } else {
          RewriteRecord(r, k, Utxo(ESCROW, u.value - remaining), w);
          r := r[k := Utxo(ESCROW, u.value - remaining)];
          remaining := 0;
        }
      }
      todo := todo - {k};
    }
    NoneListed(m, w);
    ok := remaining == 0;
  }

  /** Records still to be listed, and records of other owners, are as they were. */
  ghost predicate Untouched(m: map<u64, Utxo>, r: map<u64, Utxo>, todo: set<u64>) {
    (forall k :: k in m && (k in todo || m[k].owner != ESCROW) ==> k in r && r[k] == m[k])
    && forall k :: k in r ==> k in m && r[k].owner == m[k].owner
  }

  class UtxoLedger {
    var utxos: map<u64, Utxo>
    var next: u64
    var claims: map<u64, Claim>
    var nextTx: u64
    var block: u64
    const enabled: bool

    ghost function Snapshot(): State
      reads this
    {
      State(utxos, next, claims, nextTx, block, enabled)
    }

    /** `Open` on an empty store. */
    constructor (openMesh: bool)
      ensures Snapshot() == Initial(openMesh)
    {
      utxos, next, claims, nextTx, block, enabled := map[], 1, map[], 1, 0, openMesh;
    }

    method MintLocked(owner: Owner, value: u64) returns (id: u64)
      modifies this
      ensures id == old(next) && Snapshot() == LedgerModel.Mint(old(Snapshot()), owner, value)
    {
      id := next;
      next := (next + 1) % TWO64;
      utxos := utxos[id := Utxo(owner, value)];
    }

    method Mint(owner: Owner, value: u64) returns (id: u64)
      modifies this
      ensures id == old(next) && Step(old(Snapshot()), DoMint(owner, value), Snapshot(), true)
    {
      id := MintLocked(owner, value);
    }

    method AdvanceBlock(n: u64) returns (height: u64)
      modifies this
      ensures height == block == (old(block) + n) % TWO64 && Step(old(Snapshot()), DoAdvance(n), Snapshot(), true)
    {
      block := (block + n) % TWO64;
      height := block;
    }

    method Balance(owner: Owner) returns (sum: u64)
      ensures sum == LedgerModel.Balance(utxos, Only(owner)) % TWO64
    {
      sum := SumRecords(utxos, Only(owner));
    }

    method TotalSupply() returns (sum: u64)
      ensures sum == LedgerModel.Balance(utxos, Everyone) % TWO64
    {
      sum := SumRecords(utxos, Everyone);
    }

    /** Spend `input`, give change to its owner, pay `amt` to `to`. */
    method PayFrom(input: u64, to: Owner, amt: u64) returns (id: u64)
      requires input in utxos && utxos[input].value >= amt
      modifies this
      ensures Snapshot() == Pay(old(Snapshot()), input, to, amt)
      ensures id == PayeeId(old(Snapshot()), input, amt)
    {
      var u := utxos[input];
      utxos := utxos - {input};
      if u.value > amt {
        var _ := MintLocked(u.owner, u.value - amt);
      }
      id := MintLocked(to, amt);
    }

    /** `Settle`: the id returned is that of the payee's new record. */
    method Settle(input: u64, to: Owner, amt: u64) returns (id: u64, ok: bool)
      modifies this
      ensures Step(old(Snapshot()), DoSettle(input, to, amt), Snapshot(), ok)
      ensures !enabled ==> !ok && Snapshot() == old(Snapshot())
      ensures ok <==> enabled && input in old(utxos) && old(utxos)[input].value >= amt
      ensures if ok then id == PayeeId(old(Snapshot()), input, amt) && id in utxos && utxos[id] == Utxo(to, amt) else id == 0
    {
      if !enabled || input !in utxos || utxos[input].value < amt { return 0, false; }
      id := PayFrom(input, to, amt);
      ok := true;
    }

    /** `lockFromInputLocked`. */
    method Lock(input: u64, owner: Owner, amt: u64) returns (ok: bool)
      modifies this
      ensures ok <==> input in old(utxos) && old(utxos)[input].owner == owner && old(utxos)[input].value >= amt
      ensures ok == CanLock(old(Snapshot()), input, owner, amt)
      ensures Snapshot() == if ok then Pay(old(Snapshot()), input, ESCROW, amt) else old(Snapshot())
    {
      if input !in utxos || utxos[input].owner != owner || utxos[input].value < amt { return false; }
      var _ := PayFrom(input, ESCROW, amt);
      return true;
    }

    method OpenOptimistic(o: Opening) returns (tx: u64, ok: bool)
      modifies this
      ensures Step(old(Snapshot()), DoOpen(o), Snapshot(), ok)
      ensures !enabled ==> !ok && Snapshot() == old(Snapshot())
      ensures ok ==> tx == old(nextTx)
    {
      tx, ok := 0, false;
      if !enabled { return; }
      ok := Lock(o.payInput, o.consumer, o.payment);
      if !ok { return; }
      if o.bond > 0 {
        ok := Lock(o.bondInput, o.provider, o.bond);
        if !ok { return; }
      }
      tx := nextTx;
      nextTx := (nextTx + 1) % TWO64;
      claims := claims[tx := NewClaim(o)];
    }

    /** The tail of Finalize and Challenge: release the escrow and close the claim. */
    method SettleClaim(tx: u64, how: ClaimState) returns (ok: bool)
      requires tx in claims
      modifies this
      ensures Settles(old(Snapshot()), tx, how, Snapshot(), ok)
    {
      var c := claims[tx];
      var left;
      left, ok := ReleaseEscrow(utxos, (c.payment + c.bond) % TWO64);
      utxos := left;
      if ok { claims := claims[tx := c.(state := how)]; }
      ghost var paid := old(Snapshot());
      assert Released(paid.utxos, (c.payment + c.bond) % TWO64, left, ok);
      assert Snapshot() == if ok then Close(paid.(utxos := left), tx, how) else paid.(utxos := left);
    }

    method Finalize(tx: u64, now: u64) returns (paid: u64, ok: bool)
      modifies this
      ensures Step(old(Snapshot()), DoFinalize(tx, now), Snapshot(), ok)
      ensures !enabled ==> !ok && Snapshot() == old(Snapshot())
      ensures ok ==> tx in old(claims) && paid == old(claims)[tx].payment
    {
      paid, ok := 0, false;
      if !enabled || tx !in claims || !claims[tx].state.Pending? || !WindowElapsed(claims[tx], now) {
        return;
      }
      var c := claims[tx];
      ghost var s := Snapshot();
      var _ := MintLocked(c.provider, (c.payment + c.bond) % TWO64);
      assert Snapshot() == PaidProvider(s, c);
      assert CanFinalize(s, tx, now);
      hide Settles, PaidProvider, WindowElapsed;
      ok := SettleClaim(tx, Finalized);
      if ok { paid := c.payment; }
    }

    method Challenge(tx: u64, fraud: FraudProof, now: u64, challenger: Owner) returns (refunded: u64, awarded: u64, ok: bool)
      modifies this
      ensures Step(old(Snapshot()), DoChallenge(tx, fraud, now, challenger), Snapshot(), ok)
      ensures !enabled ==> !ok && Snapshot() == old(Snapshot())
      ensures ok ==> tx in old(claims) && refunded == old(claims)[tx].payment && awarded == old(claims)[tx].bond
    {
      refunded, awarded, ok := 0, 0, false;
      if !enabled || tx !in claims { return; }
      var c := claims[tx];
      if !c.state.Pending? || WindowElapsed(c, now) { return; }
      if fraud.component != c.binding.component || fraud.input != c.binding.input { return; }
      if fraud.claimed != c.binding.output { return; }
      if fraud.actual == fraud.claimed { return; }
      hide Settles, WindowElapsed;
      var _ := MintLocked(c.consumer, c.payment);
      if c.bond > 0 {
        var _ := MintLocked(challenger, c.bond);
      }
      ok := SettleClaim(tx, Slashed);
      if ok { refunded, awarded := c.payment, c.bond; }
    }
  }

  const DEFAULT_DISPUTE_BLOCKS: u64 := 16

  /** What a provider asks the settler to open. */
  datatype TaskClaim = TaskClaim(consumer: Owner, provider: Owner, payInput: u64, payment: u64, bondInput: u64, bond: u64,
                                 output: string, window: u64)

  function OpeningOf(block: u64, task: string, component: string, inputCid: string, c: TaskClaim): Opening {
    Opening(block, c.payInput, c.consumer, c.payment, c.bondInput, c.provider, c.bond,
            if c.window == 0 then DEFAULT_DISPUTE_BLOCKS else c.window,
            Binding(task, component, inputCid, c.output))
  }

  /** SettleCompletedTask: an opening at the ledger's own height, with the default window when none is given. */
  method SettleCompletedTask(lg: UtxoLedger, task: string, component: string, inputCid: string, c: TaskClaim)
    returns (tx: u64, ok: bool)
    modifies lg
    ensures c.consumer == "" || c.provider == "" ==> !ok && lg.Snapshot() == old(lg.Snapshot())
    ensures c.consumer != "" && c.provider != "" ==>
              Step(old(lg.Snapshot()), DoOpen(OpeningOf(old(lg.block), task, component, inputCid, c)), lg.Snapshot(), ok)
    ensures ok ==> tx == old(lg.nextTx) && tx in lg.claims
                   && lg.claims[tx] == Claim(c.consumer, c.provider, c.payment, c.bond, old(lg.block),
                                             if c.window == 0 then DEFAULT_DISPUTE_BLOCKS else c.window,
                                             Binding(task, component, inputCid, c.output), Pending)
    ensures ok ==> c.payInput in old(lg.utxos) && old(lg.utxos)[c.payInput].owner == c.consumer
                   && old(lg.utxos)[c.payInput].value >= c.payment
    ensures ok && c.bond > 0 && c.bondInput in old(lg.utxos) && Ids(old(lg.Snapshot())) && Room(old(lg.Snapshot()), 2) ==>
              old(lg.utxos)[c.bondInput].owner == c.provider && old(lg.utxos)[c.bondInput].value >= c.bond
  {
    if c.consumer == "" || c.provider == "" { return 0, false; }
    tx, ok := lg.OpenOptimistic(OpeningOf(lg.block, task, component, inputCid, c));
  }
}
