/** Gas and money over a block: the gas pool, one message, and the loop over a block's
    messages. The EVM is a parameter. */
module Gas {
  import opened Transactions
  import opened SetSum

  const TX_GAS := 21000
  const TX_GAS_CONTRACT_CREATION := 53000
  const TX_DATA_ZERO_GAS := 4
  const TX_DATA_NON_ZERO_GAS_FRONTIER := 68
  const TX_DATA_NON_ZERO_GAS_EIP2028 := 16
  const TX_ACCESS_LIST_ADDRESS_GAS := 2400
  const TX_ACCESS_LIST_STORAGE_KEY_GAS := 1900
  const REFUND_QUOTIENT := 5

  function Wrap(n: nat): Uint64 {
    n % (MAX_UINT64 + 1)
  }

  // --- Balances ---

  type Balances = map<Address, int>

  function Balance(b: Balances, a: Address): int {
    if a in b then b[a] else 0
  }

  function Credit(b: Balances, a: Address, amount: int): Balances {
    b[a := Balance(b, a) + amount]
  }

  ghost function BalanceOf(b: Balances): Address -> int {
    (a: Address) => Balance(b, a)
  }

  /** All the money there is. */
  ghost function Total(b: Balances): int {
    Sum(b.Keys, BalanceOf(b))
  }

  ghost predicate Solvent(b: Balances) {
    forall a :: Balance(b, a) >= 0
  }

  lemma CreditTotal(b: Balances, a: Address, amount: int)
    ensures Total(Credit(b, a, amount)) == Total(b) + amount
  {
    var c := Credit(b, a, amount);
    var f, g := BalanceOf(b), BalanceOf(c);
    if a in b {
      assert c.Keys == b.Keys;
      SumChange(b.Keys, f, g, a);
    } else {
      assert c.Keys == b.Keys + {a};
      SumInsert(b.Keys, g, a);
      SumSame(b.Keys, f, g);
    }
  }

  // --- Intrinsic gas ---

  /** Addresses with their storage keys. */
  type AccessList = seq<(Address, seq<Hash>)>

  function NonZeros(data: seq<nat>): nat {
    if data == [] then 0 else NonZeros(data[..|data| - 1]) + if data[|data| - 1] != 0 then 1 else 0
  }

  function StorageKeys(list: AccessList): nat {
    if list == [] then 0 else StorageKeys(list[..|list| - 1]) + |list[|list| - 1].1|
  }

  lemma {:induction false} NonZerosBound(data: seq<nat>)
    ensures NonZeros(data) <= |data|
  {
    if data != [] {
      NonZerosBound(data[..|data| - 1]);
    }
  }

  function BaseGas(creation: bool, homestead: bool): nat {
    if creation && homestead then TX_GAS_CONTRACT_CREATION else TX_GAS
  }

  function NonZeroGas(istanbul: bool): nat {
    if istanbul then TX_DATA_NON_ZERO_GAS_EIP2028 else TX_DATA_NON_ZERO_GAS_FRONTIER
  }

  /** The price of the payload in unbounded arithmetic. */
  function DataCost(data: seq<nat>, creation: bool, homestead: bool, istanbul: bool): nat {
    NonZerosBound(data);
    BaseGas(creation, homestead) + NonZeros(data) * NonZeroGas(istanbul) + (|data| - NonZeros(data)) * TX_DATA_ZERO_GAS
  }

  function AccessCost(list: Option<AccessList>): nat {
    if list.None? then 0
    else |list.value| * TX_ACCESS_LIST_ADDRESS_GAS + StorageKeys(list.value) * TX_ACCESS_LIST_STORAGE_KEY_GAS
  }

  lemma {:induction false} NonZerosCount(data: seq<nat>)
    ensures NonZeros(data) == |set i | 0 <= i < |data| && data[i] != 0|
  {
    if data != [] {
      var k := |data| - 1;
      NonZerosCount(data[..k]);
      var front := set i | 0 <= i < k && data[..k][i] != 0;
      var all := set i | 0 <= i < |data| && data[i] != 0;
      assert all == if data[k] != 0 then front + {k} else front;
    }
  }

  lemma {:induction false} StorageKeysCount(list: AccessList)
    ensures StorageKeys(list) == |set i, j | 0 <= i < |list| && 0 <= j < |list[i].1| :: (i, j)|
  {
    if list != [] {
      var k := |list| - 1;
      StorageKeysCount(list[..k]);
      var front := set i, j | 0 <= i < k && 0 <= j < |list[..k][i].1| :: (i, j);
      var last := set j | 0 <= j < |list[k].1| :: (k, j);
      assert (set i, j | 0 <= i < |list| && 0 <= j < |list[i].1| :: (i, j)) == front + last;
      assert front !! last;
      PairCount(k, |list[k].1|);
    }
  }

  lemma {:induction false} PairCount(k: int, n: nat)
    ensures |set j | 0 <= j < n :: (k, j)| == n
  {
    if n > 0 {
      PairCount(k, n - 1);
      assert (set j | 0 <= j < n :: (k, j)) == (set j | 0 <= j < n - 1 :: (k, j)) + {(k, n - 1)};
    }
  }

  /** The schedule in numbers: 53000 for a creation since Homestead and 21000 otherwise, 16 (68 before
      Istanbul) for a byte that is not zero and 4 for one that is, 2400 for a listed address and 1900
      for a storage key. */
  lemma CostInNumbers(data: seq<nat>, list: Option<AccessList>, creation: bool, homestead: bool, istanbul: bool)
    ensures var nz := |set i | 0 <= i < |data| && data[i] != 0|;
            && nz <= |data|
            && DataCost(data, creation, homestead, istanbul) ==
               (if creation && homestead then 53000 else 21000) + nz * (if istanbul then 16 else 68) + (|data| - nz) * 4
    ensures AccessCost(list) ==
            match list
            case None => 0
            case Some(l) => |l| * 2400 + |set i, j | 0 <= i < |l| && 0 <= j < |l[i].1| :: (i, j)| * 1900
    ensures var cost := DataCost(data, creation, homestead, istanbul) + AccessCost(list);
            Wrap(cost) == cost % 0x1_0000_0000_0000_0000
  {
    NonZerosBound(data);
    NonZerosCount(data);
    if list.Some? {
      StorageKeysCount(list.value);
    }
  }

  method CountNonZeros(data: seq<nat>) returns (nz: nat)
    ensures nz == NonZeros(data)
  {
    nz := 0;
    for i := 0 to |data|
      invariant nz == NonZeros(data[..i])
    {
      assert data[..i + 1][..i] == data[..i];
      if data[i] != 0 {
        nz := nz + 1;
      }
    }
    assert data[..|data|] == data;
  }

  method CountKeys(list: AccessList) returns (sum: nat)
    ensures sum == StorageKeys(list)
  {
    sum := 0;
    for i := 0 to |list|
      invariant sum == StorageKeys(list[..i])
    {
      assert list[..i + 1][..i] == list[..i];
      sum := sum + |list[i].1|;
    }
    assert list[..|list|] == list;
  }

  /** The division guard is exactly an overflow test. */
  lemma GuardIsOverflow(gas: nat, count: nat, price: nat)
    requires gas <= MAX_UINT64 && price > 0
    ensures (MAX_UINT64 - gas) / price < count <==> gas + count * price > MAX_UINT64
  {
    var room := MAX_UINT64 - gas;
    var q, r := room / price, room % price;
    assert room == q * price + r && r < price;
    if q < count {
      assert (q + 1) * price <= count * price by {
        MulLe(q + 1, count, price);
      }
      assert (q + 1) * price == q * price + price;
    } else {
      MulLe(count, q, price);
    }
  }

  lemma MulLe(a: nat, b: nat, p: nat)
    requires a <= b
    ensures a * p <= b * p
  {
    assert (b - a) * p >= 0;
    assert (b - a) * p == b * p - a * p;
  }

  /** The intrinsic gas of a message: the data part fails exactly on overflow; the access-list
      part is added without a check. */
  method IntrinsicGas(data: seq<nat>, list: Option<AccessList>, creation: bool, homestead: bool, istanbul: bool)
    returns (r: Option<Uint64>)
    ensures r.None? <==> DataCost(data, creation, homestead, istanbul) > MAX_UINT64
    ensures r.Some? ==> r.value == Wrap(DataCost(data, creation, homestead, istanbul) + AccessCost(list))
    ensures r.Some? ==> (r.value == DataCost(data, creation, homestead, istanbul) + AccessCost(list) <==>
                         DataCost(data, creation, homestead, istanbul) + AccessCost(list) <= MAX_UINT64)
    ensures var nz := |set i | 0 <= i < |data| && data[i] != 0|;
            var base := (if creation && homestead then 53000 else 21000) + nz * (if istanbul then 16 else 68)
                        + (|data| - nz) * 4;
            var access := match list
              case None => 0
              case Some(l) => |l| * 2400 + |set i, j | 0 <= i < |l| && 0 <= j < |l[i].1| :: (i, j)| * 1900;
            if base >= 0x1_0000_0000_0000_0000 then r == None
            else r.Some? && r.value == (base + access) % 0x1_0000_0000_0000_0000
  {
    hide Wrap, StorageKeys;
    CostInNumbers(data, list, creation, homestead, istanbul);
    var gas: nat := BaseGas(creation, homestead);
    if |data| > 0 {
      var nz := CountNonZeros(data);
      NonZerosBound(data);
      var price := NonZeroGas(istanbul);
      GuardIsOverflow(gas, nz, price);
      if (MAX_UINT64 - gas) / price < nz {
        return None;
      }
      gas := gas + nz * price;
      var z := |data| - nz;
      GuardIsOverflow(gas, z, TX_DATA_ZERO_GAS);
      if (MAX_UINT64 - gas) / TX_DATA_ZERO_GAS < z {
        return None;
      }
      gas := gas + z * TX_DATA_ZERO_GAS;
    }
    assert gas == DataCost(data, creation, homestead, istanbul);
    if list.Some? {
      var keys := CountKeys(list.value);
      ghost var paid := gas;
      gas := Wrap(gas + Wrap(Wrap(|list.value|) * TX_ACCESS_LIST_ADDRESS_GAS));
      gas := Wrap(gas + Wrap(Wrap(keys) * TX_ACCESS_LIST_STORAGE_KEY_GAS));
      WrappedSum(paid, |list.value|, keys);
    } else {
      WrapExact(gas);
    }
    WrapExact(DataCost(data, creation, homestead, istanbul) + AccessCost(list));
    r := Some(gas);
  }

  lemma {:induction false} WrapShift(x: nat, k: nat)
    ensures Wrap(x + k * (MAX_UINT64 + 1)) == Wrap(x)
  {
    if k > 0 {
      WrapShift(x, k - 1);
      WrapOnce(x + (k - 1) * (MAX_UINT64 + 1));
    }
  }

  lemma WrapExact(n: nat)
    ensures Wrap(n) == n <==> n <= MAX_UINT64
  {
  }

  lemma WrapOnce(x: nat)
    ensures Wrap(x + (MAX_UINT64 + 1)) == Wrap(x)
  {
  }

  lemma WrapSplits(n: nat)
    ensures n == Wrap(n) + n / (MAX_UINT64 + 1) * (MAX_UINT64 + 1)
  {
  }

  lemma WrapAdd(x: nat, y: nat)
    ensures Wrap(x + Wrap(y)) == Wrap(x + y)
  {
    hide Wrap;
    WrapSplits(y);
    WrapShift(x + Wrap(y), y / (MAX_UINT64 + 1));
  }

  lemma WrapTimes(n: nat, p: nat)
    ensures Wrap(Wrap(n) * p) == Wrap(n * p)
  {
    hide Wrap;
    var q := n / (MAX_UINT64 + 1);
    WrapSplits(n);
    assert n * p == Wrap(n) * p + q * p * (MAX_UINT64 + 1);
    WrapShift(Wrap(n) * p, q * p);
  }

  /** Wrapping at every step is wrapping once. */
  lemma WrappedSum(gas: nat, addresses: nat, keys: nat)
    ensures Wrap(Wrap(gas + Wrap(Wrap(addresses) * TX_ACCESS_LIST_ADDRESS_GAS))
                 + Wrap(Wrap(keys) * TX_ACCESS_LIST_STORAGE_KEY_GAS))
         == Wrap(gas + (addresses * TX_ACCESS_LIST_ADDRESS_GAS + keys * TX_ACCESS_LIST_STORAGE_KEY_GAS))
  {
    hide Wrap;
    var a, k := addresses * TX_ACCESS_LIST_ADDRESS_GAS, keys * TX_ACCESS_LIST_STORAGE_KEY_GAS;
    WrapTimes(addresses, TX_ACCESS_LIST_ADDRESS_GAS);
    WrapTimes(keys, TX_ACCESS_LIST_STORAGE_KEY_GAS);
    WrapAdd(gas, a);
    WrapAdd(Wrap(gas + a), k);
    WrapAdd(k, gas + a);
    assert gas + a + k == gas + (a + k);
  }

  // --- One message ---

  datatype Msg = Msg(from: Address, to: Option<Address>, gasPrice: nat, gas: Uint64, value: nat, nonce: Uint64,
                     checkNonce: bool, data: seq<nat>, accessList: Option<AccessList>)

  datatype World = World(balances: Balances, nonces: map<Address, Uint64>, refund: nat)

  /** What an execution leaves behind: the state, the gas not spent, and whether it failed. */
  datatype Outcome = Outcome(world: World, gas: nat, failed: bool)

  type Evm = (World, Msg, nat) -> Outcome

  datatype Rules = Rules(homestead: bool, istanbul: bool)

  datatype TxError = NonceTooHigh | NonceTooLow | InsufficientFunds | GasLimitReached
                   | GasUintOverflow | IntrinsicGasTooLow | InsufficientFundsForTransfer

  datatype Result = Rejected(error: TxError) | Applied(usedGas: Uint64, failed: bool)

  /** What is assumed of the EVM: it returns at most the gas given, neither creates nor destroys
      money, and overdraws nobody. */
  ghost predicate Honest(evm: Evm) {
    forall w, msg, gas: nat :: HonestOn(evm, w, msg, gas)
  }

  ghost predicate HonestOn(evm: Evm, w: World, msg: Msg, gas: nat) {
    var out := evm(w, msg, gas);
    out.gas <= gas && Total(out.world.balances) == Total(w.balances)
    && (Solvent(w.balances) ==> Solvent(out.world.balances))
  }

  function NonceOf(w: World, a: Address): Uint64 {
    if a in w.nonces then w.nonces[a] else 0
  }

  function Fee(msg: Msg): nat {
    msg.gas * msg.gasPrice
  }

  function Intrinsic(msg: Msg, rules: Rules): Uint64 {
    Wrap(DataCost(msg.data, msg.to.None?, rules.homestead, rules.istanbul) + AccessCost(msg.accessList))
  }

  /** The rules checked before gas is bought. */
  function EarlyRefusal(w: World, pool: nat, msg: Msg): Option<TxError> {
    if msg.checkNonce && NonceOf(w, msg.from) < msg.nonce then Some(NonceTooHigh)
    else if msg.checkNonce && NonceOf(w, msg.from) > msg.nonce then Some(NonceTooLow)
    else if Balance(w.balances, msg.from) < Fee(msg) then Some(InsufficientFunds)
    else if pool < msg.gas then Some(GasLimitReached)
    else None
  }

  /** Why a message is refused: the first of the consensus rules it breaks. */
  function Refusal(w: World, pool: nat, msg: Msg, rules: Rules): Option<TxError> {
    if EarlyRefusal(w, pool, msg).Some? then EarlyRefusal(w, pool, msg)
    else if DataCost(msg.data, msg.to.None?, rules.homestead, rules.istanbul) > MAX_UINT64 then Some(GasUintOverflow)
    else if msg.gas < Intrinsic(msg, rules) then Some(IntrinsicGasTooLow)
    else if Balance(w.balances, msg.from) - Fee(msg) < msg.value then Some(InsufficientFundsForTransfer)
    else None
  }

  /** The state the EVM starts from: gas paid for in advance and, for a call, the nonce bumped. */
  function Entered(w: World, msg: Msg): World {
    var paid := w.(balances := Credit(w.balances, msg.from, 0 - Fee(msg)));
    if msg.to.None? then paid
    else paid.(nonces := paid.nonces[msg.from := Wrap(NonceOf(w, msg.from) + 1)])
  }

  /** The gas charged when `spent` was consumed and `refund` collected: at most a fifth comes back. */
  function Charged(spent: nat, refund: nat): (used: nat)
    ensures used <= spent && spent - used <= refund && 5 * (spent - used) <= spent
    ensures spent - used == if refund < spent / 5 then refund else spent / 5
  {
    spent - if spent / REFUND_QUOTIENT > refund then refund else spent / REFUND_QUOTIENT
  }

  /** Left-over gas goes back to the sender and the charge to the miner, both at the same price. */
  function Settled(w: World, msg: Msg, coinbase: Address, used: nat): World
    requires used <= msg.gas
  {
    w.(balances := Credit(Credit(w.balances, msg.from, (msg.gas - used) * msg.gasPrice), coinbase, used * msg.gasPrice))
  }

  /** Who is paid what, account by account. */
  lemma SettledPays(w: World, msg: Msg, coinbase: Address, used: nat)
    requires used <= msg.gas
    ensures var after := Settled(w, msg, coinbase, used);
            && after.nonces == w.nonces && after.refund == w.refund
            && (forall a :: Balance(after.balances, a) ==
                            Balance(w.balances, a) + (if a == msg.from then (msg.gas - used) * msg.gasPrice else 0)
                            + (if a == coinbase then used * msg.gasPrice else 0))
            && (msg.from == coinbase ==>
                  Balance(after.balances, coinbase) == Balance(w.balances, coinbase) + msg.gas * msg.gasPrice)
  {
    assert (msg.gas - used) * msg.gasPrice + used * msg.gasPrice == msg.gas * msg.gasPrice;
  }

  /** What the EVM sees: the sender has paid for the whole gas limit, and the nonce of a sender that
      calls, rather than creates, is one higher. */
  lemma EnteredMeans(w: World, msg: Msg)
    ensures var w1 := Entered(w, msg);
            && w1.refund == w.refund
            && forall a ::
                 && Balance(w1.balances, a) ==
                    Balance(w.balances, a) - (if a == msg.from then msg.gas * msg.gasPrice else 0)
                 && NonceOf(w1, a) == (if a == msg.from && msg.to.Some?
                                       then (NonceOf(w, a) + 1) % 0x1_0000_0000_0000_0000 else NonceOf(w, a))
  {
  }

  /** Each refusal has exactly its cause, the earlier rules being met. */
  lemma RefusalMeans(w: World, pool: nat, msg: Msg, rules: Rules)
    ensures var r, have, price, nonce := Refusal(w, pool, msg, rules), Balance(w.balances, msg.from),
                                         msg.gas * msg.gasPrice, NonceOf(w, msg.from);
            var cost := DataCost(msg.data, msg.to.None?, rules.homestead, rules.istanbul);
            var bought := (msg.checkNonce ==> nonce == msg.nonce) && have >= price && pool >= msg.gas;
            && (r == Some(NonceTooHigh) <==> msg.checkNonce && nonce < msg.nonce)
            && (r == Some(NonceTooLow) <==> msg.checkNonce && nonce > msg.nonce)
            && (r == Some(InsufficientFunds) <==> (msg.checkNonce ==> nonce == msg.nonce) && have < price)
            && (r == Some(GasLimitReached) <==>
                (msg.checkNonce ==> nonce == msg.nonce) && have >= price && pool < msg.gas)
            && (r == Some(GasUintOverflow) <==> bought && cost >= 0x1_0000_0000_0000_0000)
            && (r == Some(IntrinsicGasTooLow) <==> bought && cost < 0x1_0000_0000_0000_0000
                                                   && msg.gas < Intrinsic(msg, rules))
            && (r == Some(InsufficientFundsForTransfer) <==> bought && cost < 0x1_0000_0000_0000_0000
                                                             && msg.gas >= Intrinsic(msg, rules)
                                                             && have - price < msg.value)
  {
    hide DataCost, AccessCost;
  }

  /** Paying in advance and settling moves money but makes none. */
  lemma SettledConserves(w: World, msg: Msg, out: World, coinbase: Address, used: nat)
    requires used <= msg.gas && Total(out.balances) == Total(Entered(w, msg).balances)
    ensures Total(Settled(out, msg, coinbase, used).balances) == Total(w.balances)
  {
    hide Total, Credit;
    var back, fee := (msg.gas - used) * msg.gasPrice, used * msg.gasPrice;
    CreditTotal(w.balances, msg.from, 0 - Fee(msg));
    CreditTotal(out.balances, msg.from, back);
    CreditTotal(Credit(out.balances, msg.from, back), coinbase, fee);
    assert back + fee == Fee(msg);
  }

  lemma SettledSolvent(w: World, msg: Msg, coinbase: Address, used: nat)
    requires used <= msg.gas && Solvent(w.balances)
    ensures Solvent(Settled(w, msg, coinbase, used).balances)
  {
    hide Solvent, Credit;
    var back, fee := (msg.gas - used) * msg.gasPrice, used * msg.gasPrice;
    assert back >= 0 && fee >= 0;
    SolventAt(w.balances, msg.from);
    CreditSolvent(w.balances, msg.from, back);
    SolventAt(Credit(w.balances, msg.from, back), coinbase);
    CreditSolvent(Credit(w.balances, msg.from, back), coinbase, fee);
  }

  lemma CreditSolvent(b: Balances, a: Address, amount: int)
    requires Solvent(b) && Balance(b, a) + amount >= 0
    ensures Solvent(Credit(b, a, amount))
  {
    forall x ensures Balance(Credit(b, a, amount), x) >= 0 {
      assert Balance(b, x) >= 0;
    }
  }

  lemma SolventAt(b: Balances, a: Address)
    requires Solvent(b)
    ensures Balance(b, a) >= 0
  {
  }

  class GasPool {
    var gas: Uint64

    constructor ()
      ensures gas == 0
    {
      gas := 0;
    }

    /** Panics, here ok == false, when the pool would exceed 64 bits. */
    method AddGas(amount: Uint64) returns (ok: bool)
      modifies this
      ensures ok <==> old(gas) + amount <= MAX_UINT64
      ensures gas == if ok then old(gas) + amount else old(gas)
    {
      ok := gas <= MAX_UINT64 - amount;
      if ok {
        gas := gas + amount;
      }
    }

    method SubGas(amount: Uint64) returns (ok: bool)
      modifies this
      ensures ok <==> old(gas) >= amount
      ensures gas == if ok then old(gas) - amount else old(gas)
    {
      ok := gas >= amount;
      if ok {
        gas := gas - amount;
      }
    }
  }

  class StateDB {
    var world: World

    constructor (world: World)
      ensures this.world == world
    {
      this.world := world;
    }

    method AddBalance(a: Address, amount: int)
      modifies this
      ensures world == old(world).(balances := Credit(old(world).balances, a, amount))
    {
      world := world.(balances := Credit(world.balances, a, amount));
    }
  }

  class StateTransition {
    const gp: GasPool
    const state: StateDB
    const msg: Msg
    var gas: Uint64
    var initialGas: Uint64

    constructor (gp: GasPool, state: StateDB, msg: Msg)
      ensures this.gp == gp && this.state == state && this.msg == msg && gas == 0 && initialGas == 0
    {
      this.gp, this.state, this.msg := gp, state, msg;
      gas, initialGas := 0, 0;
    }

    /** Takes the whole gas limit from the block and its price from the sender. */
    method BuyGas() returns (err: Option<TxError>)
      requires gas == 0
      modifies this, gp, state
      ensures err == if Balance(old(state.world).balances, msg.from) < Fee(msg) then Some(InsufficientFunds)
                     else if old(gp.gas) < msg.gas then Some(GasLimitReached) else None
      ensures err.Some? ==> gas == 0 && gp.gas == old(gp.gas) && state.world == old(state.world)
      ensures err.None? ==> gas == initialGas == msg.gas && gp.gas == old(gp.gas) - msg.gas
      ensures err.None? ==>
                state.world == old(state.world).(balances := Credit(old(state.world).balances, msg.from, 0 - Fee(msg)))
    {
      var mgval := msg.gas * msg.gasPrice;
      if Balance(state.world.balances, msg.from) < mgval {
        return Some(InsufficientFunds);
      }
      var ok := gp.SubGas(msg.gas);
      if !ok {
        return Some(GasLimitReached);
      }
      gas := gas + msg.gas;
      initialGas := msg.gas;
      state.AddBalance(msg.from, 0 - mgval);
      err := None;
    }

    method PreCheck() returns (err: Option<TxError>)
      requires gas == 0
      modifies this, gp, state
      ensures err == EarlyRefusal(old(state.world), old(gp.gas), msg)
      ensures err.Some? ==> gas == 0 && gp.gas == old(gp.gas) && state.world == old(state.world)
      ensures err.None? ==> gas == initialGas == msg.gas && gp.gas == old(gp.gas) - msg.gas
      ensures err.None? ==>
                state.world == old(state.world).(balances := Credit(old(state.world).balances, msg.from, 0 - Fee(msg)))
    {
      if msg.checkNonce {
        var stNonce := NonceOf(state.world, msg.from);
        if stNonce < msg.nonce {
          return Some(NonceTooHigh);
        } else if stNonce > msg.nonce {
          return Some(NonceTooLow);
        }
      }
      err := BuyGas();
    }

    function GasUsed(): nat
      requires gas <= initialGas
      reads this
    {
      initialGas - gas
    }

    /** Returns part of the spent gas, pays the sender for all gas left and gives it back to the
        block.  The pool cannot overflow, because this gas was taken from it. */
    method RefundGas()
      requires gas <= initialGas == msg.gas && gp.gas + initialGas <= MAX_UINT64
      modifies this`gas, gp, state
      ensures gas == msg.gas - Charged(msg.gas - old(gas), old(state.world).refund)
      ensures gp.gas == old(gp.gas) + gas
      ensures state.world == old(state.world).(balances := Credit(old(state.world).balances, msg.from,
                                                                  gas * msg.gasPrice))
    {
      var refund := GasUsed() / REFUND_QUOTIENT;
      if refund > state.world.refund {
        refund := state.world.refund;
      }
      gas := gas + refund;
      state.AddBalance(msg.from, gas * msg.gasPrice);
      var ok := gp.AddGas(gas);
      assert ok;
    }

    /** Takes over what the execution left behind, and pays sender and miner. */
    method Settle(out: Outcome, coinbase: Address) returns (r: Result)
      requires out.gas <= initialGas == msg.gas && gp.gas + initialGas <= MAX_UINT64
      modifies this`gas, gp, state
      ensures r.Applied? && r.usedGas == Charged(msg.gas - out.gas, out.world.refund) && r.failed == out.failed
      ensures gp.gas == old(gp.gas) + msg.gas - r.usedGas
      ensures r.usedGas <= msg.gas && state.world == Settled(out.world, msg, coinbase, r.usedGas)
    {
      hide Charged, Credit;
      state.world, gas := out.world, out.gas;
      RefundGas();
      state.AddBalance(coinbase, GasUsed() * msg.gasPrice);
      r := Applied(GasUsed(), out.failed);
    }

    /** The steps of TransitionDb. */
    method Transition(evm: Evm, rules: Rules, coinbase: Address) returns (r: Result)
      requires Honest(evm) && gas == 0
      modifies this, gp, state
      ensures r.Rejected? <==> Refusal(old(state.world), old(gp.gas), msg, rules).Some?
      ensures r.Rejected? ==> r.error == Refusal(old(state.world), old(gp.gas), msg, rules).value
      ensures r.Applied? ==>
                && Intrinsic(msg, rules) <= msg.gas
                && var out := evm(Entered(old(state.world), msg), msg, msg.gas - Intrinsic(msg, rules));
                && out.gas <= msg.gas - Intrinsic(msg, rules)
                && r.usedGas == Charged(msg.gas - out.gas, out.world.refund) && r.failed == out.failed
                && gp.gas == old(gp.gas) - r.usedGas
                && r.usedGas <= msg.gas && state.world == Settled(out.world, msg, coinbase, r.usedGas)
    {
      hide DataCost, AccessCost, Total, Solvent, Credit, Charged, Wrap, EarlyRefusal, Fee, Balance, Honest, Settled;
      ghost var w0 := state.world;
      var err := PreCheck();
      if err.Some? {
        return Rejected(err.value);
      }
      EarlyMeans(w0, old(gp.gas), msg);
      var intrinsic := IntrinsicGas(msg.data, msg.accessList, msg.to.None?, rules.homestead, rules.istanbul);
      if intrinsic.None? {
        return Rejected(GasUintOverflow);
      }
      if gas < intrinsic.value {
        return Rejected(IntrinsicGasTooLow);
      }
      gas := gas - intrinsic.value;
      CreditBalance(w0.balances, msg.from, 0 - Fee(msg));
      if msg.value > 0 && Balance(state.world.balances, msg.from) < msg.value {
        return Rejected(InsufficientFundsForTransfer);
      }
      if msg.to.Some? {
        state.world := state.world.(nonces := state.world.nonces[msg.from := Wrap(NonceOf(state.world, msg.from) + 1)]);
      }
      assert state.world == Entered(w0, msg);
      HonestHere(evm, Entered(w0, msg), msg, gas);
      var out := evm(state.world, msg, gas);
      r := Settle(out, coinbase);
    }

    /** Applies the message.  It is refused exactly for the first rule it breaks.  Otherwise the
        pool loses the gas used, the EVM starts with the gas limit paid for and a caller's nonce
        raised, and on top of its outcome the sender gets the price of the gas left and the miner
        that of the gas used. */
    method TransitionDb(evm: Evm, rules: Rules, coinbase: Address) returns (r: Result)
      requires Honest(evm) && gas == 0
      modifies this, gp, state
      ensures r.Rejected? <==> Refusal(old(state.world), old(gp.gas), msg, rules).Some?
      ensures r.Rejected? ==> r.error == Refusal(old(state.world), old(gp.gas), msg, rules).value
      ensures r.Applied? ==>
                && Intrinsic(msg, rules) <= msg.gas
                && var out := evm(Entered(old(state.world), msg), msg, msg.gas - Intrinsic(msg, rules));
                && out.gas <= msg.gas - Intrinsic(msg, rules)
                && r.usedGas == Charged(msg.gas - out.gas, out.world.refund) && r.failed == out.failed
                && gp.gas == old(gp.gas) - r.usedGas
                && r.usedGas <= msg.gas && state.world == Settled(out.world, msg, coinbase, r.usedGas)
      ensures r.Applied? ==>
                && Intrinsic(msg, rules) <= msg.gas && r.usedGas <= msg.gas
                && var out := evm(Entered(old(state.world), msg), msg, msg.gas - Intrinsic(msg, rules));
                && state.world.nonces == out.world.nonces
                && forall a :: Balance(state.world.balances, a) ==
                               Balance(out.world.balances, a)
                               + (if a == msg.from then (msg.gas - r.usedGas) * msg.gasPrice else 0)
                               + (if a == coinbase then r.usedGas * msg.gasPrice else 0)
      ensures r.Applied? && coinbase == msg.from ==>
                && Intrinsic(msg, rules) <= msg.gas
                && var out := evm(Entered(old(state.world), msg), msg, msg.gas - Intrinsic(msg, rules));
                Balance(state.world.balances, coinbase) == Balance(out.world.balances, coinbase)
                                                           + msg.gas * msg.gasPrice
      ensures r.Applied? ==>
                var w, w1 := old(state.world), Entered(old(state.world), msg);
                forall a ::
                  && Balance(w1.balances, a) ==
                     Balance(w.balances, a) - (if a == msg.from then msg.gas * msg.gasPrice else 0)
                  && NonceOf(w1, a) == (if a == msg.from && msg.to.Some?
                                        then (NonceOf(w, a) + 1) % 0x1_0000_0000_0000_0000 else NonceOf(w, a))
      ensures var w := old(state.world);
              var early := if !msg.checkNonce || NonceOf(w, msg.from) == msg.nonce then
                             if Balance(w.balances, msg.from) < msg.gas * msg.gasPrice then Some(InsufficientFunds)
                             else if old(gp.gas) < msg.gas then Some(GasLimitReached) else None
                           else if NonceOf(w, msg.from) < msg.nonce then Some(NonceTooHigh) else Some(NonceTooLow);
              early.Some? ==> r == Rejected(early.value)
      ensures r.Applied? ==> Balance(old(state.world).balances, msg.from) >= msg.gas * msg.gasPrice + msg.value
                             && old(gp.gas) >= msg.gas
    {
      hide DataCost, AccessCost, Total, Solvent, Credit, Charged, Wrap, Fee, Balance, Honest, Settled, Entered, NonceOf,
        Refusal, Intrinsic;
      ghost var w0 := state.world;
      RefusalMeans(w0, gp.gas, msg, rules);
      r := Transition(evm, rules, coinbase);
      if r.Applied? {
        ghost var out := evm(Entered(w0, msg), msg, msg.gas - Intrinsic(msg, rules));
        SettledPays(out.world, msg, coinbase, r.usedGas);
        EnteredMeans(w0, msg);
      }
    }
  }

  lemma EarlyMeans(w: World, pool: nat, msg: Msg)
    requires EarlyRefusal(w, pool, msg).None?
    ensures Balance(w.balances, msg.from) >= Fee(msg) && pool >= msg.gas
  {
  }

  lemma HonestHere(evm: Evm, w: World, msg: Msg, gas: nat)
    requires Honest(evm)
    ensures evm(w, msg, gas).gas <= gas
  {
    assert HonestOn(evm, w, msg, gas);
  }

  lemma CreditBalance(b: Balances, a: Address, amount: int)
    ensures Balance(Credit(b, a, amount), a) == Balance(b, a) + amount
  {
  }

  // --- A whole block ---

  datatype Receipt = Receipt(gasUsed: Uint64, cumulative: Uint64, failed: bool)

  datatype BlockResult = BlockRejected(index: nat, error: TxError) | Processed(receipts: seq<Receipt>, usedGas: Uint64)

  /** The state and the gas left in the block. */
  datatype Books = Books(world: World, pool: nat)

  function UsedSum(receipts: seq<Receipt>): nat {
    if receipts == [] then 0 else UsedSum(receipts[..|receipts| - 1]) + receipts[|receipts| - 1].gasUsed
  }

  /** What the EVM makes of a message that breaks no rule. */
  function Execution(evm: Evm, w: World, msg: Msg, rules: Rules): Outcome
    requires Intrinsic(msg, rules) <= msg.gas
  {
    evm(Entered(w, msg), msg, msg.gas - Intrinsic(msg, rules))
  }

  /** The books after one message, unless it is refused: the pool pays the charge, the outcome is
      settled and the refund counter cleared. */
  ghost function NextBooks(b: Books, msg: Msg, evm: Evm, rules: Rules, coinbase: Address): (r: Option<Books>)
    requires Honest(evm)
    ensures r.None? <==> Refusal(b.world, b.pool, msg, rules).Some?
    ensures r.Some? ==> r.value.pool <= b.pool <= r.value.pool + msg.gas
  {
    if Refusal(b.world, b.pool, msg, rules).Some? then None
    else
      var out := Execution(evm, b.world, msg, rules);
      assert HonestOn(evm, Entered(b.world, msg), msg, msg.gas - Intrinsic(msg, rules));
      var used := Charged(msg.gas - out.gas, out.world.refund);
      Some(Books(Settled(out.world, msg, coinbase, used).(refund := 0), b.pool - used))
  }

  /** The books after a sequence of messages, unless one of them is refused in its turn. */
  ghost function BooksAfter(b: Books, msgs: seq<Msg>, evm: Evm, rules: Rules, coinbase: Address): (r: Option<Books>)
    requires Honest(evm)
    ensures r.Some? ==> r.value.pool <= b.pool
  {
    if msgs == [] then Some(b)
    else
      var before := BooksAfter(b, msgs[..|msgs| - 1], evm, rules, coinbase);
      if before.None? then None else NextBooks(before.value, msgs[|msgs| - 1], evm, rules, coinbase)
  }

  /** One message neither makes nor loses money, overdraws nobody, and is charged at least four
      fifths of its intrinsic gas. */
  lemma NextBooksConserve(b: Books, msg: Msg, evm: Evm, rules: Rules, coinbase: Address)
    requires Honest(evm) && NextBooks(b, msg, evm, rules, coinbase).Some?
    ensures var after := NextBooks(b, msg, evm, rules, coinbase).value;
            && Total(after.world.balances) == Total(b.world.balances)
            && (Solvent(b.world.balances) ==> Solvent(after.world.balances))
            && 4 * Intrinsic(msg, rules) <= 5 * (b.pool - after.pool)
  {
    hide Total, Solvent, Credit, Wrap, DataCost, AccessCost, Settled;
    var out := Execution(evm, b.world, msg, rules);
    assert HonestOn(evm, Entered(b.world, msg), msg, msg.gas - Intrinsic(msg, rules));
    var used := Charged(msg.gas - out.gas, out.world.refund);
    SettledConserves(b.world, msg, out.world, coinbase, used);
    if Solvent(b.world.balances) {
      CreditSolvent(b.world.balances, msg.from, 0 - Fee(msg));
      SettledSolvent(out.world, msg, coinbase, used);
    }
  }

  /** So does every sequence of messages that goes through. */
  lemma {:induction false} BlockConserves(b: Books, msgs: seq<Msg>, evm: Evm, rules: Rules, coinbase: Address)
    requires Honest(evm) && BooksAfter(b, msgs, evm, rules, coinbase).Some?
    ensures var after := BooksAfter(b, msgs, evm, rules, coinbase).value;
            Total(after.world.balances) == Total(b.world.balances)
            && (Solvent(b.world.balances) ==> Solvent(after.world.balances))
  {
    hide Honest, Total, Solvent, NextBooks;
    if msgs != [] {
      var front := msgs[..|msgs| - 1];
      BlockConserves(b, front, evm, rules, coinbase);
      NextBooksConserve(BooksAfter(b, front, evm, rules, coinbase).value, msgs[|msgs| - 1], evm, rules, coinbase);
    }
  }

  /** A refusal is final: the messages after it do not help. */
  lemma {:induction false} RefusalIsFinal(b: Books, msgs: seq<Msg>, k: nat, evm: Evm, rules: Rules, coinbase: Address)
    requires Honest(evm) && k <= |msgs| && BooksAfter(b, msgs[..k], evm, rules, coinbase).None?
    ensures BooksAfter(b, msgs, evm, rules, coinbase).None?
  {
    hide Honest, NextBooks;
    if k < |msgs| {
      var front := msgs[..|msgs| - 1];
      assert front[..k] == msgs[..k];
      RefusalIsFinal(b, front, k, evm, rules, coinbase);
    } else {
      assert msgs[..k] == msgs;
    }
  }

  /** The receipt of message k: its gas is what the pool lost to it, its cumulative gas what the
      pool lost so far and the sum of the receipts so far, its status the EVM's. */
  ghost predicate ReceiptRight(b: Books, msgs: seq<Msg>, evm: Evm, rules: Rules, coinbase: Address,
                               receipts: seq<Receipt>, k: nat)
    requires Honest(evm) && k < |msgs| && k < |receipts|
  {
    var before, after := BooksAfter(b, msgs[..k], evm, rules, coinbase),
                         BooksAfter(b, msgs[..k + 1], evm, rules, coinbase);
    && before.Some? && after.Some?
    && receipts[k].gasUsed == before.value.pool - after.value.pool
    && receipts[k].cumulative == b.pool - after.value.pool == UsedSum(receipts[..k + 1])
    && Intrinsic(msgs[k], rules) <= msgs[k].gas
    && receipts[k].failed == Execution(evm, before.value.world, msgs[k], rules).failed
    && 4 * Intrinsic(msgs[k], rules) <= 5 * receipts[k].gasUsed
  }

  /** The invariant of the block loop. */
  ghost predicate Progress(b: Books, msgs: seq<Msg>, evm: Evm, rules: Rules, coinbase: Address,
                           receipts: seq<Receipt>, now: Books, used: nat)
    requires Honest(evm)
  {
    && |receipts| <= |msgs| && BooksAfter(b, msgs[..|receipts|], evm, rules, coinbase) == Some(now)
    && used == UsedSum(receipts) == b.pool - now.pool
    && forall k :: 0 <= k < |receipts| ==> ReceiptRight(b, msgs, evm, rules, coinbase, receipts, k)
  }

  lemma ProgressStep(b: Books, msgs: seq<Msg>, evm: Evm, rules: Rules, coinbase: Address, receipts: seq<Receipt>,
                     now: Books, used: nat, r: Receipt)
    requires Honest(evm) && Progress(b, msgs, evm, rules, coinbase, receipts, now, used) && |receipts| < |msgs|
    requires var msg := msgs[|receipts|];
             && NextBooks(now, msg, evm, rules, coinbase).Some? && Intrinsic(msg, rules) <= msg.gas
             && r.gasUsed == now.pool - NextBooks(now, msg, evm, rules, coinbase).value.pool
             && r.cumulative == used + r.gasUsed && r.failed == Execution(evm, now.world, msg, rules).failed
    ensures Progress(b, msgs, evm, rules, coinbase, receipts + [r],
                     NextBooks(now, msgs[|receipts|], evm, rules, coinbase).value, used + r.gasUsed)
  {
    hide Intrinsic, Honest, NextBooks, Execution;
    var i, more := |receipts|, receipts + [r];
    assert more[..|more| - 1] == receipts && msgs[..i + 1][..i] == msgs[..i];
    NextBooksConserve(now, msgs[i], evm, rules, coinbase);
    forall k | 0 <= k <= i ensures ReceiptRight(b, msgs, evm, rules, coinbase, more, k) {
      if k < i {
        assert ReceiptRight(b, msgs, evm, rules, coinbase, receipts, k);
        assert more[..k + 1] == receipts[..k + 1];
      } else {
        assert more[..k + 1] == more;
      }
    }
  }

  /** Applies one message and finalises the state. */
  method ApplyTransaction(msg: Msg, gp: GasPool, state: StateDB, usedGas: Uint64, evm: Evm, rules: Rules,
                          coinbase: Address)
    returns (r: Result, receipt: Receipt)
    requires Honest(evm) && usedGas + gp.gas <= MAX_UINT64
    modifies gp, state
    ensures r.Rejected? <==> Refusal(old(state.world), old(gp.gas), msg, rules).Some?
    ensures r.Rejected? ==> r.error == Refusal(old(state.world), old(gp.gas), msg, rules).value
    ensures r.Applied? ==>
              && NextBooks(Books(old(state.world), old(gp.gas)), msg, evm, rules,
                           coinbase) == Some(Books(state.world, gp.gas))
              && gp.gas <= old(gp.gas) && receipt.gasUsed == old(gp.gas) - gp.gas
              && receipt.cumulative == usedGas + receipt.gasUsed
              && Intrinsic(msg, rules) <= msg.gas
              && receipt.failed == Execution(evm, old(state.world), msg, rules).failed
    ensures r.Applied? ==>
              && state.world.refund == 0 && Intrinsic(msg, rules) <= msg.gas && receipt.gasUsed <= msg.gas
              && var out := Execution(evm, old(state.world), msg, rules).world;
              forall a :: Balance(state.world.balances, a) ==
                          Balance(out.balances, a)
                          + (if a == msg.from then (msg.gas - receipt.gasUsed) * msg.gasPrice else 0)
                          + (if a == coinbase then receipt.gasUsed * msg.gasPrice else 0)
  {
    hide Total, Solvent, Refusal, Intrinsic, Entered, Settled, Honest, Charged, Balance, NonceOf, DataCost;
    var st := new StateTransition(gp, state, msg);
    r := st.TransitionDb(evm, rules, coinbase);
    if r.Rejected? {
      return r, Receipt(0, 0, true);
    }
    state.world := state.world.(refund := 0);
    receipt := Receipt(r.usedGas, usedGas + r.usedGas, r.failed);
  }

  /** Runs a block's messages.  The block goes through exactly if no message is refused in its turn;
      a rejection names the first one that is, and why.  On success the state, the pool after every
      message and the receipts are those of the books, and no money is made or lost. */
  method Process(msgs: seq<Msg>, gasLimit: Uint64, state: StateDB, evm: Evm, rules: Rules, coinbase: Address)
    returns (r: BlockResult)
    requires Honest(evm)
    modifies state
    ensures var b := Books(old(state.world), gasLimit);
            r.Processed? <==> BooksAfter(b, msgs, evm, rules, coinbase).Some?
    ensures var b := Books(old(state.world), gasLimit);
            r.Processed? ==>
              && state.world == BooksAfter(b, msgs, evm, rules, coinbase).value.world
              && r.usedGas == UsedSum(r.receipts) == gasLimit - BooksAfter(b, msgs, evm, rules, coinbase).value.pool
              && |r.receipts| == |msgs|
              && forall k :: 0 <= k < |msgs| ==> ReceiptRight(b, msgs, evm, rules, coinbase, r.receipts, k)
    ensures r.Processed? ==> Total(state.world.balances) == Total(old(state.world).balances)
    ensures r.Processed? && Solvent(old(state.world).balances) ==> Solvent(state.world.balances)
    ensures var b := Books(old(state.world), gasLimit);
            r.BlockRejected? ==>
              && r.index < |msgs| && BooksAfter(b, msgs[..r.index], evm, rules, coinbase).Some?
              && var before := BooksAfter(b, msgs[..r.index], evm, rules, coinbase).value;
              && Refusal(before.world, before.pool, msgs[r.index], rules) == Some(r.error)
  {
    hide Total, Solvent, Refusal, Intrinsic, Honest, Progress, NextBooks, BooksAfter, Execution, ReceiptRight;
    var gp := new GasPool();
    var ok := gp.AddGas(gasLimit);
    assert ok;
    var receipts: seq<Receipt>, usedGas: Uint64, i: nat := [], 0, 0;
    ghost var b := Books(state.world, gasLimit);
    ProgressStart(b, msgs, evm, rules, coinbase);
    while i < |msgs|
      invariant i == |receipts| <= |msgs| && fresh(gp) && usedGas + gp.gas == gasLimit
      invariant Progress(b, msgs, evm, rules, coinbase, receipts, Books(state.world, gp.gas), usedGas)
    {
      ghost var now := Books(state.world, gp.gas);
      var res, receipt := ApplyTransaction(msgs[i], gp, state, usedGas, evm, rules, coinbase);
      if res.Rejected? {
        ProgressStops(b, msgs, evm, rules, coinbase, receipts, now, usedGas);
        return BlockRejected(i, res.error);
      }
      ProgressStep(b, msgs, evm, rules, coinbase, receipts, now, usedGas, receipt);
      usedGas := receipt.cumulative;
      receipts := receipts + [receipt];
      i := i + 1;
    }
    ProgressDone(b, msgs, evm, rules, coinbase, receipts, Books(state.world, gp.gas), usedGas);
    BlockConserves(b, msgs, evm, rules, coinbase);
    r := Processed(receipts, usedGas);
  }

  lemma ProgressStart(b: Books, msgs: seq<Msg>, evm: Evm, rules: Rules, coinbase: Address)
    requires Honest(evm)
    ensures Progress(b, msgs, evm, rules, coinbase, [], b, 0)
  {
    hide Honest;
  }

  lemma ProgressStops(b: Books, msgs: seq<Msg>, evm: Evm, rules: Rules, coinbase: Address, receipts: seq<Receipt>,
                      now: Books, used: nat)
    requires Honest(evm) && Progress(b, msgs, evm, rules, coinbase, receipts, now, used) && |receipts| < |msgs|
    requires Refusal(now.world, now.pool, msgs[|receipts|], rules).Some?
    ensures BooksAfter(b, msgs[..|receipts|], evm, rules, coinbase) == Some(now)
    ensures BooksAfter(b, msgs, evm, rules, coinbase).None?
  {
    hide Honest, NextBooks, ReceiptRight, Refusal;
    var i := |receipts|;
    assert msgs[..i + 1][..i] == msgs[..i];
    RefusalIsFinal(b, msgs, i + 1, evm, rules, coinbase);
  }

  lemma ProgressDone(b: Books, msgs: seq<Msg>, evm: Evm, rules: Rules, coinbase: Address, receipts: seq<Receipt>,
                     now: Books, used: nat)
    requires Honest(evm) && Progress(b, msgs, evm, rules, coinbase, receipts, now, used) && |receipts| == |msgs|
    ensures BooksAfter(b, msgs, evm, rules, coinbase) == Some(now) && used == UsedSum(receipts) == b.pool - now.pool
    ensures forall k :: 0 <= k < |msgs| ==> ReceiptRight(b, msgs, evm, rules, coinbase, receipts, k)
  {
    hide Honest, ReceiptRight, BooksAfter;
    assert msgs[..|msgs|] == msgs;
  }
}
