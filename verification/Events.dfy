// internal/models/external.go (RPCLog), internal/engine/events.go and the decoding half of the handlers in
// internal/engine/log_replay_engine.go.
module Events {
  import opened Models
  import opened Hex

  /** The hash in Topics[0], represented by the event whose signature it hashes. */
  datatype Signature =
    | NoTopics
    | ReserveDataUpdatedSig
    | SupplySig
    | WithdrawSig
    | BorrowSig
    | RepaySig
    | LiquidationCallSig
    | CollateralEnabledSig
    | CollateralDisabledSig
    | UserEModeSetSig
    | UnknownSig(hash: string)

  /** A log as the node returns it; args are Topics[1..]. */
  datatype RPCLog = RPCLog(
    signature: Signature,
    args: seq<string>,
    data: string,
    blockNumber: string,
    transactionHash: string,
    logIndex: string,
    removed: bool)
  {
    function Block(): uint64 { ParseHexUint(blockNumber) }

    function Index(): uint64 { ParseHexUint(logIndex) }
  }

  /** What one log asks of the store. */
  datatype Update =
    | Ignore
    | SetIndex(asset: Address, index: GlobalIndex)
    | Supplied(user: Address, asset: Address, amount: int)
    | Withdrawn(user: Address, asset: Address, amount: int)
    | Borrowed(user: Address, asset: Address, amount: int)
    | Repaid(user: Address, asset: Address, amount: int)
    | Liquidated(user: Address, collateralAsset: Address, debtAsset: Address, debtToCover: int, collateralSeized: int)
    | CollateralSet(user: Address, asset: Address, enabled: bool)
    | EModeSet(user: Address, category: uint8)

  /** Only variable-rate debt is tracked. */
  const VARIABLE_RATE_MODE: int := 2

  // ---------- The decoding each handler does before it touches the store ----------

  /** ParseHexAddress of every topic after the signature. */
  function Addresses(args: seq<string>): seq<Address> {
    seq(|args|, i requires 0 <= i < |args| => ParseHexAddress(args[i]))
  }

  function WordOf(data: string, k: nat): string
    requires 64 * k + 64 <= |data|
  {
    data[64 * k..64 * k + 64]
  }

  /** ParseHexBigInt of data[0:64], data[64:128], ...: a handler's check on len(data) asks for this many words. */
  function DataWords(data: string): seq<int> {
    seq(|data| / 64, k requires 0 <= k < |data| / 64 => ParseHexBigInt(WordOf(data, k)))
  }

  /** The handlers' reading of a log: a are the topics, d the words and all the whole of the data section. */
  function Interpret(signature: Signature, a: seq<Address>, d: seq<int>, all: int, block: uint64): Update {
    match signature
    case ReserveDataUpdatedSig =>
      if |a| < 1 || |d| < 5 then Ignore else SetIndex(a[0], GlobalIndex(d[3], d[4], block))
    case SupplySig =>
      if |a| < 2 || |d| < 2 then Ignore else Supplied(a[1], a[0], d[1])
    case WithdrawSig =>
      if |a| < 3 || |d| < 1 then Ignore else Withdrawn(a[1], a[0], d[0])
    case BorrowSig =>
      if |a| < 2 || |d| < 3 || Int64Of(d[2]) != VARIABLE_RATE_MODE then Ignore else Borrowed(a[1], a[0], d[1])
    case RepaySig =>
      if |a| < 2 || |d| < 1 then Ignore else Repaid(a[1], a[0], d[0])
    case LiquidationCallSig =>
      if |a| < 3 || |d| < 2 then Ignore else Liquidated(a[2], a[0], a[1], d[0], d[1])
    case CollateralEnabledSig =>
      if |a| < 2 then Ignore else CollateralSet(a[1], a[0], true)
    case CollateralDisabledSig =>
      if |a| < 2 then Ignore else CollateralSet(a[1], a[0], false)
    case UserEModeSetSig =>
      if |a| < 1 then Ignore else EModeSet(a[0], Uint8Of(all))
    case NoTopics => Ignore
    case UnknownSig(_) => Ignore
  }

  /** processLog up to the change it makes. */
  function Decode(log: RPCLog): Update {
    var data := TrimPrefix(log.data);
    if log.removed then Ignore
    else Interpret(log.signature, Addresses(log.args), DataWords(data), ParseHexBigInt(data), log.Block())
  }

  /** The addresses of an update are lower case, as the store keys its maps. */
  ghost predicate LowerCase(up: Update) {
    match up
    case Ignore => true
    case SetIndex(a, _) => ToLower(a) == a
    case Supplied(u, a, _) => ToLower(u) == u && ToLower(a) == a
    case Withdrawn(u, a, _) => ToLower(u) == u && ToLower(a) == a
    case Borrowed(u, a, _) => ToLower(u) == u && ToLower(a) == a
    case Repaid(u, a, _) => ToLower(u) == u && ToLower(a) == a
    case Liquidated(u, c, d, _, _) => ToLower(u) == u && ToLower(c) == c && ToLower(d) == d
    case CollateralSet(u, a, _) => ToLower(u) == u && ToLower(a) == a
    case EModeSet(u, _) => ToLower(u) == u
  }

  lemma ParsedIsLower(text: string)
    ensures ToLower(ParseHexAddress(text)) == ParseHexAddress(text)
  {}

  lemma InterpretedIsLower(signature: Signature, a: seq<Address>, d: seq<int>, all: int, block: uint64)
    requires forall i :: 0 <= i < |a| ==> ToLower(a[i]) == a[i]
    ensures LowerCase(Interpret(signature, a, d, all, block))
  {}

  lemma DecodedIsLower(log: RPCLog)
    ensures LowerCase(Decode(log))
  {
    var a := Addresses(log.args);
    forall i | 0 <= i < |a| ensures ToLower(a[i]) == a[i] { ParsedIsLower(log.args[i]); }
    var data := TrimPrefix(log.data);
    InterpretedIsLower(log.signature, a, DataWords(data), ParseHexBigInt(data), log.Block());
  }

  // ---------- Malformed logs ----------

  /** The topics after the signature, and the characters of data, that a handler asks for. */
  predicate HasArguments(log: RPCLog) {
    var args, data := |log.args|, |TrimPrefix(log.data)|;
    match log.signature
    case ReserveDataUpdatedSig => args >= 1 && data >= 320
    case SupplySig => args >= 2 && data >= 128
    case WithdrawSig => args >= 3 && data >= 64
    case BorrowSig => args >= 2 && data >= 192
    case RepaySig => args >= 2 && data >= 64
    case LiquidationCallSig => args >= 3 && data >= 128
    case CollateralEnabledSig => args >= 2
    case CollateralDisabledSig => args >= 2
    case UserEModeSetSig => args >= 1
    case NoTopics => false
    case UnknownSig(_) => false
  }

  /** A log changes nothing exactly when it was removed, is unknown or incomplete, or is a borrow at another rate
      mode than 2. */
  lemma IgnoredIff(log: RPCLog)
    ensures Decode(log) == Ignore <==>
      || log.removed
      || !HasArguments(log)
      || (log.signature == BorrowSig && Int64Of(ParseHexBigInt(TrimPrefix(log.data)[128..192])) != 2)
  {
    var data := TrimPrefix(log.data);
    assert |DataWords(data)| == |data| / 64;
    if |data| >= 192 { assert DataWords(data)[2] == ParseHexBigInt(data[128..192]); }
  }

  // ---------- The events of the Pool contract ----------

  /** The nine events with all their arguments, as the contract declares them (pkg/abis/aave_v3.6.json). */
  datatype PoolEvent =
    | ReserveDataUpdated(reserve: nat, liquidityRate: nat, stableBorrowRate: nat, variableBorrowRate: nat,
                         liquidityIndex: nat, variableBorrowIndex: nat)
    | Supply(reserve: nat, supplier: nat, onBehalfOf: nat, amount: nat, referralCode: nat)
    | Withdraw(reserve: nat, user: nat, to: nat, amount: nat)
    | Borrow(reserve: nat, borrower: nat, onBehalfOf: nat, amount: nat, interestRateMode: nat, borrowRate: nat,
             referralCode: nat)
    | Repay(reserve: nat, user: nat, repayer: nat, amount: nat, useATokens: bool)
    | LiquidationCall(collateralAsset: nat, debtAsset: nat, user: nat, debtToCover: nat,
                      liquidatedCollateralAmount: nat, liquidator: nat, receiveAToken: bool)
    | CollateralEnabled(reserve: nat, user: nat)
    | CollateralDisabled(reserve: nat, user: nat)
    | UserEModeSet(user: nat, categoryId: nat)

  predicate IsAddress(a: nat) { a < Pow(16, 40) }

  predicate IsUint256(x: nat) { x < Pow(16, 64) }

  /** Every argument the handlers read is within the range of its Solidity type. */
  predicate WellTyped(ev: PoolEvent) {
    match ev
    case ReserveDataUpdated(r, _, _, _, li, vi) => IsAddress(r) && IsUint256(li) && IsUint256(vi)
    case Supply(r, _, o, a, _) => IsAddress(r) && IsAddress(o) && IsUint256(a)
    case Withdraw(r, u, _, a) => IsAddress(r) && IsAddress(u) && IsUint256(a)
    case Borrow(r, _, o, a, mode, _, _) => IsAddress(r) && IsAddress(o) && IsUint256(a) && mode < 256
    case Repay(r, u, _, a, _) => IsAddress(r) && IsAddress(u) && IsUint256(a)
    case LiquidationCall(c, d, u, x, y, _, _) =>
      IsAddress(c) && IsAddress(d) && IsAddress(u) && IsUint256(x) && IsUint256(y)
    case CollateralEnabled(r, u) => IsAddress(r) && IsAddress(u)
    case CollateralDisabled(r, u) => IsAddress(r) && IsAddress(u)
    case UserEModeSet(u, c) => IsAddress(u) && c < 256
  }

  // ---------- Encoding: Solidity Contract ABI Specification, section "Events" ----------

  /** Unindexed arguments, one 32-byte word each. */
  function Words(values: seq<nat>): string {
    if values == [] then "" else Words(values[..|values| - 1]) + HexWord(values[|values| - 1], 64)
  }

  /** Indexed arguments, one topic each. */
  function Topics(values: seq<nat>): seq<string> {
    seq(|values|, i requires 0 <= i < |values| => "0x" + HexWord(values[i], 64))
  }

  function BoolWord(b: bool): nat {
    if b then 1 else 0
  }

  function SignatureOf(ev: PoolEvent): Signature {
    match ev
    case ReserveDataUpdated(_, _, _, _, _, _) => ReserveDataUpdatedSig
    case Supply(_, _, _, _, _) => SupplySig
    case Withdraw(_, _, _, _) => WithdrawSig
    case Borrow(_, _, _, _, _, _, _) => BorrowSig
    case Repay(_, _, _, _, _) => RepaySig
    case LiquidationCall(_, _, _, _, _, _, _) => LiquidationCallSig
    case CollateralEnabled(_, _) => CollateralEnabledSig
    case CollateralDisabled(_, _) => CollateralDisabledSig
    case UserEModeSet(_, _) => UserEModeSetSig
  }

  function Indexed(ev: PoolEvent): seq<nat> {
    match ev
    case ReserveDataUpdated(r, _, _, _, _, _) => [r]
    case Supply(r, _, o, _, code) => [r, o, code]
    case Withdraw(r, u, to, _) => [r, u, to]
    case Borrow(r, _, o, _, _, _, code) => [r, o, code]
    case Repay(r, u, payer, _, _) => [r, u, payer]
    case LiquidationCall(c, d, u, _, _, _, _) => [c, d, u]
    case CollateralEnabled(r, u) => [r, u]
    case CollateralDisabled(r, u) => [r, u]
    case UserEModeSet(u, _) => [u]
  }

  function Unindexed(ev: PoolEvent): seq<nat> {
    match ev
    case ReserveDataUpdated(_, lr, sr, vr, li, vi) => [lr, sr, vr, li, vi]
    case Supply(_, s, _, a, _) => [s, a]
    case Withdraw(_, _, _, a) => [a]
    case Borrow(_, b, _, a, mode, rate, _) => [b, a, mode, rate]
    case Repay(_, _, _, a, useATokens) => [a, BoolWord(useATokens)]
    case LiquidationCall(_, _, _, x, y, l, receiveAToken) => [x, y, l, BoolWord(receiveAToken)]
    case CollateralEnabled(_, _) => []
    case CollateralDisabled(_, _) => []
    case UserEModeSet(_, c) => [c]
  }

  function Encode(ev: PoolEvent, block: uint64, index: uint64, txHash: string): RPCLog {
    RPCLog(SignatureOf(ev), Topics(Indexed(ev)), "0x" + Words(Unindexed(ev)), "0x" + FormatHex(block), txHash,
           "0x" + FormatHex(index), false)
  }

  /** What the event means for the store. */
  function Meaning(ev: PoolEvent, block: uint64): Update
    requires WellTyped(ev)
  {
    match ev
    case ReserveDataUpdated(r, _, _, _, li, vi) => SetIndex(AddressText(r), GlobalIndex(li, vi, block))
    case Supply(r, _, o, a, _) => Supplied(AddressText(o), AddressText(r), a)
    case Withdraw(r, u, _, a) => Withdrawn(AddressText(u), AddressText(r), a)
    case Borrow(r, _, o, a, mode, _, _) =>
      if mode == VARIABLE_RATE_MODE then Borrowed(AddressText(o), AddressText(r), a) else Ignore
    case Repay(r, u, _, a, _) => Repaid(AddressText(u), AddressText(r), a)
    case LiquidationCall(c, d, u, x, y, _, _) => Liquidated(AddressText(u), AddressText(c), AddressText(d), x, y)
    case CollateralEnabled(r, u) => CollateralSet(AddressText(u), AddressText(r), true)
    case CollateralDisabled(r, u) => CollateralSet(AddressText(u), AddressText(r), false)
    case UserEModeSet(u, c) => EModeSet(AddressText(u), c)
  }

  lemma {:induction false} WordAt(values: seq<nat>, k: nat)
    ensures |Words(values)| == 64 * |values|
    ensures k < |values| ==> WordOf(Words(values), k) == HexWord(values[k], 64)
  {
    if values != [] {
      var init := values[..|values| - 1];
      WordAt(init, k);
      if k < |init| {
        assert WordOf(Words(values), k) == WordOf(Words(init), k);
      }
    }
  }

  lemma ReadWord(values: seq<nat>, k: nat)
    requires k < |values| && IsUint256(values[k])
    ensures |Words(values)| == 64 * |values| && ParseHexBigInt(WordOf(Words(values), k)) == values[k]
  {
    WordAt(values, k);
    WordRoundTrip(values[k], 64);
  }

  /** The data section parses back into its words. */
  lemma ReadWords(values: seq<nat>)
    ensures |DataWords(Words(values))| == |values|
    ensures forall k :: 0 <= k < |values| && IsUint256(values[k]) ==> DataWords(Words(values))[k] == values[k]
  {
    WordAt(values, 0);
    assert |Words(values)| / 64 == |values|;
    forall k | 0 <= k < |values| && IsUint256(values[k]) ensures DataWords(Words(values))[k] == values[k] {
      ReadWord(values, k);
    }
  }

  /** The topics parse back into lower-case addresses. */
  lemma ReadTopics(values: seq<nat>)
    ensures |Addresses(Topics(values))| == |values|
    ensures forall i :: 0 <= i < |values| && IsAddress(values[i]) ==>
      Addresses(Topics(values))[i] == AddressText(values[i])
  {
    forall i | 0 <= i < |values| && IsAddress(values[i])
      ensures Addresses(Topics(values))[i] == AddressText(values[i])
    {
      AddressRoundTrip(values[i]);
    }
  }

  lemma SmallValue(x: nat)
    requires x < 256
    ensures IsUint256(x) && Int64Of(x) == x && Uint8Of(x) == x
  {
    PowMonotone(2, 64);
    assert Pow(16, 2) == 256;
  }

  /** a, d and all are the arguments of ev as far as they fit an address or a uint256. */
  ghost predicate ReadsAs(ev: PoolEvent, a: seq<Address>, d: seq<int>, all: int) {
    && |a| == |Indexed(ev)| && |d| == |Unindexed(ev)|
    && (forall i :: 0 <= i < |a| && IsAddress(Indexed(ev)[i]) ==> a[i] == AddressText(Indexed(ev)[i]))
    && (forall k :: 0 <= k < |d| && IsUint256(Unindexed(ev)[k]) ==> d[k] == Unindexed(ev)[k])
    && (ev.UserEModeSet? ==> all == ev.categoryId)
  }

  lemma InterpretDeposit(ev: PoolEvent, a: seq<Address>, d: seq<int>, all: int, block: uint64)
    requires WellTyped(ev) && ReadsAs(ev, a, d, all) && (ev.Supply? || ev.Withdraw?)
    ensures Interpret(SignatureOf(ev), a, d, all, block) == Meaning(ev, block)
  {}

  lemma InterpretLoan(ev: PoolEvent, a: seq<Address>, d: seq<int>, all: int, block: uint64)
    requires WellTyped(ev) && ReadsAs(ev, a, d, all) && (ev.Borrow? || ev.Repay?)
    ensures Interpret(SignatureOf(ev), a, d, all, block) == Meaning(ev, block)
  {
    if ev.Borrow? {
      SmallValue(ev.interestRateMode);
      assert d[2] == ev.interestRateMode;
    }
  }

  lemma InterpretMarket(ev: PoolEvent, a: seq<Address>, d: seq<int>, all: int, block: uint64)
    requires WellTyped(ev) && ReadsAs(ev, a, d, all) && (ev.ReserveDataUpdated? || ev.LiquidationCall?)
    ensures Interpret(SignatureOf(ev), a, d, all, block) == Meaning(ev, block)
  {}

  lemma InterpretFlag(ev: PoolEvent, a: seq<Address>, d: seq<int>, all: int, block: uint64)
    requires WellTyped(ev) && ReadsAs(ev, a, d, all) && (ev.CollateralEnabled? || ev.CollateralDisabled?)
    ensures Interpret(SignatureOf(ev), a, d, all, block) == Meaning(ev, block)
  {}

  lemma InterpretEMode(ev: PoolEvent, a: seq<Address>, d: seq<int>, all: int, block: uint64)
    requires WellTyped(ev) && ReadsAs(ev, a, d, all) && ev.UserEModeSet?
    ensures Interpret(SignatureOf(ev), a, d, all, block) == Meaning(ev, block)
  {
    SmallValue(ev.categoryId);
  }

  /** Decoding inverts encoding, for all nine events and all argument values; the block number and the log
      index come back too. */
  lemma DecodeInvertsEncode(ev: PoolEvent, block: uint64, index: uint64, txHash: string)
    requires WellTyped(ev)
    ensures var log := Encode(ev, block, index, txHash);
            Decode(log) == Meaning(ev, block) && log.Block() == block && log.Index() == index
  {
    QuantityRoundTrip(block);
    QuantityRoundTrip(index);
    var data := Words(Unindexed(ev));
    assert ("0x" + data)[2..] == data;
    ReadWords(Unindexed(ev));
    ReadTopics(Indexed(ev));
    if ev.UserEModeSet? {
      SmallValue(ev.categoryId);
      WordRoundTrip(ev.categoryId, 64);
      assert data == HexWord(ev.categoryId, 64);
    }
    var a, d, all := Addresses(Topics(Indexed(ev))), DataWords(data), ParseHexBigInt(data);
    assert ReadsAs(ev, a, d, all);
    if ev.Supply? || ev.Withdraw? {
      InterpretDeposit(ev, a, d, all, block);
    } else if ev.Borrow? || ev.Repay? {
      InterpretLoan(ev, a, d, all, block);
    } else if ev.ReserveDataUpdated? || ev.LiquidationCall? {
      InterpretMarket(ev, a, d, all, block);
    } else if ev.UserEModeSet? {
      InterpretEMode(ev, a, d, all, block);
    } else {
      InterpretFlag(ev, a, d, all, block);
    }
  }
}
