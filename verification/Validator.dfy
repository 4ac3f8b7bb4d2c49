/**
 * A staking validator (`src/coins/staking/validator.rs`): the
 * `ValidatorInfo` codec and state lifecycle, and the bookkeeping of a
 * `Validator` that decides how much of its delegators' stake counts.
 *
 * The delegator pool and `Decimal` arithmetic are not modelled.  The
 * pool is the sequence of entries its iterator yields, each either a
 * delegator (its address and what its `slashable_balance` returns) or a
 * store error.  The pool's own `balance()` is a field.  Decimals are
 * non-negative integers, and `Decimal::amount` is a range check into
 * `u64`.
 */
module Staking {
  import opened Results
  import opened Bytes
  import opened Encoding

  const U16_LIMIT: nat := 0x1_0000

  // ---------------------------------------------------------------------
  // ValidatorInfo: a u16 big-endian length, then the raw bytes

  datatype ValidatorInfo = ValidatorInfo(bytes: seq<byte>)

  /** `encoding_length`: the payload plus its two-byte prefix. */
  function InfoEncodingLength(info: ValidatorInfo): nat
  {
    |info.bytes| + 2
  }

  /**
   * `encode_into` as written: the length is cast `as u16`, which keeps
   * only its low 16 bits, and the whole payload follows.
   */
  function InfoEncodeTruncating(info: ValidatorInfo): (r: seq<byte>)
    ensures |r| == InfoEncodingLength(info)
    ensures r[2..] == info.bytes
  {
    EncodeBE(|info.bytes| % U16_LIMIT, 2) + info.bytes
  }

  /**
   * The encoding with its length checked: a payload of 2^16 bytes or more
   * is refused instead of being written with a wrong prefix.  Where it
   * succeeds it writes what `encode_into` writes.
   */
  function InfoEncode(info: ValidatorInfo): (r: Result<seq<byte>>)
    ensures r.Ok? <==> |info.bytes| < U16_LIMIT
    ensures r.Err? ==> r.error == Overflow
    ensures r.Ok? ==> r.value == InfoEncodeTruncating(info) && |r.value| == InfoEncodingLength(info)
  {
    if |info.bytes| < U16_LIMIT then Ok(InfoEncodeTruncating(info)) else Err(Overflow)
  }

  /** `Decode`: read a `u16` length, then exactly that many bytes. */
  function InfoDecode(input: seq<byte>): (r: Result<Decoded<ValidatorInfo>>)
    ensures r.Err? ==> r.error == Io(UnexpectedEof)
    ensures r.Err? <==> |input| < 2 || |input| < 2 + DecodeBE(input[..2])
    ensures r.Ok? ==> |r.value.value.bytes| < U16_LIMIT
    ensures r.Ok? ==> |input| == InfoEncodingLength(r.value.value) + |r.value.rest|
  {
    if |input| < 2 then Err(Io(UnexpectedEof))
    else
      var n := DecodeBE(input[..2]);
      DecodeBEBound(input[..2]);
      if |input| < 2 + n then Err(Io(UnexpectedEof))
      else Ok(Decoded(ValidatorInfo(input[2..2 + n]), input[2 + n..]))
  }

  /** Whatever the checked encoder writes decodes back, leaving what follows. */
  lemma InfoRoundTrip(info: ValidatorInfo, rest: seq<byte>)
    requires InfoEncode(info).Ok?
    ensures InfoDecode(InfoEncode(info).value + rest) == Ok(Decoded(info, rest))
  {
    var n := |info.bytes|;
    var e := InfoEncode(info).value + rest;
    assert e[..2] == EncodeBE(n, 2);
    DecodeEncodeBE(n, 2);
    assert e[2..2 + n] == info.bytes;
    assert e[2 + n..] == rest;
  }

  /** Every successful decode re-encodes to exactly the bytes it consumed. */
  lemma InfoDecodeCanonical(input: seq<byte>)
    requires InfoDecode(input).Ok?
    ensures InfoEncode(InfoDecode(input).value.value).Ok?
    ensures InfoEncode(InfoDecode(input).value.value).value + InfoDecode(input).value.rest == input
  {
    var d := InfoDecode(input).value;
    var n := DecodeBE(input[..2]);
    EncodeDecodeBE(input[..2]);
    assert |d.value.bytes| == n;
    assert EncodeBE(n, 2) == input[..2];
    assert input == input[..2] + input[2..2 + n] + input[2 + n..];
  }

  /**
   * As written, a payload of exactly 2^16 bytes gets the prefix 0: it
   * decodes as an empty `ValidatorInfo` and leaves the whole payload
   * unread.
   */
  lemma TruncatedLengthMisread(info: ValidatorInfo)
    requires |info.bytes| == U16_LIMIT
    ensures InfoDecode(InfoEncodeTruncating(info)) == Ok(Decoded(ValidatorInfo([]), info.bytes))
  {
    var e := InfoEncodeTruncating(info);
    assert e[..2] == EncodeBE(0, 2);
    DecodeEncodeBE(0, 2);
    assert e[2..2] == [];
  }

  /** `State::create` keeps the decoded data as it is. */
  function InfoCreate(data: ValidatorInfo): Result<ValidatorInfo>
  {
    Ok(data)
  }

  /** `State::flush` hands the value back as its own encoding. */
  function InfoFlush(info: ValidatorInfo): Result<ValidatorInfo>
  {
    Ok(info)
  }

  /** Loading then flushing, or flushing then loading, changes nothing. */
  lemma InfoStateRoundTrip(info: ValidatorInfo)
    ensures InfoCreate(info).Ok? && InfoFlush(InfoCreate(info).value) == Ok(info)
    ensures InfoFlush(info).Ok? && InfoCreate(InfoFlush(info).value) == Ok(info)
  {
  }

  // ---------------------------------------------------------------------
  // The delegator pool

  type Address = seq<byte>

  /** A delegator as the validator sees it: its key and its slashable balance. */
  datatype Delegator = Delegator(address: Address, slashable: Result<nat>)

  /** What the pool's iterator yields, in order: delegators or store errors. */
  type Entries = seq<Result<Delegator>>

  predicate AllPresent(entries: Entries)
  {
    forall i | 0 <= i < |entries| :: entries[i].Ok?
  }

  /**
   * `delegator_keys`: the addresses in iteration order, or the error of the
   * first entry that failed.
   */
  function Keys(entries: Entries): (r: Result<seq<Address>>)
    ensures r.Ok? <==> AllPresent(entries)
    ensures r.Ok? ==> |r.value| == |entries|
    ensures r.Ok? ==> forall i | 0 <= i < |entries| :: r.value[i] == entries[i].value.address
    ensures r.Err? ==> exists i | 0 <= i < |entries| :: entries[i] == Err(r.error) && AllPresent(entries[..i])
  {
    if entries == [] then Ok([])
    else
      var init := entries[..|entries| - 1];
      assert forall i | 0 <= i < |init| :: init[i] == entries[i];
      var keys :- Keys(init);
      var last :- entries[|entries| - 1];
      Ok(keys + [last.address])
  }

  /** Every delegator is present and reports its slashable balance. */
  predicate AllSlashable(entries: Entries)
  {
    forall i | 0 <= i < |entries| :: entries[i].Ok? && entries[i].value.slashable.Ok?
  }

  /** The total of the slashable balances, added from the first delegator on. */
  ghost function SlashableTotal(entries: Entries): nat
    requires AllSlashable(entries)
  {
    if entries == [] then 0
    else
      assert forall i | 0 <= i < |entries| - 1 :: entries[1..][i] == entries[i + 1];
      entries[0].value.slashable.value + SlashableTotal(entries[1..])
  }

  /** Adding from the front and adding from the back give the same total. */
  lemma {:induction false} SlashableTotalLast(entries: Entries)
    requires entries != [] && AllSlashable(entries)
    ensures AllSlashable(entries[..|entries| - 1])
    ensures SlashableTotal(entries)
      == SlashableTotal(entries[..|entries| - 1]) + entries[|entries| - 1].value.slashable.value
  {
    var init := entries[..|entries| - 1];
    assert forall i | 0 <= i < |init| :: init[i] == entries[i];
    if |entries| > 1 {
      var tail := entries[1..];
      assert forall i | 0 <= i < |tail| :: tail[i] == entries[i + 1];
      assert tail[..|tail| - 1] == init[1..];
      SlashableTotalLast(tail);
    }
  }

  /**
   * The sum of the delegators' slashable balances, or the first error one
   * of them reports.
   */
  function SumSlashable(entries: Entries): (r: Result<nat>)
    requires AllPresent(entries)
    ensures r.Ok? <==> forall i | 0 <= i < |entries| :: entries[i].value.slashable.Ok?
    ensures r.Ok? ==> AllSlashable(entries) && r.value == SlashableTotal(entries)
    ensures r.Ok? ==> forall i | 0 <= i < |entries| :: entries[i].value.slashable.value <= r.value
    ensures r.Err? ==> exists i | 0 <= i < |entries| :: entries[i].value.slashable == Err(r.error)
  {
    if entries == [] then Ok(0)
    else
      var init := entries[..|entries| - 1];
      assert forall i | 0 <= i < |init| :: init[i] == entries[i];
      var sum :- SumSlashable(init);
      var last :- entries[|entries| - 1].value.slashable;
      SlashableTotalLast(entries);
      Ok(sum + last)
  }

  /** `Decimal::amount`: a decimal that does not fit in a `u64` amount is refused. */
  function ToAmount(d: nat): (r: Result<u64>)
    ensures r.Ok? <==> d < U64_LIMIT
    ensures r.Ok? ==> r.value == d
  {
    if d < U64_LIMIT then Ok(d) else Err(Overflow)
  }

  /** `slashable_balance`: list the keys, then add up every delegator's share. */
  function SlashableBalanceOf(entries: Entries): (r: Result<u64>)
    ensures r.Ok? <==> AllSlashable(entries) && SlashableTotal(entries) < U64_LIMIT
    ensures r.Ok? ==> r.value == SlashableTotal(entries)
    ensures r.Ok? ==> AllPresent(entries)
    ensures r.Ok? ==> forall i | 0 <= i < |entries| ::
      entries[i].value.slashable.Ok? && entries[i].value.slashable.value <= r.value
  {
    var _ :- Keys(entries);
    var sum :- SumSlashable(entries);
    ToAmount(sum)
  }

  /** An empty pool has nothing to slash. */
  lemma EmptyPoolSlashable()
    ensures SlashableBalanceOf([]) == Ok(0)
  {
  }

  /** Once a prefix of the entries fails, later entries cannot change the outcome. */
  lemma {:induction false} KeysStopAtError(entries: Entries, i: nat)
    requires i <= |entries| && Keys(entries[..i]).Err?
    ensures Keys(entries) == Keys(entries[..i])
    decreases |entries| - i
  {
    if i < |entries| {
      var p := entries[..i + 1];
      assert p[..|p| - 1] == entries[..i];
      assert Keys(p) == Keys(entries[..i]);
      KeysStopAtError(entries, i + 1);
    } else {
      assert entries[..i] == entries;
    }
  }

  lemma {:induction false} SumStopsAtError(entries: Entries, i: nat)
    requires AllPresent(entries)
    requires i <= |entries| && SumSlashable(entries[..i]).Err?
    ensures SumSlashable(entries) == SumSlashable(entries[..i])
    decreases |entries| - i
  {
    if i < |entries| {
      var p := entries[..i + 1];
      assert p[..|p| - 1] == entries[..i];
      assert SumSlashable(p) == SumSlashable(entries[..i]);
      SumStopsAtError(entries, i + 1);
    } else {
      assert entries[..i] == entries;
    }
  }

  // ---------------------------------------------------------------------
  // The validator

  /** `Validator::staked` as a value: the pool's balance unless jailed. */
  function StakedAmount(jailed: bool, poolBalance: Result<nat>): (r: Result<u64>)
    ensures jailed ==> r == Ok(0)
    ensures !jailed ==> (r.Ok? <==> poolBalance.Ok? && poolBalance.value < U64_LIMIT)
    ensures !jailed && r.Ok? ==> r.value == poolBalance.value
  {
    if jailed then Ok(0)
    else
      var b :- poolBalance;
      ToAmount(b)
  }

  class Validator {
    var jailed: bool
    var address: Address
    var info: ValidatorInfo
    var inActiveSet: bool
    var delegators: Entries          // the pool, in iteration order
    var poolBalance: Result<nat>     // what `delegators.balance()` returns

    constructor (address0: Address, info0: ValidatorInfo, delegators0: Entries, poolBalance0: Result<nat>)
      ensures !jailed && !inActiveSet
      ensures address == address0 && info == info0
      ensures delegators == delegators0 && poolBalance == poolBalance0
    {
      jailed := false;
      address := address0;
      info := info0;
      inActiveSet := false;
      delegators := delegators0;
      poolBalance := poolBalance0;
    }

    /** `Balance::balance`: a jailed validator, or one outside the active set, holds nothing. */
    function Balance(): (r: Result<nat>)
      reads this
      ensures jailed || !inActiveSet ==> r == Ok(0)
      ensures !jailed && inActiveSet ==> r == poolBalance
    {
      if jailed || !inActiveSet then Ok(0) else poolBalance
    }

    /**
     * `staked`: the balance the validator would have in the active set.
     * The flag is raised for the computation and put back afterwards,
     * except when `balance()` fails, which leaves it raised.
     */
    method Staked() returns (r: Result<u64>)
      modifies this
      ensures r == StakedAmount(old(jailed), old(poolBalance))
      ensures inActiveSet == (if !old(jailed) && old(poolBalance).Err? then true else old(inActiveSet))
      ensures jailed == old(jailed) && poolBalance == old(poolBalance)
      ensures delegators == old(delegators) && address == old(address) && info == old(info)
    {
      var before := inActiveSet;
      inActiveSet := true;
      var b :- Balance();
      r := ToAmount(b);
      inActiveSet := before;
    }

    /** `delegator_keys`: push each key the pool yields, stopping at the first error. */
    method DelegatorKeys() returns (r: Result<seq<Address>>)
      ensures r == Keys(delegators)
    {
      var keys: seq<Address> := [];
      for i := 0 to |delegators|
        invariant Keys(delegators[..i]) == Ok(keys)
      {
        var p := delegators[..i + 1];
        assert p[..|p| - 1] == delegators[..i];
        if delegators[i].Err? {
          assert Keys(p) == Err(delegators[i].error);
          KeysStopAtError(delegators, i + 1);
          return Err(delegators[i].error);
        }
        keys := keys + [delegators[i].value.address];
      }
      assert delegators[..|delegators|] == delegators;
      r := Ok(keys);
    }

    /**
     * `slashable_balance`: for each key, in order, add the delegator's
     * slashable balance to the running sum, then convert to an amount.
     */
    method SlashableBalance() returns (r: Result<u64>)
      ensures r == SlashableBalanceOf(delegators)
    {
      var keys :- DelegatorKeys();
      var sum: nat := 0;
      for i := 0 to |keys|
        invariant AllPresent(delegators[..i])
        invariant SumSlashable(delegators[..i]) == Ok(sum)
      {
        var p := delegators[..i + 1];
        assert p[..|p| - 1] == delegators[..i];
        var share := delegators[i].value.slashable;
        if share.Err? {
          assert SumSlashable(p) == Err(share.error);
          SumStopsAtError(delegators, i + 1);
          return Err(share.error);
        }
        sum := sum + share.value;
      }
      assert delegators[..|keys|] == delegators;
      r := ToAmount(sum);
    }

    /**
     * `slash`, the part that concerns the validator: it is jailed first,
     * whatever happens next; then the slashable balance is computed and
     * the delegators are slashed (the `Decimal` multiplier and the
     * delegators' own slashing are the parameter `slashDelegators`).
     */
    method Slash(amount: u64, slashDelegators: (u64, u64) -> Result<()>) returns (r: Result<u64>)
      modifies this
      ensures jailed
      ensures SlashableBalanceOf(old(delegators)).Err? ==> r == Err(SlashableBalanceOf(old(delegators)).error)
      ensures SlashableBalanceOf(old(delegators)).Ok? ==>
        var outcome := slashDelegators(amount, SlashableBalanceOf(old(delegators)).value);
        r == (if outcome.Ok? then Ok(amount) else Err(outcome.error))
      ensures inActiveSet == old(inActiveSet) && poolBalance == old(poolBalance)
      ensures delegators == old(delegators) && address == old(address) && info == old(info)
    {
      jailed := true;
      var slashable :- SlashableBalance();
      var _ :- slashDelegators(amount, slashable);
      r := Ok(amount);
    }
  }
}
