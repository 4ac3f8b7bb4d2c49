/**
 * The fee gate of `src/plugins/fee.rs`: every call passing through
 * `FeePlugin` must find a payment context, and unless the payer is the
 * one running or fees have been disabled, exactly `MIN_FEE` is taken from
 * it and burned before the call reaches the inner state.
 *
 * The payment context (`Paid`, defined in `src/plugins/mod.rs`, which is
 * not part of this model) is reduced to its two flags and the funds paid
 * in the plugin's coin.  The context registry becomes a nullable
 * reference, and the inner state's `call` and `query` become parameters;
 * the inner `call` receives the context and returns it as it leaves it.
 */
module Fees {
  import opened Results
  import opened Bytes

  const MIN_FEE: u64 := 10_000

  const NOT_PAID := "Minimum fee not paid"
  const INSUFFICIENT := "Insufficient funding for paid call"

  /** The payment context as a value. */
  datatype PaidView = PaidView(runningPayer: bool, feeDisabled: bool, funds: nat)

  class Paid {
    var runningPayer: bool
    var feeDisabled: bool
    var funds: nat

    constructor (funds0: nat, runningPayer0: bool)
      ensures funds == funds0 && runningPayer == runningPayer0 && !feeDisabled
    {
      funds := funds0;
      runningPayer := runningPayer0;
      feeDisabled := false;
    }

    function View(): PaidView
      reads this
    {
      PaidView(runningPayer, feeDisabled, funds)
    }

    /** The context as the inner call leaves it. */
    method Assign(v: PaidView)
      modifies this
      ensures View() == v
    {
      runningPayer, feeDisabled, funds := v.runningPayer, v.feeDisabled, v.funds;
    }

    /** `Paid::take`: withdraw `amount` as a coin, refusing when the funds fall short. */
    method Take(amount: nat) returns (r: Result<nat>)
      modifies this
      ensures r.Ok? <==> amount <= old(funds)
      ensures r.Ok? ==> r.value == amount && funds == old(funds) - amount
      ensures r.Err? ==> r.error == Coins(INSUFFICIENT) && funds == old(funds)
      ensures runningPayer == old(runningPayer) && feeDisabled == old(feeDisabled)
    {
      if funds < amount {
        return Err(Coins(INSUFFICIENT));
      }
      funds := funds - amount;
      r := Ok(amount);
    }
  }

  /** Whether a call made under this context owes the minimum fee. */
  predicate Charged(p: PaidView)
  {
    !p.runningPayer && !p.feeDisabled
  }

  /** The fee a call under this context owes: `MIN_FEE` or nothing. */
  function FeeDue(p: PaidView): nat
  {
    if Charged(p) then MIN_FEE else 0
  }

  /**
   * The outcome of the inner state's `call`: its new state, the payment
   * context as the call leaves it (the inner call shares the context, and
   * may take from it or disable fees on it), and its result.
   */
  datatype Called<T> = Called(state: T, paid: PaidView, result: Result<()>)

  /** The outcome of a gated call: the context, the inner state and the result. */
  datatype Gated<T> = Gated(paid: Option<PaidView>, inner: T, result: Result<()>)

  /**
   * `FeePlugin::call` as a value: the inner call receives the context with
   * the owed fee already taken, and what it does to the context stays.
   */
  function GateSpec<T, C>(paid: Option<PaidView>, inner: T, call: C, innerCall: (T, PaidView, C) -> Called<T>): (g: Gated<T>)
    ensures paid.None? ==> g == Gated(None, inner, Err(Coins(NOT_PAID)))
    ensures paid.Some? && FeeDue(paid.value) > paid.value.funds ==>
      g == Gated(paid, inner, Err(Coins(INSUFFICIENT)))
    ensures paid.Some? && FeeDue(paid.value) <= paid.value.funds ==>
      var called := innerCall(inner, paid.value.(funds := paid.value.funds - FeeDue(paid.value)), call);
      g == Gated(Some(called.paid), called.state, called.result)
  {
    match paid
    case None => Gated(None, inner, Err(Coins(NOT_PAID)))
    case Some(p) =>
      if Charged(p) && p.funds < MIN_FEE then Gated(paid, inner, Err(Coins(INSUFFICIENT)))
      else
        var after := if Charged(p) then p.(funds := p.funds - MIN_FEE) else p;
        var called := innerCall(inner, after, call);
        Gated(Some(called.paid), called.state, called.result)
  }

  /** The view of an optional context: absent when there is none. */
  function ContextView(ctx: Paid?): Option<PaidView>
    reads ctx
  {
    if ctx == null then None else Some(ctx.View())
  }

  /**
   * `disable_fee`: set `fee_disabled` on the current payment context, if
   * there is one; without one nothing happens.
   */
  method DisableFee(ctx: Paid?)
    modifies ctx
    ensures ctx != null ==> ctx.View() == old(ctx.View()).(feeDisabled := true)
  {
    if ctx != null {
      ctx.feeDisabled := true;
    }
  }

  class FeePlugin<T> {
    var inner: T

    constructor (inner0: T)
      ensures inner == inner0
    {
      inner := inner0;
    }

    /**
     * `Call::call`: find the payment context, take and burn `MIN_FEE`
     * when it is owed, then hand the call, unchanged, to the inner state,
     * which works on the same context.
     */
    method Call<C>(ctx: Paid?, call: C, innerCall: (T, PaidView, C) -> Called<T>) returns (r: Result<()>)
      modifies this, ctx
      ensures Gated(ContextView(ctx), inner, r) == GateSpec(old(ContextView(ctx)), old(inner), call, innerCall)
    {
      if ctx == null {
        return Err(Coins(NOT_PAID));
      }
      if !ctx.runningPayer && !ctx.feeDisabled {
        var feePayment :- ctx.Take(MIN_FEE);
        // the coin taken is burned: it is dropped and credited to no one
      }
      var called := innerCall(inner, ctx.View(), call);
      inner := called.state;
      ctx.Assign(called.paid);
      r := called.result;
    }

    /** `Query::query`: the query goes to the inner state as it is. */
    function Query<Q>(query: Q, innerQuery: (T, Q) -> Result<()>): (r: Result<()>)
      reads this
      ensures r == innerQuery(inner, query)
    {
      innerQuery(inner, query)
    }
  }

  /**
   * The fee is taken once, before the inner call: a call that can pay runs
   * the inner call exactly once, on the context less the owed fee, and
   * its result is the gated call's result; one that cannot pay never
   * reaches the inner call.
   */
  lemma FeeTakenOnce<T, C>(p: PaidView, inner: T, call: C, innerCall: (T, PaidView, C) -> Called<T>)
    ensures var g := GateSpec(Some(p), inner, call, innerCall);
      g.result.Ok? <==> FeeDue(p) <= p.funds && innerCall(inner, p.(funds := p.funds - FeeDue(p)), call).result.Ok?
    ensures var g := GateSpec(Some(p), inner, call, innerCall);
      FeeDue(p) <= p.funds ==> g.inner == innerCall(inner, p.(funds := p.funds - FeeDue(p)), call).state
  {
    if FeeDue(p) <= p.funds {
      assert !(Charged(p) && p.funds < MIN_FEE);
    }
  }

  /**
   * When the inner call leaves the context as it found it, the gated call
   * has taken exactly the owed fee from the funds, and changed nothing else.
   */
  lemma OnlyTheFeeIsTaken<T, C>(p: PaidView, inner: T, call: C, innerCall: (T, PaidView, C) -> Called<T>)
    requires FeeDue(p) <= p.funds
    requires forall q :: innerCall(inner, q, call).paid == q
    ensures var g := GateSpec(Some(p), inner, call, innerCall);
      g.paid == Some(p.(funds := p.funds - FeeDue(p))) && g.paid.value.funds + FeeDue(p) == p.funds
  {
    var q := p.(funds := p.funds - FeeDue(p));
    assert innerCall(inner, q, call).paid == q;
  }

  /**
   * After `disable_fee`, calls made under the same context are free: the
   * inner call receives the context untouched, and sees the call as it
   * would without the plugin.
   */
  lemma DisabledCallsAreFree<T, C>(p: PaidView, inner: T, call: C, innerCall: (T, PaidView, C) -> Called<T>)
    ensures var q := p.(feeDisabled := true);
      var called := innerCall(inner, q, call);
      GateSpec(Some(q), inner, call, innerCall) == Gated(Some(called.paid), called.state, called.result)
  {
  }

  /** A refused call, for want of a context or of funds, leaves the context and the inner state as they were. */
  lemma RefusedCallChangesNothing<T, C>(paid: Option<PaidView>, inner: T, call: C, innerCall: (T, PaidView, C) -> Called<T>)
    requires paid.None? || FeeDue(paid.value) > paid.value.funds
    ensures GateSpec(paid, inner, call, innerCall) == Gated(paid, inner, GateSpec(paid, inner, call, innerCall).result)
    ensures GateSpec(paid, inner, call, innerCall).result.Err?
  {
  }
}
