/** Subscriptions over time: renewal dates, deferred plan changes, grace and expiry. */
module SubscriptionLaws {
  import opened Prelude
  import opened Calendar
  import opened InvoiceNumbers
  import opened Billing

  // ---- renewal dates ------------------------------------------------------------------------------

  datatype Renewal = Renewal(inv: Invoice, now: Time)

  function RenewAll(sub: Sub, rs: seq<Renewal>): Sub {
    if rs == [] then sub
    else RenewSub(RenewAll(sub, rs[..|rs| - 1]), rs[|rs| - 1].inv, rs[|rs| - 1].now)
  }

  lemma RenewedOnce(sub: Sub, inv: Invoice, now: Time)
    ensures var after := RenewSub(sub, inv, now);
            && after.endDate.Some?
            && after.endDate.value >= RenewalBase(sub, now) + 28 * MS_PER_DAY
            && after.status == Active && after.nextRenewal == after.endDate && after.graceEnds == None
  {
    CycleLength(RenewalBase(sub, now), inv.cycle);
  }

  /** One more renewal after `n`, the first of which counted from `base`. */
  lemma OneMoreRenewal(base: Time, n: nat, before: Option<Time>, from: Time, end: Time, now: Time)
    requires from >= now && (before.Some? && before.value > now ==> from == before.value)
    requires if n == 0 then from == base else before.Some? && before.value >= base + 28 * MS_PER_DAY * n
    requires end >= from + 28 * MS_PER_DAY
    ensures end > now && end >= base + 28 * MS_PER_DAY * (n + 1)
  {
  }

  /**
   Renewals never lose paid time: after k of them, at any instants and for any cycles, the end date lies
   after the last of them and at least 28 k days past the date the first one counted from.
   */
  lemma {:induction false} RenewalsAdvance(sub: Sub, rs: seq<Renewal>)
    requires rs != []
    ensures var after := RenewAll(sub, rs);
            && after.endDate.Some?
            && after.endDate.value > rs[|rs| - 1].now
            && after.endDate.value >= RenewalBase(sub, rs[0].now) + 28 * MS_PER_DAY * |rs|
            && after.status == Active && after.nextRenewal == after.endDate && after.graceEnds == None
  {
    var n := |rs| - 1;
    var before := RenewAll(sub, rs[..n]);
    RenewedOnce(before, rs[n].inv, rs[n].now);
    if n > 0 {
      RenewalsAdvance(sub, rs[..n]);
    } else {
      assert rs[..n] == [];
    }
    OneMoreRenewal(RenewalBase(sub, rs[0].now), n, before.endDate, RenewalBase(before, rs[n].now),
                   RenewSub(before, rs[n].inv, rs[n].now).endDate.value, rs[n].now);
  }

  // ---- grace and expiry ---------------------------------------------------------------------------

  /** One run takes a trial or active subscription to EXPIRED exactly when it is overdue and the grace period is negative. */
  lemma OnePassExpires(sub: Sub, now: Time, graceDays: int)
    requires sub.status == Trial || sub.status == Active
    ensures ExpirySub(sub, now, graceDays).status == Expired <==> Overdue(sub, now) && graceDays < 0
    ensures ExpirySub(sub, now, graceDays).status == Grace <==> Overdue(sub, now) && graceDays >= 0
  {
  }

  /** Repeating a run at the same instant changes nothing. */
  lemma ExpiryIdempotent(sub: Sub, now: Time, graceDays: int)
    ensures ExpirySub(ExpirySub(sub, now, graceDays), now, graceDays) == ExpirySub(sub, now, graceDays)
  {
  }

  /** What happens to one subscription: cron runs, paid invoices, cancellation, and deferred changes. */
  datatype Change =
    | Pass(at: Time)
    | Pay(inv: Invoice, at: Time)
    | Cancel(at: Time)
    | SetPending(plan: Option<nat>, cycle: Option<BillingCycle>)

  function Apply(sub: Sub, c: Change, graceDays: int): Sub {
    match c
    case Pass(at) => ExpirySub(sub, at, graceDays)
    case Pay(inv, at) => RenewSub(sub, inv, at)
    case Cancel(at) => sub.(status := Cancelled, endDate := Some(at))
    case SetPending(plan, cycle) => sub.(pendingPlan := plan, pendingCycle := cycle)
  }

  function ApplyAll(sub: Sub, cs: seq<Change>, graceDays: int): Sub {
    if cs == [] then sub else Apply(ApplyAll(sub, cs[..|cs| - 1], graceDays), cs[|cs| - 1], graceDays)
  }

  ghost predicate NoPayment(cs: seq<Change>, from: nat) {
    forall i :: from <= i < |cs| ==> !cs[i].Pay?
  }

  /** The cron run at position `i` found the subscription overdue, and nothing has renewed it since. */
  ghost predicate EnteredGrace(sub: Sub, cs: seq<Change>, graceDays: int, i: nat) {
    && i < |cs| && cs[i].Pass?
    && Overdue(ApplyAll(sub, cs[..i], graceDays), cs[i].at)
    && NoPayment(cs, i)
  }

  /** A later run, at position `j`, found that grace period over. */
  ghost predicate ThenExpired(cs: seq<Change>, graceDays: int, i: nat, j: nat)
    requires i < |cs| && cs[i].Pass?
  {
    i < j < |cs| && cs[j].Pass? && cs[i].at + graceDays * MS_PER_DAY < cs[j].at
  }

  lemma GraceSnoc(sub: Sub, cs: seq<Change>, graceDays: int, i: nat)
    requires cs != [] && EnteredGrace(sub, cs[..|cs| - 1], graceDays, i) && !cs[|cs| - 1].Pay?
    ensures EnteredGrace(sub, cs, graceDays, i)
  {
    assert cs[..|cs| - 1][..i] == cs[..i];
    assert forall k :: 0 <= k < |cs| - 1 ==> cs[..|cs| - 1][k] == cs[k];
  }

  /** Why a subscription is in GRACE: the run that put it there, whose grace end it still carries. */
  lemma {:induction false} GraceHasCause(sub: Sub, cs: seq<Change>, graceDays: int) returns (i: nat)
    requires graceDays >= 0 && sub.status != Grace
    requires ApplyAll(sub, cs, graceDays).status == Grace
    ensures EnteredGrace(sub, cs, graceDays, i)
    ensures ApplyAll(sub, cs, graceDays).graceEnds == Some(cs[i].at + graceDays * MS_PER_DAY)
  {
    var n := |cs| - 1;
    var before := ApplyAll(sub, cs[..n], graceDays);
    if before.status == Grace {
      i := GraceHasCause(sub, cs[..n], graceDays);
      GraceSnoc(sub, cs, graceDays, i);
    } else {
      i := n;
    }
  }

  /**
   EXPIRED has exactly one way in: a run at t1 that found the subscription past its end date, a run at t2
   more than the grace period after t1, and no renewal from the first run on.
   */
  lemma {:induction false} ExpiryTakesTwoPasses(sub: Sub, cs: seq<Change>, graceDays: int) returns (i: nat, j: nat)
    requires graceDays >= 0 && sub.status != Grace && sub.status != Expired
    requires ApplyAll(sub, cs, graceDays).status == Expired
    ensures EnteredGrace(sub, cs, graceDays, i)
    ensures ThenExpired(cs, graceDays, i, j)
    ensures ApplyAll(sub, cs[..i], graceDays).endDate.value < cs[i].at < cs[j].at
  {
    var n := |cs| - 1;
    var before := ApplyAll(sub, cs[..n], graceDays);
    if before.status == Expired {
      i, j := ExpiryTakesTwoPasses(sub, cs[..n], graceDays);
      GraceSnoc(sub, cs, graceDays, i);
      assert cs[..n][..i] == cs[..i];
    } else {
      assert before.status == Grace;
      i := GraceHasCause(sub, cs[..n], graceDays);
      GraceSnoc(sub, cs, graceDays, i);
      assert cs[..n][..i] == cs[..i];
      j := n;
    }
  }

  // ---- deferred plan changes ----------------------------------------------------------------------

  /** Paying an invoice applies both halves of a pending change exactly when it bills that plan and that cycle. */
  lemma PaymentAppliesPending(sub: Sub, inv: Invoice, now: Time)
    requires sub.pendingPlan.Some? && sub.pendingCycle.Some?
    ensures var after := RenewSub(sub, inv, now);
            && (after.pendingPlan.None? && after.pendingCycle.None? <==>
                sub.pendingPlan == Some(inv.planId) && sub.pendingCycle == Some(inv.cycle))
            && (after.pendingPlan.None? ==> after.planId == sub.pendingPlan.value)
            && (after.pendingCycle.None? ==> after.cycle == sub.pendingCycle.value)
  {
  }

  /** The cron adds invoices at the end of the table and leaves the others alone. */
  lemma {:induction false} BillRenewalsAppends(st: State, plans: map<nat, Plan>, n: nat, now: Time)
    requires n <= |st.subs|
    ensures var r := BillRenewals(st, plans, n, now);
            && |st.invoices| <= |r.invoices| && r.invoices[..|st.invoices|] == st.invoices
            && r.payments == st.payments && r.renewals == st.renewals
            && forall v :: |st.invoices| <= v < |r.invoices| ==>
                 && r.invoices[v].subId < n
                 && RenewalInvoice(st, r.invoices[v], now)
  {
    if n > 0 {
      BillRenewalsAppends(st, plans, n - 1, now);
      var before := BillRenewals(st, plans, n - 1, now);
      var r := BillRenewals(st, plans, n, now);
      if r != before {
        assert r.invoices[..|before.invoices|] == before.invoices;
        assert r.invoices[..|st.invoices|] == before.invoices[..|st.invoices|];
      }
    }
  }

  /** An invoice the cron made: it bills the pending plan and cycle where there are any, from the renewal date on. */
  ghost predicate RenewalInvoice(st: State, inv: Invoice, now: Time) {
    && inv.subId < |st.subs|
    && var sub := st.subs[inv.subId];
       && DueToday(sub, now)
       && inv.org == sub.org
       && inv.planId == EffectivePlan(sub)
       && inv.cycle == EffectiveCycle(sub)
       && inv.periodStart == sub.nextRenewal.value
       && inv.periodEnd == AddCycle(inv.periodStart, inv.cycle)
       && inv.status == Unpaid
  }

  /**
   A deferred change end to end: once the plan change has been put off to the next cycle, paying an
   invoice that a later cron run made for that subscription leaves it on exactly the new plan and cycle
   with nothing pending. If the change is cancelled first, before the cron run or after it, paying leaves
   plan and cycle as they were.
   */
  lemma DeferredChange(st: State, plans: map<nat, Plan>, org: nat, newPlanId: nat, newCycle: BillingCycle,
                       t0: Time, t1: Time, v: nat, t2: Time)
    requires ChangePlan(st, plans, org, newPlanId, newCycle, t0).reply == NextCycle
    requires var s := ChangePlan(st, plans, org, newPlanId, newCycle, t0).st;
             var r := BillRenewals(s, plans, |s.subs|, t1);
             |st.invoices| <= v < |r.invoices| && FindActive(st.subs, org) == Some(r.invoices[v].subId)
    ensures var i := FindActive(st.subs, org).value;
            var deferred := ChangePlan(st, plans, org, newPlanId, newCycle, t0).st;
            var billed := BillRenewals(deferred, plans, |deferred.subs|, t1);
            var paid := Settle(billed, v, t2);
            && paid.reply == Done
            && paid.st.subs[i].planId == newPlanId && paid.st.subs[i].cycle == newCycle
            && paid.st.subs[i].pendingPlan.None? && paid.st.subs[i].pendingCycle.None?
            && var cancelled := CancelPendingChange(billed, org);
               && cancelled.reply == Done
               && Settle(cancelled.st, v, t2).st.subs[i].planId == st.subs[i].planId
               && Settle(cancelled.st, v, t2).st.subs[i].cycle == st.subs[i].cycle
  {
    var i := FindActive(st.subs, org).value;
    var deferred := ChangePlan(st, plans, org, newPlanId, newCycle, t0).st;
    var sub := deferred.subs[i];
    FindActiveAfter(st.subs, org, i, sub);
    BillRenewalsAppends(deferred, plans, |deferred.subs|, t1);
    var billed := BillRenewals(deferred, plans, |deferred.subs|, t1);
    assert RenewalInvoice(deferred, billed.invoices[v], t1);
  }

  /** A change cancelled before the cron run is not billed either: paying the invoice renews the old plan and cycle. */
  lemma DeferredChangeCancelledEarly(st: State, plans: map<nat, Plan>, org: nat, newPlanId: nat, newCycle: BillingCycle,
                                     t0: Time, t1: Time, v: nat, t2: Time)
    requires ChangePlan(st, plans, org, newPlanId, newCycle, t0).reply == NextCycle
    requires var s := CancelPendingChange(ChangePlan(st, plans, org, newPlanId, newCycle, t0).st, org).st;
             var r := BillRenewals(s, plans, |s.subs|, t1);
             |st.invoices| <= v < |r.invoices| && FindActive(st.subs, org) == Some(r.invoices[v].subId)
    ensures var i := FindActive(st.subs, org).value;
            var cancelled := CancelPendingChange(ChangePlan(st, plans, org, newPlanId, newCycle, t0).st, org);
            var billed := BillRenewals(cancelled.st, plans, |cancelled.st.subs|, t1);
            && cancelled.reply == Done
            && billed.invoices[v].planId == st.subs[i].planId && billed.invoices[v].cycle == st.subs[i].cycle
            && Settle(billed, v, t2).st.subs[i].planId == st.subs[i].planId
            && Settle(billed, v, t2).st.subs[i].cycle == st.subs[i].cycle
  {
    var i := FindActive(st.subs, org).value;
    var deferred := ChangePlan(st, plans, org, newPlanId, newCycle, t0).st;
    FindActiveAfter(st.subs, org, i, deferred.subs[i]);
    var cancelled := CancelPendingChange(deferred, org).st;
    BillRenewalsAppends(cancelled, plans, |cancelled.subs|, t1);
    var billed := BillRenewals(cancelled, plans, |cancelled.subs|, t1);
    assert RenewalInvoice(cancelled, billed.invoices[v], t1);
  }

  /** Rewriting the active subscription without changing organization or status leaves it the active one. */
  lemma {:induction false} FindActiveAfter(subs: seq<Sub>, org: nat, i: nat, sub: Sub)
    requires FindActive(subs, org) == Some(i)
    requires sub.org == subs[i].org && sub.live == subs[i].live && sub.status == subs[i].status
    ensures FindActive(subs[i := sub], org) == Some(i)
  {
    var n := |subs| - 1;
    if i < n {
      FindActiveAfter(subs[..n], org, i, sub);
      assert subs[i := sub][..n] == subs[..n][i := sub];
    }
  }
}
