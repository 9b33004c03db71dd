/** What each billing call leaves in the tables and answers, read off the rows and columns. */
module BillingOutcomes {
  import opened Prelude
  import opened Calendar
  import opened InvoiceNumbers
  import opened Billing
  import opened NumberingLaws

  // ---- dates --------------------------------------------------------------------------------------

  /** The days of the billing cycle that starts at `base`: its month's, or 365, or 366 over a leap February. */
  function CycleDays(base: Time, cycle: BillingCycle): nat {
    var month := MonthOf(DayOf(base));
    if cycle.Monthly? then MonthLength(month) else 365 + if IsLeap(FebruaryYear(month)) then 1 else 0
  }

  ghost predicate OneCycle(from: Time, cycle: BillingCycle, to: Time) {
    to == from + CycleDays(from, cycle) * MS_PER_DAY
  }

  lemma CycleFromDays(from: Time, cycle: BillingCycle, to: Time)
    ensures OneCycle(from, cycle, to) <==> to == AddCycle(from, cycle)
  {
    CycleLength(from, cycle);
  }

  // ---- renewal ------------------------------------------------------------------------------------

  /**
   A subscription renewed by a paid invoice: active, out of trial and grace, and ending one cycle of the
   invoice after its end date, or after now if that has passed. A pending plan, and a pending cycle, takes
   effect if the invoice bills it.
   */
  ghost predicate Renewed(before: Sub, after: Sub, inv: Invoice, now: Time) {
    var base := if before.endDate.Some? && before.endDate.value > now then before.endDate.value else now;
    && after.endDate.Some? && OneCycle(base, inv.cycle, after.endDate.value)
    && after == Sub(before.org,
                    if before.pendingPlan == Some(inv.planId) then inv.planId else before.planId,
                    if before.pendingCycle == Some(inv.cycle) then inv.cycle else before.cycle,
                    Active, false, before.startDate, after.endDate, after.endDate,
                    if before.pendingPlan == Some(inv.planId) then None else before.pendingPlan,
                    if before.pendingCycle == Some(inv.cycle) then None else before.pendingCycle,
                    None, before.live)
  }

  lemma RenewSubOutcome(before: Sub, inv: Invoice, now: Time)
    ensures Renewed(before, RenewSub(before, inv, now), inv, now)
  {
    var base := RenewalBase(before, now);
    CycleFromDays(base, inv.cycle, AddCycle(base, inv.cycle));
  }

  ghost predicate HasSub(st: State, inv: Invoice) {
    inv.subId < |st.subs| && st.subs[inv.subId].live
  }

  /** Invoice `v` is PAID at `now`, and its subscription, unless it is gone, renewed once by it; no other row of these tables changes. */
  ghost predicate PaidAndRenewed(st: State, after: State, v: nat, now: Time)
    requires v < |st.invoices|
  {
    var inv := st.invoices[v];
    && after.invoices == st.invoices[v := Invoice(inv.number, inv.org, inv.subId, inv.planId, inv.cycle, inv.periodStart,
                                                  inv.periodEnd, Paid, Some(now))]
    && if HasSub(st, inv) then
         && after.renewals == st.renewals + [v]
         && |after.subs| == |st.subs|
         && after.subs == st.subs[inv.subId := after.subs[inv.subId]]
         && Renewed(st.subs[inv.subId], after.subs[inv.subId], inv, now)
       else after.renewals == st.renewals && after.subs == st.subs
  }

  lemma SettleOutcome(st: State, v: nat, now: Time)
    requires v < |st.invoices|
    ensures var after := Settle(st, v, now);
            && PaidAndRenewed(st, after.st, v, now)
            && after.st.payments == st.payments
            && after.reply == if HasSub(st, st.invoices[v]) then Done else SubscriptionNotFound
  {
    if HasSub(st, st.invoices[v]) {
      RenewSubOutcome(st.subs[st.invoices[v].subId], st.invoices[v], now);
      var paid := MarkPaid(st, v, now).invoices[v];
      assert RenewSub(st.subs[paid.subId], paid, now) == RenewSub(st.subs[paid.subId], st.invoices[v], now);
    }
  }

  // ---- webhooks -----------------------------------------------------------------------------------

  /** The first payment with the event's link or, if no payment has that link, the first with the event's order. */
  ghost predicate MatchedBy(ps: seq<Payment>, e: Webhook, p: nat) {
    && p < |ps|
    && if e.linkId.Some? && exists i :: 0 <= i < |ps| && ps[i].linkId == e.linkId then
         ps[p].linkId == e.linkId && forall i :: 0 <= i < p ==> ps[i].linkId != e.linkId
       else
         e.orderId.Some? && ps[p].orderId == e.orderId && forall i :: 0 <= i < p ==> ps[i].orderId != e.orderId
  }

  /** No other payment has the gateway id, and this one has not succeeded with it. */
  ghost predicate Unused(ps: seq<Payment>, p: nat, gatewayId: Option<nat>)
    requires p < |ps|
  {
    gatewayId.Some? ==>
      && (forall i :: 0 <= i < |ps| && i != p ==> ps[i].gatewayId != gatewayId)
      && (ps[p].gatewayId == gatewayId ==> ps[p].status != Success)
  }

  lemma MatchIsResolved(ps: seq<Payment>, e: Webhook, p: nat)
    ensures MatchedBy(ps, e, p) <==> ResolvePayment(ps, e) == Some(p)
  {
  }

  lemma TargetIsMatch(st: State, e: Webhook, p: nat)
    ensures Target(st, e) == Some(p) <==> MatchedBy(st.payments, e, p) && Unused(st.payments, p, e.gatewayId)
  {
    MatchIsResolved(st.payments, e, p);
  }

  /** A payment with the event's ids in place of its own. */
  ghost predicate Stamped(before: Payment, after: Payment, e: Webhook, status: PaymentStatus, paidAt: Option<Time>) {
    after == Payment(before.invoiceId, before.org, before.orderId,
                     if e.linkId.Some? then e.linkId else before.linkId,
                     if e.gatewayId.Some? then e.gatewayId else before.gatewayId, status, paidAt)
  }

  ghost predicate OnlyPayment(st: State, after: State, p: nat)
    requires p < |st.payments|
  {
    |after.payments| == |st.payments| && after.payments == st.payments[p := after.payments[p]]
  }

  /** The payment's invoice, looked up with the payment's organization. */
  ghost predicate Bills(st: State, pay: Payment) {
    pay.invoiceId < |st.invoices| && st.invoices[pay.invoiceId].org == pay.org
  }

  /**
   A capture, a paid order or a paid link: the matched payment succeeds, and its invoice, unless already
   PAID, is paid and renews its subscription once.
   */
  lemma SuccessOutcome(st: State, e: Webhook, now: Time, p: nat)
    requires e.kind == PaymentCaptured || e.kind == OrderPaid || e.kind == LinkPaid
    requires MatchedBy(st.payments, e, p) && Unused(st.payments, p, e.gatewayId)
    ensures var pay := st.payments[p];
            var after := HandleWebhook(st, e, now);
            && OnlyPayment(st, after, p)
            && Stamped(pay, after.payments[p], e, Success, Some(now))
            && if Bills(st, pay) && st.invoices[pay.invoiceId].status != Paid
               then PaidAndRenewed(st, after, pay.invoiceId, now)
               else after.invoices == st.invoices && after.subs == st.subs && after.renewals == st.renewals
  {
    TargetIsMatch(st, e, p);
    var pay := st.payments[p];
    if Bills(st, pay) && st.invoices[pay.invoiceId].status != Paid {
      SettleOutcome(st.(payments := st.payments[p := Stamp(pay, e).(status := Success, paidAt := Some(now))]), pay.invoiceId, now);
    }
  }

  /** A failure marks the matched payment and its invoice FAILED, paid or not; no other kind of event changes anything. */
  lemma FailureOutcome(st: State, e: Webhook, now: Time, p: nat)
    requires MatchedBy(st.payments, e, p) && Unused(st.payments, p, e.gatewayId)
    ensures var pay := st.payments[p];
            var after := HandleWebhook(st, e, now);
            && (e.kind == PaymentFailedEvent ==>
                  && OnlyPayment(st, after, p)
                  && Stamped(pay, after.payments[p], e, Failure, pay.paidAt)
                  && after.subs == st.subs && after.renewals == st.renewals
                  && after.invoices == if Bills(st, pay)
                                       then st.invoices[pay.invoiceId := st.invoices[pay.invoiceId].(status := PaymentFailed)]
                                       else st.invoices)
            && (e.kind == OtherEvent ==> after == st)
  {
    TargetIsMatch(st, e, p);
  }

  /** An event without a matching payment, or whose gateway id another payment has or this one succeeded with, changes nothing. */
  lemma WebhookIgnored(st: State, e: Webhook, now: Time)
    requires forall p: nat :: MatchedBy(st.payments, e, p) ==> !Unused(st.payments, p, e.gatewayId)
    ensures HandleWebhook(st, e, now) == st
  {
    if Target(st, e).Some? {
      TargetIsMatch(st, e, Target(st, e).value);
    }
  }

  // ---- verification -------------------------------------------------------------------------------

  /** The first payment of an order. */
  ghost predicate Ordered(ps: seq<Payment>, orderId: nat, p: nat) {
    p < |ps| && ps[p].orderId == Some(orderId) && forall i :: 0 <= i < p ==> ps[i].orderId != Some(orderId)
  }

  ghost predicate Verifiable(st: State, signatureOk: bool, org: nat, p: nat, gatewayId: nat)
    requires p < |st.payments|
  {
    && signatureOk
    && st.payments[p].org == org
    && st.payments[p].status != Success
    && forall i :: 0 <= i < |st.payments| && i != p ==> st.payments[i].gatewayId != Some(gatewayId)
  }

  /** A verification that is let through: the payment succeeds, its invoice is PAID and renews its subscription once. */
  lemma VerifyOutcome(st: State, signatureOk: bool, org: nat, orderId: nat, gatewayId: nat, now: Time, p: nat)
    requires Ordered(st.payments, orderId, p) && Verifiable(st, signatureOk, org, p, gatewayId)
    ensures var pay := st.payments[p];
            var after := Verify(st, signatureOk, org, orderId, gatewayId, now);
            && OnlyPayment(st, after.st, p)
            && after.st.payments[p] == Payment(pay.invoiceId, pay.org, pay.orderId, pay.linkId, Some(gatewayId), Success, Some(now))
            && if Bills(st, pay) then
                 && PaidAndRenewed(st, after.st, pay.invoiceId, now)
                 && after.reply == (if HasSub(st, st.invoices[pay.invoiceId]) then Done else SubscriptionNotFound)
               else
                 && after.st.invoices == st.invoices && after.st.subs == st.subs && after.st.renewals == st.renewals
                 && after.reply == InvoiceNotFound
  {
    var pay := st.payments[p];
    assert FindOrder(st.payments, orderId) == Some(p);
    if Bills(st, pay) {
      SettleOutcome(st.(payments := st.payments[p := pay.(gatewayId := Some(gatewayId), status := Success, paidAt := Some(now))]),
                    pay.invoiceId, now);
    }
  }

  /** Any other verification changes nothing: bad signature, unknown order, foreign organization, repeated, gateway id in use. */
  lemma VerifyRefused(st: State, signatureOk: bool, org: nat, orderId: nat, gatewayId: nat, now: Time)
    requires forall p: nat :: Ordered(st.payments, orderId, p) ==> !Verifiable(st, signatureOk, org, p, gatewayId)
    ensures var after := Verify(st, signatureOk, org, orderId, gatewayId, now);
            && after.st == st
            && (!signatureOk <==> after.reply == BadSignature)
            && (after.reply == PaymentNotFound <==> signatureOk && forall p: nat :: !Ordered(st.payments, orderId, p))
            && (forall p: nat :: Ordered(st.payments, orderId, p) && signatureOk ==>
                  && (after.reply == WrongOrganization <==> st.payments[p].org != org)
                  && (after.reply == AlreadyDone <==> st.payments[p].org == org && st.payments[p].status == Success)
                  && (after.reply == DuplicateGatewayId <==> st.payments[p].org == org && st.payments[p].status != Success))
  {
    var found := FindOrder(st.payments, orderId);
    if found.Some? {
      assert Ordered(st.payments, orderId, found.value);
      assert forall p: nat :: Ordered(st.payments, orderId, p) ==> p == found.value;
    } else {
      assert forall p: nat :: !Ordered(st.payments, orderId, p);
    }
  }

  /** A new payment for an invoice of the organization that is not PAID. */
  lemma InitiateOutcome(st: State, v: nat, org: nat, orderId: Option<nat>, linkId: Option<nat>)
    ensures Initiate(st, v, org, orderId, linkId) ==
            if v >= |st.invoices| || st.invoices[v].org != org then Outcome(st, InvoiceNotFound)
            else if st.invoices[v].status == Paid then Outcome(st, AlreadyPaid)
            else Outcome(st.(payments := st.payments + [Payment(v, org, orderId, linkId, None, Initiated, None)]), Done)
  {
  }

  // ---- invoices and the renewal cron --------------------------------------------------------------

  /** An unpaid invoice with the given columns, numbered after its month's earlier ones. */
  ghost predicate Bill(invoices: seq<Invoice>, inv: Invoice, org: nat, subId: nat, planId: nat, cycle: BillingCycle, start: Time, end: Time) {
    var key := MonthKey(start);
    inv == Invoice(InvoiceNumber(key, Rank(Keys(invoices), key, |invoices|) + 1), org, subId, planId, cycle, start, end, Unpaid, None)
  }

  lemma GenerateOutcome(st: State, subId: nat, planId: nat, cycle: BillingCycle, org: nat, start: Time, end: Time)
    requires Numbered(st.invoices)
    ensures var after := Generate(st, subId, planId, cycle, org, start, end);
            && after.reply == Done
            && |after.st.invoices| == |st.invoices| + 1
            && after.st == st.(invoices := st.invoices + [after.st.invoices[|st.invoices|]])
            && Bill(st.invoices, after.st.invoices[|st.invoices|], org, subId, planId, cycle, start, end)
            && Numbered(after.st.invoices)
  {
    GenerateKeepsNumbers(st, subId, planId, cycle, org, start, end);
    MonthKeyDigits(start);
    PrefixCountsMonth(st.invoices, MonthKey(start));
  }

  /** A subscription that renews today and whose plan, pending or current, is on offer. */
  ghost predicate Billable(sub: Sub, plans: map<nat, Plan>, now: Time) {
    && sub.live && sub.status == Active
    && sub.nextRenewal.Some? && sub.nextRenewal.value / MS_PER_DAY == now / MS_PER_DAY
    && (if sub.pendingPlan.Some? then sub.pendingPlan.value else sub.planId) in plans
  }

  ghost function BillableBefore(subs: seq<Sub>, plans: map<nat, Plan>, now: Time, n: nat): nat
    requires n <= |subs|
  {
    if n == 0 then 0 else BillableBefore(subs, plans, now, n - 1) + if Billable(subs[n - 1], plans, now) then 1 else 0
  }

  /** The invoice of a billable subscription: its pending plan and cycle where it has any, one cycle from its renewal date. */
  ghost predicate RenewalBill(sub: Sub, i: nat, inv: Invoice) {
    && sub.nextRenewal.Some?
    && inv.org == sub.org && inv.subId == i
    && inv.planId == (if sub.pendingPlan.Some? then sub.pendingPlan.value else sub.planId)
    && inv.cycle == (if sub.pendingCycle.Some? then sub.pendingCycle.value else sub.cycle)
    && inv.periodStart == sub.nextRenewal.value
    && OneCycle(inv.periodStart, inv.cycle, inv.periodEnd)
    && inv.status == Unpaid && inv.paidAt == None
  }

  /** Behind the first invoices, one for each billable subscription among the first `n`, in order, and nothing else. */
  ghost predicate Billed(subs: seq<Sub>, plans: map<nat, Plan>, now: Time, n: nat, first: seq<Invoice>, invoices: seq<Invoice>)
    requires n <= |subs|
  {
    && |invoices| == |first| + BillableBefore(subs, plans, now, n)
    && invoices[..|first|] == first
    && forall i :: 0 <= i < n && Billable(subs[i], plans, now) ==> BilledAt(subs, plans, now, i, first, invoices)
  }

  ghost predicate BilledAt(subs: seq<Sub>, plans: map<nat, Plan>, now: Time, i: nat, first: seq<Invoice>, invoices: seq<Invoice>)
    requires i < |subs|
  {
    var v := |first| + BillableBefore(subs, plans, now, i);
    v < |invoices| && RenewalBill(subs[i], i, invoices[v])
  }

  lemma OneMoreBill(subs: seq<Sub>, plans: map<nat, Plan>, now: Time, n: nat, first: seq<Invoice>, before: seq<Invoice>,
                    after: seq<Invoice>)
    requires n < |subs| && Billed(subs, plans, now, n, first, before)
    requires if Billable(subs[n], plans, now)
             then |after| == |before| + 1 && after[..|before|] == before && RenewalBill(subs[n], n, after[|before|])
             else after == before
    ensures Billed(subs, plans, now, n + 1, first, after)
  {
    if Billable(subs[n], plans, now) {
      assert after[..|first|] == after[..|before|][..|first|];
    }
    forall i | 0 <= i <= n && Billable(subs[i], plans, now)
      ensures BilledAt(subs, plans, now, i, first, after)
    {
      if i < n {
        assert BilledAt(subs, plans, now, i, first, before);
        var v := |first| + BillableBefore(subs, plans, now, i);
        assert |after| > |before| ==> after[v] == after[..|before|][v];
      }
    }
  }

  /**
   The renewal cron on a numbered table: exactly one invoice for each billable subscription, in order, and
   nothing else; the table stays numbered.
   */
  lemma {:induction false} RenewalCronOutcome(st: State, plans: map<nat, Plan>, n: nat, now: Time)
    requires n <= |st.subs| && Numbered(st.invoices)
    ensures var after := BillRenewals(st, plans, n, now);
            && Numbered(after.invoices)
            && after == st.(invoices := after.invoices)
            && Billed(st.subs, plans, now, n, st.invoices, after.invoices)
  {
    if n > 0 {
      RenewalCronOutcome(st, plans, n - 1, now);
      var before := BillRenewals(st, plans, n - 1, now);
      BillRenewalOutcome(before, plans, n - 1, now);
      OneMoreBill(st.subs, plans, now, n - 1, st.invoices, before.invoices, BillRenewals(st, plans, n, now).invoices);
    } else {
      assert st.invoices[..|st.invoices|] == st.invoices;
    }
  }

  lemma BillRenewalOutcome(st: State, plans: map<nat, Plan>, i: nat, now: Time)
    requires i < |st.subs| && Numbered(st.invoices)
    ensures var after := BillRenewal(st, plans, i, now);
            if Billable(st.subs[i], plans, now) then
              && Numbered(after.invoices)
              && |after.invoices| == |st.invoices| + 1
              && after == st.(invoices := st.invoices + [after.invoices[|st.invoices|]])
              && RenewalBill(st.subs[i], i, after.invoices[|st.invoices|])
            else after == st
  {
    var sub := st.subs[i];
    if Billable(sub, plans, now) {
      var start, cycle := sub.nextRenewal.value, EffectiveCycle(sub);
      GenerateOutcome(st, i, EffectivePlan(sub), cycle, sub.org, start, AddCycle(start, cycle));
      CycleFromDays(start, cycle, AddCycle(start, cycle));
    }
  }

  // ---- plan changes -------------------------------------------------------------------------------

  /** The organization's newest live subscription that is not cancelled. */
  ghost predicate Current(subs: seq<Sub>, org: nat, i: nat) {
    && i < |subs| && subs[i].org == org && subs[i].live && subs[i].status != Cancelled
    && forall j :: i < j < |subs| ==> subs[j].org != org || !subs[j].live || subs[j].status == Cancelled
  }

  lemma CurrentIsFound(subs: seq<Sub>, org: nat, i: nat)
    ensures Current(subs, org, i) <==> FindActive(subs, org) == Some(i)
  {
  }

  /** A change waits for the renewal exactly if it is no trial, no higher tier and no move from monthly to annual on the same tier. */
  ghost predicate Waits(current: Sub, currentPlan: Plan, newPlan: Plan, newCycle: BillingCycle) {
    && !current.isTrial
    && newPlan.tier <= currentPlan.tier
    && (newPlan.tier == currentPlan.tier ==> !(current.cycle == Monthly && newCycle == Annual))
  }

  lemma ChangePlanOutcome(st: State, plans: map<nat, Plan>, org: nat, newPlanId: nat, newCycle: BillingCycle, now: Time, i: nat)
    requires Current(st.subs, org, i) && Numbered(st.invoices)
    requires newPlanId in plans && st.subs[i].planId in plans
    requires plans[newPlanId].tier != plans[st.subs[i].planId].tier || newCycle != st.subs[i].cycle
    ensures var current := st.subs[i];
            var after := ChangePlan(st, plans, org, newPlanId, newCycle, now);
            if Waits(current, plans[current.planId], plans[newPlanId], newCycle) then
              after == Outcome(st.(subs := st.subs[i := current.(pendingPlan := Some(newPlanId), pendingCycle := Some(newCycle))]), NextCycle)
            else
              && after.reply == Immediate
              && |after.st.subs| == |st.subs| + 1 && |after.st.invoices| == |st.invoices| + 1
              && var started, bill := after.st.subs[|st.subs|], after.st.invoices[|st.invoices|];
                 && after.st == st.(subs := st.subs[i := current.(status := Cancelled, endDate := Some(now))] + [started],
                                    invoices := st.invoices + [bill])
                 && started.endDate.Some? && OneCycle(now, newCycle, started.endDate.value)
                 && started == Sub(org, newPlanId, newCycle, Active, false, now, started.endDate, started.endDate, None, None, None, true)
                 && Bill(st.invoices, bill, org, |st.subs|, newPlanId, newCycle, now, started.endDate.value)
  {
    CurrentIsFound(st.subs, org, i);
    var current := st.subs[i];
    if !Waits(current, plans[current.planId], plans[newPlanId], newCycle) {
      var end := AddCycle(now, newCycle);
      var moved := st.subs[i := current.(status := Cancelled, endDate := Some(now))]
                   + [Sub(org, newPlanId, newCycle, Active, false, now, Some(end), Some(end), None, None, None, true)];
      CycleFromDays(now, newCycle, end);
      GenerateOutcome(st.(subs := moved), |st.subs|, newPlanId, newCycle, org, now, end);
    }
  }

  lemma ChangePlanRefused(st: State, plans: map<nat, Plan>, org: nat, newPlanId: nat, newCycle: BillingCycle, now: Time)
    ensures var after := ChangePlan(st, plans, org, newPlanId, newCycle, now);
            && ((forall i: nat :: !Current(st.subs, org, i)) ==> after == Outcome(st, SubscriptionNotFound))
            && (forall i: nat :: Current(st.subs, org, i) ==>
                  && (newPlanId !in plans || st.subs[i].planId !in plans ==> after == Outcome(st, PlanNotFound))
                  && (newPlanId in plans && st.subs[i].planId in plans ==>
                        newCycle == st.subs[i].cycle && plans[newPlanId].tier == plans[st.subs[i].planId].tier ==>
                          after == Outcome(st, SamePlanAndCycle)))
  {
    forall i: nat
      ensures Current(st.subs, org, i) <==> FindActive(st.subs, org) == Some(i)
    {
      CurrentIsFound(st.subs, org, i);
    }
  }

  /** A pending change, of plan or of cycle, is cleared as a whole. */
  lemma CancelPendingOutcome(st: State, org: nat)
    ensures var after := CancelPendingChange(st, org);
            && ((forall i: nat :: !Current(st.subs, org, i)) ==> after == Outcome(st, SubscriptionNotFound))
            && (forall i: nat :: Current(st.subs, org, i) ==>
                  after == if st.subs[i].pendingPlan.None? && st.subs[i].pendingCycle.None? then Outcome(st, NothingPending)
                           else Outcome(st.(subs := st.subs[i := st.subs[i].(pendingPlan := None, pendingCycle := None)]), Done))
  {
    forall i: nat
      ensures Current(st.subs, org, i) <==> FindActive(st.subs, org) == Some(i)
    {
      CurrentIsFound(st.subs, org, i);
    }
  }

  // ---- expiry -------------------------------------------------------------------------------------

  /** One run of the expiry cron: into GRACE, out of it, or nothing; both at once if the grace period is negative. */
  lemma ExpiryOutcome(sub: Sub, now: Time, graceDays: int)
    ensures ExpirySub(sub, now, graceDays) ==
            if sub.live && (sub.status == Trial || sub.status == Active) && sub.endDate.Some? && sub.endDate.value < now
            then sub.(status := if graceDays < 0 then Expired else Grace, graceEnds := Some(now + graceDays * MS_PER_DAY))
            else if sub.live && sub.status == Grace && sub.graceEnds.Some? && sub.graceEnds.value < now
            then sub.(status := Expired)
            else sub
  {
  }
}
