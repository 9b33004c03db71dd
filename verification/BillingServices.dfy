/** The billing services as they work: row by row, each proved against the value-level operation of its name. */
module BillingServices {
  import opened Prelude
  import opened Calendar
  import opened InvoiceNumbers
  import opened Billing

  class BillingDb {
    var subs: seq<Sub>
    var invoices: seq<Invoice>
    var payments: seq<Payment>
    var renewals: seq<nat>

    constructor ()
      ensures Snapshot() == State([], [], [], [])
    {
      subs, invoices, payments, renewals := [], [], [], [];
    }

    function Snapshot(): State
      reads this
    {
      State(subs, invoices, payments, renewals)
    }
  }

  /** Extends the subscription of a paid invoice and applies a pending change that the invoice bills. */
  method RenewSubscriptionForInvoice(db: BillingDb, v: nat, now: Time) returns (reply: Reply)
    requires v < |db.invoices|
    modifies db
    ensures Outcome(db.Snapshot(), reply) == Renew(old(db.Snapshot()), v, now)
  {
    var invoice := db.invoices[v];
    if invoice.subId >= |db.subs| || !db.subs[invoice.subId].live {
      return SubscriptionNotFound;
    }
    var sub := db.subs[invoice.subId];
    var baseDate := if sub.endDate.Some? && sub.endDate.value > now then sub.endDate.value else now;
    var nextRenewal := AddCycle(baseDate, invoice.cycle);
    sub := sub.(status := Active, isTrial := false, graceEnds := None, endDate := Some(nextRenewal), nextRenewal := Some(nextRenewal));
    if sub.pendingPlan.Some? && sub.pendingPlan.value == invoice.planId {
      sub := sub.(planId := sub.pendingPlan.value, pendingPlan := None);
    }
    if sub.pendingCycle.Some? && sub.pendingCycle.value == invoice.cycle {
      sub := sub.(cycle := sub.pendingCycle.value, pendingCycle := None);
    }
    db.subs := db.subs[invoice.subId := sub];
    db.renewals := db.renewals + [v];
    return Done;
  }

  method MarkInvoicePaid(db: BillingDb, v: nat, now: Time)
    requires v < |db.invoices|
    modifies db`invoices
    ensures db.Snapshot() == MarkPaid(old(db.Snapshot()), v, now)
  {
    db.invoices := db.invoices[v := db.invoices[v].(status := Paid, paidAt := Some(now))];
  }

  method Verify(db: BillingDb, signatureOk: bool, org: nat, orderId: nat, gatewayId: nat,
                now: Time) returns (reply: Reply)
    modifies db
    ensures Outcome(db.Snapshot(), reply) == Billing.Verify(old(db.Snapshot()), signatureOk, org, orderId, gatewayId, now)
  {
    if !signatureOk {
      return BadSignature;
    }
    var found := FindOrder(db.payments, orderId);
    if found.None? {
      return PaymentNotFound;
    }
    var payment := db.payments[found.value];
    if payment.org != org {
      return WrongOrganization;
    }
    if payment.status == Success {
      return AlreadyDone;
    }
    payment := payment.(gatewayId := Some(gatewayId), status := Success, paidAt := Some(now));
    if GatewayIdTaken(db.payments, found.value, Some(gatewayId)) {
      return DuplicateGatewayId;
    }
    db.payments := db.payments[found.value := payment];
    if !HasInvoice(db.Snapshot(), payment.invoiceId, org) {
      return InvoiceNotFound;
    }
    MarkInvoicePaid(db, payment.invoiceId, now);
    reply := RenewSubscriptionForInvoice(db, payment.invoiceId, now);
  }

  method HandleWebhook(db: BillingDb, e: Webhook, now: Time)
    modifies db
    ensures db.Snapshot() == Billing.HandleWebhook(old(db.Snapshot()), e, now)
  {
    if AlreadySucceeded(db.payments, e.gatewayId) {
      return;
    }
    var found := ResolvePayment(db.payments, e);
    if found.None? {
      return;
    }
    var payment := db.payments[found.value];
    if e.gatewayId.Some? {
      payment := payment.(gatewayId := e.gatewayId);
    }
    if e.linkId.Some? {
      payment := payment.(linkId := e.linkId);
    }
    if GatewayIdTaken(db.payments, found.value, e.gatewayId) {
      return;
    }
    if IsSuccess(e.kind) {
      db.payments := db.payments[found.value := payment.(status := Success, paidAt := Some(now))];
      if HasInvoice(db.Snapshot(), payment.invoiceId, payment.org) && db.invoices[payment.invoiceId].status != Paid {
        MarkInvoicePaid(db, payment.invoiceId, now);
        var _ := RenewSubscriptionForInvoice(db, payment.invoiceId, now);
      }
    } else if e.kind == PaymentFailedEvent {
      db.payments := db.payments[found.value := payment.(status := Failure)];
      if HasInvoice(db.Snapshot(), payment.invoiceId, payment.org) {
        db.invoices := db.invoices[payment.invoiceId := db.invoices[payment.invoiceId].(status := PaymentFailed)];
      }
    }
  }

  method GenerateInvoice(db: BillingDb, subId: nat, planId: nat, cycle: BillingCycle, org: nat, start: Time, end: Time)
    returns (reply: Reply)
    modifies db`invoices
    ensures Outcome(db.Snapshot(), reply) == Generate(old(db.Snapshot()), subId, planId, cycle, org, start, end)
  {
    var key := MonthKey(start);
    var sequence := CountPrefix(db.invoices, Prefix(key)) + 1;
    var number := InvoiceNumber(key, sequence);
    if NumberTaken(db.invoices, number) {
      return DuplicateNumber;
    }
    db.invoices := db.invoices + [Invoice(number, org, subId, planId, cycle, start, end, Unpaid, None)];
    return Done;
  }

  /** The renewal cron: one invoice for every subscription due today whose effective plan is active. */
  method RunRenewals(db: BillingDb, plans: map<nat, Plan>, now: Time)
    modifies db`invoices
    ensures db.Snapshot() == BillRenewals(old(db.Snapshot()), plans, |old(db.subs)|, now)
  {
    for i := 0 to |db.subs|
      invariant db.Snapshot() == BillRenewals(old(db.Snapshot()), plans, i, now)
    {
      var sub := db.subs[i];
      if !DueToday(sub, now) {
        continue;
      }
      var effectivePlan := if sub.pendingPlan.Some? then sub.pendingPlan.value else sub.planId;
      var effectiveCycle := if sub.pendingCycle.Some? then sub.pendingCycle.value else sub.cycle;
      if effectivePlan !in plans {
        continue;
      }
      var periodStart := sub.nextRenewal.value;
      var periodEnd := AddCycle(periodStart, effectiveCycle);
      var _ := GenerateInvoice(db, i, effectivePlan, effectiveCycle, sub.org, periodStart, periodEnd);
    }
  }

  /** The expiry cron: a first loop moves overdue subscriptions to GRACE, a second one moves ended grace periods to EXPIRED. */
  method RunExpiry(db: BillingDb, now: Time, graceDays: int)
    modifies db`subs
    ensures |db.subs| == |old(db.subs)|
    ensures forall i :: 0 <= i < |db.subs| ==> db.subs[i] == ExpirySub(old(db.subs)[i], now, graceDays)
  {
    for i := 0 to |db.subs|
      invariant |db.subs| == |old(db.subs)|
      invariant forall k :: 0 <= k < |db.subs| ==>
                  db.subs[k] == if k < i then ToGrace(old(db.subs)[k], now, graceDays) else old(db.subs)[k]
    {
      var sub := db.subs[i];
      if sub.live && (sub.status == Trial || sub.status == Active) && sub.endDate.Some? && sub.endDate.value < now {
        db.subs := db.subs[i := sub.(status := Grace, graceEnds := Some(now + graceDays * MS_PER_DAY))];
      }
    }
    for i := 0 to |db.subs|
      invariant |db.subs| == |old(db.subs)|
      invariant forall k :: 0 <= k < |db.subs| ==>
                  db.subs[k] == if k < i then ExpirySub(old(db.subs)[k], now, graceDays) else ToGrace(old(db.subs)[k], now, graceDays)
    {
      var sub := db.subs[i];
      if sub.live && sub.status == Grace && sub.graceEnds.Some? && sub.graceEnds.value < now {
        db.subs := db.subs[i := sub.(status := Expired)];
      }
    }
  }

  method ChangePlan(db: BillingDb, plans: map<nat, Plan>, org: nat, newPlanId: nat, newCycle: BillingCycle, now: Time)
    returns (reply: Reply)
    modifies db
    ensures Outcome(db.Snapshot(), reply) == Billing.ChangePlan(old(db.Snapshot()), plans, org, newPlanId, newCycle, now)
  {
    var found := FindActive(db.subs, org);
    if found.None? {
      return SubscriptionNotFound;
    }
    var current := db.subs[found.value];
    if newPlanId !in plans || current.planId !in plans {
      return PlanNotFound;
    }
    var newPlan, currentPlan := plans[newPlanId], plans[current.planId];
    var sameTier, sameCycle := newPlan.tier == currentPlan.tier, newCycle == current.cycle;
    if sameTier && sameCycle {
      return SamePlanAndCycle;
    }
    var isTierUpgrade := newPlan.tier > currentPlan.tier;
    var isCycleUpgrade := sameTier && newCycle == Annual && current.cycle == Monthly;
    if !(isTierUpgrade || isCycleUpgrade || current.isTrial) {
      db.subs := db.subs[found.value := current.(pendingPlan := Some(newPlanId), pendingCycle := Some(newCycle))];
      return NextCycle;
    }
    db.subs := db.subs[found.value := current.(status := Cancelled, endDate := Some(now))];
    var periodEnd := AddCycle(now, newCycle);
    var saved := |db.subs|;
    db.subs := db.subs + [Sub(org, newPlanId, newCycle, Active, false, now, Some(periodEnd), Some(periodEnd), None, None, None, true)];
    reply := GenerateInvoice(db, saved, newPlanId, newCycle, org, now, periodEnd);
    if reply == Done {
      reply := Immediate;
    }
  }

  method CancelPendingChange(db: BillingDb, org: nat) returns (reply: Reply)
    modifies db`subs
    ensures Outcome(db.Snapshot(), reply) == Billing.CancelPendingChange(old(db.Snapshot()), org)
  {
    var found := FindActive(db.subs, org);
    if found.None? {
      return SubscriptionNotFound;
    }
    var current := db.subs[found.value];
    if current.pendingPlan.None? && current.pendingCycle.None? {
      return NothingPending;
    }
    db.subs := db.subs[found.value := current.(pendingPlan := None, pendingCycle := None)];
    return Done;
  }
}
