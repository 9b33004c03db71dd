/**
 The billing tables and what payments, plan changes and the billing crons make of them, on values.
 Rows are numbered in the order of their insertion.
 */
module Billing {
  import opened Prelude
  import opened Calendar
  import opened InvoiceNumbers

  datatype SubStatus = Trial | Active | Grace | Expired | Cancelled

  /** `live` is the row status ACTIVE; a grace end may lie before 1970 only under a negative grace period. */
  datatype Sub = Sub(
    org: nat,
    planId: nat,
    cycle: BillingCycle,
    status: SubStatus,
    isTrial: bool,
    startDate: Time,
    endDate: Option<Time>,
    nextRenewal: Option<Time>,
    pendingPlan: Option<nat>,
    pendingCycle: Option<BillingCycle>,
    graceEnds: Option<int>,
    live: bool)

  datatype InvoiceStatus = Unpaid | Paid | PaymentFailed

  datatype Invoice = Invoice(
    number: string,
    org: nat,
    subId: nat,
    planId: nat,
    cycle: BillingCycle,
    periodStart: Time,
    periodEnd: Time,
    status: InvoiceStatus,
    paidAt: Option<Time>)

  datatype PaymentStatus = Initiated | Success | Failure

  datatype Payment = Payment(
    invoiceId: nat,
    org: nat,
    orderId: Option<nat>,
    linkId: Option<nat>,
    gatewayId: Option<nat>,
    status: PaymentStatus,
    paidAt: Option<Time>)

  /** `renewals` records the invoice of every renewal that was applied, in order. */
  datatype State = State(subs: seq<Sub>, invoices: seq<Invoice>, payments: seq<Payment>, renewals: seq<nat>)

  datatype Plan = Plan(tier: int)

  datatype Reply =
    | Done | AlreadyDone | Ignored | NextCycle | Immediate
    | BadSignature | PaymentNotFound | WrongOrganization | InvoiceNotFound | SubscriptionNotFound
    | DuplicateGatewayId | AlreadyPaid | PlanNotFound | SamePlanAndCycle | NothingPending | DuplicateNumber

  datatype Outcome = Outcome(st: State, reply: Reply)

  // ---- invoices -----------------------------------------------------------------------------------

  /** The rows whose number a prefix search matches. */
  function CountPrefix(invoices: seq<Invoice>, prefix: string): nat {
    if invoices == [] then 0
    else CountPrefix(invoices[..|invoices| - 1], prefix) + if StartsWith(invoices[|invoices| - 1].number, prefix) then 1 else 0
  }

  predicate NumberTaken(invoices: seq<Invoice>, number: string) {
    exists i :: 0 <= i < |invoices| && invoices[i].number == number
  }

  function NextNumber(invoices: seq<Invoice>, periodStart: Time): string {
    var key := MonthKey(periodStart);
    InvoiceNumber(key, CountPrefix(invoices, Prefix(key)) + 1)
  }

  /** The unique index on the number refuses a number that is already taken. */
  function Generate(st: State, subId: nat, planId: nat, cycle: BillingCycle, org: nat, start: Time,
                    end: Time): Outcome {
    var number := NextNumber(st.invoices, start);
    if NumberTaken(st.invoices, number) then Outcome(st, DuplicateNumber)
    else Outcome(st.(invoices := st.invoices + [Invoice(number, org, subId, planId, cycle, start, end, Unpaid, None)]), Done)
  }

  // ---- renewal ------------------------------------------------------------------------------------

  /** The date a renewal counts from: the end of the running period, or now if that has passed. */
  function RenewalBase(sub: Sub, now: Time): Time {
    if sub.endDate.Some? && sub.endDate.value > now then sub.endDate.value else now
  }

  function RenewSub(sub: Sub, inv: Invoice, now: Time): Sub {
    var next := AddCycle(RenewalBase(sub, now), inv.cycle);
    var planApplies := sub.pendingPlan == Some(inv.planId);
    var cycleApplies := sub.pendingCycle == Some(inv.cycle);
    sub.(status := Active,
         isTrial := false,
         graceEnds := None,
         endDate := Some(next),
         nextRenewal := Some(next),
         planId := if planApplies then inv.planId else sub.planId,
         pendingPlan := if planApplies then None else sub.pendingPlan,
         cycle := if cycleApplies then inv.cycle else sub.cycle,
         pendingCycle := if cycleApplies then None else sub.pendingCycle)
  }

  /** A subscription that is gone makes the renewal throw after the invoice has been marked paid. */
  function Renew(st: State, v: nat, now: Time): Outcome
    requires v < |st.invoices|
  {
    var inv := st.invoices[v];
    if inv.subId >= |st.subs| || !st.subs[inv.subId].live then Outcome(st, SubscriptionNotFound)
    else Outcome(st.(subs := st.subs[inv.subId := RenewSub(st.subs[inv.subId], inv, now)],
                     renewals := st.renewals + [v]), Done)
  }

  function MarkPaid(st: State, v: nat, now: Time): State
    requires v < |st.invoices|
  {
    st.(invoices := st.invoices[v := st.invoices[v].(status := Paid, paidAt := Some(now))])
  }

  function Settle(st: State, v: nat, now: Time): Outcome
    requires v < |st.invoices|
  {
    Renew(MarkPaid(st, v, now), v, now)
  }

  // ---- payments -----------------------------------------------------------------------------------

  function FindOrder(ps: seq<Payment>, orderId: nat): (r: Option<nat>)
    ensures r.Some? ==> r.value < |ps| && ps[r.value].orderId == Some(orderId)
    ensures r.Some? ==> forall i :: 0 <= i < r.value ==> ps[i].orderId != Some(orderId)
    ensures r.None? ==> forall i :: 0 <= i < |ps| ==> ps[i].orderId != Some(orderId)
  {
    if ps == [] then None
    else
      var earlier := FindOrder(ps[..|ps| - 1], orderId);
      if earlier.Some? then earlier
      else if ps[|ps| - 1].orderId == Some(orderId) then Some(|ps| - 1) else None
  }

  function FindLink(ps: seq<Payment>, linkId: nat): (r: Option<nat>)
    ensures r.Some? ==> r.value < |ps| && ps[r.value].linkId == Some(linkId)
    ensures r.Some? ==> forall i :: 0 <= i < r.value ==> ps[i].linkId != Some(linkId)
    ensures r.None? ==> forall i :: 0 <= i < |ps| ==> ps[i].linkId != Some(linkId)
  {
    if ps == [] then None
    else
      var earlier := FindLink(ps[..|ps| - 1], linkId);
      if earlier.Some? then earlier
      else if ps[|ps| - 1].linkId == Some(linkId) then Some(|ps| - 1) else None
  }

  /** Some other row already carries this gateway payment id, which is unique. */
  predicate GatewayIdTaken(ps: seq<Payment>, p: nat, gatewayId: Option<nat>) {
    gatewayId.Some? && exists i :: 0 <= i < |ps| && i != p && ps[i].gatewayId == gatewayId
  }

  predicate AlreadySucceeded(ps: seq<Payment>, gatewayId: Option<nat>) {
    gatewayId.Some? && exists i :: 0 <= i < |ps| && ps[i].gatewayId == gatewayId && ps[i].status == Success
  }

  /** An invoice is looked up together with its organization. */
  predicate HasInvoice(st: State, v: nat, org: nat) {
    v < |st.invoices| && st.invoices[v].org == org
  }

  function Verify(st: State, signatureOk: bool, org: nat, orderId: nat, gatewayId: nat, now: Time): Outcome {
    if !signatureOk then Outcome(st, BadSignature)
    else
      match FindOrder(st.payments, orderId)
      case None => Outcome(st, PaymentNotFound)
      case Some(p) =>
        var pay := st.payments[p];
        if pay.org != org then Outcome(st, WrongOrganization)
        else if pay.status == Success then Outcome(st, AlreadyDone)
        else if GatewayIdTaken(st.payments, p, Some(gatewayId)) then Outcome(st, DuplicateGatewayId)
        else
          var saved := st.(payments := st.payments[p := pay.(gatewayId := Some(gatewayId), status := Success, paidAt := Some(now))]);
          if !HasInvoice(saved, pay.invoiceId, org) then Outcome(saved, InvoiceNotFound)
          else Settle(saved, pay.invoiceId, now)
  }

  datatype EventKind = PaymentCaptured | OrderPaid | LinkPaid | PaymentFailedEvent | OtherEvent

  /** The ids a webhook carries: of the payment, of its order, of the payment link. */
  datatype Webhook = Webhook(kind: EventKind, gatewayId: Option<nat>, orderId: Option<nat>, linkId: Option<nat>)

  predicate IsSuccess(kind: EventKind) {
    kind.PaymentCaptured? || kind.OrderPaid? || kind.LinkPaid?
  }

  /** By link first, falling back to the order. */
  function ResolvePayment(ps: seq<Payment>, e: Webhook): (r: Option<nat>)
    ensures r.Some? ==> r.value < |ps|
  {
    var byLink := if e.linkId.Some? then FindLink(ps, e.linkId.value) else None;
    if byLink.Some? then byLink
    else if e.orderId.Some? then FindOrder(ps, e.orderId.value) else None
  }

  /** The payment an event writes to, unless the event is skipped, unmatched or refused by the unique index. */
  function Target(st: State, e: Webhook): (r: Option<nat>)
    ensures r.Some? ==> r.value < |st.payments|
  {
    if AlreadySucceeded(st.payments, e.gatewayId) then None
    else
      var p := ResolvePayment(st.payments, e);
      if p.Some? && GatewayIdTaken(st.payments, p.value, e.gatewayId) then None else p
  }

  function Stamp(pay: Payment, e: Webhook): Payment {
    pay.(gatewayId := if e.gatewayId.Some? then e.gatewayId else pay.gatewayId,
         linkId := if e.linkId.Some? then e.linkId else pay.linkId)
  }

  function HandleWebhook(st: State, e: Webhook, now: Time): State {
    match Target(st, e)
    case None => st
    case Some(p) =>
      var pay := st.payments[p];
      if IsSuccess(e.kind) then
        var saved := st.(payments := st.payments[p := Stamp(pay, e).(status := Success, paidAt := Some(now))]);
        if HasInvoice(saved, pay.invoiceId, pay.org) && saved.invoices[pay.invoiceId].status != Paid
        then Settle(saved, pay.invoiceId, now).st
        else saved
      else if e.kind.PaymentFailedEvent? then
        var saved := st.(payments := st.payments[p := Stamp(pay, e).(status := Failure)]);
        if HasInvoice(saved, pay.invoiceId, pay.org)
        then saved.(invoices := saved.invoices[pay.invoiceId := saved.invoices[pay.invoiceId].(status := PaymentFailed)])
        else saved
      else st
  }

  /** A checkout order, or a payment link, for an invoice that is not paid yet. */
  function Initiate(st: State, v: nat, org: nat, orderId: Option<nat>, linkId: Option<nat>): Outcome {
    if !HasInvoice(st, v, org) then Outcome(st, InvoiceNotFound)
    else if st.invoices[v].status == Paid then Outcome(st, AlreadyPaid)
    else Outcome(st.(payments := st.payments + [Payment(v, org, orderId, linkId, None, Initiated, None)]), Done)
  }

  // ---- plan changes -------------------------------------------------------------------------------

  /** The organization's newest subscription that is not cancelled. */
  function FindActive(subs: seq<Sub>, org: nat): (r: Option<nat>)
    ensures r.Some? ==> r.value < |subs| && subs[r.value].org == org && subs[r.value].live && subs[r.value].status != Cancelled
    ensures forall i :: (if r.Some? then r.value + 1 else 0) <= i < |subs| ==>
              subs[i].org != org || !subs[i].live || subs[i].status == Cancelled
  {
    if subs == [] then None
    else
      var last := subs[|subs| - 1];
      if last.org == org && last.live && last.status != Cancelled then Some(|subs| - 1)
      else FindActive(subs[..|subs| - 1], org)
  }

  predicate IsUpgrade(current: Sub, currentPlan: Plan, newPlan: Plan, newCycle: BillingCycle) {
    || newPlan.tier > currentPlan.tier
    || (newPlan.tier == currentPlan.tier && newCycle == Annual && current.cycle == Monthly)
    || current.isTrial
  }

  /** `plans` are the active plans. */
  function ChangePlan(st: State, plans: map<nat, Plan>, org: nat, newPlanId: nat, newCycle: BillingCycle,
                      now: Time): Outcome {
    match FindActive(st.subs, org)
    case None => Outcome(st, SubscriptionNotFound)
    case Some(i) =>
      var current := st.subs[i];
      if newPlanId !in plans || current.planId !in plans then Outcome(st, PlanNotFound)
      else
        var newPlan, currentPlan := plans[newPlanId], plans[current.planId];
        if newPlan.tier == currentPlan.tier && newCycle == current.cycle then Outcome(st, SamePlanAndCycle)
        else if !IsUpgrade(current, currentPlan, newPlan, newCycle) then
          Outcome(st.(subs := st.subs[i := current.(pendingPlan := Some(newPlanId), pendingCycle := Some(newCycle))]), NextCycle)
        else
          var end := AddCycle(now, newCycle);
          var closed := st.subs[i := current.(status := Cancelled, endDate := Some(now))];
          var started := Sub(org, newPlanId, newCycle, Active, false, now, Some(end), Some(end), None, None, None, true);
          var moved := st.(subs := closed + [started]);
          var billed := Generate(moved, |closed|, newPlanId, newCycle, org, now, end);
          Outcome(billed.st, if billed.reply == Done then Immediate else billed.reply)
  }

  function CancelPendingChange(st: State, org: nat): Outcome {
    match FindActive(st.subs, org)
    case None => Outcome(st, SubscriptionNotFound)
    case Some(i) =>
      var current := st.subs[i];
      if current.pendingPlan.None? && current.pendingCycle.None? then Outcome(st, NothingPending)
      else Outcome(st.(subs := st.subs[i := current.(pendingPlan := None, pendingCycle := None)]), Done)
  }

  // ---- the renewal cron ---------------------------------------------------------------------------

  predicate DueToday(sub: Sub, now: Time) {
    sub.live && sub.status == Active && sub.nextRenewal.Some? && DayOf(sub.nextRenewal.value) == DayOf(now)
  }

  function EffectivePlan(sub: Sub): nat {
    OrElse(sub.pendingPlan, sub.planId)
  }

  function EffectiveCycle(sub: Sub): BillingCycle {
    OrElse(sub.pendingCycle, sub.cycle)
  }

  /** The cron's turn for one subscription; an invoice that cannot be saved is logged and skipped. */
  function BillRenewal(st: State, plans: map<nat, Plan>, i: nat, now: Time): State
    requires i < |st.subs|
  {
    var sub := st.subs[i];
    if !DueToday(sub, now) || EffectivePlan(sub) !in plans then st
    else
      var start := sub.nextRenewal.value;
      Generate(st, i, EffectivePlan(sub), EffectiveCycle(sub), sub.org, start, AddCycle(start, EffectiveCycle(sub))).st
  }

  /** The turns of the first `n` subscriptions. */
  function BillRenewals(st: State, plans: map<nat, Plan>, n: nat, now: Time): (r: State)
    requires n <= |st.subs|
    ensures r.subs == st.subs
  {
    if n == 0 then st else BillRenewal(BillRenewals(st, plans, n - 1, now), plans, n - 1, now)
  }

  // ---- the expiry cron ----------------------------------------------------------------------------

  predicate Overdue(sub: Sub, now: Time) {
    sub.live && (sub.status == Trial || sub.status == Active) && sub.endDate.Some? && sub.endDate.value < now
  }

  function ToGrace(sub: Sub, now: Time, graceDays: int): Sub {
    if Overdue(sub, now) then sub.(status := Grace, graceEnds := Some(now + graceDays * MS_PER_DAY)) else sub
  }

  function ToExpired(sub: Sub, now: Time): Sub {
    if sub.live && sub.status == Grace && sub.graceEnds.Some? && sub.graceEnds.value < now then sub.(status := Expired) else sub
  }

  /** Both passes of one run, for one subscription. */
  function ExpirySub(sub: Sub, now: Time, graceDays: int): Sub {
    ToExpired(ToGrace(sub, now, graceDays), now)
  }
}
