/** Payments under replay: which invoices are paid, and how often they renew their subscription. */
module PaymentLaws {
  import opened Prelude
  import opened Calendar
  import opened Billing

  // ---- counting -----------------------------------------------------------------------------------

  function SuccessCount(ps: seq<Payment>, v: nat): nat {
    if ps == [] then 0
    else SuccessCount(ps[..|ps| - 1], v) + if Succeeded(ps[|ps| - 1], v) then 1 else 0
  }

  predicate Succeeded(p: Payment, v: nat) {
    p.invoiceId == v && p.status == Success
  }

  function RenewalCount(renewals: seq<nat>, v: nat): nat {
    if renewals == [] then 0
    else RenewalCount(renewals[..|renewals| - 1], v) + if renewals[|renewals| - 1] == v then 1 else 0
  }

  lemma {:induction false} SuccessUpdate(ps: seq<Payment>, p: nat, pay: Payment, v: nat)
    requires p < |ps|
    ensures SuccessCount(ps[p := pay], v) ==
            SuccessCount(ps, v) + (if Succeeded(pay, v) then 1 else 0) - (if Succeeded(ps[p], v) then 1 else 0)
  {
    var n := |ps| - 1;
    if p == n {
      assert ps[p := pay][..n] == ps[..n];
    } else {
      assert ps[p := pay][..n] == ps[..n][p := pay];
      SuccessUpdate(ps[..n], p, pay, v);
    }
  }

  lemma {:induction false} SuccessPositive(ps: seq<Payment>, v: nat)
    ensures SuccessCount(ps, v) > 0 <==> exists i :: 0 <= i < |ps| && Succeeded(ps[i], v)
  {
    if ps != [] {
      var n := |ps| - 1;
      SuccessPositive(ps[..n], v);
      if i :| 0 <= i < n && Succeeded(ps[..n][i], v) {
        assert Succeeded(ps[i], v);
      }
      if i :| 0 <= i < |ps| && Succeeded(ps[i], v) {
        assert i < n ==> Succeeded(ps[..n][i], v);
      }
    }
  }

  lemma RenewalAppend(renewals: seq<nat>, w: nat, v: nat)
    ensures RenewalCount(renewals + [w], v) == RenewalCount(renewals, v) + if w == v then 1 else 0
  {
  }

  // ---- the invariant --------------------------------------------------------------------------------

  /** Foreign keys: a payment's invoice is its organization's, and an invoice's subscription exists. */
  ghost predicate KeysOk(st: State) {
    && (forall i :: 0 <= i < |st.payments| ==> HasInvoice(st, st.payments[i].invoiceId, st.payments[i].org))
    && (forall v :: 0 <= v < |st.invoices| ==> st.invoices[v].subId < |st.subs|)
    && (forall s :: 0 <= s < |st.subs| ==> st.subs[s].live)
  }

  /** An invoice is PAID exactly when it has a successful payment, and renewed at least once but never more often than that. */
  ghost predicate InvoiceOk(st: State, v: nat)
    requires v < |st.invoices|
  {
    && (st.invoices[v].status == Paid <==> SuccessCount(st.payments, v) > 0)
    && RenewalCount(st.renewals, v) <= SuccessCount(st.payments, v)
    && (st.invoices[v].status == Paid ==> RenewalCount(st.renewals, v) > 0)
  }

  ghost predicate Inv(st: State) {
    KeysOk(st) && forall v :: 0 <= v < |st.invoices| ==> InvoiceOk(st, v)
  }

  /** Inv says what it is for: a successful payment has a PAID invoice. */
  lemma SuccessMeansPaid(st: State, p: nat)
    requires Inv(st) && p < |st.payments| && st.payments[p].status == Success
    ensures st.payments[p].invoiceId < |st.invoices|
    ensures st.invoices[st.payments[p].invoiceId].status == Paid
  {
    var v := st.payments[p].invoiceId;
    assert HasInvoice(st, v, st.payments[p].org);
    assert Succeeded(st.payments[p], v);
    SuccessPositive(st.payments, v);
    assert InvoiceOk(st, v);
  }

  // ---- preservation ---------------------------------------------------------------------------------

  /** Marking a payment successful, paying its invoice and renewing keeps the invariant. */
  lemma SettleKeeps(st: State, p: nat, pay: Payment, now: Time)
    requires Inv(st) && p < |st.payments|
    requires st.payments[p].status != Success && pay.status == Success
    requires pay.invoiceId == st.payments[p].invoiceId && pay.org == st.payments[p].org
    ensures pay.invoiceId < |st.invoices|
    ensures var after := Settle(st.(payments := st.payments[p := pay]), pay.invoiceId, now);
            after.reply == Done && Inv(after.st) && after.st.renewals == st.renewals + [pay.invoiceId]
  {
    var v := pay.invoiceId;
    assert HasInvoice(st, v, pay.org);
    assert st.invoices[v].subId < |st.subs|;
    var after := Settle(st.(payments := st.payments[p := pay]), v, now).st;
    forall w | 0 <= w < |after.invoices|
      ensures InvoiceOk(after, w)
    {
      assert InvoiceOk(st, w);
      SuccessUpdate(st.payments, p, pay, w);
      RenewalAppend(st.renewals, v, w);
    }
    forall i | 0 <= i < |after.payments|
      ensures HasInvoice(after, after.payments[i].invoiceId, after.payments[i].org)
    {
      assert HasInvoice(st, st.payments[i].invoiceId, st.payments[i].org);
    }
  }

  /** Rewriting a payment without changing whether it is successful keeps the invariant. */
  lemma RestampKeeps(st: State, p: nat, pay: Payment)
    requires Inv(st) && p < |st.payments|
    requires pay.invoiceId == st.payments[p].invoiceId && pay.org == st.payments[p].org
    requires pay.status == Success <==> st.payments[p].status == Success
    ensures Inv(st.(payments := st.payments[p := pay]))
  {
    var after := st.(payments := st.payments[p := pay]);
    forall w | 0 <= w < |after.invoices|
      ensures InvoiceOk(after, w)
    {
      assert InvoiceOk(st, w);
      SuccessUpdate(st.payments, p, pay, w);
    }
    forall i | 0 <= i < |after.payments|
      ensures HasInvoice(after, after.payments[i].invoiceId, after.payments[i].org)
    {
      assert HasInvoice(st, st.payments[i].invoiceId, st.payments[i].org);
    }
  }

  lemma VerifyKeeps(st: State, signatureOk: bool, org: nat, orderId: nat, gatewayId: nat, now: Time)
    requires Inv(st)
    ensures Inv(Verify(st, signatureOk, org, orderId, gatewayId, now).st)
    ensures var r := Verify(st, signatureOk, org, orderId, gatewayId, now);
            if r.reply == Done
            then FindOrder(st.payments, orderId).Some? &&
                 r.st.renewals == st.renewals + [st.payments[FindOrder(st.payments, orderId).value].invoiceId]
            else r.st == st
  {
    var found := FindOrder(st.payments, orderId);
    if found.Some? {
      var p := found.value;
      var pay := st.payments[p];
      assert HasInvoice(st, pay.invoiceId, pay.org);
      if pay.status != Success {
        SettleKeeps(st, p, pay.(gatewayId := Some(gatewayId), status := Success, paidAt := Some(now)), now);
      }
    }
  }

  /** A success event keeps the invariant; it renews exactly when it reaches an invoice that is not paid yet. */
  lemma SuccessEventKeeps(st: State, e: Webhook, now: Time)
    requires Inv(st) && IsSuccess(e.kind)
    ensures Inv(HandleWebhook(st, e, now))
    ensures Target(st, e).Some? ==> st.payments[Target(st, e).value].invoiceId < |st.invoices|
    ensures HandleWebhook(st, e, now).renewals ==
            if Target(st, e).Some? && st.invoices[st.payments[Target(st, e).value].invoiceId].status != Paid
            then st.renewals + [st.payments[Target(st, e).value].invoiceId] else st.renewals
  {
    var t := Target(st, e);
    if t.Some? {
      var pay := st.payments[t.value];
      assert HasInvoice(st, pay.invoiceId, pay.org);
      var done := Stamp(pay, e).(status := Success, paidAt := Some(now));
      if st.invoices[pay.invoiceId].status != Paid {
        if pay.status == Success {
          SuccessMeansPaid(st, t.value);
        }
        SettleKeeps(st, t.value, done, now);
      } else if pay.status == Success {
        RestampKeeps(st, t.value, done);
      } else {
        AnotherSuccess(st, t.value, done);
      }
    }
  }

  /** A second payment of a paid invoice may succeed; it renews nothing. */
  lemma AnotherSuccess(st: State, p: nat, pay: Payment)
    requires Inv(st) && p < |st.payments|
    requires st.payments[p].status != Success && pay.status == Success
    requires pay.invoiceId == st.payments[p].invoiceId && pay.org == st.payments[p].org
    requires HasInvoice(st, pay.invoiceId, pay.org) && st.invoices[pay.invoiceId].status == Paid
    ensures Inv(st.(payments := st.payments[p := pay]))
  {
    var after := st.(payments := st.payments[p := pay]);
    forall w | 0 <= w < |after.invoices|
      ensures InvoiceOk(after, w)
    {
      assert InvoiceOk(st, w);
      SuccessUpdate(st.payments, p, pay, w);
    }
    forall i | 0 <= i < |after.payments|
      ensures HasInvoice(after, after.payments[i].invoiceId, after.payments[i].org)
    {
      assert HasInvoice(st, st.payments[i].invoiceId, st.payments[i].org);
    }
  }

  /** A failure event that is dropped or concerns an invoice that is not PAID. */
  ghost predicate FailureHarmless(st: State, e: Webhook) {
    e.kind.PaymentFailedEvent? && Target(st, e).Some? ==>
      var v := st.payments[Target(st, e).value].invoiceId;
      v < |st.invoices| && st.invoices[v].status != Paid
  }

  /** `payment.failed` keeps the invariant exactly when it is harmless: nothing in the code protects a paid invoice. */
  lemma FailureEventKeeps(st: State, e: Webhook, now: Time)
    requires Inv(st) && e.kind.PaymentFailedEvent?
    ensures Inv(HandleWebhook(st, e, now)) <==> FailureHarmless(st, e)
    ensures HandleWebhook(st, e, now).renewals == st.renewals
  {
    var t := Target(st, e);
    if t.Some? {
      var p := t.value;
      var pay := st.payments[p];
      var v := pay.invoiceId;
      assert HasInvoice(st, v, pay.org) && InvoiceOk(st, v);
      var after := HandleWebhook(st, e, now);
      if st.invoices[v].status == Paid {
        assert !InvoiceOk(after, v);
      } else {
        if pay.status == Success {
          SuccessMeansPaid(st, p);
        }
        RestampKeeps(st, p, Stamp(pay, e).(status := Failure));
        var mid := st.(payments := after.payments);
        forall w | 0 <= w < |after.invoices|
          ensures InvoiceOk(after, w)
        {
          assert InvoiceOk(mid, w);
        }
        forall i | 0 <= i < |after.payments|
          ensures HasInvoice(after, after.payments[i].invoiceId, after.payments[i].org)
        {
          assert HasInvoice(mid, after.payments[i].invoiceId, after.payments[i].org);
        }
      }
    }
  }

  lemma InitiateKeeps(st: State, v: nat, org: nat, orderId: Option<nat>, linkId: Option<nat>)
    requires Inv(st)
    ensures Inv(Initiate(st, v, org, orderId, linkId).st)
  {
    var after := Initiate(st, v, org, orderId, linkId).st;
    if after != st {
      assert after.payments[..|st.payments|] == st.payments;
      forall w | 0 <= w < |after.invoices|
        ensures InvoiceOk(after, w)
      {
        assert InvoiceOk(st, w);
      }
      forall i | 0 <= i < |after.payments|
        ensures HasInvoice(after, after.payments[i].invoiceId, after.payments[i].org)
      {
        if i < |st.payments| {
          assert HasInvoice(st, st.payments[i].invoiceId, st.payments[i].org);
        }
      }
    }
  }

  // ---- runs -------------------------------------------------------------------------------------------

  datatype Event =
    | DoVerify(signatureOk: bool, org: nat, orderId: nat, gatewayId: nat)
    | DoWebhook(e: Webhook)
    | DoInitiate(v: nat, payer: nat, newOrder: Option<nat>, newLink: Option<nat>)

  datatype Timed = Timed(now: Time, event: Event)

  function Step(st: State, t: Timed): State {
    match t.event
    case DoVerify(ok, org, orderId, gatewayId) => Verify(st, ok, org, orderId, gatewayId, t.now).st
    case DoWebhook(e) => HandleWebhook(st, e, t.now)
    case DoInitiate(v, org, orderId, linkId) => Initiate(st, v, org, orderId, linkId).st
  }

  function Run(st: State, events: seq<Timed>): State {
    if events == [] then st else Step(Run(st, events[..|events| - 1]), events[|events| - 1])
  }

  /** Every failure event arrives for an invoice that is not paid at that moment, or is dropped. */
  ghost predicate FailuresHarmless(st: State, events: seq<Timed>) {
    forall i :: 0 <= i < |events| && events[i].event.DoWebhook? ==> FailureHarmless(Run(st, events[..i]), events[i].event.e)
  }

  lemma StepKeeps(st: State, t: Timed)
    requires Inv(st)
    requires t.event.DoWebhook? ==> FailureHarmless(st, t.event.e)
    ensures Inv(Step(st, t))
  {
    match t.event
    case DoVerify(ok, org, orderId, gatewayId) => VerifyKeeps(st, ok, org, orderId, gatewayId, t.now);
    case DoWebhook(e) =>
      if IsSuccess(e.kind) {
        SuccessEventKeeps(st, e, t.now);
      } else if e.kind.PaymentFailedEvent? {
        FailureEventKeeps(st, e, t.now);
      }
    case DoInitiate(v, org, orderId, linkId) => InitiateKeeps(st, v, org, orderId, linkId);
  }

  lemma {:induction false} RunKeeps(st: State, events: seq<Timed>)
    requires Inv(st) && FailuresHarmless(st, events)
    ensures Inv(Run(st, events))
  {
    if events != [] {
      var n := |events| - 1;
      assert forall i :: 0 <= i <= n ==> events[..n][..i] == events[..i];
      assert forall i :: 0 <= i < n ==> events[..n][i] == events[i];
      RunKeeps(st, events[..n]);
      StepKeeps(Run(st, events[..n]), events[n]);
    }
  }

  /**
   In every run of orders, verifications and webhooks in which failures only arrive for unpaid invoices,
   a successful payment has a PAID invoice, and an invoice renews its subscription at most once for each
   of its successful payments and at least once when it is PAID.
   */
  lemma EveryRun(st: State, events: seq<Timed>, p: nat, v: nat)
    requires Inv(st) && FailuresHarmless(st, events)
    requires var after := Run(st, events); p < |after.payments| && v < |after.invoices|
    ensures var after := Run(st, events);
            && (after.payments[p].status == Success ==>
                  after.payments[p].invoiceId < |after.invoices| && after.invoices[after.payments[p].invoiceId].status == Paid)
            && RenewalCount(after.renewals, v) <= SuccessCount(after.payments, v)
            && (after.invoices[v].status == Paid ==> RenewalCount(after.renewals, v) >= 1)
  {
    RunKeeps(st, events);
    var after := Run(st, events);
    assert InvoiceOk(after, v);
    if after.payments[p].status == Success {
      SuccessMeansPaid(after, p);
    }
  }

  /** A paid invoice stays paid, and no webhook that reaches it renews again, however late it is replayed. */
  lemma PaidForGood(st: State, t: Timed, v: nat)
    requires Inv(st) && v < |st.invoices| && st.invoices[v].status == Paid
    requires t.event.DoWebhook? ==> FailureHarmless(st, t.event.e)
    ensures v < |Step(st, t).invoices| && Step(st, t).invoices[v].status == Paid
    ensures t.event.DoWebhook? ==> RenewalCount(Step(st, t).renewals, v) == RenewalCount(st.renewals, v)
  {
    if t.event.DoWebhook? {
      var e := t.event.e;
      if IsSuccess(e.kind) {
        SuccessEventKeeps(st, e, t.now);
        if Target(st, e).Some? {
          RenewalAppend(st.renewals, st.payments[Target(st, e).value].invoiceId, v);
        }
      } else if e.kind.PaymentFailedEvent? {
        FailureEventKeeps(st, e, t.now);
      }
    }
  }

  // ---- replay and order -------------------------------------------------------------------------------

  /** Delivering a success event twice renews no more than delivering it once. */
  lemma SuccessReplay(st: State, e: Webhook, t1: Time, t2: Time)
    requires Inv(st) && IsSuccess(e.kind)
    ensures HandleWebhook(HandleWebhook(st, e, t1), e, t2).renewals == HandleWebhook(st, e, t1).renewals
  {
    var once := HandleWebhook(st, e, t1);
    SuccessEventKeeps(st, e, t1);
    SuccessEventKeeps(once, e, t2);
    var first, again := Target(st, e), Target(once, e);
    if first.Some? && again.Some? {
      SameTarget(st, e, t1);
      var p := first.value;
      assert once.payments[p].status == Success;
      SuccessMeansPaid(once, p);
    }
  }

  /** A replayed success event resolves to the payment it resolved to the first time, if to any. */
  lemma SameTarget(st: State, e: Webhook, now: Time)
    requires IsSuccess(e.kind) && Target(st, e).Some?
    requires Target(HandleWebhook(st, e, now), e).Some?
    ensures Target(HandleWebhook(st, e, now), e) == Target(st, e)
    ensures HandleWebhook(st, e, now).payments[Target(st, e).value].status == Success
  {
  }

  /** The capture event of a checkout payment, as the gateway sends it besides the browser's verification. */
  function Captured(orderId: nat, gatewayId: nat): Webhook {
    Webhook(PaymentCaptured, Some(gatewayId), Some(orderId), None)
  }

  /**
   Verification and capture of one payment of an unpaid invoice may come in either order: the second one
   changes nothing at all, and the two together renew exactly once.
   */
  lemma VerifyAndWebhookCommute(st: State, orderId: nat, gatewayId: nat, t1: Time, t2: Time)
    requires Inv(st)
    requires FindOrder(st.payments, orderId).Some?
    requires var pay := st.payments[FindOrder(st.payments, orderId).value];
             && pay.status != Success
             && pay.invoiceId < |st.invoices| && st.invoices[pay.invoiceId].status != Paid
    requires forall i :: 0 <= i < |st.payments| ==> st.payments[i].gatewayId != Some(gatewayId)
    ensures var pay := st.payments[FindOrder(st.payments, orderId).value];
            var e := Captured(orderId, gatewayId);
            var verified := Verify(st, true, pay.org, orderId, gatewayId, t1).st;
            var captured := HandleWebhook(st, e, t1);
            && HandleWebhook(verified, e, t2) == verified
            && Verify(captured, true, pay.org, orderId, gatewayId, t2).st == captured
            && verified == captured
            && verified.renewals == st.renewals + [pay.invoiceId]
  {
    var p := FindOrder(st.payments, orderId).value;
    var pay := st.payments[p];
    var e := Captured(orderId, gatewayId);
    assert HasInvoice(st, pay.invoiceId, pay.org);
    assert Target(st, e) == Some(p);
    var done := pay.(gatewayId := Some(gatewayId), status := Success, paidAt := Some(t1));
    SettleKeeps(st, p, done, t1);
    var verified := Verify(st, true, pay.org, orderId, gatewayId, t1).st;
    assert verified == Settle(st.(payments := st.payments[p := done]), pay.invoiceId, t1).st;
    assert verified.payments[p] == done;
    assert forall i :: 0 <= i < |st.payments| ==> verified.payments[i].orderId == st.payments[i].orderId;
    assert FindOrder(verified.payments, orderId) == Some(p);
    assert AlreadySucceeded(verified.payments, Some(gatewayId));
  }

  /**
   Verification, unlike the webhook, does not look at the invoice: verifying a payment that has not
   succeeded renews, even when its invoice has been paid through another payment.
   */
  lemma VerifyAlwaysRenews(st: State, orderId: nat, gatewayId: nat, now: Time)
    requires Inv(st) && FindOrder(st.payments, orderId).Some?
    requires !GatewayIdTaken(st.payments, FindOrder(st.payments, orderId).value, Some(gatewayId))
    ensures var pay := st.payments[FindOrder(st.payments, orderId).value];
            var after := Verify(st, true, pay.org, orderId, gatewayId, now).st;
            RenewalCount(after.renewals, pay.invoiceId) ==
            RenewalCount(st.renewals, pay.invoiceId) + if pay.status == Success then 0 else 1
  {
    var pay := st.payments[FindOrder(st.payments, orderId).value];
    assert HasInvoice(st, pay.invoiceId, pay.org);
    VerifyKeeps(st, true, pay.org, orderId, gatewayId, now);
    RenewalAppend(st.renewals, pay.invoiceId, pay.invoiceId);
    if pay.status != Success {
      SettleKeeps(st, FindOrder(st.payments, orderId).value,
                  pay.(gatewayId := Some(gatewayId), status := Success, paidAt := Some(now)), now);
    }
  }

  /** One subscription, one invoice and one checkout payment of it for order 1. */
  ghost predicate Single(st: State, paid: InvoiceStatus, gatewayId: Option<nat>, status: PaymentStatus) {
    && |st.subs| == 1 && st.subs[0].live
    && |st.invoices| == 1 && st.invoices[0].subId == 0 && st.invoices[0].status == paid
    && |st.payments| == 1
    && var pay := st.payments[0];
       && pay.invoiceId == 0 && pay.org == st.invoices[0].org && pay.orderId == Some(1)
       && pay.gatewayId == gatewayId && pay.status == status
  }

  lemma OnlyPayment(st: State, paid: InvoiceStatus, gatewayId: Option<nat>, status: PaymentStatus)
    requires Single(st, paid, gatewayId, status)
    ensures SuccessCount(st.payments, 0) == if status == Success then 1 else 0
    ensures FindOrder(st.payments, 1) == Some(0)
  {
  }

  lemma CaptureRenews(st: State, paid: InvoiceStatus, gatewayId: Option<nat>, status: PaymentStatus, now: Time)
    requires Single(st, paid, gatewayId, status) && paid != Paid && status != Success
    ensures var after := HandleWebhook(st, Captured(1, 11), now);
            Single(after, Paid, Some(11), Success) && after.renewals == st.renewals + [0]
  {
    OnlyPayment(st, paid, gatewayId, status);
    assert Target(st, Captured(1, 11)) == Some(0);
  }

  lemma FailureUndoes(st: State, now: Time)
    requires Single(st, Paid, Some(11), Success)
    ensures var after := HandleWebhook(st, Webhook(PaymentFailedEvent, Some(12), Some(1), None), now);
            Single(after, PaymentFailed, Some(12), Failure) && after.renewals == st.renewals
  {
  }

  lemma SingleInv(st: State, paid: InvoiceStatus, gatewayId: Option<nat>, status: PaymentStatus)
    requires Single(st, paid, gatewayId, status)
    ensures Inv(st) <==>
            && (paid == Paid <==> status == Success)
            && RenewalCount(st.renewals, 0) <= (if status == Success then 1 else 0)
            && (paid == Paid ==> RenewalCount(st.renewals, 0) > 0)
  {
    OnlyPayment(st, paid, gatewayId, status);
    assert Inv(st) <==> InvoiceOk(st, 0);
  }

  /**
   What a late failure costs: a payment is captured, a failure of an earlier attempt on the same order
   arrives, and the capture is replayed. One successful payment has then renewed the subscription twice.
   */
  lemma LateFailureRenewsTwice(st: State, now: Time)
    requires Single(st, Unpaid, None, Initiated) && st.renewals == []
    ensures var captured := HandleWebhook(st, Captured(1, 11), now);
            var failed := HandleWebhook(captured, Webhook(PaymentFailedEvent, Some(12), Some(1), None), now);
            var replayed := HandleWebhook(failed, Captured(1, 11), now);
            && Inv(st) && Inv(captured) && !Inv(failed)
            && replayed.renewals == [0, 0] && SuccessCount(replayed.payments, 0) == 1
  {
    CaptureRenews(st, Unpaid, None, Initiated, now);
    var captured := HandleWebhook(st, Captured(1, 11), now);
    FailureUndoes(captured, now);
    var failed := HandleWebhook(captured, Webhook(PaymentFailedEvent, Some(12), Some(1), None), now);
    CaptureRenews(failed, PaymentFailed, Some(12), Failure, now);
    LateFailureCounts(st, captured, failed, HandleWebhook(failed, Captured(1, 11), now));
  }

  lemma LateFailureCounts(st: State, captured: State, failed: State, replayed: State)
    requires Single(st, Unpaid, None, Initiated) && st.renewals == []
    requires Single(captured, Paid, Some(11), Success) && captured.renewals == st.renewals + [0]
    requires Single(failed, PaymentFailed, Some(12), Failure) && failed.renewals == captured.renewals
    requires Single(replayed, Paid, Some(11), Success) && replayed.renewals == failed.renewals + [0]
    ensures Inv(st) && Inv(captured) && !Inv(failed)
    ensures replayed.renewals == [0, 0] && SuccessCount(replayed.payments, 0) == 1
  {
    RenewalAppend([], 0, 0);
    SingleInv(st, Unpaid, None, Initiated);
    SingleInv(captured, Paid, Some(11), Success);
    SingleInv(failed, PaymentFailed, Some(12), Failure);
    OnlyPayment(replayed, Paid, Some(11), Success);
  }
}
