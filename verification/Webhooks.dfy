/** Payment-gateway webhooks: deduplicated deliveries, amount matching, one activation. */
module Webhooks {
  import opened Values

  /** `amount` in paise; strings compare as ids. */
  datatype Payment = Payment(
    orderId: Option<string>, gatewayPaymentId: Option<string>, status: string, amount: int,
    leadId: Option<nat>, projectId: Option<nat>, paidAt: Option<int>, refundAmount: Option<int>)

  datatype Lead = Lead(stage: int, furthest: int, projectId: Option<nat>, updatedAt: int)

  datatype Project = Project(signedOff: bool, bookingPaid: bool, activatedAt: Option<int>)

  datatype Moved = Moved(lead: nat, from: int, at: int)

  /** Everything a callback may change besides the ledger of seen events. */
  datatype Business = Business(payments: seq<Payment>, leads: seq<Lead>, projects: seq<Project>, history: seq<Moved>)

  datatype State = State(biz: Business, ledger: set<string>)

  /** A verified callback body. `None` order, payment id or amount: the entity lacks it. */
  datatype Event =
    | Captured(orderId: Option<string>, gatewayPaymentId: Option<string>, amount: Option<int>)
    | Refunded(paymentId: Option<string>, refund: int)
    | Ignored

  datatype Outcome = Done | Rejected

  // --------------------------------------------------------------------- specification

  function FindOrder(payments: seq<Payment>, order: string): (r: Option<nat>)
    ensures r.Some? ==> r.value < |payments| && payments[r.value].orderId == Some(order)
    ensures forall k | 0 <= k < (if r.Some? then r.value else |payments|) :: payments[k].orderId != Some(order)
  {
    if payments == [] then None
    else
      var n := |payments| - 1;
      match FindOrder(payments[..n], order)
      case Some(i) => Some(i)
      case None => if payments[n].orderId == Some(order) then Some(n) else None
  }

  function FindPayment(payments: seq<Payment>, id: string): (r: Option<nat>)
    ensures r.Some? ==> r.value < |payments| && payments[r.value].gatewayPaymentId == Some(id)
    ensures forall k | 0 <= k < (if r.Some? then r.value else |payments|) :: payments[k].gatewayPaymentId != Some(id)
  {
    if payments == [] then None
    else
      var n := |payments| - 1;
      match FindPayment(payments[..n], id)
      case Some(i) => Some(i)
      case None => if payments[n].gatewayPaymentId == Some(id) then Some(n) else None
  }

  function LeadOfProject(leads: seq<Lead>, project: nat): (r: Option<nat>)
    ensures r.Some? ==> r.value < |leads| && leads[r.value].projectId == Some(project)
    ensures forall k | 0 <= k < (if r.Some? then r.value else |leads|) :: leads[k].projectId != Some(project)
  {
    if leads == [] then None
    else
      var n := |leads| - 1;
      match LeadOfProject(leads[..n], project)
      case Some(i) => Some(i)
      case None => if leads[n].projectId == Some(project) then Some(n) else None
  }

  /** The lead a payment belongs to: named outright, else through its project. */
  function LeadOf(b: Business, p: Payment): (r: Option<nat>)
    ensures r.Some? ==> r.value < |b.leads|
  {
    match p.leadId
    case Some(l) => if l < |b.leads| then Some(l) else None
    case None => if p.projectId.Some? then LeadOfProject(b.leads, p.projectId.value) else None
  }

  function ActivateProject(projects: seq<Project>, p: Option<nat>, ts: int): seq<Project> {
    if p.Some? && p.value < |projects| then projects[p.value := Project(true, true, Some(ts))] else projects
  }

  /** The shared tail of a received payment. */
  function Activated(b: Business, p: Payment, ts: int): Business {
    var b1 := b.(projects := ActivateProject(b.projects, p.projectId, ts));
    match LeadOf(b, p)
    case None => b1
    case Some(l) =>
      var lead := b.leads[l];
      if lead.stage < 4 then
        var furthest := if lead.furthest > 4 then lead.furthest else 4;
        b1.(leads := b.leads[l := lead.(stage := 4, furthest := furthest, updatedAt := ts)],
            history := b.history + [Moved(l, lead.stage, ts)])
      else b1.(leads := b.leads[l := lead.(updatedAt := ts)])
  }

  /** The captured amount as compared: a missing or zero one counts as -1. */
  function GotPaise(amount: Option<int>): int {
    if amount == None || amount.value == 0 then -1 else amount.value
  }

  function Capture(b: Business, e: Event, ts: int): (Business, Outcome)
    requires e.Captured?
  {
    var i := if e.orderId.Some? && e.orderId.value != "" then FindOrder(b.payments, e.orderId.value) else None;
    if i == None then (b, Done)
    else
      var rec := b.payments[i.value];
      if rec.status == "verified" then (b, Done)
      else if rec.amount != GotPaise(e.amount) then (b, Rejected)
      else
        var rec' := rec.(status := "verified", gatewayPaymentId := e.gatewayPaymentId, paidAt := Some(ts));
        (Activated(b.(payments := b.payments[i.value := rec']), rec', ts), Done)
  }

  function Refund(b: Business, e: Event): Business
    requires e.Refunded?
  {
    var i := if e.paymentId.Some? && e.paymentId.value != "" then FindPayment(b.payments, e.paymentId.value) else None;
    if i == None then b
    else
      var rec := b.payments[i.value].(status := "refunded", refundAmount := Some(e.refund));
      b.(payments := b.payments[i.value := rec])
  }

  function Handle(b: Business, e: Event, ts: int): (Business, Outcome) {
    match e
    case Captured(_, _, _) => Capture(b, e, ts)
    case Refunded(_, _) => (Refund(b, e), Done)
    case Ignored => (b, Done)
  }

  datatype Delivery = Delivery(id: string, event: Event, at: int)

  /** One delivery: a seen id is a no-op, a rejected event is not recorded. */
  function Deliver(s: State, d: Delivery): State {
    if d.id in s.ledger then s
    else
      var (b, o) := Handle(s.biz, d.event, d.at);
      if o == Done then State(b, s.ledger + {d.id}) else State(b, s.ledger)
  }

  function After(s: State, ds: seq<Delivery>): State {
    if ds == [] then s else Deliver(After(s, ds[..|ds| - 1]), ds[|ds| - 1])
  }

  // ------------------------------------------------------------------------ exactly once

  predicate SeenBefore(ds: seq<Delivery>, id: string) {
    exists i :: 0 <= i < |ds| && ds[i].id == id
  }

  /** Deliveries whose id did not occur earlier. */
  function FirstOccurrences(ds: seq<Delivery>): seq<Delivery> {
    if ds == [] then []
    else
      var n := |ds| - 1;
      FirstOccurrences(ds[..n]) + if SeenBefore(ds[..n], ds[n].id) then [] else [ds[n]]
  }

  predicate IdFixesEvent(ds: seq<Delivery>) {
    forall i, j | 0 <= i < |ds| && 0 <= j < |ds| :: ds[i].id == ds[j].id ==> ds[i].event == ds[j].event
  }

  /** A capture whose amount does not match the payment its order names: never effective. */
  predicate Mismatched(b: Business, e: Event) {
    && e.Captured? && e.orderId.Some? && e.orderId.value != ""
    && var i := FindOrder(b.payments, e.orderId.value);
       i.Some? && b.payments[i.value].amount != GotPaise(e.amount)
  }

  /** Callbacks never change what an order id finds nor the amount recorded there. */
  ghost predicate SameOrders(a: Business, b: Business) {
    && |a.payments| == |b.payments|
    && forall i | 0 <= i < |a.payments| ::
         a.payments[i].orderId == b.payments[i].orderId && a.payments[i].amount == b.payments[i].amount
  }

  lemma {:induction false} SameOrdersFind(a: seq<Payment>, b: seq<Payment>, order: string)
    requires |a| == |b| && forall i | 0 <= i < |a| :: a[i].orderId == b[i].orderId
    ensures FindOrder(a, order) == FindOrder(b, order)
  {
    if a != [] {
      SameOrdersFind(a[..|a| - 1], b[..|b| - 1], order);
    }
  }

  lemma HandleKeepsOrders(b: Business, e: Event, ts: int)
    ensures SameOrders(b, Handle(b, e, ts).0)
  {
  }

  lemma MismatchPersists(a: Business, b: Business, e: Event)
    requires SameOrders(a, b)
    ensures Mismatched(a, e) == Mismatched(b, e)
  {
    if e.Captured? && e.orderId.Some? {
      SameOrdersFind(a.payments, b.payments, e.orderId.value);
    }
  }

  /** A mismatched amount changes nothing, and it is the only way to be rejected. */
  lemma MismatchIsInert(b: Business, e: Event, ts: int)
    ensures Mismatched(b, e) ==> Handle(b, e, ts).0 == b
    ensures Handle(b, e, ts).1 == Rejected ==> Mismatched(b, e)
  {
  }

  /** Between all deliveries and first occurrences only, from a ledger that may hold ids already:
      same business, and every id delivered since is either in both ledgers or a capture that can
      never take effect. */
  ghost predicate InStep(start: set<string>, full: State, once: State, ds: seq<Delivery>) {
    && full.biz == once.biz
    && start <= once.ledger <= full.ledger
    && (forall id | id in full.ledger :: id in start || SeenBefore(ds, id))
    && (forall i | 0 <= i < |ds| && ds[i].id !in once.ledger :: Mismatched(full.biz, ds[i].event))
  }

  lemma FixedBefore(ds: seq<Delivery>, n: nat)
    requires IdFixesEvent(ds) && n < |ds|
    ensures IdFixesEvent(ds[..n])
    ensures forall i | 0 <= i < |ds[..n]| && ds[..n][i].id == ds[n].id :: ds[..n][i].event == ds[n].event
  {
  }

  lemma {:induction false} StaysInStep(s: State, ds: seq<Delivery>)
    requires IdFixesEvent(ds)
    ensures InStep(s.ledger, After(s, ds), After(s, FirstOccurrences(ds)), ds)
  {
    if ds != [] {
      hide Deliver, SeenBefore, InStep, FirstOccurrences, IdFixesEvent;
      var n := |ds| - 1;
      var init, d := ds[..n], ds[n];
      FixedBefore(ds, n);
      StaysInStep(s, init);
      FirstsAfter(s, ds);
      assert init + [d] == ds;
      if SeenBefore(init, d.id) {
        RepeatIsInert(s.ledger, After(s, init), After(s, FirstOccurrences(init)), init, d);
      } else {
        FirstInStep(s.ledger, After(s, init), After(s, FirstOccurrences(init)), init, d);
      }
    }
  }

  lemma FirstsAfter(s: State, ds: seq<Delivery>)
    requires ds != []
    ensures var n := |ds| - 1;
            After(s, FirstOccurrences(ds)) ==
            if SeenBefore(ds[..n], ds[n].id) then After(s, FirstOccurrences(ds[..n]))
            else Deliver(After(s, FirstOccurrences(ds[..n])), ds[n])
  {
    var n := |ds| - 1;
    var firsts := FirstOccurrences(ds[..n]);
    assert firsts + [] == firsts;
    assert (firsts + [ds[n]])[..|firsts|] == firsts;
  }

  lemma RepeatIsInert(start: set<string>, full: State, once: State, init: seq<Delivery>, d: Delivery)
    requires InStep(start, full, once, init) && SeenBefore(init, d.id)
    requires forall i | 0 <= i < |init| && init[i].id == d.id :: init[i].event == d.event
    ensures InStep(start, Deliver(full, d), once, init + [d])
  {
    var i :| 0 <= i < |init| && init[i].id == d.id;
    MismatchIsInert(full.biz, d.event, d.at);
    assert init[i].event == d.event;
    var full' := Deliver(full, d);
    assert full'.biz == full.biz;
    forall id | id in full'.ledger && id !in start
      ensures SeenBefore(init + [d], id)
    {
      var j := if id == d.id then |init| else var j :| 0 <= j < |init| && init[j].id == id; j;
      assert (init + [d])[j].id == id;
    }
    forall j | 0 <= j < |init + [d]| && (init + [d])[j].id !in once.ledger
      ensures Mismatched(full'.biz, (init + [d])[j].event)
    {
      if j == |init| { assert init[i].id !in once.ledger; }
    }
  }

  lemma FirstInStep(start: set<string>, full: State, once: State, init: seq<Delivery>, d: Delivery)
    requires InStep(start, full, once, init) && !SeenBefore(init, d.id)
    ensures InStep(start, Deliver(full, d), Deliver(once, d), init + [d])
  {
    assert d.id in full.ledger <==> d.id in start;
    var full', once' := Deliver(full, d), Deliver(once, d);
    HandleKeepsOrders(full.biz, d.event, d.at);
    MismatchIsInert(full.biz, d.event, d.at);
    forall id | id in full'.ledger && id !in start
      ensures SeenBefore(init + [d], id)
    {
      var j := if id == d.id then |init| else var j :| 0 <= j < |init| && init[j].id == id; j;
      assert (init + [d])[j].id == id;
    }
    forall j | 0 <= j < |init + [d]| && (init + [d])[j].id !in once'.ledger
      ensures Mismatched(full'.biz, (init + [d])[j].event)
    {
      if j < |init| {
        assert init[j].id !in once.ledger;
        MismatchPersists(full.biz, full'.biz, init[j].event);
      } else {
        MismatchPersists(full.biz, full'.biz, d.event);
      }
    }
  }

  /**
   * Exactly once: from any state, over any delivery sequence in which an id determines its
   * event, payments, leads, projects and stage history end as if only first occurrences had
   * been delivered.
   */
  lemma ExactlyOnce(s: State, ds: seq<Delivery>)
    requires IdFixesEvent(ds)
    ensures After(s, ds).biz == After(s, FirstOccurrences(ds)).biz
  {
    StaysInStep(s, ds);
  }

  // ------------------------------------------------------------------- one activation

  /** History rows of one lead. */
  function MovesOf(history: seq<Moved>, l: nat): nat {
    if history == [] then 0
    else MovesOf(history[..|history| - 1], l) + if history[|history| - 1].lead == l then 1 else 0
  }

  lemma MovesSnoc(history: seq<Moved>, m: Moved, l: nat)
    ensures MovesOf(history + [m], l) == MovesOf(history, l) + if m.lead == l then 1 else 0
  {
    assert (history + [m])[..|history|] == history;
  }

  lemma DeliverMoves(s: State, d: Delivery, l: nat)
    requires l < |s.biz.leads|
    ensures var b, b' := s.biz, Deliver(s, d).biz;
            && |b'.leads| == |b.leads|
            && b'.leads[l].stage == (if MovesOf(b'.history, l) > MovesOf(b.history, l) then 4 else b.leads[l].stage)
            && MovesOf(b'.history, l) - MovesOf(b.history, l) in {0, 1}
            && (MovesOf(b'.history, l) > MovesOf(b.history, l) ==> b.leads[l].stage < 4)
  {
    var e := d.event;
    if e.Captured? && e.orderId.Some? && d.id !in s.ledger {
      var i := FindOrder(s.biz.payments, e.orderId.value);
      if i.Some? {
        var rec := s.biz.payments[i.value].(status := "verified", gatewayPaymentId := e.gatewayPaymentId,
            paidAt := Some(d.at));
        var k := LeadOf(s.biz.(payments := s.biz.payments[i.value := rec]), rec);
        if k.Some? {
          MovesSnoc(s.biz.history, Moved(k.value, s.biz.leads[k.value].stage, d.at), l);
        }
      }
    }
  }

  /** The lead a payment is for, by the rows alone: the one it names, else the first whose project
      is the payment's. */
  predicate IsOwner(b: Business, p: Payment, l: nat) {
    l < |b.leads| &&
    match p.leadId
    case Some(named) => l == named
    case None =>
      p.projectId.Some? && b.leads[l].projectId == p.projectId &&
      forall k | 0 <= k < l :: b.leads[k].projectId != p.projectId
  }

  lemma OwnerExact(b: Business, p: Payment, l: nat)
    ensures LeadOf(b, p) == Some(l) <==> IsOwner(b, p, l)
  {
  }

  /** In any run of deliveries a lead is activated at most once, only from before Booking, and
      then stands at Booking. */
  lemma {:induction false} ActivatedAtMostOnce(s: State, ds: seq<Delivery>, l: nat)
    requires l < |s.biz.leads|
    ensures var b, b' := s.biz, After(s, ds).biz;
            && |b'.leads| == |b.leads|
            && MovesOf(b'.history, l) - MovesOf(b.history, l) in {0, 1}
            && b'.leads[l].stage == (if MovesOf(b'.history, l) == MovesOf(b.history, l) then b.leads[l].stage else 4)
            && (MovesOf(b'.history, l) > MovesOf(b.history, l) ==> b.leads[l].stage < 4)
  {
    if ds != [] {
      var n := |ds| - 1;
      ActivatedAtMostOnce(s, ds[..n], l);
      DeliverMoves(After(s, ds[..n]), ds[n], l);
    }
  }

  /** The captured amount matches the recorded one: the same, and not missing or zero. (A recorded
      amount of -1, which no order has, would match those.) */
  lemma MatchMeans(b: Business, e: Event, i: nat)
    requires e.Captured? && e.orderId.Some? && e.orderId.value != ""
    requires FindOrder(b.payments, e.orderId.value) == Some(i) && b.payments[i].amount != -1
    ensures !Mismatched(b, e) <==> b.payments[i].amount != 0 && e.amount == Some(b.payments[i].amount)
  {
  }

  /**
   * A capture that takes effect: the payment is verified under the gateway's id, its project is
   * signed off, paid and activated now, its lead, if it stood before Booking, stands at Booking
   * with a history row, and no other payment, project or lead changes.
   */
  lemma CaptureActivates(b: Business, e: Event, ts: int, i: nat)
    requires e.Captured? && e.orderId.Some? && e.orderId.value != ""
    requires FindOrder(b.payments, e.orderId.value) == Some(i)
    requires b.payments[i].status != "verified" && !Mismatched(b, e)
    ensures var b', p := Capture(b, e, ts).0, b.payments[i];
            && Capture(b, e, ts).1 == Done
            && |b'.payments| == |b.payments| && |b'.projects| == |b.projects| && |b'.leads| == |b.leads|
            && b'.payments[i] == p.(status := "verified", gatewayPaymentId := e.gatewayPaymentId, paidAt := Some(ts))
            && (forall k | 0 <= k < |b.payments| && k != i :: b'.payments[k] == b.payments[k])
            && (forall k: nat | k < |b.projects| ::
                  b'.projects[k] == if p.projectId == Some(k) then Project(true, true, Some(ts)) else b.projects[k])
            && (forall k: nat | k < |b.leads| ::
                  if IsOwner(b, p, k) then
                    var l := b.leads[k];
                    b'.leads[k] ==
                    if l.stage < 4 then Lead(4, if l.furthest > 4 then l.furthest else 4, l.projectId, ts)
                    else Lead(l.stage, l.furthest, l.projectId, ts)
                  else b'.leads[k] == b.leads[k])
            && (forall k: nat | IsOwner(b, p, k) && b.leads[k].stage < 4 ::
                  b'.history == b.history + [Moved(k, b.leads[k].stage, ts)])
            && ((forall k: nat | IsOwner(b, p, k) :: b.leads[k].stage >= 4) ==> b'.history == b.history)
  {
    var p := b.payments[i].(status := "verified", gatewayPaymentId := e.gatewayPaymentId, paidAt := Some(ts));
    assert LeadOf(b.(payments := b.payments[i := p]), p) == LeadOf(b, b.payments[i]);
    forall k: nat
      ensures LeadOf(b, b.payments[i]) == Some(k) <==> IsOwner(b, b.payments[i], k)
    {
      OwnerExact(b, b.payments[i], k);
    }
  }

  /** A refund event marks the first payment with its gateway id, whatever its state, and nothing
      else; without such a payment it does nothing. */
  lemma RefundMarks(b: Business, e: Event, ts: int)
    requires e.Refunded?
    ensures var b' := Handle(b, e, ts).0;
            && b' == b.(payments := b'.payments) && |b'.payments| == |b.payments|
            && forall k | 0 <= k < |b.payments| ::
                 b'.payments[k] == if FirstWithId(b.payments, e.paymentId, k)
                                   then b.payments[k].(status := "refunded", refundAmount := Some(e.refund))
                                   else b.payments[k]
  {
  }

  predicate FirstWithId(payments: seq<Payment>, id: Option<string>, k: int) {
    && 0 <= k < |payments| && id.Some? && id.value != "" && payments[k].gatewayPaymentId == id
    && forall j | 0 <= j < k :: payments[j].gatewayPaymentId != id
  }

  /** What a delivery is answered with and recorded as: it is rejected exactly for a mismatched
      amount on a payment not verified yet, and only then its id stays out of the ledger. */
  lemma LedgerExact(s: State, d: Delivery)
    ensures var rejected := && Mismatched(s.biz, d.event)
              && s.biz.payments[FindOrder(s.biz.payments, d.event.orderId.value).value].status != "verified";
            && (Handle(s.biz, d.event, d.at).1 == Rejected <==> rejected)
            && Deliver(s, d).ledger == (if d.id in s.ledger || rejected then s.ledger else s.ledger + {d.id})
            && (d.id in s.ledger ==> Deliver(s, d) == s)
            && (d.id !in s.ledger ==> Deliver(s, d).biz == Handle(s.biz, d.event, d.at).0)
  {
  }

  /** Deliveries but for the captures whose amount does not match. */
  function Matching(b: Business, ds: seq<Delivery>): seq<Delivery> {
    if ds == [] then []
    else
      var n := |ds| - 1;
      Matching(b, ds[..n]) + if Mismatched(b, ds[n].event) then [] else [ds[n]]
  }

  /** With and without the mismatches: same business, and the ledger has more only for those. */
  ghost predicate InStepMatching(s: State, full: State, part: State, ds: seq<Delivery>) {
    && full.biz == part.biz && SameOrders(s.biz, full.biz)
    && part.ledger <= full.ledger
    && forall id | id in full.ledger && id !in part.ledger ::
         exists i :: 0 <= i < |ds| && ds[i].id == id && Mismatched(s.biz, ds[i].event)
  }

  lemma MatchingStep(s: State, full: State, part: State, init: seq<Delivery>, d: Delivery)
    requires InStepMatching(s, full, part, init)
    requires forall i | 0 <= i < |init| && init[i].id == d.id :: init[i].event == d.event
    ensures InStepMatching(s, Deliver(full, d), if Mismatched(s.biz, d.event) then part else Deliver(part, d),
                           init + [d])
  {
    MismatchPersists(s.biz, full.biz, d.event);
    MismatchIsInert(full.biz, d.event, d.at);
    HandleKeepsOrders(full.biz, d.event, d.at);
    var full' := Deliver(full, d);
    var part' := if Mismatched(s.biz, d.event) then part else Deliver(part, d);
    forall id | id in full'.ledger && id !in part'.ledger
      ensures exists i :: 0 <= i < |init + [d]| && (init + [d])[i].id == id && Mismatched(s.biz, (init + [d])[i].event)
    {
      if id in full.ledger && id !in part.ledger {
        var i :| 0 <= i < |init| && init[i].id == id && Mismatched(s.biz, init[i].event);
        assert (init + [d])[i] == init[i];
      } else {
        assert (init + [d])[|init|] == d;
      }
    }
  }

  lemma MatchingSnoc(s: State, ds: seq<Delivery>)
    requires ds != []
    ensures var n := |ds| - 1;
            After(s, Matching(s.biz, ds)) ==
            if Mismatched(s.biz, ds[n].event) then After(s, Matching(s.biz, ds[..n]))
            else Deliver(After(s, Matching(s.biz, ds[..n])), ds[n])
  {
    hide Deliver, Mismatched;
    var n := |ds| - 1;
    var kept := Matching(s.biz, ds[..n]);
    assert kept + [] == kept && (kept + [ds[n]])[..|kept|] == kept;
  }

  lemma {:induction false} StaysInStepMatching(s: State, ds: seq<Delivery>)
    requires IdFixesEvent(ds)
    ensures InStepMatching(s, After(s, ds), After(s, Matching(s.biz, ds)), ds)
  {
    if ds != [] {
      hide Deliver, Mismatched, InStepMatching, IdFixesEvent;
      var n := |ds| - 1;
      FixedBefore(ds, n);
      StaysInStepMatching(s, ds[..n]);
      MatchingSnoc(s, ds);
      MatchingStep(s, After(s, ds[..n]), After(s, Matching(s.biz, ds[..n])), ds[..n], ds[n]);
      assert ds[..n] + [ds[n]] == ds;
    }
  }

  /** Over any deliveries in which an id determines its event, captures with a mismatched amount
      might as well never have arrived. */
  lemma MismatchesAreInert(s: State, ds: seq<Delivery>)
    requires IdFixesEvent(ds)
    ensures After(s, ds).biz == After(s, Matching(s.biz, ds)).biz
  {
    StaysInStepMatching(s, ds);
  }

  // ------------------------------------------------------------- what a verified payment means

  /** The event is a capture that names payment `i` with its amount. */
  predicate CaptureFor(b: Business, e: Event, i: nat) {
    && e.Captured? && e.orderId.Some? && e.orderId.value != ""
    && FindOrder(b.payments, e.orderId.value) == Some(i) && !Mismatched(b, e)
  }

  /** The payment's project is signed off and paid, its lead at Booking or beyond. */
  predicate ActivatedFor(b: Business, i: nat)
    requires i < |b.payments|
  {
    var p := b.payments[i];
    && (p.projectId.Some? && p.projectId.value < |b.projects| ==>
          b.projects[p.projectId.value].signedOff && b.projects[p.projectId.value].bookingPaid)
    && forall l | 0 <= l < |b.leads| && IsOwner(b, p, l) :: b.leads[l].stage >= 4
  }

  /** What no callback undoes. */
  predicate Grows(b: Business, b': Business) {
    && |b'.payments| == |b.payments| && |b'.projects| == |b.projects| && |b'.leads| == |b.leads|
    && (forall k | 0 <= k < |b.payments| ::
          b'.payments[k].leadId == b.payments[k].leadId && b'.payments[k].projectId == b.payments[k].projectId)
    && (forall k | 0 <= k < |b.projects| ::
          && (b.projects[k].signedOff ==> b'.projects[k].signedOff)
          && (b.projects[k].bookingPaid ==> b'.projects[k].bookingPaid))
    && forall k | 0 <= k < |b.leads| ::
         b'.leads[k].projectId == b.leads[k].projectId && b'.leads[k].stage >= b.leads[k].stage
  }

  lemma HandleGrows(b: Business, e: Event, ts: int)
    ensures Grows(b, Handle(b, e, ts).0)
  {
  }

  lemma SameLeadOfProject(a: seq<Lead>, b: seq<Lead>, project: nat)
    requires |a| == |b| && forall k | 0 <= k < |a| :: a[k].projectId == b[k].projectId
    ensures LeadOfProject(a, project) == LeadOfProject(b, project)
  {
  }

  lemma ActivationStays(b: Business, b': Business, i: nat)
    requires i < |b.payments| && Grows(b, b') && ActivatedFor(b, i)
    ensures ActivatedFor(b', i)
  {
    var p, p' := b.payments[i], b'.payments[i];
    forall l: nat | IsOwner(b', p', l)
      ensures IsOwner(b, p, l)
    {
    }
  }

  /** Only an effective capture of its own verifies a payment, and that one activates. */
  lemma VerifyingStep(b: Business, e: Event, ts: int, i: nat)
    requires i < |b.payments| && b.payments[i].status != "verified"
    requires Handle(b, e, ts).0.payments[i].status == "verified"
    ensures CaptureFor(b, e, i) && ActivatedFor(Handle(b, e, ts).0, i)
  {
    var b' := Handle(b, e, ts).0;
    var j := FindOrder(b.payments, e.orderId.value).value;
    assert i == j;
    CaptureActivates(b, e, ts, i);
    forall l: nat | IsOwner(b', b'.payments[i], l)
      ensures IsOwner(b, b.payments[i], l)
    {
    }
  }

  /** Delivery `k` verified payment `i`. */
  predicate VerifiedIn(s: State, ds: seq<Delivery>, k: nat, i: nat) {
    && k < |ds| && ds[k].id !in After(s, ds[..k]).ledger
    && CaptureFor(After(s, ds[..k]).biz, ds[k].event, i)
  }

  /**
   * Over any run of deliveries from any state: a payment that ends verified and did not start so
   * was verified by a capture naming its order and amount, and its project ends signed off and
   * paid and its lead at Booking or beyond.
   */
  lemma {:induction false} VerifiedMeansActivated(s: State, ds: seq<Delivery>, i: nat)
    requires i < |s.biz.payments| && s.biz.payments[i].status != "verified"
    ensures |After(s, ds).biz.payments| == |s.biz.payments|
    ensures After(s, ds).biz.payments[i].status == "verified" ==>
              ActivatedFor(After(s, ds).biz, i) && exists k: nat :: VerifiedIn(s, ds, k, i)
  {
    if ds != [] {
      hide Handle, ActivatedFor, CaptureFor;
      var n := |ds| - 1;
      var before, d := After(s, ds[..n]), ds[n];
      VerifiedMeansActivated(s, ds[..n], i);
      HandleGrows(before.biz, d.event, d.at);
      if After(s, ds).biz.payments[i].status == "verified" {
        if before.biz.payments[i].status == "verified" {
          var k: nat :| VerifiedIn(s, ds[..n], k, i);
          assert ds[..n][..k] == ds[..k];
          assert VerifiedIn(s, ds, k, i);
          ActivationStays(before.biz, Handle(before.biz, d.event, d.at).0, i);
        } else {
          VerifyingStep(before.biz, d.event, d.at, i);
          assert VerifiedIn(s, ds, n, i);
        }
      }
    }
  }

  // ------------------------------------------------------------------- what order costs

  /** The payment a capture can verify: the one its order names, if the amount matches. */
  function CaptureTarget(payments: seq<Payment>, e: Event): (r: Option<nat>)
    requires e.Captured?
    ensures r.Some? ==> r.value < |payments|
  {
    var i := if e.orderId.Some? && e.orderId.value != "" then FindOrder(payments, e.orderId.value) else None;
    if i.Some? && payments[i.value].amount == GotPaise(e.amount) then i else None
  }

  function RefundTarget(payments: seq<Payment>, e: Event): (r: Option<nat>)
    requires e.Refunded?
    ensures r.Some? ==> r.value < |payments|
  {
    if e.paymentId.Some? && e.paymentId.value != "" then FindPayment(payments, e.paymentId.value) else None
  }

  /** What an event does to the payments. */
  function Paid(payments: seq<Payment>, e: Event, ts: int): seq<Payment> {
    match e
    case Captured(_, gatewayPaymentId, _) =>
      var i := CaptureTarget(payments, e);
      if i == None || payments[i.value].status == "verified" then payments
      else
        var p := payments[i.value];
        payments[i.value := p.(status := "verified", gatewayPaymentId := gatewayPaymentId, paidAt := Some(ts))]
    case Refunded(_, refund) =>
      var j := RefundTarget(payments, e);
      if j == None then payments
      else payments[j.value := payments[j.value].(status := "refunded", refundAmount := Some(refund))]
    case Ignored => payments
  }

  lemma HandlePays(b: Business, e: Event, ts: int)
    ensures Handle(b, e, ts).0.payments == Paid(b.payments, e, ts)
  {
  }

  /**
   * A capture and a refund that may not change places. On a payment already verified: the refund
   * finds it. Otherwise: the refund finds it once the capture has given it its gateway id, or
   * found it before under another id and that shows.
   */
  predicate OrderMatters(payments: seq<Payment>, c: Event, r: Event)
    requires c.Captured? && r.Refunded?
  {
    var i, before := CaptureTarget(payments, c), RefundTarget(payments, r);
    i.Some? &&
    if payments[i.value].status == "verified" then before == i
    else
      var after := RefundTarget(Paid(payments, c, 0), r);
      || after == i
      || (before == i && (payments[i.value].refundAmount != Some(r.refund) ||
                          (after.Some? && !AlreadyRefunded(payments[after.value], r.refund))))
  }

  predicate AlreadyRefunded(p: Payment, refund: int) {
    p.status == "refunded" && p.refundAmount == Some(refund)
  }

  predicate SwapMatters(payments: seq<Payment>, a: Event, b: Event) {
    match (a, b)
    case (Captured(_, x, _), Captured(_, y, _)) =>
      var i := CaptureTarget(payments, a);
      i.Some? && CaptureTarget(payments, b) == i && payments[i.value].status != "verified" && x != y
    case (Refunded(_, x), Refunded(_, y)) =>
      RefundTarget(payments, a).Some? && RefundTarget(payments, b) == RefundTarget(payments, a) && x != y
    case (Captured(_, _, _), Refunded(_, _)) => OrderMatters(payments, a, b)
    case (Refunded(_, _), Captured(_, _, _)) => OrderMatters(payments, b, a)
    case _ => false
  }

  lemma SameCaptureTarget(payments: seq<Payment>, payments': seq<Payment>, c: Event)
    requires c.Captured? && |payments| == |payments'|
    requires forall k | 0 <= k < |payments| ::
               payments'[k].orderId == payments[k].orderId && payments'[k].amount == payments[k].amount
    ensures CaptureTarget(payments', c) == CaptureTarget(payments, c)
  {
  }

  lemma SameRefundTarget(payments: seq<Payment>, payments': seq<Payment>, r: Event)
    requires r.Refunded? && |payments| == |payments'|
    requires forall k | 0 <= k < |payments| :: payments'[k].gatewayPaymentId == payments[k].gatewayPaymentId
    ensures RefundTarget(payments', r) == RefundTarget(payments, r)
  {
  }

  /** Where a refund looks after one payment got another gateway id. */
  lemma MovedRefundTarget(payments: seq<Payment>, payments': seq<Payment>, i: nat, r: Event)
    requires r.Refunded? && i < |payments| == |payments'|
    requires forall k | 0 <= k < |payments| && k != i ::
               payments'[k].gatewayPaymentId == payments[k].gatewayPaymentId
    ensures var before, after := RefundTarget(payments, r), RefundTarget(payments', r);
            before == after || before == Some(i) || after == Some(i)
  {
  }

  lemma SwapCaptures(payments: seq<Payment>, a: Event, b: Event, ts: int)
    requires a.Captured? && b.Captured?
    ensures Paid(Paid(payments, a, ts), b, ts) != Paid(Paid(payments, b, ts), a, ts) <==> SwapMatters(payments, a, b)
  {
    hide CaptureTarget;
    SameCaptureTarget(payments, Paid(payments, a, ts), b);
    SameCaptureTarget(payments, Paid(payments, b, ts), a);
    var i, j := CaptureTarget(payments, a), CaptureTarget(payments, b);
    var ab, ba := Paid(Paid(payments, a, ts), b, ts), Paid(Paid(payments, b, ts), a, ts);
    if i.Some? && i == j && payments[i.value].status != "verified" {
      assert ab[i.value].gatewayPaymentId == a.gatewayPaymentId && ba[i.value].gatewayPaymentId == b.gatewayPaymentId;
    }
  }

  lemma SwapRefunds(payments: seq<Payment>, a: Event, b: Event, ts: int)
    requires a.Refunded? && b.Refunded?
    ensures Paid(Paid(payments, a, ts), b, ts) != Paid(Paid(payments, b, ts), a, ts) <==> SwapMatters(payments, a, b)
  {
    hide RefundTarget;
    SameRefundTarget(payments, Paid(payments, a, ts), b);
    SameRefundTarget(payments, Paid(payments, b, ts), a);
    var i := RefundTarget(payments, a);
    var ab, ba := Paid(Paid(payments, a, ts), b, ts), Paid(Paid(payments, b, ts), a, ts);
    if i.Some? && RefundTarget(payments, b) == i {
      assert ab[i.value].refundAmount == Some(b.refund) && ba[i.value].refundAmount == Some(a.refund);
    }
  }

  lemma SwapCaptureRefund(payments: seq<Payment>, c: Event, r: Event, ts: int)
    requires c.Captured? && r.Refunded?
    ensures Paid(Paid(payments, c, ts), r, ts) != Paid(Paid(payments, r, ts), c, ts) <==> OrderMatters(payments, c, r)
  {
    hide CaptureTarget, RefundTarget;
    var captured, refunded := Paid(payments, c, ts), Paid(payments, r, ts);
    SameCaptureTarget(payments, refunded, c);
    SameRefundTarget(captured, Paid(payments, c, 0), r);
    var i := CaptureTarget(payments, c);
    if i.Some? {
      MovedRefundTarget(payments, captured, i.value, r);
      var before, after := RefundTarget(payments, r), RefundTarget(captured, r);
      var cr, rc := Paid(captured, r, ts), Paid(refunded, c, ts);
      if after == i || (payments[i.value].status == "verified" && before == i) {
        assert cr[i.value].status == "refunded" && rc[i.value].status == "verified";
      } else if before == i {
        assert cr[i.value].refundAmount == payments[i.value].refundAmount && rc[i.value].refundAmount == Some(r.refund);
        if after.Some? {
          assert cr[after.value].status == "refunded" && cr[after.value].refundAmount == Some(r.refund);
          assert rc[after.value] == payments[after.value];
        }
      }
    }
  }

  /**
   * What delivery order costs: two unseen deliveries handled in the same second leave the same
   * payments in either order exactly unless they are two captures of one payment under different
   * gateway ids, two refunds of one payment for different amounts, or a capture and a refund
   * that may not change places.
   */
  lemma SwapExact(s: State, a: Delivery, b: Delivery)
    requires a.id != b.id && a.id !in s.ledger && b.id !in s.ledger && a.at == b.at
    ensures After(s, [a, b]).biz.payments != After(s, [b, a]).biz.payments <==>
            SwapMatters(s.biz.payments, a.event, b.event)
  {
    TwoDeliveries(s, a, b);
    TwoDeliveries(s, b, a);
    hide Paid, OrderMatters, After;
    match (a.event, b.event)
    case (Captured(_, _, _), Captured(_, _, _)) => SwapCaptures(s.biz.payments, a.event, b.event, a.at);
    case (Refunded(_, _), Refunded(_, _)) => SwapRefunds(s.biz.payments, a.event, b.event, a.at);
    case (Captured(_, _, _), Refunded(_, _)) => SwapCaptureRefund(s.biz.payments, a.event, b.event, a.at);
    case (Refunded(_, _), Captured(_, _, _)) => SwapCaptureRefund(s.biz.payments, b.event, a.event, a.at);
    case _ => SwapIgnored(s.biz.payments, a.event, b.event, a.at);
  }

  lemma SwapIgnored(payments: seq<Payment>, a: Event, b: Event, ts: int)
    requires a.Ignored? || b.Ignored?
    ensures Paid(Paid(payments, a, ts), b, ts) == Paid(Paid(payments, b, ts), a, ts)
  {
  }

  lemma TwoDeliveries(s: State, a: Delivery, b: Delivery)
    requires a.id != b.id && a.id !in s.ledger && b.id !in s.ledger
    ensures After(s, [a, b]).biz.payments == Paid(Paid(s.biz.payments, a.event, a.at), b.event, b.at)
  {
    hide Handle, Paid;
    assert [a, b][..1] == [a] && [a][..0] == [];
    assert After(s, [a]) == Deliver(s, a);
    HandlePays(s.biz, a.event, a.at);
    HandlePays(After(s, [a]).biz, b.event, b.at);
  }

  /**
   * The usual case: a refund overtakes the capture that gives the payment its gateway id. It finds
   * nothing, yet is recorded as seen; the payment ends verified instead of refunded, and the
   * refund's repeats are ignored.
   */
  lemma RefundOvertakes(s: State, c: Delivery, r: Delivery, i: nat)
    requires c.id != r.id && c.id !in s.ledger && r.id !in s.ledger
    requires CaptureFor(s.biz, c.event, i) && s.biz.payments[i].status != "verified"
    requires r.event.Refunded? && r.event.paymentId == c.event.gatewayPaymentId
    requires r.event.paymentId.Some? && r.event.paymentId.value != ""
    requires forall k | 0 <= k < |s.biz.payments| :: s.biz.payments[k].gatewayPaymentId != r.event.paymentId
    ensures i < |After(s, [c, r]).biz.payments| && After(s, [c, r]).biz.payments[i].status == "refunded"
    ensures i < |After(s, [r, c, r]).biz.payments| && After(s, [r, c, r]).biz.payments[i].status == "verified"
  {
    TwoDeliveries(s, c, r);
    TwoDeliveries(s, r, c);
    PaysRefundOvertaken(s.biz.payments, c.event, r.event, c.at, r.at, i);
    SeenOnce(s, r, c);
  }

  /** A refund is recorded whatever it finds, and its repeat does nothing. */
  lemma SeenOnce(s: State, r: Delivery, c: Delivery)
    requires r.event.Refunded?
    ensures After(s, [r, c, r]) == After(s, [r, c])
  {
    hide Handle;
    assert [r, c, r][..2] == [r, c] && [r, c][..1] == [r] && [r][..0] == [];
    assert After(s, [r]) == Deliver(s, r);
    NothingToRefund(s.biz, r.event, r.at);
    assert r.id in After(s, [r, c]).ledger;
  }

  lemma PaysRefundOvertaken(payments: seq<Payment>, c: Event, r: Event, ts: int, ts': int, i: nat)
    requires c.Captured? && CaptureTarget(payments, c) == Some(i) && payments[i].status != "verified"
    requires r.Refunded? && r.paymentId == c.gatewayPaymentId && r.paymentId.Some? && r.paymentId.value != ""
    requires forall k | 0 <= k < |payments| :: payments[k].gatewayPaymentId != r.paymentId
    ensures i < |payments| == |Paid(Paid(payments, c, ts), r, ts')| == |Paid(Paid(payments, r, ts'), c, ts)|
    ensures Paid(Paid(payments, c, ts), r, ts')[i].status == "refunded"
    ensures Paid(Paid(payments, r, ts'), c, ts)[i].status == "verified"
  {
    hide CaptureTarget;
    var captured := Paid(payments, c, ts);
    assert captured[i].gatewayPaymentId == r.paymentId;
    assert RefundTarget(captured, r) == Some(i);
    assert RefundTarget(payments, r) == None;
  }

  lemma NothingToRefund(b: Business, e: Event, ts: int)
    requires e.Refunded?
    ensures Handle(b, e, ts).1 == Done
  {
  }

  /**
   * What the ledger does not cover: a matching capture delivered under a new event id, at any
   * later point. It always leaves the payment "verified", so it is harmless exactly while the
   * payment still is; after a refund it marks the refunded payment verified again.
   */
  lemma NewIdReplay(s: State, t: State, e: Event, id: string, ts: int, i: nat)
    requires e.Captured? && e.orderId.Some? && e.orderId.value != ""
    requires FindOrder(s.biz.payments, e.orderId.value) == Some(i) && !Mismatched(s.biz, e)
    requires SameOrders(s.biz, t.biz) && id !in t.ledger
    ensures Deliver(t, Delivery(id, e, ts)).biz.payments[i].status == "verified"
    ensures Deliver(t, Delivery(id, e, ts)).biz == t.biz <==> t.biz.payments[i].status == "verified"
  {
    SameOrdersFind(s.biz.payments, t.biz.payments, e.orderId.value);
  }

  // ------------------------------------------------------------------ the running code

  class Endpoint {
    var payments: seq<Payment>
    var leads: seq<Lead>
    var projects: seq<Project>
    var history: seq<Moved>
    var ledger: set<string>

    ghost function Biz(): Business
      reads this
    {
      Business(payments, leads, projects, history)
    }

    ghost function Now(): State
      reads this
    {
      State(Biz(), ledger)
    }

    constructor (s: State)
      ensures Now() == s
    {
      payments, leads, projects, history := s.biz.payments, s.biz.leads, s.biz.projects, s.biz.history;
      ledger := s.ledger;
    }

    method FinalizeActivation(p: Payment, ts: int)
      modifies this`leads, this`projects, this`history
      ensures Biz() == Activated(old(Biz()), p, ts)
    {
      var l: Option<nat> := None;
      if p.leadId.Some? {
        if p.leadId.value < |leads| {
          l := p.leadId;
        }
      } else if p.projectId.Some? {
        l := LeadOfProject(leads, p.projectId.value);
      }
      if p.projectId.Some? && p.projectId.value < |projects| {
        projects := projects[p.projectId.value := Project(true, true, Some(ts))];
      }
      if l.Some? {
        var lead := leads[l.value];
        var update := lead.(updatedAt := ts);
        if lead.stage < 4 {
          update := update.(stage := 4, furthest := if lead.furthest > 4 then lead.furthest else 4);
          history := history + [Moved(l.value, lead.stage, ts)];
        }
        leads := leads[l.value := update];
      }
    }

    method HandleCapture(e: Event, ts: int) returns (o: Outcome)
      requires e.Captured?
      modifies this`payments, this`leads, this`projects, this`history
      ensures (Biz(), o) == Capture(old(Biz()), e, ts)
    {
      var i: Option<nat> := None;
      if e.orderId.Some? && e.orderId.value != "" {
        i := FindOrder(payments, e.orderId.value);
      }
      if i == None {
        return Done;
      }
      var rec := payments[i.value];
      if rec.status == "verified" {
        return Done;
      }
      if rec.amount != GotPaise(e.amount) {
        return Rejected;
      }
      rec := rec.(status := "verified", gatewayPaymentId := e.gatewayPaymentId, paidAt := Some(ts));
      payments := payments[i.value := rec];
      FinalizeActivation(rec, ts);
      o := Done;
    }

    method HandleRefund(e: Event)
      requires e.Refunded?
      modifies this`payments
      ensures Biz() == Refund(old(Biz()), e)
    {
      if e.paymentId.Some? && e.paymentId.value != "" {
        var i := FindPayment(payments, e.paymentId.value);
        if i.Some? {
          payments := payments[i.value := payments[i.value].(status := "refunded", refundAmount := Some(e.refund))];
        }
      }
    }

    method Receive(d: Delivery) returns (o: Outcome)
      modifies this
      ensures Now() == Deliver(old(Now()), d)
      ensures o == Rejected ==> Biz() == old(Biz()) && ledger == old(ledger)
    {
      if d.id in ledger {
        return Done;
      }
      match d.event {
        case Captured(_, _, _) => o := HandleCapture(d.event, d.at);
        case Refunded(_, _) =>
          HandleRefund(d.event);
          o := Done;
        case Ignored => o := Done;
      }
      if o == Done {
        ledger := ledger + {d.id};
      }
    }
  }
}
