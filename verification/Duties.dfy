/** Separation of duties: the estimate workflow, booking money, milestone payments, refunds. */
module Duties {
  import opened Values
  import opened Totals

  type User = nat

  datatype EstimateState = Draft | Submitted | Approved | Shared | Accepted | Changes

  datatype Estimate = Estimate(
    lead: nat, version: nat, state: EstimateState, createdBy: User, approvedBy: Option<User>, total: real)

  datatype Payment = Payment(
    lead: Option<nat>, booking: bool, status: string, amount: real,
    createdBy: Option<User>, confirmedBy: Option<User>, verifiedBy: Option<User>,
    refundedBy: Option<User>, refundedAt: Option<int>, refundAmount: Option<real>)

  /** Rows are found by position and never deleted. */
  datatype World = World(estimates: seq<Estimate>, payments: seq<Payment>)

  datatype Action =
    | CreateEstimate(lead: nat, items: seq<Item>, discount: real, taxPercent: real)
    | Submit(est: nat) | Approve(est: nat) | Reject(est: nat) | Share(est: nat) | Accept(est: nat)
    | ClientAccept(est: nat)
    | Book(lead: nat, override: Option<real>)
    | CreateMilestone(due: real)
    | Update(pay: nat, status: Option<string>, amount: Option<real>, mayConfirm: bool)
    | Refund(pay: nat, amount: Option<real>)

  /** A request that passed authentication, permission and step-up. */
  datatype Request = Request(actor: User, action: Action, at: int)

  // ------------------------------------------------------------------------- one step

  /** Four eyes: a known creator may not be the one who acts. */
  predicate SelfAction(creator: Option<User>, actor: User) {
    creator == Some(actor)
  }

  function Newest(estimates: seq<Estimate>, lead: nat, acceptedOnly: bool): (r: Option<nat>)
    ensures r.Some? ==> r.value < |estimates| && Eligible(estimates[r.value], lead, acceptedOnly)
    ensures r.Some? ==> forall i | 0 <= i < |estimates| && Eligible(estimates[i], lead, acceptedOnly) ::
                          estimates[i].version <= estimates[r.value].version
    ensures r.None? ==> forall i | 0 <= i < |estimates| :: !Eligible(estimates[i], lead, acceptedOnly)
  {
    if estimates == [] then None
    else
      var n := |estimates| - 1;
      var best := Newest(estimates[..n], lead, acceptedOnly);
      if Eligible(estimates[n], lead, acceptedOnly) &&
         (best == None || estimates[best.value].version < estimates[n].version) then Some(n) else best
  }

  predicate Eligible(e: Estimate, lead: nat, acceptedOnly: bool) {
    e.lead == lead && (acceptedOnly ==> e.state == Accepted)
  }

  function NextVersion(estimates: seq<Estimate>, lead: nat): nat {
    var prev := Newest(estimates, lead, false);
    if prev.Some? then estimates[prev.value].version + 1 else 1
  }

  function Transitioned(w: World, i: nat, from: set<EstimateState>, to: EstimateState): World {
    if i < |w.estimates| && w.estimates[i].state in from then
      w.(estimates := w.estimates[i := w.estimates[i].(state := to)])
    else w
  }

  predicate ApproveAllowed(w: World, i: nat, actor: User) {
    i < |w.estimates| && !SelfAction(Some(w.estimates[i].createdBy), actor) && w.estimates[i].state == Submitted
  }

  predicate BookingExists(w: World, lead: nat) {
    exists p :: 0 <= p < |w.payments| && w.payments[p].booking && w.payments[p].lead == Some(lead)
  }

  /** A payment naming a lead that has no booking yet. */
  predicate FirstBooking(w: World, p: Payment) {
    p.lead.Some? && !BookingExists(w, p.lead.value)
  }

  predicate BookAllowed(w: World, lead: nat, actor: User) {
    && !BookingExists(w, lead)
    && var est := Newest(w.estimates, lead, true);
       est.Some? && !SelfAction(Some(w.estimates[est.value].createdBy), actor)
  }

  /** Marking a payment "Paid" that is not: the only status change that is a confirmation. */
  predicate Confirms(p: Payment, status: Option<string>) {
    status == Some("Paid") && p.status != "Paid"
  }

  predicate UpdateAllowed(w: World, i: nat, status: Option<string>, mayConfirm: bool, actor: User) {
    i < |w.payments| &&
    (Confirms(w.payments[i], status) ==> mayConfirm && !SelfAction(w.payments[i].createdBy, actor))
  }

  function RefundSum(p: Payment, amount: Option<real>): real {
    if amount.Some? then Round2(amount.value) else p.amount
  }

  predicate RefundAllowed(w: World, i: nat, amount: Option<real>, actor: User) {
    i < |w.payments| &&
    var p := w.payments[i];
    && p.status in {"Paid", "verified"} && p.refundedAt == None
    && !SelfAction(if p.confirmedBy.Some? then p.confirmedBy else p.verifiedBy, actor)
    && 0.0 < RefundSum(p, amount) <= p.amount
  }

  function Step(w: World, r: Request): World {
    match r.action
    case CreateEstimate(lead, items, discount, tax) =>
      if items == [] then w
      else w.(estimates := w.estimates + [Estimate(lead, NextVersion(w.estimates, lead), Draft, r.actor, None,
                                                   TotalsOf(items, discount, tax).total)])
    case Submit(i) => Transitioned(w, i, {Draft, Changes}, Submitted)
    case Approve(i) =>
      if ApproveAllowed(w, i, r.actor) then
        w.(estimates := w.estimates[i := w.estimates[i].(state := Approved, approvedBy := Some(r.actor))])
      else w
    case Reject(i) => Transitioned(w, i, {Submitted}, Changes)
    case Share(i) => Transitioned(w, i, {Approved}, Shared)
    case Accept(i) => Transitioned(w, i, {Shared}, Accepted)
    case ClientAccept(i) => Transitioned(w, i, {Shared}, Accepted)
    case Book(lead, override) =>
      if BookAllowed(w, lead, r.actor) then
        var est := w.estimates[Newest(w.estimates, lead, true).value];
        var amount := Round2(if override.Some? then override.value else est.total * 0.1);
        var p := Payment(Some(lead), true, "verified", amount, None, None, Some(r.actor), None, None, None);
        w.(payments := w.payments + [p])
      else w
    case CreateMilestone(due) =>
      w.(payments := w.payments + [Payment(None, false, "Pending", due, Some(r.actor), None, None, None, None, None)])
    case Update(i, status, amount, mayConfirm) =>
      if UpdateAllowed(w, i, status, mayConfirm, r.actor) then
        var p := w.payments[i];
        w.(payments := w.payments[i := p.(
             status := if status.Some? then status.value else p.status,
             amount := if amount.Some? then amount.value else p.amount,
             confirmedBy := if Confirms(p, status) then Some(r.actor) else p.confirmedBy)])
      else w
    case Refund(i, amount) =>
      if RefundAllowed(w, i, amount, r.actor) then
        var p := w.payments[i];
        w.(payments := w.payments[i := p.(status := "refunded", refundedAt := Some(r.at), refundedBy := Some(r.actor),
                                          refundAmount := Some(RefundSum(p, amount)))])
      else w
  }

  function After(run: seq<Request>): World {
    if run == [] then World([], []) else Step(After(run[..|run| - 1]), run[|run| - 1])
  }

  // --------------------------------------------------------- what each request does

  /** The state an estimate is in after a request of this kind on it, if the request is accepted. */
  predicate Moves(a: Action, i: nat, e: Estimate, actor: User, to: EstimateState) {
    match a
    case Submit(j) => i == j && e.state in {Draft, Changes} && to == Submitted
    case Approve(j) => i == j && e.state == Submitted && e.createdBy != actor && to == Approved
    case Reject(j) => i == j && e.state == Submitted && to == Changes
    case Share(j) => i == j && e.state == Approved && to == Shared
    case Accept(j) => i == j && e.state == Shared && to == Accepted
    case ClientAccept(j) => i == j && e.state == Shared && to == Accepted
    case _ => false
  }

  /**
   * The estimate workflow: an estimate changes exactly by a request made for it in the right
   * state, an approval by somebody other than its creator, which puts the approver on record;
   * and every such request goes through.
   */
  lemma WorkflowExact(w: World, r: Request, i: nat)
    requires i < |w.estimates|
    ensures var e := w.estimates[i];
            && i < |Step(w, r).estimates|
            && (forall to | Moves(r.action, i, e, r.actor, to) ::
                  Step(w, r).estimates[i] ==
                  e.(state := to, approvedBy := if r.action.Approve? then Some(r.actor) else e.approvedBy))
            && ((forall to :: !Moves(r.action, i, e, r.actor, to)) ==> Step(w, r).estimates[i] == e)
  {
    assert forall to | Moves(r.action, i, w.estimates[i], r.actor, to) ::
      to == Step(w, r).estimates[i].state;
    if Step(w, r).estimates[i] != w.estimates[i] {
      assert Moves(r.action, i, w.estimates[i], r.actor, Step(w, r).estimates[i].state);
    }
  }

  /** A new estimate: refused exactly without items, else a draft of its creator with the lead's
      next version, one above the highest so far, and nothing else changes. */
  lemma CreationExact(w: World, r: Request)
    requires r.action.CreateEstimate?
    ensures var w', n, lead := Step(w, r), |w.estimates|, r.action.lead;
            if r.action.items == [] then w' == w
            else
              && |w'.estimates| == n + 1 && w'.estimates[..n] == w.estimates && w'.payments == w.payments
              && var e := w'.estimates[n];
              && e.lead == lead && e.state == Draft && e.createdBy == r.actor && e.approvedBy == None
              && e.total == TotalsOf(r.action.items, r.action.discount, r.action.taxPercent).total
              && (forall i | 0 <= i < n && w.estimates[i].lead == lead :: w.estimates[i].version < e.version)
              && (if forall i | 0 <= i < n :: w.estimates[i].lead != lead then e.version == 1
                  else exists i :: 0 <= i < n && w.estimates[i].lead == lead && w.estimates[i].version == e.version - 1)
  {
  }

  /** Estimate `i` is the lead's newest accepted one. */
  predicate NewestAccepted(w: World, lead: nat, i: nat) {
    && i < |w.estimates| && w.estimates[i].lead == lead && w.estimates[i].state == Accepted
    && forall j | 0 <= j < |w.estimates| && w.estimates[j].lead == lead && w.estimates[j].state == Accepted ::
         w.estimates[j].version <= w.estimates[i].version
  }

  lemma NewestIsAccepted(w: World, lead: nat)
    ensures match Newest(w.estimates, lead, true)
            case Some(i) => NewestAccepted(w, lead, i)
            case None => forall i :: !NewestAccepted(w, lead, i)
  {
    match Newest(w.estimates, lead, true)
    case Some(i) =>
      forall j | 0 <= j < |w.estimates| && w.estimates[j].lead == lead && w.estimates[j].state == Accepted
        ensures w.estimates[j].version <= w.estimates[i].version
      {
        IsEligible(w.estimates[j], lead);
      }
    case None =>
      forall i: nat
        ensures !NewestAccepted(w, lead, i)
      {
        if NewestAccepted(w, lead, i) { IsEligible(w.estimates[i], lead); }
      }
  }

  lemma IsEligible(e: Estimate, lead: nat)
    requires e.lead == lead && e.state == Accepted
    ensures Eligible(e, lead, true)
  {
  }

  /**
   * A booking is recorded exactly when the lead has none yet and has an accepted estimate, the
   * newest of which somebody else created; it is verified by its recorder, for the caller's amount
   * or a tenth of that estimate, rounded.
   */
  lemma BookingExact(w: World, r: Request)
    requires r.action.Book?
    ensures var w', n, lead := Step(w, r), |w.payments|, r.action.lead;
            var taken := exists p :: 0 <= p < n && w.payments[p].booking && w.payments[p].lead == Some(lead);
            && w'.estimates == w.estimates
            && (taken || (forall i :: !NewestAccepted(w, lead, i)) ==> w' == w)
            && (!taken && (exists i :: NewestAccepted(w, lead, i)) ==>
                  exists i: nat :: NewestAccepted(w, lead, i) &&
                    if w.estimates[i].createdBy == r.actor then w' == w
                    else
                      var asked := r.action.override;
                      var due := if asked.Some? then asked.value else w.estimates[i].total * 0.1;
                      w'.payments == w.payments + [Payment(Some(lead), true, "verified", Round2(due), None, None,
                                                           Some(r.actor), None, None, None)])
  {
    hide NewestAccepted, Newest, Round2;
    NewestIsAccepted(w, r.action.lead);
  }

  /**
   * An edit of a payment: it goes through exactly unless it would turn a payment to "Paid" without
   * the permission to confirm or by its recorder. Then it sets what it names, and makes its author
   * the confirmer exactly if it did turn the payment to "Paid".
   */
  lemma UpdateExact(w: World, r: Request)
    requires r.action.Update?
    ensures var w', i, to := Step(w, r), r.action.pay, r.action.status;
            if i >= |w.payments| then w' == w
            else
              var p, paying := w.payments[i], to == Some("Paid") && w.payments[i].status != "Paid";
              if paying && (!r.action.mayConfirm || p.createdBy == Some(r.actor)) then w' == w
              else
                && w'.estimates == w.estimates && |w'.payments| == |w.payments|
                && (forall q | 0 <= q < |w.payments| && q != i :: w'.payments[q] == w.payments[q])
                && w'.payments[i] == Payment(
                     p.lead, p.booking, if to.Some? then to.value else p.status,
                     if r.action.amount.Some? then r.action.amount.value else p.amount,
                     p.createdBy, if paying then Some(r.actor) else p.confirmedBy, p.verifiedBy,
                     p.refundedBy, p.refundedAt, p.refundAmount)
  {
  }

  /** A milestone is recorded as pending, for the amount due, in its creator's name. */
  lemma MilestoneExact(w: World, r: Request)
    requires r.action.CreateMilestone?
    ensures Step(w, r) == World(w.estimates, w.payments + [Payment(None, false, "Pending", r.action.due, Some(r.actor),
                                                                   None, None, None, None, None)])
  {
  }

  /** What a refund request asks for: the sum it names, to the hundredth, else all that is recorded. */
  function Asked(amount: Option<real>, recorded: real): real {
    match amount
    case Some(a) => Round2(a)
    case None => recorded
  }

  /**
   * A refund takes effect exactly on a payment "Paid" or "verified" that was not refunded before,
   * by somebody other than its confirmer or, unconfirmed, its verifier, for more than nothing and
   * no more than is recorded. It pays back just what was asked for; any other request changes
   * nothing at all.
   */
  lemma RefundExact(w: World, r: Request)
    requires r.action.Refund?
    ensures var w', i := Step(w, r), r.action.pay;
            if i >= |w.payments| then w' == w
            else
              var p := w.payments[i];
              var sum := Asked(r.action.amount, p.amount);
              var behind := if p.confirmedBy.Some? then p.confirmedBy else p.verifiedBy;
              if (p.status == "Paid" || p.status == "verified") && p.refundedAt == None && behind != Some(r.actor)
                 && 0.0 < sum && sum <= p.amount
              then
                w' == World(w.estimates, w.payments[i := Payment(
                  p.lead, p.booking, "refunded", p.amount, p.createdBy, p.confirmedBy, p.verifiedBy,
                  Some(r.actor), Some(r.at), Some(sum))])
              else w' == w
  {
  }

  // ------------------------------------------------------------------ estimates in order

  /** Step `k` of the run put estimate `i` into this state. */
  predicate Became(run: seq<Request>, k: nat, i: nat, s: EstimateState) {
    && k < |run|
    && i < |After(run[..k]).estimates| && i < |After(run[..k + 1]).estimates|
    && After(run[..k]).estimates[i].state != s && After(run[..k + 1]).estimates[i].state == s
  }

  lemma BecameLifts(run: seq<Request>, n: nat, k: nat, i: nat, s: EstimateState)
    requires n <= |run| && Became(run[..n], k, i, s)
    ensures Became(run, k, i, s) && k < n && run[..n][k] == run[k]
  {
    assert run[..n][..k] == run[..k] && run[..n][..k + 1] == run[..k + 1];
  }

  /** The approval on record was given in step `k`, by somebody other than the creator. */
  predicate ApprovedIn(run: seq<Request>, k: nat, i: nat, e: Estimate) {
    Became(run, k, i, Approved) && e.approvedBy == Some(run[k].actor) && run[k].actor != e.createdBy
  }

  /** The steps behind a state: submitted, approved by a second person, shared, accepted. */
  ghost predicate Passed(run: seq<Request>, i: nat, e: Estimate) {
    match e.state
    case Submitted => exists a: nat :: Became(run, a, i, Submitted)
    case Approved => exists a: nat, b: nat :: a < b && Became(run, a, i, Submitted) && ApprovedIn(run, b, i, e)
    case Shared => exists a: nat, b: nat, c: nat ::
      a < b < c && Became(run, a, i, Submitted) && ApprovedIn(run, b, i, e) && Became(run, c, i, Shared)
    case Accepted => exists a: nat, b: nat, c: nat, d: nat ::
      a < b < c < d && Became(run, a, i, Submitted) && ApprovedIn(run, b, i, e) &&
      Became(run, c, i, Shared) && Became(run, d, i, Accepted)
    case _ => true
  }

  lemma PassedLifts(run: seq<Request>, n: nat, i: nat, e: Estimate)
    requires n <= |run| && Passed(run[..n], i, e)
    ensures Passed(run, i, e)
  {
    forall k: nat, s | Became(run[..n], k, i, s)
      ensures Became(run, k, i, s) && run[..n][k] == run[k]
    {
      BecameLifts(run, n, k, i, s);
    }
    match e.state
    case Submitted =>
      var a: nat :| Became(run[..n], a, i, Submitted);
      assert Became(run, a, i, Submitted);
    case Approved =>
      var a: nat, b: nat :| a < b && Became(run[..n], a, i, Submitted) && ApprovedIn(run[..n], b, i, e);
      assert Became(run, a, i, Submitted) && ApprovedIn(run, b, i, e);
    case Shared =>
      var a: nat, b: nat, c: nat :| a < b < c && Became(run[..n], a, i, Submitted) && ApprovedIn(run[..n], b, i, e) &&
        Became(run[..n], c, i, Shared);
      assert Became(run, a, i, Submitted) && ApprovedIn(run, b, i, e) && Became(run, c, i, Shared);
    case Accepted =>
      var a: nat, b: nat, c: nat, d: nat :| a < b < c < d && Became(run[..n], a, i, Submitted) &&
        ApprovedIn(run[..n], b, i, e) && Became(run[..n], c, i, Shared) && Became(run[..n], d, i, Accepted);
      assert Became(run, a, i, Submitted) && ApprovedIn(run, b, i, e);
      assert Became(run, c, i, Shared) && Became(run, d, i, Accepted);
    case _ =>
  }

  /** What one step can do to an estimate that was there before. */
  lemma EstimateStep(w: World, r: Request, i: nat)
    requires i < |w.estimates|
    ensures var w' := Step(w, r);
            i < |w'.estimates| &&
            var e, e' := w.estimates[i], w'.estimates[i];
            && e'.createdBy == e.createdBy && e'.lead == e.lead && e'.version == e.version && e'.total == e.total
            && (e' == e ||
                match e'.state
                case Submitted => e.state in {Draft, Changes} && e' == e.(state := Submitted)
                case Approved => e.state == Submitted && r.actor != e.createdBy &&
                    e' == e.(state := Approved, approvedBy := Some(r.actor))
                case Changes => e.state == Submitted && e' == e.(state := Changes)
                case Shared => e.state == Approved && e' == e.(state := Shared)
                case Accepted => e.state == Shared && e' == e.(state := Accepted)
                case Draft => false)
  {
  }

  /**
   * Four eyes on estimates: in every run, an accepted estimate was submitted, then approved by
   * a user other than its creator, then shared, then accepted, in that order.
   */
  lemma {:induction false} AcceptedPassedAll(run: seq<Request>, i: nat)
    requires i < |After(run).estimates|
    ensures Passed(run, i, After(run).estimates[i])
  {
    if run != [] {
      var n := |run| - 1;
      var w := After(run[..n]);
      assert run[..n + 1] == run;
      if i < |w.estimates| {
        AcceptedPassedAll(run[..n], i);
        EstimateStep(w, run[n], i);
        PassedLifts(run, n, i, w.estimates[i]);
        NextPasses(run, n, i);
      }
    }
  }

  lemma NextPasses(run: seq<Request>, n: nat, i: nat)
    requires |run| == n + 1 && i < |After(run[..n]).estimates| && i < |After(run).estimates|
    requires After(run) == Step(After(run[..n]), run[n])
    requires Passed(run[..n], i, After(run[..n]).estimates[i]) && Passed(run, i, After(run[..n]).estimates[i])
    ensures Passed(run, i, After(run).estimates[i])
  {
    var e, e' := After(run[..n]).estimates[i], After(run).estimates[i];
    assert run[..n + 1] == run;
    EstimateStep(After(run[..n]), run[n], i);
    if e' != e {
      assert Became(run, n, i, e'.state);
      match e'.state
      case Approved =>
        var a: nat :| Became(run[..n], a, i, Submitted);
        BecameLifts(run, n, a, i, Submitted);
        assert ApprovedIn(run, n, i, e');
      case Shared =>
        var a: nat, b: nat :| a < b && Became(run[..n], a, i, Submitted) && ApprovedIn(run[..n], b, i, e);
        BecameLifts(run, n, a, i, Submitted);
        BecameLifts(run, n, b, i, Approved);
        assert ApprovedIn(run, b, i, e');
      case Accepted =>
        var a: nat, b: nat, c: nat :| a < b < c && Became(run[..n], a, i, Submitted) && ApprovedIn(run[..n], b, i, e) &&
          Became(run[..n], c, i, Shared);
        BecameLifts(run, n, a, i, Submitted);
        BecameLifts(run, n, b, i, Approved);
        BecameLifts(run, n, c, i, Shared);
        assert ApprovedIn(run, b, i, e');
      case _ =>
    }
  }

  /** Versions of one lead's estimates are distinct, so "the newest accepted" is one estimate. */
  lemma {:induction false} VersionsDistinct(run: seq<Request>)
    ensures forall i, j | 0 <= i < j < |After(run).estimates| ::
              After(run).estimates[i].lead == After(run).estimates[j].lead ==>
                After(run).estimates[i].version != After(run).estimates[j].version
  {
    if run != [] {
      var n := |run| - 1;
      var w := After(run[..n]);
      VersionsDistinct(run[..n]);
      forall i: nat | i < |w.estimates|
        ensures i < |After(run).estimates| &&
                After(run).estimates[i].lead == w.estimates[i].lead &&
                After(run).estimates[i].version == w.estimates[i].version
      {
        EstimateStep(w, run[n], i);
      }
    }
  }

  // ---------------------------------------------------------------------------- payments

  /** A request that took the tables from `w` to `w'` recorded booking payment `p`, on the
      newest accepted estimate of the lead, created by somebody else. */
  ghost predicate BookedFrom(w: World, w': World, r: Request, p: nat, pay: Payment) {
    && r.action.Book? && pay.lead == Some(r.action.lead) && pay.verifiedBy == Some(r.actor)
    && p == |w.payments| < |w'.payments|
    && var est := Newest(w.estimates, r.action.lead, true);
       && est.Some? && w.estimates[est.value].createdBy != r.actor
       && var tenth := w.estimates[est.value].total * 0.1;
          && w'.payments[p].amount == Round2(if r.action.override.Some? then r.action.override.value else tenth)
          && (w'.payments[p].amount == Round2(tenth) <==>
                r.action.override == None || Round2(r.action.override.value) == Round2(tenth))
  }

  ghost predicate BookedIn(run: seq<Request>, k: nat, p: nat, pay: Payment) {
    k < |run| && BookedFrom(After(run[..k]), After(run[..k + 1]), run[k], p, pay)
  }

  predicate PaymentOk(p: Payment) {
    && (p.booking <==> p.createdBy == None)
    && (p.confirmedBy.Some? ==> p.createdBy != p.confirmedBy)
    && (!p.booking && p.status == "Paid" ==> p.confirmedBy.Some?)
    && (p.refundedAt.Some? <==> p.refundAmount.Some?)
    && (p.refundedAt.Some? ==> p.refundAmount.value > 0.0)
  }

  lemma PaymentStep(w: World, r: Request, p: nat)
    requires p < |w.payments| && PaymentOk(w.payments[p])
    ensures var w' := Step(w, r);
            p < |w'.payments| && PaymentOk(w'.payments[p]) &&
            var a, b := w.payments[p], w'.payments[p];
            a.booking == b.booking && a.lead == b.lead && a.verifiedBy == b.verifiedBy && a.createdBy == b.createdBy
  {
  }

  lemma RefundMarkStays(w: World, r: Request, p: nat)
    requires p < |w.payments| && w.payments[p].refundedAt.Some?
    ensures p < |Step(w, r).payments| && Step(w, r).payments[p].refundedAt.Some?
  {
  }

  /** The payment a step adds, if it adds one. */
  lemma NewPayment(w: World, r: Request, p: nat)
    requires |w.payments| <= p < |Step(w, r).payments|
    ensures p == |w.payments| && PaymentOk(Step(w, r).payments[p])
    ensures Step(w, r).payments[p].booking ==>
              r.action.Book? && BookAllowed(w, r.action.lead, r.actor) &&
              Step(w, r).payments[p].lead == Some(r.action.lead) && Step(w, r).payments[p].verifiedBy == Some(r.actor)
  {
  }

  /** A refund marks the payment, returns no more than is recorded at that moment, and is given
      by somebody who neither confirmed it nor, if nobody did, verified it. */
  lemma RefundEffect(w: World, r: Request)
    requires r.action.Refund? && RefundAllowed(w, r.action.pay, r.action.amount, r.actor)
    ensures var p, p' := w.payments[r.action.pay], Step(w, r).payments[r.action.pay];
            && p'.refundedAt.Some? && p'.refundAmount == Some(RefundSum(p, r.action.amount))
            && 0.0 < p'.refundAmount.value <= p.amount && p'.refundedBy == Some(r.actor)
            && p.confirmedBy != Some(r.actor)
            && (p.confirmedBy == None ==> p.verifiedBy != Some(r.actor))
  {
  }

  /**
   * Four eyes on money, in every run: a confirmed milestone was confirmed by somebody other than
   * its recorder, and one standing at "Paid" has such a confirmer; a booking payment was verified
   * by somebody other than the creator of the newest accepted estimate at that time, for the
   * caller's amount or, when there is none, a tenth of that estimate's total; and no lead has two.
   */
  lemma {:induction false} PaymentsAreFourEyed(run: seq<Request>)
    ensures forall p | 0 <= p < |After(run).payments| :: PaymentOk(After(run).payments[p])
    ensures forall p: nat | p < |After(run).payments| && After(run).payments[p].booking ::
              exists k: nat :: BookedIn(run, k, p, After(run).payments[p])
    ensures forall p, q | 0 <= p < q < |After(run).payments| &&
              After(run).payments[p].booking && After(run).payments[q].booking ::
              After(run).payments[p].lead != After(run).payments[q].lead
  {
    if run != [] {
      var n := |run| - 1;
      var w, w' := After(run[..n]), After(run);
      PaymentsAreFourEyed(run[..n]);
      forall p: nat | p < |w'.payments|
        ensures PaymentOk(w'.payments[p])
        ensures w'.payments[p].booking ==> exists k: nat :: BookedIn(run, k, p, w'.payments[p])
        ensures p < |w.payments| ==>
                  w'.payments[p].booking == w.payments[p].booking && w'.payments[p].lead == w.payments[p].lead
        ensures p >= |w.payments| ==>
                  p == |w.payments| && (w'.payments[p].booking ==> FirstBooking(w, w'.payments[p]))
      {
        if p < |w.payments| {
          PaymentStep(w, run[n], p);
          if w.payments[p].booking { BookingLifts(run, n, p); }
        } else {
          NewPayment(w, run[n], p);
          if w'.payments[p].booking { BookingArises(run, n, p); }
        }
      }
    }
  }

  lemma BookingLifts(run: seq<Request>, n: nat, p: nat)
    requires |run| == n + 1 && p < |After(run[..n]).payments| && p < |After(run).payments|
    requires exists k: nat :: BookedIn(run[..n], k, p, After(run[..n]).payments[p])
    requires var a, b := After(run[..n]).payments[p], After(run).payments[p];
             a.lead == b.lead && a.verifiedBy == b.verifiedBy
    ensures exists k: nat :: BookedIn(run, k, p, After(run).payments[p])
  {
    var a, b := After(run[..n]).payments[p], After(run).payments[p];
    var k: nat :| BookedIn(run[..n], k, p, a);
    BookedInLifts(run, n, k, p, a, b);
  }

  lemma BookedInLifts(run: seq<Request>, n: nat, k: nat, p: nat, a: Payment, b: Payment)
    requires n <= |run| && BookedIn(run[..n], k, p, a) && a.lead == b.lead && a.verifiedBy == b.verifiedBy
    ensures BookedIn(run, k, p, b)
  {
    assert run[..n][..k] == run[..k] && run[..n][..k + 1] == run[..k + 1] && run[..n][k] == run[k];
    BookedFromSame(After(run[..k]), After(run[..k + 1]), run[k], p, a, b);
  }

  lemma BookedFromSame(w: World, w': World, r: Request, p: nat, a: Payment, b: Payment)
    requires BookedFrom(w, w', r, p, a) && a.lead == b.lead && a.verifiedBy == b.verifiedBy
    ensures BookedFrom(w, w', r, p, b)
  {
  }

  lemma BookingArises(run: seq<Request>, n: nat, p: nat)
    requires |run| == n + 1 && |After(run[..n]).payments| <= p < |After(run).payments| && After(run).payments[p].booking
    ensures exists k: nat :: BookedIn(run, k, p, After(run).payments[p])
  {
    assert run[..n + 1] == run;
    NewBooking(After(run[..n]), run[n], p);
    assert BookedIn(run, n, p, After(run).payments[p]);
  }

  lemma NewBooking(w: World, r: Request, p: nat)
    requires |w.payments| <= p < |Step(w, r).payments| && Step(w, r).payments[p].booking
    ensures BookedFrom(w, Step(w, r), r, p, Step(w, r).payments[p])
  {
    NewPayment(w, r, p);
  }

  predicate RefundedIn(run: seq<Request>, k: nat, p: nat) {
    && k < |run| && run[k].action.Refund? && run[k].action.pay == p
    && RefundAllowed(After(run[..k]), p, run[k].action.amount, run[k].actor)
  }

  lemma {:induction false} RefundStays(run: seq<Request>, k: nat, n: nat, p: nat)
    requires k <= n <= |run| && p < |After(run[..k]).payments| && After(run[..k]).payments[p].refundedAt.Some?
    ensures p < |After(run[..n]).payments| && After(run[..n]).payments[p].refundedAt.Some?
    decreases n
  {
    hide Step;
    if k < n {
      RefundStays(run, k, n - 1, p);
      assert run[..n][..n - 1] == run[..n - 1] && run[..n][n - 1] == run[n - 1];
      RefundMarkStays(After(run[..n - 1]), run[n - 1], p);
    }
  }

  /** A payment is refunded at most once per run, whatever its status is edited to in between. */
  lemma RefundedAtMostOnce(run: seq<Request>, a: nat, b: nat, p: nat)
    requires a < b && RefundedIn(run, a, p)
    ensures !RefundedIn(run, b, p)
  {
    AfterSnoc(run, a);
    RefundEffect(After(run[..a]), run[a]);
    if b < |run| {
      RefundStays(run, a + 1, b, p);
    }
  }

  lemma AfterSnoc(run: seq<Request>, k: nat)
    requires k < |run|
    ensures After(run[..k + 1]) == Step(After(run[..k]), run[k])
  {
    assert run[..k + 1][..k] == run[..k] && run[..k + 1][k] == run[k];
  }

  /** Step `k` confirmed the payment: it went to "Paid" by somebody other than its recorder. */
  predicate ConfirmedIn(run: seq<Request>, k: nat, p: nat) {
    && k < |run| && run[k].action.Update? && run[k].action.pay == p
    && UpdateAllowed(After(run[..k]), p, run[k].action.status, run[k].action.mayConfirm, run[k].actor)
    && Confirms(After(run[..k]).payments[p], run[k].action.status)
  }

  lemma ConfirmedLifts(run: seq<Request>, n: nat, p: nat)
    requires |run| == n + 1
    ensures (exists k: nat :: ConfirmedIn(run, k, p)) <==>
            (exists k: nat :: ConfirmedIn(run[..n], k, p)) || ConfirmedIn(run, n, p)
  {
    hide After, UpdateAllowed, Confirms;
    if k: nat :| ConfirmedIn(run, k, p) && k < n {
      assert run[..n][..k] == run[..k];
      assert ConfirmedIn(run[..n], k, p);
    }
    if k: nat :| ConfirmedIn(run[..n], k, p) {
      assert run[..n][..k] == run[..k];
      assert ConfirmedIn(run, k, p);
    }
  }

  /** One step and the names on a payment: confirming is the only way to a confirmer. */
  lemma NamesStep(w: World, r: Request, p: nat)
    requires p < |Step(w, r).payments|
    ensures var b := Step(w, r).payments[p];
            var confirms := p < |w.payments| && r.action.Update? && r.action.pay == p &&
                            UpdateAllowed(w, p, r.action.status, r.action.mayConfirm, r.actor) &&
                            Confirms(w.payments[p], r.action.status);
            && (confirms ==> b.confirmedBy == Some(r.actor))
            && (!confirms ==> b.confirmedBy == if p < |w.payments| then w.payments[p].confirmedBy else None)
            && (p < |w.payments| ==> b.verifiedBy == w.payments[p].verifiedBy && b.booking == w.payments[p].booking)
            && (p >= |w.payments| ==> (b.verifiedBy.Some? <==> b.booking))
  {
  }

  /** Who is on record, over every run: a verifier exactly on bookings, a confirmer exactly once
      some step confirmed the payment. */
  lemma {:induction false} NamesOnRecord(run: seq<Request>, p: nat)
    requires p < |After(run).payments|
    ensures After(run).payments[p].verifiedBy.Some? <==> After(run).payments[p].booking
    ensures After(run).payments[p].confirmedBy.Some? <==> exists k: nat :: ConfirmedIn(run, k, p)
  {
    if run != [] {
      var n := |run| - 1;
      NamesStep(After(run[..n]), run[n], p);
      ConfirmedLifts(run, n, p);
      if p < |After(run[..n]).payments| {
        NamesOnRecord(run[..n], p);
      } else {
        NotYetConfirmed(run[..n], p);
      }
    }
  }

  lemma PaymentsStay(w: World, r: Request)
    ensures |w.payments| <= |Step(w, r).payments|
  {
  }

  lemma {:induction false} PaymentsGrow(run: seq<Request>, k: nat)
    requires k <= |run|
    ensures |After(run[..k]).payments| <= |After(run).payments|
    decreases |run| - k
  {
    if k < |run| {
      AfterSnoc(run, k);
      hide Step, After;
      PaymentsGrow(run, k + 1);
      PaymentsStay(After(run[..k]), run[k]);
    } else {
      assert run[..k] == run;
    }
  }

  lemma NotYetConfirmed(run: seq<Request>, p: nat)
    requires p >= |After(run).payments|
    ensures !exists k: nat :: ConfirmedIn(run, k, p)
  {
    if k: nat :| ConfirmedIn(run, k, p) {
      PaymentsGrow(run, k);
      assert false;
    }
  }

  /** Who recorded a payment: the verifier of a booking, else its creator. */
  function Recorder(p: Payment): Option<User> {
    if p.booking then p.verifiedBy else p.createdBy
  }

  predicate LastConfirm(run: seq<Request>, k: nat, p: nat) {
    ConfirmedIn(run, k, p) && forall j | k < j < |run| :: !ConfirmedIn(run, j, p)
  }

  lemma {:induction false} HasLastConfirm(run: seq<Request>, p: nat)
    requires p < |After(run).payments| && After(run).payments[p].confirmedBy.Some?
    ensures exists k: nat :: LastConfirm(run, k, p) && After(run).payments[p].confirmedBy == Some(run[k].actor)
  {
    if run != [] {
      hide Step, UpdateAllowed, Confirms;
      var n := |run| - 1;
      var w := After(run[..n]);
      NamesStep(w, run[n], p);
      if ConfirmedIn(run, n, p) {
        assert LastConfirm(run, n, p);
      } else {
        HasLastConfirm(run[..n], p);
        var k: nat :| LastConfirm(run[..n], k, p) && w.payments[p].confirmedBy == Some(run[..n][k].actor);
        LastConfirmLifts(run, n, k, p);
      }
    }
  }

  lemma LastConfirmLifts(run: seq<Request>, n: nat, k: nat, p: nat)
    requires |run| == n + 1 && LastConfirm(run[..n], k, p) && !ConfirmedIn(run, n, p)
    ensures LastConfirm(run, k, p)
  {
    hide After, UpdateAllowed, Confirms;
    assert forall j | 0 <= j < n :: run[..n][..j] == run[..j] && run[..n][j] == run[j];
    forall j | k < j < |run|
      ensures !ConfirmedIn(run, j, p)
    {
      if j < n { assert !ConfirmedIn(run[..n], j, p); }
    }
  }

  /**
   * Who stands as confirmer, over every run: whoever took the last confirming step. That is
   * somebody other than the recorder on every milestone, and on a booking exactly unless its
   * verifier took the step.
   */
  lemma ConfirmerExact(run: seq<Request>, p: nat)
    requires p < |After(run).payments| && After(run).payments[p].confirmedBy.Some?
    ensures var pay := After(run).payments[p];
            exists k: nat ::
              && LastConfirm(run, k, p) && pay.confirmedBy == Some(run[k].actor)
              && (pay.confirmedBy != Recorder(pay) <==> !pay.booking || pay.verifiedBy != Some(run[k].actor))
  {
    PaymentsAreFourEyed(run);
    HasLastConfirm(run, p);
  }

  /** One request of this user takes the payment to "Paid". */
  ghost predicate CanConfirm(w: World, p: nat, u: User) {
    exists r: Request :: r.actor == u && p < |Step(w, r).payments| && Step(w, r).payments[p].status == "Paid"
  }

  /** Who may confirm, after any run: on a milestone everybody but its recorder, on a booking
      everybody, its recorder included. */
  lemma MayConfirmExact(run: seq<Request>, p: nat, u: User)
    requires p < |After(run).payments| && After(run).payments[p].status != "Paid"
    ensures var pay := After(run).payments[p];
            CanConfirm(After(run), p, u) <==> pay.booking || Recorder(pay) != Some(u)
  {
    hide After, BookedIn;
    var w := After(run);
    PaymentsAreFourEyed(run);
    if r: Request :| r.actor == u && p < |Step(w, r).payments| && Step(w, r).payments[p].status == "Paid" {
      OnlyConfirming(w, r, p);
    }
    if w.payments[p].createdBy != Some(u) {
      var r := Request(u, Update(p, Some("Paid"), None, true), 0);
      assert Step(w, r).payments[p].status == "Paid";
    }
  }

  lemma OnlyConfirming(w: World, r: Request, p: nat)
    requires p < |w.payments| && w.payments[p].status != "Paid"
    requires p < |Step(w, r).payments| && Step(w, r).payments[p].status == "Paid"
    ensures w.payments[p].createdBy != Some(r.actor)
  {
  }

  /** The shortest run that shows it: one person records a booking, for any amount, and confirms it. */
  function SoloBooking(a: User, b: User, amount: real, at: int): seq<Request> {
    [Request(a, CreateEstimate(0, [Item(1.0, 1.0)], 0.0, 0.0), at), Request(a, Submit(0), at),
     Request(b, Approve(0), at), Request(b, Share(0), at), Request(b, Accept(0), at),
     Request(b, Book(0, Some(amount)), at), Request(b, Update(0, Some("Paid"), None, true), at)]
  }

  /** The estimate its steps leave accepted. */
  function AcceptedOf(a: User, b: User): Estimate {
    Estimate(0, 1, Accepted, a, Some(b), TotalsOf([Item(1.0, 1.0)], 0.0, 0.0).total)
  }

  /** One estimate alone, taken one state further. */
  lemma EstimateMoves(e: Estimate, r: Request)
    ensures r.action == Submit(0) && e.state == Draft ==>
              Step(World([e], []), r) == World([e.(state := Submitted)], [])
    ensures r.action == Approve(0) && e.state == Submitted && e.createdBy != r.actor ==>
              Step(World([e], []), r) == World([e.(state := Approved, approvedBy := Some(r.actor))], [])
    ensures r.action == Share(0) && e.state == Approved ==>
              Step(World([e], []), r) == World([e.(state := Shared)], [])
    ensures r.action == Accept(0) && e.state == Shared ==>
              Step(World([e], []), r) == World([e.(state := Accepted)], [])
  {
  }

  lemma FirstDraft(a: User, b: User, amount: real, at: int)
    ensures After(SoloBooking(a, b, amount, at)[..1]) ==
            World([AcceptedOf(a, b).(state := Draft, approvedBy := None)], [])
  {
    hide TotalsOf;
    var run := SoloBooking(a, b, amount, at);
    assert run[..0] == [] && After(run[..0]) == World([], []);
    AfterSnoc(run, 0);
  }

  lemma SoloEstimate(a: User, b: User, amount: real, at: int)
    requires a != b
    ensures After(SoloBooking(a, b, amount, at)[..5]) == World([AcceptedOf(a, b)], [])
  {
    FirstDraft(a, b, amount, at);
    hide After, Step, TotalsOf;
    var run, last := SoloBooking(a, b, amount, at), AcceptedOf(a, b);
    AfterSnoc(run, 1);
    EstimateMoves(last.(state := Draft, approvedBy := None), run[1]);
    AfterSnoc(run, 2);
    EstimateMoves(last.(state := Submitted, approvedBy := None), run[2]);
    AfterSnoc(run, 3);
    EstimateMoves(last.(state := Approved), run[3]);
    AfterSnoc(run, 4);
    EstimateMoves(last.(state := Shared), run[4]);
  }

  lemma BookingConfirmedAlone(a: User, b: User, amount: real, at: int)
    requires a != b
    ensures var w := After(SoloBooking(a, b, amount, at));
            && |w.payments| == 1 && w.payments[0].booking && w.payments[0].status == "Paid"
            && w.payments[0].amount == Round2(amount)
            && w.payments[0].confirmedBy == Some(b) == Recorder(w.payments[0])
  {
    hide After, TotalsOf, Round2;
    var run, est := SoloBooking(a, b, amount, at), AcceptedOf(a, b);
    SoloEstimate(a, b, amount, at);
    AfterSnoc(run, 5);
    assert Newest([est], 0, true) == Some(0) by { assert [est][..0] == []; }
    assert BookAllowed(World([est], []), 0, b);
    var pay := Payment(Some(0), true, "verified", Round2(amount), None, None, Some(b), None, None, None);
    assert After(run[..6]) == World([est], [pay]);
    AfterSnoc(run, 6);
    assert run[..7] == run;
  }

  /** Somebody other than the refunder stands behind the payment: its confirmer, else its verifier. */
  predicate SecondPerson(pay: Payment, refunder: User) {
    var behind := if pay.confirmedBy.Some? then pay.confirmedBy else pay.verifiedBy;
    behind.Some? && behind.value != refunder
  }

  lemma RefundStep(w: World, r: Request, p: nat)
    requires p < |Step(w, r).payments| && Step(w, r).payments[p].refundedAt.Some?
    requires p < |w.payments| ==> w.payments[p].refundedAt == None
    ensures r.action.Refund? && r.action.pay == p && RefundAllowed(w, p, r.action.amount, r.actor)
  {
  }

  lemma {:induction false} RefundHasStep(run: seq<Request>, p: nat)
    requires p < |After(run).payments| && After(run).payments[p].refundedAt.Some?
    ensures exists k: nat :: RefundedIn(run, k, p)
  {
    if run != [] {
      hide Step, RefundAllowed;
      var n := |run| - 1;
      var w := After(run[..n]);
      if p < |w.payments| && w.payments[p].refundedAt.Some? {
        RefundHasStep(run[..n], p);
        var k: nat :| RefundedIn(run[..n], k, p);
        assert run[..n][..k] == run[..k];
        assert RefundedIn(run, k, p);
      } else {
        RefundStep(w, run[n], p);
        assert RefundedIn(run, n, p);
      }
    }
  }

  /** Step `k` left the payment refunded by this sum. */
  predicate PaidBack(run: seq<Request>, k: nat, p: nat, sum: real) {
    && k < |run| && p < |After(run[..k + 1]).payments|
    && After(run[..k + 1]).payments[p].refundAmount == Some(sum)
  }

  /**
   * Dual control of refunds, over every run. A refunded payment was refunded by a step of the
   * run, for the sum it asked for and no more than was recorded, and that step had a second
   * person behind it exactly when the payment is a booking or an earlier step confirmed it.
   * Neither is asked for: a status edited to "verified" is enough to refund.
   */
  lemma RefundControlExact(run: seq<Request>, p: nat)
    requires p < |After(run).payments| && After(run).payments[p].refundedAt.Some?
    ensures exists k: nat :: RefundedIn(run, k, p)
    ensures forall k: nat | RefundedIn(run, k, p) ::
              var pay := After(run[..k]).payments[p];
              && 0.0 < Asked(run[k].action.amount, pay.amount) <= pay.amount
              && PaidBack(run, k, p, Asked(run[k].action.amount, pay.amount))
              && (SecondPerson(pay, run[k].actor) <==>
                    pay.booking || exists j: nat :: ConfirmedIn(run[..k], j, p))
              && (!pay.booking && pay.status == "Paid" ==> SecondPerson(pay, run[k].actor))
  {
    RefundHasStep(run, p);
    forall k: nat | RefundedIn(run, k, p)
      ensures var pay := After(run[..k]).payments[p];
              && 0.0 < Asked(run[k].action.amount, pay.amount) <= pay.amount
              && PaidBack(run, k, p, Asked(run[k].action.amount, pay.amount))
              && (SecondPerson(pay, run[k].actor) <==>
                    pay.booking || exists j: nat :: ConfirmedIn(run[..k], j, p))
              && (!pay.booking && pay.status == "Paid" ==> SecondPerson(pay, run[k].actor))
    {
      RefundPaysBack(run, k, p);
      RefundHadSecond(run, k, p);
    }
  }

  lemma RefundPaysBack(run: seq<Request>, k: nat, p: nat)
    requires RefundedIn(run, k, p)
    ensures var pay := After(run[..k]).payments[p];
            && 0.0 < Asked(run[k].action.amount, pay.amount) <= pay.amount
            && PaidBack(run, k, p, Asked(run[k].action.amount, pay.amount))
  {
    hide After;
    AfterSnoc(run, k);
    RefundExact(After(run[..k]), run[k]);
  }

  lemma RefundHadSecond(run: seq<Request>, k: nat, p: nat)
    requires RefundedIn(run, k, p)
    ensures var pay := After(run[..k]).payments[p];
            && (SecondPerson(pay, run[k].actor) <==>
                  pay.booking || exists j: nat :: ConfirmedIn(run[..k], j, p))
            && (!pay.booking && pay.status == "Paid" ==> SecondPerson(pay, run[k].actor))
  {
    hide After, Step;
    NamesOnRecord(run[..k], p);
    PaymentsAreFourEyed(run[..k]);
  }

  /** One person records money, edits its status to "verified" and refunds it alone. */
  lemma SoloRefund(u: User, due: real, at: int)
    requires due > 0.0
    ensures var run := [Request(u, CreateMilestone(due), at), Request(u, Update(0, Some("verified"), None, false), at),
                        Request(u, Refund(0, None), at)];
            RefundedIn(run, 2, 0) && !SecondPerson(After(run[..2]).payments[0], u)
  {
    var run := [Request(u, CreateMilestone(due), at), Request(u, Update(0, Some("verified"), None, false), at),
                Request(u, Refund(0, None), at)];
    var one, two := run[..1], run[..2];
    assert one[..0] == [] && After(one[..0]) == World([], []);
    assert two[..1] == one && two[1] == run[1];
    var w1 := Step(World([], []), run[0]);
    assert After(one) == w1;
    assert After(two) == Step(w1, run[1]);
  }

  /** Only the literal "Paid" is a confirmation: a recorder's own status edit goes through
      exactly when it does not turn a payment into "Paid". */
  lemma RecorderEditsExact(w: World, i: nat, status: string, actor: User, at: int)
    requires i < |w.payments| && w.payments[i].createdBy == Some(actor)
    ensures Step(w, Request(actor, Update(i, Some(status), None, true), at)).payments[i].status == status <==>
            (status != "Paid" || w.payments[i].status == "Paid")
  {
  }

  predicate Solo(more: seq<Request>, u: User) {
    forall i | 0 <= i < |more| :: more[i].actor == u
  }

  /** By requests of this user alone, the payment can be brought to this status. */
  ghost predicate SoloReaches(run: seq<Request>, p: nat, u: User, status: string) {
    exists more :: Solo(more, u) && p < |After(run + more).payments| && After(run + more).payments[p].status == status
  }

  lemma SoloStep(w: World, r: Request, p: nat)
    requires p < |w.payments| && w.payments[p].createdBy == Some(r.actor) && w.payments[p].status != "Paid"
    ensures p < |Step(w, r).payments|
    ensures Step(w, r).payments[p].createdBy == Some(r.actor) && Step(w, r).payments[p].status != "Paid"
  {
  }

  lemma {:induction false} SoloNeverPaid(run: seq<Request>, more: seq<Request>, p: nat, u: User)
    requires p < |After(run).payments| && After(run).payments[p].createdBy == Some(u)
    requires After(run).payments[p].status != "Paid" && Solo(more, u)
    ensures p < |After(run + more).payments|
    ensures After(run + more).payments[p].createdBy == Some(u) && After(run + more).payments[p].status != "Paid"
  {
    hide After, Step;
    if more == [] {
      assert run + more == run;
    } else {
      var n := |more| - 1;
      SoloNeverPaid(run, more[..n], p, u);
      SoloStep(After(run + more[..n]), more[n], p);
      AfterAppend(run, more);
    }
  }

  lemma AfterAppend(run: seq<Request>, more: seq<Request>)
    requires more != []
    ensures After(run + more) == Step(After(run + more[..|more| - 1]), more[|more| - 1])
  {
    hide Step, After;
    var whole := run + more;
    assert whole[..|whole| - 1] == run + more[..|more| - 1] && whole[..|whole|] == whole;
    AfterSnoc(whole, |whole| - 1);
  }

  /**
   * What its recorder can do to an unconfirmed payment alone, after any run and by any further
   * requests: bring it to every status but "Paid".
   */
  lemma RecorderAloneExact(run: seq<Request>, p: nat, u: User, status: string)
    requires p < |After(run).payments| && After(run).payments[p].createdBy == Some(u)
    requires After(run).payments[p].status != "Paid"
    ensures SoloReaches(run, p, u, status) <==> status != "Paid"
  {
    hide Step, After;
    if more :| Solo(more, u) && p < |After(run + more).payments| && After(run + more).payments[p].status == status {
      SoloNeverPaid(run, more, p, u);
    }
    if status != "Paid" {
      var edit := Request(u, Update(p, Some(status), None, true), 0);
      RecorderEditsExact(After(run), p, status, u, 0);
      PaymentsStay(After(run), edit);
      AfterAppend(run, [edit]);
      assert run + [edit][..0] == run;
      assert Solo([edit], u);
    }
  }

  /** Step `k` set the amount of the payment. */
  predicate AmountSetIn(run: seq<Request>, k: nat, p: nat) {
    && k < |run| && run[k].action.Update? && run[k].action.pay == p && run[k].action.amount.Some?
    && UpdateAllowed(After(run[..k]), p, run[k].action.status, run[k].action.mayConfirm, run[k].actor)
  }

  lemma AmountStep(w: World, r: Request, p: nat)
    requires p < |w.payments|
    requires r.action.Update? && r.action.pay == p && r.action.amount.Some? ==>
               !UpdateAllowed(w, p, r.action.status, r.action.mayConfirm, r.actor)
    ensures p < |Step(w, r).payments| && Step(w, r).payments[p].amount == w.payments[p].amount
  {
  }

  lemma {:induction false} AmountStands(run: seq<Request>, k: nat, n: nat, p: nat)
    requires k <= n <= |run| && p < |After(run[..k]).payments|
    requires forall j | k <= j < n :: !AmountSetIn(run, j, p)
    ensures p < |After(run[..n]).payments|
    ensures After(run[..n]).payments[p].amount == After(run[..k]).payments[p].amount
    decreases n
  {
    hide Step, After, UpdateAllowed;
    if k < n {
      AmountStands(run, k, n - 1, p);
      assert !AmountSetIn(run, n - 1, p);
      AmountStep(After(run[..n - 1]), run[n - 1], p);
      AfterSnoc(run, n - 1);
    }
  }

  /** The amount its last confirmation put a payment at. */
  ghost predicate StandsAsConfirmed(run: seq<Request>, k: nat, p: nat) {
    && LastConfirm(run, k, p) && p < |After(run[..k + 1]).payments| && p < |After(run).payments|
    && ((forall j | k < j < |run| :: !AmountSetIn(run, j, p)) ==>
          After(run).payments[p].amount == After(run[..k + 1]).payments[p].amount)
  }

  /**
   * What a confirmation is worth, over every run: a milestone at "Paid" carries the amount its
   * last confirmation left it at, unless a later update set another.
   */
  lemma PaidAmountStands(run: seq<Request>, p: nat)
    requires p < |After(run).payments| && !After(run).payments[p].booking && After(run).payments[p].status == "Paid"
    ensures exists k: nat :: StandsAsConfirmed(run, k, p)
  {
    PaymentsAreFourEyed(run);
    HasLastConfirm(run, p);
    var k: nat :| LastConfirm(run, k, p);
    AfterSnoc(run, k);
    PaymentsStay(After(run[..k]), run[k]);
    assert run[..|run|] == run;
    if forall j | k < j < |run| :: !AmountSetIn(run, j, p) {
      AmountStands(run, k + 1, |run|, p);
    }
    assert StandsAsConfirmed(run, k, p);
  }

  /** And such an update needs nobody else: after any run its recorder can give a payment any
      amount, "Paid" and its confirmer standing as they are. */
  lemma RecorderSetsAnyAmount(run: seq<Request>, p: nat, u: User, amount: real, at: int)
    requires p < |After(run).payments| && After(run).payments[p].createdBy == Some(u)
    ensures After(run + [Request(u, Update(p, None, Some(amount), false), at)]).payments ==
            After(run).payments[p := After(run).payments[p].(amount := amount)]
  {
    hide After;
    var edit := [Request(u, Update(p, None, Some(amount), false), at)];
    AfterAppend(run, edit);
    assert run + edit[..0] == run;
  }

  // ------------------------------------------------------------------ the running code

  class Desk {
    var estimates: seq<Estimate>
    var payments: seq<Payment>

    ghost function State(): World
      reads this
    {
      World(estimates, payments)
    }

    constructor ()
      ensures State() == World([], [])
    {
      estimates, payments := [], [];
    }

    method NewEstimate(actor: User, lead: nat, items: seq<Item>, discount: real, taxPercent: real, at: int)
      returns (ok: bool)
      modifies this
      ensures ok == (items != [])
      ensures State() == Step(old(State()), Request(actor, CreateEstimate(lead, items, discount, taxPercent), at))
    {
      if items == [] {
        return false;
      }
      var prev := Newest(estimates, lead, false);
      var version := if prev.Some? then estimates[prev.value].version + 1 else 1;
      var t := ComputeTotals(items, discount, taxPercent);
      estimates := estimates + [Estimate(lead, version, Draft, actor, None, t.total)];
      ok := true;
    }

    method Transition(i: nat, allowFrom: set<EstimateState>, to: EstimateState) returns (ok: bool)
      modifies this
      ensures ok == (i < |old(estimates)| && old(estimates)[i].state in allowFrom)
      ensures State() == Transitioned(old(State()), i, allowFrom, to)
    {
      if i >= |estimates| || estimates[i].state !in allowFrom {
        return false;
      }
      estimates := estimates[i := estimates[i].(state := to)];
      ok := true;
    }

    method ApproveEstimate(actor: User, i: nat, at: int) returns (ok: bool)
      modifies this
      ensures ok == ApproveAllowed(old(State()), i, actor)
      ensures State() == Step(old(State()), Request(actor, Approve(i), at))
    {
      if i >= |estimates| || estimates[i].createdBy == actor {
        return false;
      }
      ok := Transition(i, {Submitted}, Approved);
      if ok {
        estimates := estimates[i := estimates[i].(approvedBy := Some(actor))];
      }
    }

    method RecordBooking(actor: User, lead: nat, override: Option<real>, at: int) returns (ok: bool)
      modifies this
      ensures ok == BookAllowed(old(State()), lead, actor)
      ensures State() == Step(old(State()), Request(actor, Book(lead, override), at))
    {
      for p := 0 to |payments|
        invariant forall q | 0 <= q < p :: !(payments[q].booking && payments[q].lead == Some(lead))
      {
        if payments[p].booking && payments[p].lead == Some(lead) {
          return false;
        }
      }
      var best := Newest(estimates, lead, true);
      if best == None || estimates[best.value].createdBy == actor {
        return false;
      }
      var amount := Round2(if override.Some? then override.value else estimates[best.value].total * 0.1);
      payments := payments + [Payment(Some(lead), true, "verified", amount, None, None, Some(actor), None, None, None)];
      ok := true;
    }

    method UpdatePayment(actor: User, i: nat, status: Option<string>, amount: Option<real>, mayConfirm: bool, at: int)
      returns (ok: bool)
      modifies this
      ensures ok == UpdateAllowed(old(State()), i, status, mayConfirm, actor)
      ensures State() == Step(old(State()), Request(actor, Update(i, status, amount, mayConfirm), at))
    {
      if i >= |payments| {
        return false;
      }
      var existing := payments[i];
      var update := existing;
      if status.Some? {
        update := update.(status := status.value);
      }
      if amount.Some? {
        update := update.(amount := amount.value);
      }
      if status == Some("Paid") && existing.status != "Paid" {
        if !mayConfirm || existing.createdBy == Some(actor) {
          return false;
        }
        update := update.(confirmedBy := Some(actor));
      }
      payments := payments[i := update];
      ok := true;
    }

    method RefundPayment(actor: User, i: nat, amount: Option<real>, at: int) returns (ok: bool)
      modifies this
      ensures ok == RefundAllowed(old(State()), i, amount, actor)
      ensures State() == Step(old(State()), Request(actor, Refund(i, amount), at))
    {
      if i >= |payments| {
        return false;
      }
      var rec := payments[i];
      if rec.status != "Paid" && rec.status != "verified" {
        return false;
      }
      if rec.status == "refunded" || rec.refundedAt.Some? {
        return false;
      }
      var holder := if rec.confirmedBy.Some? then rec.confirmedBy else rec.verifiedBy;
      if holder == Some(actor) {
        return false;
      }
      var sum := if amount.Some? then Round2(amount.value) else rec.amount;
      if sum <= 0.0 || sum > rec.amount {
        return false;
      }
      payments := payments[i := rec.(status := "refunded", refundedAt := Some(at), refundedBy := Some(actor),
                                     refundAmount := Some(sum))];
      ok := true;
    }
  }
}
