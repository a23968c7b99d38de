/** What whole histories of deliveries do to one plan: renewals among other events, which events
    commute, and three histories in which the program does not do what its comments say. */
module BillingHistories {
  import opened Basics
  import opened Billing

  // ------------------------------------------- renewals in a history

  predicate IsPlanEvent(e: Event) { !e.Checkout? && !e.OtherEvent? }

  /** The delivery is processed, for plan `p`. */
  predicate Reaches(s: Store, d: Delivery, p: EntId) {
    !d.NewRfp? && IsAttempted(s, d) && IsPlanEvent(d.event) && d.pick == Some(p)
  }

  lemma StepLeavesPlan(s: Store, d: Delivery, p: EntId)
    requires IsDeliverable(s, d) && p < |s.book.ents| && !Reaches(s, d, p)
    ensures var b' := Deliver(s, d).book;
            p < |b'.ents| && b'.ents[p] == s.book.ents[p] && (p in b'.canceled <==> p in s.book.canceled)
  {
  }

  /** A renewal is a canonical invoice, or one whose processing raises and changes nothing. */
  predicate IsRenewal(e: Event) { IsCanonical(e) || (e.InvoicePaid? && Overflows(e.stamps)) }

  lemma StepSkipsPlan(s: Store, d: Delivery, p: EntId)
    requires IsDeliverable(s, d) && p < |s.book.ents| && Reaches(s, d, p)
    requires d.event.InvoicePaid? && Overflows(d.event.stamps)
    ensures Deliver(s, d).book == s.book
  {
  }

  lemma StepRenewsPlan(s: Store, d: Delivery, p: EntId)
    requires IsDeliverable(s, d) && p < |s.book.ents| && Reaches(s, d, p) && IsCanonical(d.event)
    requires p !in s.book.canceled
    ensures var b' := Deliver(s, d).book;
            && p < |b'.ents| && p !in b'.canceled && b'.ents[p].active
            && b'.ents[p].periodEnd == PaidPeriod(s.book.ents[p].periodEnd, Some(PeriodOf(d.event)), d.now)
  {
  }

  /** From state `i` to state `j`, plan `p` is reached by renewals only. */
  ghost predicate OnlyRenewed(states: seq<Store>, deliveries: seq<Delivery>, i: nat, j: nat, p: EntId)
    requires IsHistory(states, deliveries) && i <= j <= |deliveries|
  {
    forall k | i <= k < j :: Reaches(states[k], deliveries[k], p) ==> IsRenewal(deliveries[k].event)
  }

  /** The periods of the canonical ones. */
  function PeriodsReaching(states: seq<Store>, deliveries: seq<Delivery>, i: nat, j: nat, p: EntId): set<Time>
    requires i <= j <= |deliveries| < |states|
    decreases j - i
  {
    if i == j then {}
    else
      PeriodsReaching(states, deliveries, i, j - 1, p)
      + PeriodReaching(states[j - 1], deliveries[j - 1], p)
  }

  function PeriodReaching(s: Store, d: Delivery, p: EntId): set<Time> {
    if Reaches(s, d, p) && IsCanonical(d.event) then {PeriodOf(d.event)} else {}
  }

  lemma LatestOfOneMore(end: Option<Time>, start: Option<Time>, periods: set<Time>, t: Time, now: Time)
    requires IsLatest(end, start, periods)
    ensures IsLatest(PaidPeriod(end, Some(t), now), start, periods + {t})
  {
  }

  lemma StepKeepsLatest(s: Store, d: Delivery, p: EntId, start: Option<Time>, periods: set<Time>)
    requires IsDeliverable(s, d) && p < |s.book.ents| && p !in s.book.canceled
    requires Reaches(s, d, p) ==> IsRenewal(d.event)
    requires IsLatest(s.book.ents[p].periodEnd, start, periods)
    ensures var b' := Deliver(s, d).book;
            && p < |b'.ents| && p !in b'.canceled
            && IsLatest(b'.ents[p].periodEnd, start, periods + PeriodReaching(s, d, p))
  {
    if Reaches(s, d, p) && IsCanonical(d.event) {
      StepRenewsPlan(s, d, p);
      LatestOfOneMore(s.book.ents[p].periodEnd, start, periods, PeriodOf(d.event), d.now);
    } else {
      if Reaches(s, d, p) { StepSkipsPlan(s, d, p); } else { StepLeavesPlan(s, d, p); }
      assert periods + {} == periods;
    }
  }

  /** In a history, among events of other plans, failures of other events, replays and new grants, a
      plan that is reached by renewals only ends at the latest of its period at the start
      and theirs. */
  lemma {:induction false} RenewalsInHistory(states: seq<Store>, deliveries: seq<Delivery>, i: nat, j: nat, p: EntId)
    requires IsHistory(states, deliveries) && i <= j <= |deliveries|
    requires p < |states[i].book.ents| && p !in states[i].book.canceled && OnlyRenewed(states, deliveries, i, j, p)
    ensures p < |states[j].book.ents| && p !in states[j].book.canceled
    ensures IsLatest(states[j].book.ents[p].periodEnd, states[i].book.ents[p].periodEnd,
                     PeriodsReaching(states, deliveries, i, j, p))
    decreases j - i
  {
    if i < j {
      RenewalsInHistory(states, deliveries, i, j - 1, p);
      assert Step(states[j - 1], deliveries[j - 1], states[j]);
      StepKeepsLatest(states[j - 1], deliveries[j - 1], p, states[i].book.ents[p].periodEnd,
                      PeriodsReaching(states, deliveries, i, j - 1, p));
    }
  }

  /** Two histories that start with the same period and in which the same periods reach the plan end
      with the same period, whatever the orders, the replays and the other events. */
  lemma RenewalHistoriesAgree(xs: seq<Store>, xd: seq<Delivery>, i: nat, j: nat, ys: seq<Store>, yd: seq<Delivery>,
                              k: nat, m: nat, p: EntId, q: EntId)
    requires IsHistory(xs, xd) && i <= j <= |xd| && IsHistory(ys, yd) && k <= m <= |yd|
    requires p < |xs[i].book.ents| && p !in xs[i].book.canceled && OnlyRenewed(xs, xd, i, j, p)
    requires q < |ys[k].book.ents| && q !in ys[k].book.canceled && OnlyRenewed(ys, yd, k, m, q)
    requires xs[i].book.ents[p].periodEnd == ys[k].book.ents[q].periodEnd
    requires PeriodsReaching(xs, xd, i, j, p) == PeriodsReaching(ys, yd, k, m, q)
    ensures p < |xs[j].book.ents| && q < |ys[m].book.ents|
    ensures xs[j].book.ents[p].periodEnd == ys[m].book.ents[q].periodEnd
  {
    RenewalsInHistory(xs, xd, i, j, p);
    RenewalsInHistory(ys, yd, k, m, q);
    LatestIsUnique(xs[j].book.ents[p].periodEnd, ys[m].book.ents[q].periodEnd, xs[i].book.ents[p].periodEnd,
                   PeriodsReaching(xs, xd, i, j, p));
  }

  // --------------------------------------------- which events commute

  /** What plan events change of a plan. */
  datatype Standing = Standing(active: bool, end: Option<Time>, canceled: bool)

  function StandingOf(b: Book, p: EntId): Standing
    requires p < |b.ents|
  {
    Standing(b.ents[p].active, b.ents[p].periodEnd, p in b.canceled)
  }

  datatype PeriodEffect = Leave | AtLeast(t: Time) | Set(t: Time) | Fallback

  predicate IsUnreadable(e: Event) { e.InvoicePaid? && Overflows(e.stamps) }

  function EffectOf(e: Event): PeriodEffect {
    match e
    case InvoicePaid(_, _, stamps) =>
      var end := EventPeriodEnd(stamps);
      if Overflows(stamps) then Leave else if end.Some? then AtLeast(end.value) else Fallback
    case SubscriptionUpdated(_, _, EndsAt(t)) => if t != 0 then Set(t) else Leave
    case _ => Leave
  }

  function EndAfter(end: Option<Time>, effect: PeriodEffect, now: Time): Option<Time> {
    match effect
    case Leave => end
    case AtLeast(t) => PaidPeriod(end, Some(t), now)
    case Set(t) => Some(t)
    case Fallback => PaidPeriod(end, None, now)
  }

  predicate Activates(e: Event) { e.InvoicePaid? || (e.SubscriptionUpdated? && IsActiveStatus(e.status)) }

  function After(s: Standing, e: Event, now: Time): Standing {
    if e.SubscriptionDeleted? then Standing(false, Some(now), true)
    else if s.canceled then s
    else if IsUnreadable(e) then s
    else Standing(Activates(e), EndAfter(s.end, EffectOf(e), now), false)
  }

  function OnPlan(b: Book, p: EntId, e: Event, now: Time): Book
    requires p < |b.ents|
  {
    Process(b, e, now, Some(p)).0
  }

  /** Nothing but the plan's standing changes, and that as described by `After`. */
  lemma OnPlanIsAfter(b: Book, p: EntId, e: Event, now: Time)
    requires p < |b.ents| && IsPlanEvent(e)
    ensures var b', s := OnPlan(b, p, e, now), After(StandingOf(b, p), e, now);
            && b'.ents == b.ents[p := b.ents[p].(active := s.active, periodEnd := s.end)]
            && b'.canceled == (if s.canceled then b.canceled + {p} else b.canceled) && b'.unlockedAt == b.unlockedAt
            && |b'.ents| == |b.ents| && StandingOf(b', p) == s
  {
    var b' := OnPlan(b, p, e, now);
    if (p in b.canceled && !e.SubscriptionDeleted?) || IsUnreadable(e) {
      assert b'.ents == b.ents[p := b.ents[p]];
      assert p in b.canceled ==> b.canceled + {p} == b.canceled;
    }
  }

  /** The effects on the period agree when one is delivered at `first` and the other at `second`. */
  predicate EffectsCommute(x: PeriodEffect, y: PeriodEffect, first: Time, second: Time) {
    match (x, y)
    case (Set(t), Set(u)) => t == u
    case (AtLeast(t), Set(u)) => t <= u
    case (Set(u), AtLeast(t)) => t <= u
    case (AtLeast(t), Fallback) => (first == second && t <= first) || (t > second && t >= first + PLAN_PERIOD)
    case (Fallback, AtLeast(t)) => (first == second && t <= first) || (t > second && t >= first + PLAN_PERIOD)
    case (Set(u), Fallback) => u > second
    case (Fallback, Set(u)) => u > second
    case (Leave, Fallback) => first == second
    case (Fallback, Leave) => first == second
    case _ => true
  }

  /** A deletion, which ends the period at its delivery, commutes with another deletion, and with
      other events only at the same instant. Two other events commute if both activate or both
      deactivate the plan, or one does neither, and their periods agree. */
  predicate Commute(e: Event, f: Event, first: Time, second: Time) {
    if e.SubscriptionDeleted? || f.SubscriptionDeleted? then
      first == second || (e.SubscriptionDeleted? && f.SubscriptionDeleted?)
    else
      && (IsUnreadable(e) || IsUnreadable(f) || Activates(e) == Activates(f))
      && EffectsCommute(EffectOf(e), EffectOf(f), first, second)
  }

  /** First `e`, then `f`. */
  function InOrder(s: Standing, e: Event, f: Event, first: Time, second: Time): Standing {
    After(After(s, e, first), f, second)
  }

  lemma StandingsCommute(s: Standing, e: Event, f: Event, first: Time, second: Time)
    requires first <= second && !s.canceled && Commute(e, f, first, second)
    ensures InOrder(s, e, f, first, second) == InOrder(s, f, e, first, second)
  {
  }

  lemma StandingsDiffer(e: Event, f: Event, first: Time, second: Time)
    requires first <= second && !Commute(e, f, first, second)
    ensures var s := Standing(true, None, false);
            InOrder(s, e, f, first, second) != InOrder(s, f, e, first, second)
  {
  }

  /** The two deliveries, each with the clock read at its own delivery, leave the same book in
      either order. */
  ghost predicate OrdersAgree(b: Book, p: EntId, e: Event, f: Event, first: Time, second: Time)
    requires p < |b.ents|
  {
    && |OnPlan(b, p, e, first).ents| == |OnPlan(b, p, f, first).ents| == |b.ents|
    && OnPlan(OnPlan(b, p, e, first), p, f, second) == OnPlan(OnPlan(b, p, f, first), p, e, second)
  }

  lemma OrdersAgreeIffStandingsDo(b: Book, p: EntId, e: Event, f: Event, first: Time, second: Time)
    requires p < |b.ents| && IsPlanEvent(e) && IsPlanEvent(f)
    ensures var s := StandingOf(b, p);
            OrdersAgree(b, p, e, f, first, second) <==>
            InOrder(s, e, f, first, second) == InOrder(s, f, e, first, second)
  {
    OnPlanIsAfter(b, p, e, first);
    OnPlanIsAfter(b, p, f, first);
    OnPlanIsAfter(OnPlan(b, p, e, first), p, f, second);
    OnPlanIsAfter(OnPlan(b, p, f, first), p, e, second);
    var ef, fe := OnPlan(OnPlan(b, p, e, first), p, f, second), OnPlan(OnPlan(b, p, f, first), p, e, second);
    if StandingOf(ef, p) == StandingOf(fe, p) {
      assert ef.ents == fe.ents;
      assert ef.canceled == fe.canceled;
    }
  }

  /** On every plan that was not canceled, in whatever state of the books. */
  ghost predicate OrdersAlwaysAgree(e: Event, f: Event, first: Time, second: Time) {
    forall b: Book, p: EntId | p < |b.ents| && p !in b.canceled :: OrdersAgree(b, p, e, f, first, second)
  }

  lemma CommutingOrdersAgree(e: Event, f: Event, first: Time, second: Time)
    requires IsPlanEvent(e) && IsPlanEvent(f) && first <= second && Commute(e, f, first, second)
    ensures OrdersAlwaysAgree(e, f, first, second)
  {
    forall b: Book, p: EntId | p < |b.ents| && p !in b.canceled ensures OrdersAgree(b, p, e, f, first, second) {
      StandingsCommute(StandingOf(b, p), e, f, first, second);
      OrdersAgreeIffStandingsDo(b, p, e, f, first, second);
    }
  }

  lemma SomeOrdersDisagree(e: Event, f: Event, first: Time, second: Time) returns (b: Book)
    requires IsPlanEvent(e) && IsPlanEvent(f) && first <= second && !Commute(e, f, first, second)
    ensures 0 < |b.ents| && 0 !in b.canceled && !OrdersAgree(b, 0, e, f, first, second)
  {
    b := Book([Entitlement(0, Plan, None, "sub", true, None)], {}, []);
    StandingsDiffer(e, f, first, second);
    assert StandingOf(b, 0) == Standing(true, None, false);
    OrdersAgreeIffStandingsDo(b, 0, e, f, first, second);
  }

  /** Exactly which two events, delivered at `first` and at `second`, may change places:
      out-of-order delivery is not always harmless. */
  lemma EventsCommuteIff(e: Event, f: Event, first: Time, second: Time)
    requires IsPlanEvent(e) && IsPlanEvent(f) && first <= second
    ensures OrdersAlwaysAgree(e, f, first, second) <==> Commute(e, f, first, second)
  {
    if Commute(e, f, first, second) {
      CommutingOrdersAgree(e, f, first, second);
    } else {
      var b := SomeOrdersDisagree(e, f, first, second);
    }
  }

  // ------------------------------------------------ three histories

  const LOCKED: Delivery := NewRfp(None)

  /** A checkout of a single document, with a subscription but no session. */
  const ODD := Checkout("", "sub", Known(0), Known(7), Single)
  const ODD_GRANT := Entitlement(7, Single, Some(0), "", true, None)

  function GrantedTwice(k: nat): Store {
    var done := Record(Processed, 0);
    if k == 0 then EMPTY_STORE
    else if k == 1 then Store(Book([], {}, [None]), map[])
    else if k == 2 then Store(Book([ODD_GRANT], {}, [Some(1)]), map["a" := done])
    else Store(Book([ODD_GRANT, ODD_GRANT], {}, [Some(1)]), map["a" := done, "b" := done])
  }

  /** The same checkout, delivered under two event ids, grants two entitlements. */
  lemma DoubleGrantHappens() returns (states: seq<Store>, deliveries: seq<Delivery>)
    ensures IsHistory(states, deliveries) && |deliveries| == 3
    ensures exists now, later ::
              && deliveries[1] == Webhook(true, "a", ODD, now, None)
              && deliveries[2] == Webhook(true, "b", ODD, later, None)
    ensures |states[3].book.ents| == 2
  {
    deliveries := [LOCKED, Webhook(true, "a", ODD, 1, None), Webhook(true, "b", ODD, 2, None)];
    states := [GrantedTwice(0), GrantedTwice(1), GrantedTwice(2), GrantedTwice(3)];
    assert Step(states[0], deliveries[0], states[1]);
    FirstOddGrant();
    SecondOddGrant();
    ThreeSteps(states, deliveries);
  }

  lemma FirstOddGrant()
    ensures Step(GrantedTwice(1), Webhook(true, "a", ODD, 1, None), GrantedTwice(2))
  {
    DistinctIds();
  }

  lemma SecondOddGrant()
    ensures Step(GrantedTwice(2), Webhook(true, "b", ODD, 2, None), GrantedTwice(3))
  {
    DistinctIds();
  }

  lemma ThreeSteps(states: seq<Store>, deliveries: seq<Delivery>)
    requires |deliveries| == 3 && |states| == 4 && states[0] == EMPTY_STORE
    requires Step(states[0], deliveries[0], states[1]) && Step(states[1], deliveries[1], states[2])
    requires Step(states[2], deliveries[2], states[3])
    ensures IsHistory(states, deliveries)
  {
  }

  lemma DistinctIds()
    ensures "a" != "b" && "a" != "c" && "b" != "c" && "a" != "" && "b" != "" && "c" != "" && "sub" != "" && "cs" != ""
    ensures "sub" != "cs"
  {
    assert "a"[0] == 'a' && "b"[0] == 'b' && "c"[0] == 'c' && |"sub"| == 3 && |"cs"| == 2;
  }

  const SUBSCRIBE := Checkout("cs", "sub", Known(0), Known(7), Plan)

  function Subscribed(active: bool, end: Time): Book {
    Book([Entitlement(7, Plan, None, "sub", active, Some(end))], {}, [Some(1)])
  }

  function PlanGranted(k: nat): Store {
    if k == 0 then EMPTY_STORE
    else if k == 1 then Store(Book([], {}, [None]), map[])
    else Store(Subscribed(true, 1 + PLAN_PERIOD), map["a" := Record(Processed, 0)])
  }

  lemma PlanIsGranted()
    ensures Step(PlanGranted(0), LOCKED, PlanGranted(1))
    ensures Step(PlanGranted(1), Webhook(true, "a", SUBSCRIBE, 1, None), PlanGranted(2))
    ensures IsPick(PlanGranted(2).book, "sub", Some(0))
  {
    DistinctIds();
  }

  /** A failed payment whose mail cannot be sent: the delivery counts as failed, with one attempt, and
      the plan is inactive all the same. */
  lemma PartialFailureHappens() returns (states: seq<Store>, deliveries: seq<Delivery>)
    ensures IsHistory(states, deliveries) && |deliveries| == 3
    ensures deliveries[2] == Webhook(true, "b", PaymentFailed("sub", true), 2, Some(0))
    ensures |states[2].book.ents| == 1 && FailsHalfway(states[2].book, PaymentFailed("sub", true), Some(0))
    ensures RecordOf(states[3], "b") == Record(Processing, 1)
    ensures states[2].book.ents[0].active && |states[3].book.ents| == 1 && !states[3].book.ents[0].active
  {
    deliveries := [LOCKED, Webhook(true, "a", SUBSCRIBE, 1, None),
        Webhook(true, "b", PaymentFailed("sub", true), 2, Some(0))];
    var last := Store(Subscribed(false, 1 + PLAN_PERIOD),
        map["a" := Record(Processed, 0), "b" := Record(Processing, 1)]);
    states := [PlanGranted(0), PlanGranted(1), PlanGranted(2), last];
    DistinctIds();
    PlanIsGranted();
    assert Step(states[2], deliveries[2], states[3]);
    ThreeSteps(states, deliveries);
  }

  const RENEWED: Time := 2 * PLAN_PERIOD
  const RENEWAL := InvoicePaid("sub", "", [At(RENEWED)])
  const FAILURE := PaymentFailed("sub", false)

  lemma RenewalPeriod()
    ensures EventPeriodEnd(RENEWAL.stamps) == Some(RENEWED) && !Overflows(RENEWAL.stamps)
  {
    assert [At(RENEWED)][..0] == [];
    assert EventPeriodEnd([At(RENEWED)][..0]) == None;
  }

  function Renewal(id: string): Delivery { Webhook(true, id, RENEWAL, 2, Some(0)) }

  function Failure(id: string): Delivery { Webhook(true, id, FAILURE, 2, Some(0)) }

  lemma RenewalStep(active: bool, end: Time, records: map<string, Record>, id: string)
    requires id != "" && id !in records && end < RENEWED
    ensures Step(Store(Subscribed(active, end), records), Renewal(id),
                 Store(Subscribed(true, RENEWED), records[id := Record(Processed, 0)]))
  {
    DistinctIds();
    RenewalPeriod();
  }

  lemma FailureStep(active: bool, end: Time, records: map<string, Record>, id: string)
    requires id != "" && id !in records
    ensures Step(Store(Subscribed(active, end), records), Failure(id),
                 Store(Subscribed(false, end), records[id := Record(Processed, 0)]))
  {
    DistinctIds();
  }

  /** An older payment failure that arrives after the invoice was paid leaves the paid plan inactive;
      in the other order it is active. */
  lemma LateFailureHappens()
    returns (states: seq<Store>, deliveries: seq<Delivery>, states': seq<Store>, deliveries': seq<Delivery>)
    ensures IsHistory(states, deliveries) && IsHistory(states', deliveries') && |deliveries| == 4
    ensures deliveries' == deliveries[..2] + [deliveries[3], deliveries[2]]
    ensures states[4].book == Subscribed(true, RENEWED) && states'[4].book == Subscribed(false, RENEWED)
  {
    DistinctIds();
    PlanIsGranted();
    var done := Record(Processed, 0);
    var end := 1 + PLAN_PERIOD;
    var subscribe := Webhook(true, "a", SUBSCRIBE, 1, None);
    var after: map<string, Record> := map["a" := done];
    deliveries := [LOCKED, subscribe, Failure("c"), Renewal("b")];
    states := [PlanGranted(0), PlanGranted(1), PlanGranted(2), Store(Subscribed(false, end), after["c" := done]),
               Store(Subscribed(true, RENEWED), after["c" := done]["b" := done])];
    FailureStep(true, end, after, "c");
    RenewalStep(false, end, after["c" := done], "b");
    deliveries' := [LOCKED, subscribe, Renewal("b"), Failure("c")];
    states' := [PlanGranted(0), PlanGranted(1), PlanGranted(2), Store(Subscribed(true, RENEWED), after["b" := done]),
                Store(Subscribed(false, RENEWED), after["b" := done]["c" := done])];
    RenewalStep(true, end, after, "b");
    FailureStep(true, RENEWED, after["b" := done], "c");
    FourSteps(states, deliveries);
    FourSteps(states', deliveries');
  }

  lemma FourSteps(states: seq<Store>, deliveries: seq<Delivery>)
    requires |deliveries| == 4 && |states| == 5 && states[0] == EMPTY_STORE
    requires Step(states[0], deliveries[0], states[1]) && Step(states[1], deliveries[1], states[2])
    requires Step(states[2], deliveries[2], states[3]) && Step(states[3], deliveries[3], states[4])
    ensures IsHistory(states, deliveries)
  {
  }
}
