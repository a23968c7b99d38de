/** The payment event machine: entitlements, plan periods, the cancellation tombstone, and the
    event records, under any order and replay of events. */
module Billing {
  import opened Basics

  const MAX_DELIVERIES: nat := 3
  const PLAN_PERIOD := 30 * 24 * 3600
  const FREE_ROW_LIMIT := 10

  type AccountId = nat
  type RfpId = nat
  type EntId = nat
  type Time = int

  /** `Unlisted` stands for every other kind, which a constraint of the entitlement table rejects. */
  datatype Kind = Single | Plan | Unlisted

  datatype Entitlement = Entitlement(account: AccountId, kind: Kind, rfp: Option<RfpId>, ref: string, active: bool,
      periodEnd: Option<Time>)

  /** `canceled` are the entitlements named by a `plan_canceled` audit event, which is append-only;
      `unlockedAt` has one entry an rfp. */
  datatype Book = Book(ents: seq<Entitlement>, canceled: set<EntId>, unlockedAt: seq<Option<Time>>)

  /** An identifier in an event's metadata. */
  datatype Name = Missing | Malformed | Known(id: nat)

  datatype Period = NoPeriod | EndsAt(t: Time) | Unreadable

  /** A time stamp of an event: missing, zero or no number; a time; or too large to convert, which
      raises. */
  datatype Stamp = Unusable | At(t: Time) | OutOfRange

  /** The events handled, with what is read of them. `stamps` are the period ends of an invoice. */
  datatype Event =
    | Checkout(session: string, subscription: string, rfp: Name, account: Name, kind: Kind)
    | InvoicePaid(subscription: string, id: string, stamps: seq<Stamp>)
    | PaymentFailed(subscription: string, mailFails: bool)
    | SubscriptionDeleted(id: string)
    | SubscriptionUpdated(id: string, status: string, period: Period)
    | OtherEvent

  /** `Raised` is an exception that the webhook catches; `RolledBack` is one raised by the flush after
      it, which undoes the whole request. */
  datatype Outcome =
    | Granted | Extended | Confirmed | StoredCanceled | NoMatchingPlan
    | MarkedInactive | PlanCanceled | Synced | Unhandled
    | Raised
    | RolledBack

  // ---------------------------------------------------------- one event

  predicate Overflows(stamps: seq<Stamp>) { exists k | 0 <= k < |stamps| :: stamps[k].OutOfRange? }

  /** `_event_period_end`, if it does not raise: the greatest usable non-zero stamp. */
  function EventPeriodEnd(stamps: seq<Stamp>): Option<Time> {
    if stamps == [] then None
    else
      var before, last := EventPeriodEnd(stamps[..|stamps| - 1]), stamps[|stamps| - 1];
      if !last.At? || last.t == 0 then before
      else if before.None? then Some(last.t)
      else Some(Max(before.value, last.t))
  }

  predicate HasRef(ents: seq<Entitlement>, refs: set<string>) {
    exists e | 0 <= e < |ents| :: ents[e].ref in refs
  }

  /** The non-empty ones of the two references. */
  function CheckoutRefs(session: string, subscription: string): set<string> { {session, subscription} - {""} }

  /** The reference an entitlement is stored under. */
  function GrantRef(e: Event): string
    requires e.Checkout?
  {
    if e.kind == Plan && e.subscription != "" then e.subscription else e.session
  }

  function NewEntitlement(e: Event, account: AccountId, rfp: RfpId, now: Time): Entitlement
    requires e.Checkout?
  {
    Entitlement(account, e.kind, if e.kind == Single then Some(rfp) else None, GrantRef(e), true,
                if e.kind == Plan then Some(now + PLAN_PERIOD) else None)
  }

  function Unlock(unlockedAt: seq<Option<Time>>, rfp: RfpId, now: Time): seq<Option<Time>> {
    if rfp < |unlockedAt| && unlockedAt[rfp].None? then unlockedAt[rfp := Some(now)] else unlockedAt
  }

  function OnCheckout(b: Book, e: Event, now: Time): (Book, Outcome)
    requires e.Checkout?
  {
    if !e.rfp.Known? || e.account.Missing? || e.rfp.id >= |b.unlockedAt| then (b, Raised)
    else if HasRef(b.ents, CheckoutRefs(e.session, e.subscription)) then
      (b.(unlockedAt := Unlock(b.unlockedAt, e.rfp.id, now)), if e.account.Known? then Granted else Raised)
    else if e.account.Malformed? then (b, Raised)
    else if e.kind == Unlisted then (b, RolledBack)
    else
      (b.(ents := b.ents + [NewEntitlement(e, e.account.id, e.rfp.id, now)],
          unlockedAt := Unlock(b.unlockedAt, e.rfp.id, now)),
       Granted)
  }

  /** `_apply_paid_period`. */
  function PaidPeriod(current: Option<Time>, canonical: Option<Time>, now: Time): Option<Time> {
    if canonical.Some? && (current.None? || canonical.value > current.value) then canonical
    else if canonical.None? && (current.None? || current.value <= now) then Some(now + PLAN_PERIOD)
    else current
  }

  function OnInvoicePaid(b: Book, p: EntId, e: Event, now: Time): (Book, Outcome)
    requires e.InvoicePaid? && p < |b.ents|
  {
    var plan := b.ents[p];
    if p in b.canceled then (b, StoredCanceled)
    else if Overflows(e.stamps) then (b, Raised)
    else
      var period := PaidPeriod(plan.periodEnd, EventPeriodEnd(e.stamps), now);
      (b.(ents := b.ents[p := plan.(active := true, periodEnd := period)]),
       if period != plan.periodEnd then Extended else Confirmed)
  }

  function OnPaymentFailed(b: Book, p: EntId, e: Event): (Book, Outcome)
    requires e.PaymentFailed? && p < |b.ents|
  {
    if p in b.canceled then (b, StoredCanceled)
    else (b.(ents := b.ents[p := b.ents[p].(active := false)]), if e.mailFails then Raised else MarkedInactive)
  }

  function OnDeleted(b: Book, p: EntId, now: Time): (Book, Outcome)
    requires p < |b.ents|
  {
    (b.(ents := b.ents[p := b.ents[p].(active := false, periodEnd := Some(now))], canceled := b.canceled + {p}),
     PlanCanceled)
  }

  predicate IsActiveStatus(status: string) { status == "active" || status == "trialing" }

  function OnUpdated(b: Book, p: EntId, e: Event): (Book, Outcome)
    requires e.SubscriptionUpdated? && p < |b.ents|
  {
    var plan := b.ents[p].(active := IsActiveStatus(e.status));
    if p in b.canceled then (b, StoredCanceled)
    else
      match e.period
      case NoPeriod => (b.(ents := b.ents[p := plan]), Synced)
      case EndsAt(t) => (b.(ents := b.ents[p := if t != 0 then plan.(periodEnd := Some(t)) else plan]), Synced)
      case Unreadable => (b.(ents := b.ents[p := plan]), Raised)
  }

  /** The subscription an event is about. */
  function SubscriptionOf(e: Event): string {
    match e
    case InvoicePaid(subscription, id, _) => if subscription != "" then subscription else id
    case PaymentFailed(subscription, _) => subscription
    case SubscriptionDeleted(id) => id
    case SubscriptionUpdated(id, _, _) => id
    case _ => ""
  }

  predicate IsPlan(b: Book, p: EntId, sub: string) { p < |b.ents| && b.ents[p].kind == Plan && b.ents[p].ref == sub }

  /** `pick` is what the plan query may return: any plan stored under the subscription. */
  ghost predicate IsPick(b: Book, sub: string, pick: Option<EntId>) {
    match pick
    case Some(p) => IsPlan(b, p, sub)
    case None => forall p | 0 <= p < |b.ents| :: !IsPlan(b, p, sub)
  }

  lemma SomePick(b: Book, sub: string) returns (pick: Option<EntId>)
    ensures IsPick(b, sub, pick)
  {
    pick := None;
    if p :| 0 <= p < |b.ents| && IsPlan(b, p, sub) {
      pick := Some(p);
    }
  }

  /** `process_event`. */
  function Process(b: Book, e: Event, now: Time, pick: Option<EntId>): (Book, Outcome)
    requires pick.Some? ==> pick.value < |b.ents|
  {
    match e
    case Checkout(_, _, _, _, _) => OnCheckout(b, e, now)
    case InvoicePaid(_, _, _) => if pick.None? then (b, NoMatchingPlan) else OnInvoicePaid(b, pick.value, e, now)
    case PaymentFailed(_, _) => if pick.None? then (b, NoMatchingPlan) else OnPaymentFailed(b, pick.value, e)
    case SubscriptionDeleted(_) => if pick.None? then (b, NoMatchingPlan) else OnDeleted(b, pick.value, now)
    case SubscriptionUpdated(_, _, _) => if pick.None? then (b, NoMatchingPlan) else OnUpdated(b, pick.value, e)
    case OtherEvent => (b, Unhandled)
  }

  // ------------------------------------------------------- a delivery

  datatype Status = Processing | Processed | DeadLettered

  datatype Record = Record(status: Status, attempts: nat)

  datatype Store = Store(book: Book, records: map<string, Record>)

  const EMPTY_STORE := Store(Book([], {}, []), map[])

  /** A webhook request, the development path that processes an event directly, or a new rfp. */
  datatype Delivery =
    | Webhook(accepted: bool, id: string, event: Event, now: Time, pick: Option<EntId>)
    | Direct(event: Event, now: Time, pick: Option<EntId>)
    | NewRfp(unlockedAt: Option<Time>)

  function RecordOf(s: Store, id: string): Record { if id in s.records then s.records[id] else Record(Processing, 0) }

  /** The event gets as far as being processed. `accepted` stands for a good signature on JSON. */
  predicate IsAttempted(s: Store, d: Delivery) {
    d.Direct? || (d.Webhook? && d.accepted && d.id != "" && RecordOf(s, d.id).status == Processing)
  }

  function RecordAfter(r: Record, failed: bool): Record {
    if !failed then r.(status := Processed)
    else if r.attempts + 1 >= MAX_DELIVERIES then Record(DeadLettered, r.attempts + 1)
    else r.(attempts := r.attempts + 1)
  }

  ghost predicate IsDeliverable(s: Store, d: Delivery) {
    d.NewRfp? || IsPick(s.book, SubscriptionOf(d.event), d.pick)
  }

  function Deliver(s: Store, d: Delivery): Store
    requires d.NewRfp? || (d.pick.Some? ==> d.pick.value < |s.book.ents|)
  {
    if d.NewRfp? then s.(book := s.book.(unlockedAt := s.book.unlockedAt + [d.unlockedAt]))
    else if !IsAttempted(s, d) then s
    else
      var (book, outcome) := Process(s.book, d.event, d.now, d.pick);
      if outcome.RolledBack? then s
      else if d.Direct? then (if outcome.Raised? then s else s.(book := book))
      else Store(book, s.records[d.id := RecordAfter(RecordOf(s, d.id), outcome.Raised?)])
  }

  // ---------------------------------------------------------- invariant

  /** A canceled entitlement is an inactive plan; non-empty references are unique. */
  ghost predicate Inv(b: Book) {
    && (forall p | p in b.canceled :: p < |b.ents| && b.ents[p].kind == Plan && !b.ents[p].active)
    && (forall p, q | 0 <= p < q < |b.ents| && b.ents[p].ref != "" :: b.ents[p].ref != b.ents[q].ref)
  }

  /** What never changes of the entitlements and unlocks that exist. */
  ghost predicate Continues(b: Book, b': Book) {
    && |b.ents| <= |b'.ents| && |b.unlockedAt| <= |b'.unlockedAt| && b.canceled <= b'.canceled
    && (forall p | 0 <= p < |b.ents| ::
          var was, now := b.ents[p], b'.ents[p];
          now.account == was.account && now.kind == was.kind && now.rfp == was.rfp && now.ref == was.ref)
    && (forall r | 0 <= r < |b.unlockedAt| && b.unlockedAt[r].Some? :: b'.unlockedAt[r] == b.unlockedAt[r])
  }

  lemma CheckoutKeepsInv(b: Book, e: Event, now: Time)
    requires Inv(b) && e.Checkout?
    ensures Inv(OnCheckout(b, e, now).0) && Continues(b, OnCheckout(b, e, now).0)
  {
    var b' := OnCheckout(b, e, now).0;
    assert forall p | 0 <= p < |b.ents| :: b'.ents[p] == b.ents[p];
    if |b'.ents| > |b.ents| {
      assert b'.ents[|b.ents|].ref == GrantRef(e);
      assert GrantRef(e) != "" ==> GrantRef(e) in CheckoutRefs(e.session, e.subscription);
    }
  }

  /** One entitlement changes its activity and period, and may be canceled with that. */
  lemma OnePlanKeepsInv(b: Book, p: EntId, ent: Entitlement, canceled: set<EntId>)
    requires Inv(b) && p < |b.ents| && ent == b.ents[p].(active := ent.active, periodEnd := ent.periodEnd)
    requires canceled == b.canceled || canceled == b.canceled + {p}
    requires p in canceled ==> ent.kind == Plan && !ent.active
    ensures var b' := Book(b.ents[p := ent], canceled, b.unlockedAt);
            Inv(b') && Continues(b, b')
  {
  }

  lemma ProcessKeepsInv(b: Book, e: Event, now: Time, pick: Option<EntId>)
    requires Inv(b) && IsPick(b, SubscriptionOf(e), pick)
    ensures Inv(Process(b, e, now, pick).0) && Continues(b, Process(b, e, now, pick).0)
  {
    if e.Checkout? {
      CheckoutKeepsInv(b, e, now);
    } else if pick.Some? {
      var p, b' := pick.value, Process(b, e, now, pick).0;
      assert b'.ents == b.ents[p := b'.ents[p]];
      OnePlanKeepsInv(b, p, b'.ents[p], b'.canceled);
    }
  }

  lemma DeliverKeepsInv(s: Store, d: Delivery)
    requires Inv(s.book) && IsDeliverable(s, d)
    ensures Inv(Deliver(s, d).book) && Continues(s.book, Deliver(s, d).book)
  {
    if !d.NewRfp? {
      ProcessKeepsInv(s.book, d.event, d.now, d.pick);
    }
  }

  // ------------------------------------------------------------ whole runs

  ghost predicate Step(s: Store, d: Delivery, s': Store) { IsDeliverable(s, d) && s' == Deliver(s, d) }

  /** The states of one history of deliveries, in any order, with any replays. */
  ghost predicate IsHistory(states: seq<Store>, deliveries: seq<Delivery>) {
    && |states| == |deliveries| + 1 && states[0] == EMPTY_STORE
    && forall i | 0 <= i < |deliveries| :: Step(states[i], deliveries[i], states[i + 1])
  }

  lemma {:induction false} HistoryInv(states: seq<Store>, deliveries: seq<Delivery>, i: nat)
    requires IsHistory(states, deliveries) && i <= |deliveries|
    ensures Inv(states[i].book)
  {
    if i > 0 {
      HistoryInv(states, deliveries, i - 1);
      assert Step(states[i - 1], deliveries[i - 1], states[i]);
      DeliverKeepsInv(states[i - 1], deliveries[i - 1]);
    }
  }

  lemma {:induction false} HistoryContinues(states: seq<Store>, deliveries: seq<Delivery>, i: nat, j: nat)
    requires IsHistory(states, deliveries) && i <= j <= |deliveries|
    ensures Continues(states[i].book, states[j].book)
  {
    if i < j {
      HistoryContinues(states, deliveries, i, j - 1);
      HistoryInv(states, deliveries, j - 1);
      assert Step(states[j - 1], deliveries[j - 1], states[j]);
      DeliverKeepsInv(states[j - 1], deliveries[j - 1]);
    }
  }

  /** A canceled plan is never active again, whatever arrives later, and no other entitlement is
      ever stored under its subscription. */
  lemma CancellationIsTerminal(states: seq<Store>, deliveries: seq<Delivery>, i: nat, j: nat, p: EntId)
    requires IsHistory(states, deliveries) && i <= j <= |deliveries| && p in states[i].book.canceled
    ensures p < |states[i].book.ents| && p in states[j].book.canceled && p < |states[j].book.ents|
    ensures !states[j].book.ents[p].active
    ensures states[j].book.ents[p].ref == states[i].book.ents[p].ref
    ensures states[i].book.ents[p].ref != "" ==>
              forall q | 0 <= q < |states[j].book.ents| && q != p ::
                  states[j].book.ents[q].ref != states[i].book.ents[p].ref
  {
    HistoryInv(states, deliveries, i);
    HistoryInv(states, deliveries, j);
    HistoryContinues(states, deliveries, i, j);
  }

  // ----------------------------------------------------------- entitlement

  predicate HoldsSingle(b: Book, account: AccountId, rfp: RfpId) {
    exists e | 0 <= e < |b.ents| ::
      && b.ents[e].kind == Single && b.ents[e].account == account && b.ents[e].rfp == Some(rfp)
      && b.ents[e].active
  }

  predicate HoldsPlan(b: Book, account: AccountId, now: Time) {
    exists e | 0 <= e < |b.ents| ::
      && b.ents[e].kind == Plan && b.ents[e].account == account && b.ents[e].active
      && (b.ents[e].periodEnd.None? || b.ents[e].periodEnd.value > now)
  }

  /** `is_entitled`, for an rfp of `owner` with `rowCount` requirement rows. */
  predicate IsEntitled(b: Book, account: AccountId, rfp: RfpId, owner: AccountId, rowCount: nat, now: Time)
    requires rfp < |b.unlockedAt|
  {
    || b.unlockedAt[rfp].Some?
    || (owner == account && HoldsSingle(b, account, rfp))
    || HoldsPlan(b, account, now)
    || rowCount <= FREE_ROW_LIMIT
  }

  /** An unlocked rfp stays open to its readers for ever, at the same unlock time. */
  lemma UnlockIsForEver(states: seq<Store>, deliveries: seq<Delivery>, i: nat, j: nat, rfp: RfpId, account: AccountId,
                        owner: AccountId, rowCount: nat, now: Time)
    requires IsHistory(states, deliveries) && i <= j <= |deliveries|
    requires rfp < |states[i].book.unlockedAt| && states[i].book.unlockedAt[rfp].Some?
    ensures rfp < |states[j].book.unlockedAt| && states[j].book.unlockedAt[rfp] == states[i].book.unlockedAt[rfp]
    ensures IsEntitled(states[j].book, account, rfp, owner, rowCount, now)
  {
    HistoryContinues(states, deliveries, i, j);
  }

  /** An account all of whose plans were canceled gets nothing from them, at any later time, until a
      plan under another subscription is granted to it. */
  lemma CanceledPlansGrantNothing(states: seq<Store>, deliveries: seq<Delivery>, i: nat, j: nat, account: AccountId,
                                  now: Time)
    requires IsHistory(states, deliveries) && i <= j <= |deliveries|
    requires forall p | 0 <= p < |states[j].book.ents|
                        && states[j].book.ents[p].kind == Plan && states[j].book.ents[p].account == account ::
               p in states[i].book.canceled
    ensures !HoldsPlan(states[j].book, account, now)
  {
    forall p | p in states[i].book.canceled ensures p < |states[j].book.ents| && !states[j].book.ents[p].active {
      CancellationIsTerminal(states, deliveries, i, j, p);
    }
  }

  // ---------------------------------------------------- no double grant

  /** A new grant is recognised when the checkout is delivered again exactly if it was stored under
      a non-empty reference. */
  lemma GrantIsRecognisedIff(b: Book, e: Event, now: Time)
    requires e.Checkout? && |OnCheckout(b, e, now).0.ents| > |b.ents|
    ensures HasRef(OnCheckout(b, e, now).0.ents, CheckoutRefs(e.session, e.subscription)) <==> GrantRef(e) != ""
  {
    var ents := OnCheckout(b, e, now).0.ents;
    assert ents[|b.ents|].ref == GrantRef(e);
    assert forall p | 0 <= p < |b.ents| :: ents[p] == b.ents[p];
  }

  /** So delivering the same checkout again grants a second entitlement exactly if the first was
      stored under the empty reference. */
  lemma SecondGrantIff(b: Book, e: Event, now: Time, later: Time)
    requires e.Checkout? && |OnCheckout(b, e, now).0.ents| > |b.ents|
    ensures var first := OnCheckout(b, e, now).0;
            |OnCheckout(first, e, later).0.ents| > |first.ents| <==> GrantRef(e) == ""
  {
    GrantIsRecognisedIff(b, e, now);
  }

  /** Once an entitlement is stored under one of a checkout's references, no later delivery of that
      checkout, under any event id, grants another. */
  lemma CheckoutGrantsOnce(states: seq<Store>, deliveries: seq<Delivery>, i: nat, j: nat, e: Event, now: Time)
    requires IsHistory(states, deliveries) && i <= j <= |deliveries| && e.Checkout?
    requires HasRef(states[i].book.ents, CheckoutRefs(e.session, e.subscription))
    ensures OnCheckout(states[j].book, e, now).0.ents == states[j].book.ents
  {
    HistoryContinues(states, deliveries, i, j);
    var refs := CheckoutRefs(e.session, e.subscription);
    var p :| 0 <= p < |states[i].book.ents| && states[i].book.ents[p].ref in refs;
    assert states[j].book.ents[p].ref in refs;
  }

  // ------------------------------------------------------------ renewals

  predicate IsCanonical(e: Event) { e.InvoicePaid? && !Overflows(e.stamps) && EventPeriodEnd(e.stamps).Some? }

  function PeriodOf(e: Event): Time
    requires IsCanonical(e)
  {
    EventPeriodEnd(e.stamps).value
  }

  /** The time read from an invoice is the greatest usable one. */
  lemma {:induction false} EventPeriodEndIsGreatest(stamps: seq<Stamp>)
    ensures EventPeriodEnd(stamps).None? <==> forall k | 0 <= k < |stamps| :: !stamps[k].At? || stamps[k].t == 0
    ensures EventPeriodEnd(stamps).Some? ==>
              At(EventPeriodEnd(stamps).value) in stamps && EventPeriodEnd(stamps).value != 0
    ensures EventPeriodEnd(stamps).Some? ==>
              forall k | 0 <= k < |stamps| && stamps[k].At? && stamps[k].t != 0 ::
                stamps[k].t <= EventPeriodEnd(stamps).value
  {
    if stamps != [] {
      EventPeriodEndIsGreatest(stamps[..|stamps| - 1]);
      assert stamps == stamps[..|stamps| - 1] + [stamps[|stamps| - 1]];
    }
  }

  predicate AreCanonical(invoices: seq<Event>) { forall k | 0 <= k < |invoices| :: IsCanonical(invoices[k]) }

  function Periods(invoices: seq<Event>): set<Time>
    requires AreCanonical(invoices)
  {
    set k | 0 <= k < |invoices| :: PeriodOf(invoices[k])
  }

  /** The invoices of plan `p`, one after another, at arbitrary times. */
  function Renewed(b: Book, p: EntId, invoices: seq<Event>, times: seq<Time>): (r: Book)
    requires p < |b.ents| && |times| == |invoices| && AreCanonical(invoices)
    ensures |r.ents| == |b.ents| && r.canceled == b.canceled
  {
    if invoices == [] then b
    else
      var k := |invoices| - 1;
      assert IsCanonical(invoices[k]);
      OnInvoicePaid(Renewed(b, p, invoices[..k], times[..k]), p, invoices[k], times[k]).0
  }

  /** `end` is the greatest of the start and the periods. */
  ghost predicate IsLatest(end: Option<Time>, start: Option<Time>, periods: set<Time>) {
    && (start.Some? ==> end.Some? && start.value <= end.value)
    && (forall t | t in periods :: end.Some? && t <= end.value)
    && (end == start || (end.Some? && end.value in periods))
  }

  lemma PeriodsOfOneMore(invoices: seq<Event>)
    requires AreCanonical(invoices) && invoices != []
    ensures Periods(invoices) == Periods(invoices[..|invoices| - 1]) + {PeriodOf(invoices[|invoices| - 1])}
  {
    var k := |invoices| - 1;
    assert forall m | 0 <= m < k :: invoices[..k][m] == invoices[m];
    forall t | t in Periods(invoices[..k]) + {PeriodOf(invoices[k])} ensures t in Periods(invoices) {
      if t == PeriodOf(invoices[k]) {
      } else {
        var m :| 0 <= m < k && t == PeriodOf(invoices[..k][m]);
        assert t == PeriodOf(invoices[m]);
      }
    }
  }

  /** Renewals of a plan that was not canceled end at the latest period, whatever their order,
      number and times; nothing else in the book changes. */
  lemma {:induction false} RenewalsReachTheLatest(b: Book, p: EntId, invoices: seq<Event>, times: seq<Time>)
    requires p < |b.ents| && p !in b.canceled && |times| == |invoices| && AreCanonical(invoices)
    ensures var end := Renewed(b, p, invoices, times).ents[p].periodEnd;
            && IsLatest(end, b.ents[p].periodEnd, Periods(invoices))
            && Renewed(b, p, invoices, times) ==
                 b.(ents := b.ents[p := b.ents[p].(active := b.ents[p].active || invoices != [], periodEnd := end)])
  {
    if invoices == [] {
      assert b.ents[p := b.ents[p]] == b.ents;
    } else {
      RenewalsReachTheLatest(b, p, invoices[..|invoices| - 1], times[..|invoices| - 1]);
      PeriodsOfOneMore(invoices);
    }
  }

  lemma LatestBounds(x: Option<Time>, start: Option<Time>, periods: set<Time>, t: Time)
    requires IsLatest(x, start, periods) && t in periods
    ensures x.Some? && t <= x.value
  {
  }

  lemma LatestIsUnique(x: Option<Time>, y: Option<Time>, start: Option<Time>, periods: set<Time>)
    requires IsLatest(x, start, periods) && IsLatest(y, start, periods)
    ensures x == y
  {
    if x != start { LatestBounds(y, start, periods, x.value); }
    if y != start { LatestBounds(x, start, periods, y.value); }
  }

  /** Two lists of invoices with the same periods leave the same book: a permutation or a replay
      changes nothing. */
  lemma RenewalOrderIsIrrelevant(b: Book, p: EntId, xs: seq<Event>, xTimes: seq<Time>, ys: seq<Event>,
                                 yTimes: seq<Time>)
    requires p < |b.ents| && p !in b.canceled && |xTimes| == |xs| && |yTimes| == |ys|
    requires AreCanonical(xs) && AreCanonical(ys) && Periods(xs) == Periods(ys)
    ensures Renewed(b, p, xs, xTimes) == Renewed(b, p, ys, yTimes)
  {
    RenewalsReachTheLatest(b, p, xs, xTimes);
    RenewalsReachTheLatest(b, p, ys, yTimes);
    LatestIsUnique(Renewed(b, p, xs, xTimes).ents[p].periodEnd, Renewed(b, p, ys, yTimes).ents[p].periodEnd,
                   b.ents[p].periodEnd, Periods(xs));
    assert xs == [] <==> ys == [] by {
      assert xs != [] ==> PeriodOf(xs[0]) in Periods(ys);
      assert ys != [] ==> PeriodOf(ys[0]) in Periods(xs);
    }
  }

  // --------------------------------------------------------- exactly once

  predicate Completes(s: Store, d: Delivery, id: string)
    requires d.NewRfp? || (d.pick.Some? ==> d.pick.value < |s.book.ents|)
  {
    && d.Webhook? && d.id == id && IsAttempted(s, d)
    && !Process(s.book, d.event, d.now, d.pick).1.Raised? && !Process(s.book, d.event, d.now, d.pick).1.RolledBack?
  }

  predicate FailsOn(s: Store, d: Delivery, id: string)
    requires d.NewRfp? || (d.pick.Some? ==> d.pick.value < |s.book.ents|)
  {
    d.Webhook? && d.id == id && IsAttempted(s, d) && Process(s.book, d.event, d.now, d.pick).1.Raised?
  }

  /** How often the event was processed to the end, and how often processing it failed. */
  ghost function Tally(states: seq<Store>, deliveries: seq<Delivery>, id: string): (nat, nat)
    requires IsHistory(states, deliveries)
  {
    if deliveries == [] then (0, 0)
    else
      var k := |deliveries| - 1;
      assert Step(states[k], deliveries[k], states[k + 1]);
      var (done, failed) := Tally(states[..k + 1], deliveries[..k], id);
      (done + (if Completes(states[k], deliveries[k], id) then 1 else 0),
       failed + (if FailsOn(states[k], deliveries[k], id) then 1 else 0))
  }

  lemma StepRecord(s: Store, d: Delivery, id: string)
    requires d.NewRfp? || (d.pick.Some? ==> d.pick.value < |s.book.ents|)
    ensures RecordOf(Deliver(s, d), id) ==
            if Completes(s, d, id) then RecordAfter(RecordOf(s, id), false)
            else if FailsOn(s, d, id) then RecordAfter(RecordOf(s, id), true)
            else RecordOf(s, id)
    ensures Completes(s, d, id) || FailsOn(s, d, id) ==> RecordOf(s, id).status == Processing
  {
  }

  /** The record of an event says how often it was processed, and that is at most once, after at
      most three failures; the last state is final. */
  lemma {:induction false} ProcessedAtMostOnce(states: seq<Store>, deliveries: seq<Delivery>, id: string)
    requires IsHistory(states, deliveries)
    ensures var (done, failed) := Tally(states, deliveries, id);
            var record := RecordOf(states[|deliveries|], id);
            && done == (if record.status == Processed then 1 else 0)
            && failed == record.attempts
            && (if record.status == DeadLettered then failed == 3 else failed < 3)
  {
    if deliveries != [] {
      var k := |deliveries| - 1;
      ProcessedAtMostOnce(states[..k + 1], deliveries[..k], id);
      assert Step(states[k], deliveries[k], states[k + 1]);
      StepRecord(states[k], deliveries[k], id);
    }
  }

  /** A processed or dead-lettered event changes nothing when it is delivered again. */
  lemma SettledEventIsInert(s: Store, d: Delivery)
    requires d.Webhook? && (d.pick.Some? ==> d.pick.value < |s.book.ents|) && RecordOf(s, d.id).status != Processing
    ensures Deliver(s, d) == s
  {
  }

  // ------------------------------------------------------ partial changes

  /** The failing branches that come after a change. */
  predicate FailsHalfway(b: Book, e: Event, pick: Option<EntId>)
    requires pick.Some? ==> pick.value < |b.ents|
  {
    match e
    case Checkout(session, subscription, rfp, account, _) =>
      && rfp.Known? && account.Malformed? && rfp.id < |b.unlockedAt| && b.unlockedAt[rfp.id].None?
      && HasRef(b.ents, CheckoutRefs(session, subscription))
    case PaymentFailed(_, mailFails) =>
      mailFails && pick.Some? && pick.value !in b.canceled && b.ents[pick.value].active
    case SubscriptionUpdated(_, status, period) =>
      && period.Unreadable? && pick.Some? && pick.value !in b.canceled
      && b.ents[pick.value].active != IsActiveStatus(status)
    case _ => false
  }

  /** A processing failure leaves the book as it was, except in these branches, where the change
      made so far is committed with the failure's record. */
  lemma FailureChangesNothingIff(b: Book, e: Event, now: Time, pick: Option<EntId>)
    requires IsPick(b, SubscriptionOf(e), pick) && Process(b, e, now, pick).1.Raised?
    ensures Process(b, e, now, pick).0 == b <==> !FailsHalfway(b, e, pick)
  {
    if e.PaymentFailed? && pick.Some? {
      var plan := b.ents[pick.value];
      assert b.ents[pick.value := plan.(active := false)][pick.value].active == false;
      assert !plan.active ==> b.ents[pick.value := plan.(active := false)] == b.ents;
    }
    if e.SubscriptionUpdated? && pick.Some? {
      var plan := b.ents[pick.value];
      var changed := b.ents[pick.value := plan.(active := IsActiveStatus(e.status))];
      assert changed[pick.value].active == IsActiveStatus(e.status);
      assert plan.active == IsActiveStatus(e.status) ==> changed == b.ents;
    }
  }

  // ------------------------------------------------- what a delivery does

  /** The event of the delivery is processed: directly, or by a webhook with a good signature and an id
      that was neither processed nor given up. */
  ghost predicate IsTakenUp(s: Store, d: Delivery) {
    || d.Direct?
    || (d.Webhook? && d.accepted && d.id != "" && (d.id in s.records ==> s.records[d.id].status == Processing))
  }

  /** A delivery reaches plan `p`, which was not canceled, and processing it raises only where a webhook
      commits what was done before. */
  ghost predicate ReachesPlan(s: Store, d: Delivery, p: EntId, raises: bool) {
    && IsDeliverable(s, d) && IsTakenUp(s, d) && d.pick == Some(p) && p < |s.book.ents| && p !in s.book.canceled
    && (raises ==> d.Webhook?)
  }

  /** Nothing changed but activity and period of plan `p`. */
  ghost predicate OnlyPlanChanged(b: Book, b': Book, p: EntId) {
    && p < |b.ents| == |b'.ents| && b'.unlockedAt == b.unlockedAt
    && b'.ents[p] == b.ents[p].(active := b'.ents[p].active, periodEnd := b'.ents[p].periodEnd)
    && forall q | 0 <= q < |b.ents| && q != p :: b'.ents[q] == b.ents[q]
  }

  /** An update makes the plan active exactly for two states, and takes over a period that is given. */
  lemma UpdateSyncs(s: Store, d: Delivery, p: EntId)
    requires !d.NewRfp? && d.event.SubscriptionUpdated? && ReachesPlan(s, d, p, d.event.period.Unreadable?)
    ensures var b := Deliver(s, d).book;
            && OnlyPlanChanged(s.book, b, p) && b.canceled == s.book.canceled
            && (b.ents[p].active <==> d.event.status == "active" || d.event.status == "trialing")
            && b.ents[p].periodEnd == if d.event.period.EndsAt? && d.event.period.t != 0 then Some(d.event.period.t)
                                      else s.book.ents[p].periodEnd
  {
  }

  /** A paid invoice makes the plan active and never shortens its period: that becomes the greatest
      usable stamp if this is later, and without a usable stamp 30 days from now if it is over. */
  lemma InvoicePays(s: Store, d: Delivery, p: EntId)
    requires !d.NewRfp? && d.event.InvoicePaid? && ReachesPlan(s, d, p, false)
    requires forall k | 0 <= k < |d.event.stamps| :: !d.event.stamps[k].OutOfRange?
    ensures var b, was := Deliver(s, d).book, s.book.ents[p].periodEnd;
            var period := b.ents[p].periodEnd;
            && OnlyPlanChanged(s.book, b, p) && b.canceled == s.book.canceled && b.ents[p].active
            && (was.Some? ==> period.Some? && period.value >= was.value)
            && (forall t | At(t) in d.event.stamps && t != 0 :: period.Some? && period.value >= t)
            && (if exists t :: At(t) in d.event.stamps && t != 0
                then period == was || (period.value != 0 && At(period.value) in d.event.stamps)
                else period == if was.None? || was.value <= d.now then Some(d.now + 30 * 24 * 3600) else was)
  {
    EventPeriodEndIsGreatest(d.event.stamps);
    var stamps := d.event.stamps;
    forall t | At(t) in stamps && t != 0 ensures EventPeriodEnd(stamps).Some? && t <= EventPeriodEnd(stamps).value {
      var k :| 0 <= k < |stamps| && stamps[k] == At(t);
    }
  }

  /** A failed payment makes the plan inactive and leaves its period. */
  lemma FailureSuspends(s: Store, d: Delivery, p: EntId)
    requires !d.NewRfp? && d.event.PaymentFailed? && ReachesPlan(s, d, p, d.event.mailFails)
    ensures var b := Deliver(s, d).book;
            && OnlyPlanChanged(s.book, b, p) && b.canceled == s.book.canceled
            && !b.ents[p].active && b.ents[p].periodEnd == s.book.ents[p].periodEnd
  {
  }

  /** A deletion ends the plan now and leaves the tombstone. */
  lemma DeletionCancels(s: Store, d: Delivery, p: EntId)
    requires !d.NewRfp? && d.event.SubscriptionDeleted? && ReachesPlan(s, d, p, false)
    ensures var b := Deliver(s, d).book;
            && OnlyPlanChanged(s.book, b, p) && b.canceled == s.book.canceled + {p}
            && !b.ents[p].active && b.ents[p].periodEnd == Some(d.now)
  {
  }

  /** What the outcome of a subscription event says about the book. */
  lemma OutcomesTell(b: Book, e: Event, now: Time, pick: Option<EntId>)
    requires (pick.Some? ==> pick.value < |b.ents|) && !e.Checkout? && !e.OtherEvent?
    ensures var (b', outcome) := Process(b, e, now, pick);
            && (outcome == NoMatchingPlan <==> pick.None?)
            && (outcome == StoredCanceled <==> pick.Some? && pick.value in b.canceled && !e.SubscriptionDeleted?)
            && (outcome == NoMatchingPlan || outcome == StoredCanceled ==> b' == b)
            && (outcome == Extended || outcome == Confirmed ==>
                  && e.InvoicePaid? && |b'.ents| == |b.ents|
                  && (outcome == Extended <==> b'.ents[pick.value].periodEnd != b.ents[pick.value].periodEnd))
  {
  }

  /** Exactly when processing raises: a checkout that cannot be read or names no stored rfp, and, for an
      uncanceled plan, a stamp out of range, a mail that fails and a period that cannot be read. */
  lemma RaisesIff(b: Book, e: Event, now: Time, pick: Option<EntId>)
    requires pick.Some? ==> pick.value < |b.ents|
    ensures Process(b, e, now, pick).1 == Raised <==>
              match e
              case Checkout(_, _, rfp, account, _) => !rfp.Known? || rfp.id >= |b.unlockedAt| || !account.Known?
              case InvoicePaid(_, _, stamps) => pick.Some? && pick.value !in b.canceled && OutOfRange in stamps
              case PaymentFailed(_, mailFails) => pick.Some? && pick.value !in b.canceled && mailFails
              case SubscriptionUpdated(_, _, period) => pick.Some? && pick.value !in b.canceled && period.Unreadable?
              case _ => false
  {
  }

  /** Outside the webhook nothing is recorded, and a failure keeps nothing; in it, a failed flush undoes
      the request with its record. */
  lemma WhatIsUndone(s: Store, d: Delivery)
    requires !d.NewRfp? && IsDeliverable(s, d) && IsTakenUp(s, d)
    ensures var outcome := Process(s.book, d.event, d.now, d.pick).1;
            && (d.Direct? ==> Deliver(s, d).records == s.records)
            && ((d.Direct? && outcome == Raised) || outcome == RolledBack ==> Deliver(s, d) == s)
            && (outcome == RolledBack <==>
                  && d.event.Checkout? && d.event.kind == Unlisted
                  && d.event.rfp.Known? && d.event.rfp.id < |s.book.unlockedAt| && d.event.account.Known?
                  && !IsKnownCheckout(s.book, d.event))
  {
    if d.event.Checkout? {
      KnownCheckoutIff(s.book, d.event);
    }
  }

  /** An entitlement is stored under one of the checkout's references. */
  ghost predicate IsKnownCheckout(b: Book, e: Event)
    requires e.Checkout?
  {
    exists k | 0 <= k < |b.ents| ::
      b.ents[k].ref != "" && (b.ents[k].ref == e.session || b.ents[k].ref == e.subscription)
  }

  /** A readable checkout opens its rfp at the first time, and grants one entitlement unless one is
      stored under its references: a single one for the rfp under the session, or a plan for 30 days
      under the subscription, if there is one. */
  lemma CheckoutGrants(s: Store, d: Delivery, rfp: RfpId, account: AccountId)
    requires !d.NewRfp? && d.event.Checkout? && IsDeliverable(s, d) && IsTakenUp(s, d)
    requires d.event.rfp == Known(rfp) && rfp < |s.book.unlockedAt| && d.event.account == Known(account)
    requires d.event.kind == Single || d.event.kind == Plan
    ensures var e, was, b := d.event, s.book, Deliver(s, d).book;
            && b.canceled == was.canceled && |b.unlockedAt| == |was.unlockedAt|
            && (forall r | 0 <= r < |was.unlockedAt| && r != rfp :: b.unlockedAt[r] == was.unlockedAt[r])
            && b.unlockedAt[rfp] == (if was.unlockedAt[rfp].Some? then was.unlockedAt[rfp] else Some(d.now))
            && b.ents == if IsKnownCheckout(was, e) then was.ents
                         else if e.kind == Single then
                           was.ents + [Entitlement(account, Single, Some(rfp), e.session, true, None)]
                         else
                           was.ents + [Entitlement(account, Plan, None,
                                                   if e.subscription != "" then e.subscription else e.session, true,
                                                   Some(d.now + 30 * 24 * 3600))]
  {
    KnownCheckoutIff(s.book, d.event);
  }

  lemma KnownCheckoutIff(b: Book, e: Event)
    requires e.Checkout?
    ensures IsKnownCheckout(b, e) <==> HasRef(b.ents, CheckoutRefs(e.session, e.subscription))
  {
    if k :| 0 <= k < |b.ents| && b.ents[k].ref in CheckoutRefs(e.session, e.subscription) {
      assert b.ents[k].ref != "" && (b.ents[k].ref == e.session || b.ents[k].ref == e.subscription);
    }
    if k :| 0 <= k < |b.ents| && b.ents[k].ref != ""
            && (b.ents[k].ref == e.session || b.ents[k].ref == e.subscription)
    {
      assert b.ents[k].ref in CheckoutRefs(e.session, e.subscription);
    }
  }

  /** The event is about the subscription. */
  predicate IsAbout(e: Event, sub: string) {
    match e
    case InvoicePaid(subscription, id, _) => if subscription != "" then subscription == sub else id == sub
    case PaymentFailed(subscription, _) => subscription == sub
    case SubscriptionDeleted(id) => id == sub
    case SubscriptionUpdated(id, _, _) => id == sub
    case _ => false
  }

  /** So a plan that a checkout stored under its subscription is what the later events of this
      subscription are about. */
  lemma EventFindsPlan(s: Store, d: Delivery, sub: string)
    requires !d.NewRfp? && IsDeliverable(s, d) && IsAbout(d.event, sub)
    ensures d.pick.Some? <==>
              exists p | 0 <= p < |s.book.ents| :: s.book.ents[p].kind == Plan && s.book.ents[p].ref == sub
    ensures d.pick.Some? ==>
              d.pick.value < |s.book.ents|
              && s.book.ents[d.pick.value].kind == Plan && s.book.ents[d.pick.value].ref == sub
  {
    if p :| 0 <= p < |s.book.ents| && s.book.ents[p].kind == Plan && s.book.ents[p].ref == sub {
      assert IsPlan(s.book, p, sub);
    }
  }

  /** An account is denied an rfp exactly if that is closed, has more than ten rows, and the account has
      no active entitlement to it: a single one, if the rfp is its own, or a plan that is not over. */
  lemma DeniedIff(b: Book, account: AccountId, rfp: RfpId, owner: AccountId, rowCount: nat, now: Time)
    requires rfp < |b.unlockedAt|
    ensures !IsEntitled(b, account, rfp, owner, rowCount, now) <==>
              && b.unlockedAt[rfp] == None && rowCount > 10
              && forall e | 0 <= e < |b.ents| && b.ents[e].account == account && b.ents[e].active ::
                   match b.ents[e].kind
                   case Single => b.ents[e].rfp != Some(rfp) || owner != account
                   case Plan => b.ents[e].periodEnd.Some? && b.ents[e].periodEnd.value <= now
                   case Unlisted => true
  {
  }

  /** What an update means for the account: with one of the two states it has access to every rfp while
      the period lasts, and with any other this plan gives it none. */
  lemma UpdateDecidesAccess(s: Store, d: Delivery, p: EntId, rfp: RfpId, owner: AccountId, rowCount: nat, later: Time)
    requires !d.NewRfp? && d.event.SubscriptionUpdated? && ReachesPlan(s, d, p, d.event.period.Unreadable?)
    requires rfp < |s.book.unlockedAt|
    ensures var b, account := Deliver(s, d).book, s.book.ents[p].account;
            |b.unlockedAt| == |s.book.unlockedAt| && |b.ents| == |s.book.ents| &&
            if d.event.status == "active" || d.event.status == "trialing" then
              b.ents[p].periodEnd.None? || b.ents[p].periodEnd.value > later ==>
                IsEntitled(b, account, rfp, owner, rowCount, later)
            else
              (forall q | 0 <= q < |b.ents| && q != p :: !(b.ents[q].kind == Plan && b.ents[q].account == account)) ==>
                !HoldsPlan(b, account, later)
  {
    UpdateSyncs(s, d, p);
    var b := Deliver(s, d).book;
    assert b.ents[p].kind == Plan && b.ents[p].account == s.book.ents[p].account;
  }

  // ------------------------------------------------------- the operations

  class BillingDesk {
    var ents: seq<Entitlement>
    var canceled: set<EntId>
    var unlockedAt: seq<Option<Time>>
    var records: map<string, Record>

    constructor ()
      ensures Stored() == EMPTY_STORE
    {
      ents, canceled, unlockedAt, records := [], {}, [], map[];
    }

    function Books(): Book
      reads this
    {
      Book(ents, canceled, unlockedAt)
    }

    function Stored(): Store
      reads this
    {
      Store(Books(), records)
    }

    /** Any plan stored under the subscription: the query has no order. */
    method FindPlan(sub: string) returns (pick: Option<EntId>)
      ensures IsPick(Books(), sub, pick)
    {
      if exists p :: 0 <= p < |ents| && ents[p].kind == Plan && ents[p].ref == sub {
        var p :| 0 <= p < |ents| && ents[p].kind == Plan && ents[p].ref == sub;
        pick := Some(p);
      } else {
        pick := None;
      }
    }

    /** `_event_period_end`. */
    method LatestStamp(stamps: seq<Stamp>) returns (raised: bool, latest: Option<Time>)
      ensures raised <==> Overflows(stamps)
      ensures !raised ==> latest == EventPeriodEnd(stamps)
    {
      latest := None;
      for k := 0 to |stamps|
        invariant latest == EventPeriodEnd(stamps[..k])
        invariant forall m | 0 <= m < k :: !stamps[m].OutOfRange?
      {
        assert stamps[..k + 1][..k] == stamps[..k];
        if stamps[k].OutOfRange? { return true, None; }
        if stamps[k].At? && stamps[k].t != 0 && (latest.None? || stamps[k].t > latest.value) {
          latest := Some(stamps[k].t);
        }
      }
      assert stamps[..|stamps|] == stamps;
      raised := false;
    }

    method CompleteCheckout(e: Event, now: Time) returns (outcome: Outcome)
      requires e.Checkout?
      modifies this`ents, this`unlockedAt
      ensures (Books(), outcome) == OnCheckout(old(Books()), e, now)
    {
      if !e.rfp.Known? || e.account.Missing? || e.rfp.id >= |unlockedAt| { return Raised; }
      if !HasRef(ents, CheckoutRefs(e.session, e.subscription)) {
        if e.account.Malformed? { return Raised; }
        if e.kind == Unlisted { return RolledBack; }
        ents := ents + [Entitlement(e.account.id, e.kind, if e.kind == Single then Some(e.rfp.id) else None,
                                    if e.kind == Plan && e.subscription != "" then e.subscription else e.session,
                                    true, if e.kind == Plan then Some(now + PLAN_PERIOD) else None)];
      }
      if unlockedAt[e.rfp.id].None? {
        unlockedAt := unlockedAt[e.rfp.id := Some(now)];
      }
      if e.account.Malformed? { return Raised; }
      return Granted;
    }

    method PayInvoice(p: EntId, e: Event, now: Time) returns (outcome: Outcome)
      requires e.InvoicePaid? && p < |ents|
      modifies this`ents
      ensures (Books(), outcome) == OnInvoicePaid(old(Books()), p, e, now)
    {
      if p in canceled { return StoredCanceled; }
      var current := ents[p].periodEnd;
      var raised, canonical := LatestStamp(e.stamps);
      if raised { return Raised; }
      var replacement := current;
      if canonical.Some? && (current.None? || canonical.value > current.value) {
        replacement := canonical;
      } else if canonical.None? && (current.None? || current.value <= now) {
        replacement := Some(now + PLAN_PERIOD);
      }
      var changed := replacement != current;
      if changed {
        ents := ents[p := ents[p].(periodEnd := replacement)];
      }
      ents := ents[p := ents[p].(active := true)];
      assert ents == old(ents)[p := old(ents)[p].(active := true, periodEnd := replacement)];
      outcome := if changed then Extended else Confirmed;
    }

    method SyncSubscription(p: EntId, e: Event) returns (outcome: Outcome)
      requires e.SubscriptionUpdated? && p < |ents|
      modifies this`ents
      ensures (Books(), outcome) == OnUpdated(old(Books()), p, e)
    {
      if p in canceled { return StoredCanceled; }
      ents := ents[p := ents[p].(active := IsActiveStatus(e.status))];
      if e.period.Unreadable? { return Raised; }
      if e.period.EndsAt? && e.period.t != 0 {
        ents := ents[p := ents[p].(periodEnd := Some(e.period.t))];
        assert ents == old(ents)[p := old(ents)[p].(active := IsActiveStatus(e.status), periodEnd := Some(e.period.t))];
      }
      return Synced;
    }

    method ProcessEvent(e: Event, now: Time) returns (outcome: Outcome, ghost pick: Option<EntId>)
      modifies this`ents, this`canceled, this`unlockedAt
      ensures IsPick(old(Books()), SubscriptionOf(e), pick) && (Books(), outcome) == Process(old(Books()), e, now, pick)
    {
      var plan := FindPlan(SubscriptionOf(e));
      pick := plan;
      if e.Checkout? {
        outcome := CompleteCheckout(e, now);
      } else if e.OtherEvent? {
        outcome := Unhandled;
      } else if plan.None? {
        outcome := NoMatchingPlan;
      } else if e.InvoicePaid? {
        outcome := PayInvoice(plan.value, e, now);
      } else if e.PaymentFailed? {
        if plan.value in canceled { return StoredCanceled, pick; }
        ents := ents[plan.value := ents[plan.value].(active := false)];
        outcome := if e.mailFails then Raised else MarkedInactive;
      } else if e.SubscriptionDeleted? {
        ents := ents[plan.value := ents[plan.value].(active := false, periodEnd := Some(now))];
        canceled := canceled + {plan.value};
        outcome := PlanCanceled;
      } else {
        outcome := SyncSubscription(plan.value, e);
      }
    }

    /** `handle_webhook`, with its HTTP status. */
    method HandleWebhook(accepted: bool, id: string, event: Event, now: Time)
      returns (status: int, ghost delivery: Delivery)
      modifies this
      ensures exists pick :: delivery == Webhook(accepted, id, event, now, pick)
      ensures Step(old(Stored()), delivery, Stored())
      ensures status == if !accepted || id == "" then 400
                        else if !IsAttempted(old(Stored()), delivery) || Completes(old(Stored()), delivery, id) then 200
                        else 500
    {
      ghost var unused := SomePick(Books(), SubscriptionOf(event));
      delivery := Webhook(accepted, id, event, now, unused);
      if !accepted || id == "" { return 400, delivery; }
      if id in records && records[id].status != Processing { return 200, delivery; }
      var before := records;
      if id !in records {
        records := records[id := Record(Processing, 0)];
      }
      var outcome;
      ghost var pick;
      outcome, pick := ProcessEvent(event, now);
      delivery := Webhook(accepted, id, event, now, pick);
      if outcome == RolledBack {
        records := before;
        return 500, delivery;
      }
      SettleRecord(id, outcome == Raised);
      return if outcome == Raised then 500 else 200, delivery;
    }

    method SettleRecord(id: string, failed: bool)
      requires id in records
      modifies this`records
      ensures records == old(records)[id := RecordAfter(old(records)[id], failed)]
    {
      var record := records[id];
      if failed {
        record := record.(attempts := record.attempts + 1);
        if record.attempts >= MAX_DELIVERIES {
          record := record.(status := DeadLettered);
        }
      } else {
        record := record.(status := Processed);
      }
      records := records[id := record];
    }
  }
}
