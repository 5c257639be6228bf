/** Safety over whole runs of the shop. */
module ShopRuns {
  import opened Outcomes
  import opened Lines
  import opened Catalog
  import opened Stock
  import opened Carts
  import opened Checkout
  import opened CheckoutLaws
  import opened ShopSteps
  import opened ShopInvariant

  // ---------- no overselling ----------

  /** A warehouse adjustment that takes away stock which is already reserved. */
  predicate DigsIntoReserved(s: Shop, step: Step) {
    && step.AdjustStep? && step.variant in s.inventory
    && var l := s.inventory[step.variant];
       step.delta != 0 && l.onHand + step.delta >= 0 && l.available + step.delta < 0
  }

  /** Availability stays non-negative exactly over the steps that do not dig into reserved stock. */
  lemma NeverOversoldIff(s: Shop, step: Step)
    requires ShopOk(s) && NoneNegative(s.inventory)
    ensures NoneNegative(Next(s, step).inventory) <==> !DigsIntoReserved(s, step)
  {
    match step
    case ReserveStep(id, userId, catalog, now) => ReserveNeverOversells(s, id, userId, catalog, now);
    case CancelStep(id, userId) =>
      if Owned(s, id, userId) {
        CloseNeverOversells(s, id, Cancelled, Released);
      }
    case FinishExpireStep(id) =>
      if id < |s.sessions| {
        CloseNeverOversells(s, id, Expired, Lapsed);
      }
    case AdjustStep(v, delta) =>
      if DigsIntoReserved(s, step) {
        assert Next(s, step).inventory[v].available < 0;
      }
    case _ =>
  }

  lemma ReserveNeverOversells(s: Shop, id: SessionId, userId: UserId, catalog: Catalog, now: int)
    requires ShopOk(s) && NoneNegative(s.inventory)
    ensures NoneNegative(Reserve(s, id, userId, catalog, now).shop.inventory)
  {
    if Reserve(s, id, userId, catalog, now).result.Ok? {
      var lines := LinesOf(s.sessions[id].items);
      assert SessionOk(s.sessions[id]);
      LinesArePositive(s.sessions[id]);
      ReserveLinesLaw(catalog, s.inventory, lines);
      forall v | v in s.inventory
        ensures s.inventory[v].available - Demand(lines, v) >= 0
      {
        DemandSign(lines, v);
        if Names(lines, v) {
          var i :| 0 <= i < |lines| && lines[i].variant == v;
          assert Demand(lines, lines[i].variant) <= Available(s.inventory, lines[i].variant);
        }
      }
    }
  }

  lemma CloseNeverOversells(s: Shop, id: SessionId, sessionStatus: SessionStatus, reservationStatus: ReservationStatus)
    requires ShopOk(s) && NoneNegative(s.inventory) && id < |s.sessions|
    ensures NoneNegative(Close(s, id, sessionStatus, reservationStatus).inventory)
  {
    var session := s.sessions[id];
    if HasActive(session) {
      assert SessionOk(session);
      ClampsNeverBite(s, id);
      LinesArePositive(session);
      forall v { DemandSign(session.reservation.value.items, v); }
    }
  }

  /** Over every run in which no adjustment digs into reserved stock, nothing is ever oversold. */
  lemma {:induction false} RunNeverOversells(s: Shop, steps: seq<Step>)
    requires ShopOk(s) && NoneNegative(s.inventory)
    requires forall k :: 0 <= k < |steps| ==> !DigsIntoReserved(Run(s, steps[..k]), steps[k])
    ensures NoneNegative(Run(s, steps).inventory)
    ensures forall v :: v in Run(s, steps).inventory ==>
      0 <= Held(Run(s, steps).sessions, v) <= Run(s, steps).inventory[v].onHand
  {
    RunKeepsOrder(s, steps);
    var after := Run(s, steps);
    if |steps| > 0 {
      var front := steps[..|steps| - 1];
      forall k | 0 <= k < |front|
        ensures !DigsIntoReserved(Run(s, front[..k]), front[k])
      {
        assert front[..k] == steps[..k];
      }
      RunNeverOversells(s, front);
      RunKeepsOrder(s, front);
      NeverOversoldIff(Run(s, front), steps[|steps| - 1]);
    }
    forall v | v in after.inventory
      ensures 0 <= Held(after.sessions, v) <= after.inventory[v].onHand
    {
      HeldCovers(after.sessions, v);
    }
  }

  // ---------- sessions over time ----------

  /** What a session is made of never changes after its creation. */
  predicate SameSnapshot(a: Session, b: Session) {
    && a.userId == b.userId && a.items == b.items && a.subtotal == b.subtotal && a.grandTotal == b.grandTotal
    && a.expiresAt == b.expiresAt && a.idempotencyKey == b.idempotencyKey
    && (a.reservation.Some? ==> b.reservation.Some? && b.reservation.value.items == a.reservation.value.items)
  }

  ghost predicate SnapshotsKept(a: seq<Session>, b: seq<Session>) {
    |a| <= |b| && forall i :: 0 <= i < |a| ==> SameSnapshot(a[i], b[i])
  }

  /** The session whose stock a step may move. */
  function Subject(step: Step): Option<SessionId> {
    match step
    case ReserveStep(id, _, _, _) => Some(id)
    case CancelStep(id, _) => Some(id)
    case FinishExpireStep(id) => Some(id)
    case OrderStep(id, _) => Some(id)
    case _ => None
  }

  /** 0 before the reservation, 1 while it is active, 2 once it has been released, lapsed or confirmed. */
  function StageOf(session: Session): nat {
    if session.reservation.None? then 0 else if session.reservation.value.status == Active then 1 else 2
  }

  predicate Advances(a: Session, b: Session) {
    SameSnapshot(a, b) && StageOf(a) <= StageOf(b) <= StageOf(a) + 1
  }

  /** At most session `id` changed, and it advanced. */
  ghost predicate TouchesOnly(a: seq<Session>, b: seq<Session>, id: SessionId) {
    |a| == |b| && (id < |a| ==> Advances(a[id], b[id])) && forall j :: 0 <= j < |a| && j != id ==> a[j] == b[j]
  }

  lemma UpdateTouches(a: seq<Session>, id: SessionId, session: Session)
    requires id < |a| && Advances(a[id], session)
    ensures TouchesOnly(a, a[id := session], id)
  {
  }

  lemma ReserveTouches(s: Shop, id: SessionId, userId: UserId, catalog: Catalog, now: int)
    requires ShopOk(s)
    ensures TouchesOnly(s.sessions, Reserve(s, id, userId, catalog, now).shop.sessions, id)
  {
    var out := Reserve(s, id, userId, catalog, now);
    if out.result.Ok? {
      assert SessionOk(s.sessions[id]);
      UpdateTouches(s.sessions, id, out.shop.sessions[id]);
    }
  }

  lemma CloseTouches(s: Shop, id: SessionId, sessionStatus: SessionStatus, reservationStatus: ReservationStatus)
    requires id < |s.sessions| && reservationStatus != Active
    ensures TouchesOnly(s.sessions, Close(s, id, sessionStatus, reservationStatus).sessions, id)
  {
    UpdateTouches(s.sessions, id, Close(s, id, sessionStatus, reservationStatus).sessions[id]);
  }

  lemma OrderTouches(s: Shop, id: SessionId, userId: UserId)
    ensures TouchesOnly(s.sessions, PlaceOrder(s, id, userId).shop.sessions, id)
  {
    var out := PlaceOrder(s, id, userId);
    if out.result.Ok? {
      UpdateTouches(s.sessions, id, out.shop.sessions[id]);
    }
  }

  lemma AddressTouches(s: Shop, id: SessionId, userId: UserId, address: Address, now: int)
    ensures TouchesOnly(s.sessions, UpdateAddress(s, id, userId, address, now).shop.sessions, id)
    ensures Owned(s, id, userId) ==>
      UpdateAddress(s, id, userId, address, now).shop.sessions[id].reservation == s.sessions[id].reservation
  {
    var out := UpdateAddress(s, id, userId, address, now);
    if out.result.Ok? {
      UpdateTouches(s.sessions, id, out.shop.sessions[id]);
    }
  }

  /** The session a step may write, with the address steps added to those that move stock. */
  function Writes(step: Step): Option<SessionId> {
    if step.AddressStep? then Some(step.id) else Subject(step)
  }

  /** A step writes one session at most, or appends one without a reservation. */
  lemma NextTouches(s: Shop, step: Step)
    requires ShopOk(s)
    ensures Writes(step).Some? ==> TouchesOnly(s.sessions, Next(s, step).sessions, Writes(step).value)
    ensures Writes(step).None? ==>
      Next(s, step).sessions == s.sessions
      || (|Next(s, step).sessions| == |s.sessions| + 1
          && Next(s, step).sessions[..|s.sessions|] == s.sessions
          && Next(s, step).sessions[|s.sessions|].reservation.None?)
  {
    match step
    case AddressStep(id, userId, address, now) => AddressTouches(s, id, userId, address, now);
    case ReserveStep(id, userId, catalog, now) => ReserveTouches(s, id, userId, catalog, now);
    case CancelStep(id, userId) =>
      if Owned(s, id, userId) {
        CloseTouches(s, id, Cancelled, Released);
      }
    case FinishExpireStep(id) =>
      if id < |s.sessions| {
        CloseTouches(s, id, Expired, Lapsed);
      }
    case OrderStep(id, userId) => OrderTouches(s, id, userId);
    case _ =>
  }

  lemma NextKeepsSnapshots(s: Shop, step: Step)
    requires ShopOk(s)
    ensures SnapshotsKept(s.sessions, Next(s, step).sessions)
    ensures forall i :: 0 <= i < |s.sessions| ==> Advances(s.sessions[i], Next(s, step).sessions[i])
    ensures forall i :: |s.sessions| <= i < |Next(s, step).sessions| ==> Next(s, step).sessions[i].reservation.None?
  {
    NextTouches(s, step);
    var a, b := s.sessions, Next(s, step).sessions;
    forall i | 0 <= i < |a|
      ensures Advances(a[i], b[i])
    {
      if Writes(step).None? {
        assert b[..|a|][i] == b[i];
      }
    }
  }

  /** No later cart or checkout step touches the items or totals of an existing session. */
  lemma {:induction false} RunKeepsSnapshots(s: Shop, steps: seq<Step>)
    requires ShopOk(s)
    ensures SnapshotsKept(s.sessions, Run(s, steps).sessions)
  {
    if |steps| > 0 {
      var front := steps[..|steps| - 1];
      RunKeepsSnapshots(s, front);
      RunKeepsOrder(s, front);
      NextKeepsSnapshots(Run(s, front), steps[|steps| - 1]);
      var a, b, c := s.sessions, Run(s, front).sessions, Run(s, steps).sessions;
      forall i | 0 <= i < |a|
        ensures SameSnapshot(a[i], c[i])
      {
        assert SameSnapshot(a[i], b[i]) && SameSnapshot(b[i], c[i]);
      }
    }
  }

  function Stage(s: Shop, i: SessionId): nat {
    if i >= |s.sessions| then 0 else StageOf(s.sessions[i])
  }

  lemma NextAdvancesStage(s: Shop, step: Step, i: SessionId)
    requires ShopOk(s)
    ensures Stage(s, i) <= Stage(Next(s, step), i) <= Stage(s, i) + 1
  {
    NextKeepsSnapshots(s, step);
    assert i < |s.sessions| ==> Advances(s.sessions[i], Next(s, step).sessions[i]);
  }

  /** How often the reservation of session `i` stops being active during a run. */
  function Exits(s: Shop, steps: seq<Step>, i: SessionId): nat {
    if |steps| == 0 then 0
    else
      var before := Run(s, steps[..|steps| - 1]);
      Exits(s, steps[..|steps| - 1], i)
      + (if Stage(before, i) == 1 && Stage(Next(before, steps[|steps| - 1]), i) != 1 then 1 else 0)
  }

  /**
    * Under any order and repetition of cancelling and expiring, a reservation stops being active at most once; it
    * does so exactly when it was not yet over at the start and is over at the end.
    */
  lemma {:induction false} LeavesActiveOnce(s: Shop, steps: seq<Step>, i: SessionId)
    requires ShopOk(s)
    ensures Stage(s, i) <= Stage(Run(s, steps), i)
    ensures Exits(s, steps, i) == if Stage(s, i) < 2 && Stage(Run(s, steps), i) == 2 then 1 else 0
  {
    if |steps| > 0 {
      var front := steps[..|steps| - 1];
      LeavesActiveOnce(s, front, i);
      RunKeepsOrder(s, front);
      NextAdvancesStage(Run(s, front), steps[|steps| - 1], i);
    }
  }

  // ---------- the ledger of one session ----------

  function ReservedOf(inv: Inventory, v: VariantId): int {
    if v in inv then inv[v].reserved else 0
  }

  function HeldBy(s: Shop, i: SessionId, v: VariantId): int {
    if i < |s.sessions| then Contribution(s.sessions[i], v) else 0
  }

  /** What moved into `reserved` and into `available`. */
  datatype Flow = Flow(reserved: int, available: int)

  function StepFlow(s: Shop, step: Step, v: VariantId): Flow {
    var after := Next(s, step);
    Flow(ReservedOf(after.inventory, v) - ReservedOf(s.inventory, v),
         Available(after.inventory, v) - Available(s.inventory, v))
  }

  /** Everything the steps of session `i` moved during a run, whoever else was active in between. */
  function Ledger(s: Shop, steps: seq<Step>, i: SessionId, v: VariantId): Flow {
    if |steps| == 0 then Flow(0, 0)
    else
      var front, last := steps[..|steps| - 1], steps[|steps| - 1];
      var sum := Ledger(s, front, i, v);
      if Subject(last) == Some(i) then
        var flow := StepFlow(Run(s, front), last, v);
        Flow(sum.reserved + flow.reserved, sum.available + flow.available)
      else sum
  }

  lemma TouchedHolds(a: seq<Session>, b: seq<Session>, i: SessionId, v: VariantId)
    requires TouchesOnly(a, b, i)
    ensures Held(b, v) - Held(a, v) == if i < |a| then Contribution(b[i], v) - Contribution(a[i], v) else 0
  {
    if i < |a| {
      assert b == a[i := b[i]];
      HeldOfUpdate(a, i, b[i], v);
    } else {
      assert b == a;
    }
  }

  lemma SubjectHolds(s: Shop, step: Step, i: SessionId, v: VariantId)
    requires ShopOk(s) && Subject(step) == Some(i)
    ensures Held(Next(s, step).sessions, v) - Held(s.sessions, v) == HeldBy(Next(s, step), i, v) - HeldBy(s, i, v)
  {
    NextTouches(s, step);
    TouchedHolds(s.sessions, Next(s, step).sessions, i, v);
  }

  /** A step moves stock for its own session only, and what it moves is the change in what that session holds. */
  lemma StepFlowIsHeld(s: Shop, step: Step, i: SessionId, v: VariantId)
    requires ShopOk(s)
    ensures Subject(step) == Some(i) ==>
      StepFlow(s, step, v).reserved == HeldBy(Next(s, step), i, v) - HeldBy(s, i, v) == -StepFlow(s, step, v).available
    ensures Subject(step) != Some(i) ==> HeldBy(Next(s, step), i, v) == HeldBy(s, i, v)
  {
    if Subject(step) == Some(i) {
      SubjectFlow(s, step, v);
      SubjectHolds(s, step, i, v);
    } else {
      OthersKeepHolding(s, step, i, v);
    }
  }

  lemma OthersKeepHolding(s: Shop, step: Step, i: SessionId, v: VariantId)
    requires ShopOk(s) && Subject(step) != Some(i)
    ensures HeldBy(Next(s, step), i, v) == HeldBy(s, i, v)
  {
    NextTouches(s, step);
    if step.AddressStep? {
      AddressTouches(s, step.id, step.userId, step.address, step.at);
    } else if Writes(step).None? && i < |s.sessions| {
      assert Next(s, step).sessions[..|s.sessions|][i] == Next(s, step).sessions[i];
    }
  }

  lemma {:induction false} ReleaseAllKeys(inv: Inventory, lines: seq<Line>)
    ensures ReleaseAll(inv, lines).Keys == inv.Keys
    ensures forall v :: v in inv ==> ReleaseAll(inv, lines)[v].onHand == inv[v].onHand
  {
    if |lines| > 0 {
      ReleaseAllKeys(inv, lines[..|lines| - 1]);
    }
  }

  lemma {:induction false} ReserveLinesKeys(catalog: Catalog, inv: Inventory, lines: seq<Line>)
    requires ReserveLines(catalog, inv, lines).Ok?
    ensures ReserveLines(catalog, inv, lines).value.Keys == inv.Keys
    ensures forall v :: v in inv ==> ReserveLines(catalog, inv, lines).value[v].onHand == inv[v].onHand
  {
    if |lines| > 0 {
      ReserveLinesKeys(catalog, inv, lines[..|lines| - 1]);
    }
  }

  lemma SubjectStepKeys(s: Shop, step: Step)
    requires Subject(step).Some?
    ensures Next(s, step).inventory.Keys == s.inventory.Keys
    ensures forall v :: v in s.inventory ==> Next(s, step).inventory[v].onHand == s.inventory[v].onHand
  {
    match step
    case ReserveStep(id, userId, catalog, now) =>
      if Reserve(s, id, userId, catalog, now).result.Ok? {
        ReserveLinesKeys(catalog, s.inventory, LinesOf(s.sessions[id].items));
      }
    case CancelStep(id, userId) =>
      if Owned(s, id, userId) && HasActive(s.sessions[id]) {
        ReleaseAllKeys(s.inventory, s.sessions[id].reservation.value.items);
      }
    case FinishExpireStep(id) =>
      if id < |s.sessions| && HasActive(s.sessions[id]) {
        ReleaseAllKeys(s.inventory, s.sessions[id].reservation.value.items);
      }
    case OrderStep(id, userId) =>
  }

  lemma SubjectFlow(s: Shop, step: Step, v: VariantId)
    requires ShopOk(s) && Subject(step).Some?
    ensures StepFlow(s, step, v).reserved == -StepFlow(s, step, v).available
    ensures StepFlow(s, step, v).reserved == Held(Next(s, step).sessions, v) - Held(s.sessions, v)
  {
    NextKeepsOrder(s, step);
    SubjectStepKeys(s, step);
  }

  /**
    * Over every run the ledger of a session is the change in what it holds. So once its reservation is released or
    * lapsed its net contribution to `reserved` and to `available` is zero, whatever other sessions did in between.
    */
  lemma {:induction false} LedgerIsHeld(s: Shop, steps: seq<Step>, i: SessionId, v: VariantId)
    requires ShopOk(s)
    ensures Ledger(s, steps, i, v).reserved == HeldBy(Run(s, steps), i, v) - HeldBy(s, i, v)
    ensures Ledger(s, steps, i, v).available == -Ledger(s, steps, i, v).reserved
  {
    if |steps| > 0 {
      var front := steps[..|steps| - 1];
      LedgerIsHeld(s, front, i, v);
      RunKeepsOrder(s, front);
      StepFlowIsHeld(Run(s, front), steps[|steps| - 1], i, v);
    }
  }
}
