/**
  * Reserve and release transactions of distinct sessions, interleaved one UPDATE at a time. A reserving transaction
  * checks each line against the stock it read when it began, which may be stale by then; when it fails it takes its
  * own updates back one by one while the others go on.
  */
module Interleaving {
  import opened Outcomes
  import opened Lines
  import opened Catalog
  import opened Stock
  import opened Checkout
  import opened CheckoutLaws

  datatype Txn =
    | Waiting(lines: seq<Line>)
    | Taking(lines: seq<Line>, catalog: Catalog, read: Inventory, done: nat)
    | Undoing(lines: seq<Line>, left: nat)
    | Failed(lines: seq<Line>)
    | Committed(lines: seq<Line>)
    | Releasing(lines: seq<Line>, given: nat)
    | Ended(lines: seq<Line>)

  datatype World = World(inv: Inventory, txns: seq<Txn>)

  datatype Action =
    | Begin(i: nat, catalog: Catalog)
    | Take(i: nat)
    | Commit(i: nat)
    | Undo(i: nat)
    | StartRelease(i: nat)
    | GiveBack(i: nat)

  /** The lines a transaction has taken and not yet given back. */
  function Holding(t: Txn): seq<Line> {
    match t
    case Taking(lines, _, _, done) => if done <= |lines| then lines[..done] else lines
    case Undoing(lines, left) => if left <= |lines| then lines[..left] else lines
    case Committed(lines) => lines
    case Releasing(lines, given) => if given <= |lines| then lines[given..] else []
    case _ => []
  }

  /** What a transaction has reserved for good, seen from outside. */
  function CommittedLines(t: Txn): seq<Line> {
    if t.Committed? then t.lines else []
  }

  function Step(w: World, a: Action): World {
    if a.i >= |w.txns| then w
    else
      var t := w.txns[a.i];
      match a
      case Begin(i, catalog) => if t.Waiting? then w.(txns := w.txns[i := Taking(t.lines, catalog, w.inv, 0)]) else w
      case Take(i) => if t.Taking? && t.done < |t.lines| then TakeNext(w, i) else w
      case Commit(i) => if t.Taking? && t.done == |t.lines| then w.(txns := w.txns[i := Committed(t.lines)]) else w
      case Undo(i) => if t.Undoing? && t.left <= |t.lines| then UndoLast(w, i) else w
      case StartRelease(i) => if t.Committed? then w.(txns := w.txns[i := Releasing(t.lines, 0)]) else w
      case GiveBack(i) => if t.Releasing? && t.given <= |t.lines| then GiveBackNext(w, i) else w
  }

  /** The next turn of a reserve loop: the stale check first, then the guarded update. */
  function TakeNext(w: World, i: nat): World
    requires i < |w.txns| && w.txns[i].Taking? && w.txns[i].done < |w.txns[i].lines|
  {
    var t := w.txns[i];
    match ReserveLine(t.catalog, t.read, w.inv, t.lines[t.done])
    case Err(_) => w.(txns := w.txns[i := Undoing(t.lines, t.done)])
    case Ok(inv) => World(inv, w.txns[i := t.(done := t.done + 1)])
  }

  /** A rollback restores the row exactly, without clamps. */
  function Restored(inv: Inventory, line: Line): Inventory {
    Returned(inv, [line])
  }

  function UndoLast(w: World, i: nat): World
    requires i < |w.txns| && w.txns[i].Undoing? && w.txns[i].left <= |w.txns[i].lines|
  {
    var t := w.txns[i];
    if t.left == 0 then w.(txns := w.txns[i := Failed(t.lines)])
    else World(Restored(w.inv, t.lines[t.left - 1]), w.txns[i := t.(left := t.left - 1)])
  }

  function GiveBackNext(w: World, i: nat): World
    requires i < |w.txns| && w.txns[i].Releasing? && w.txns[i].given <= |w.txns[i].lines|
  {
    var t := w.txns[i];
    if t.given == |t.lines| then w.(txns := w.txns[i := Ended(t.lines)])
    else World(ReleaseOne(w.inv, t.lines[t.given]), w.txns[i := t.(given := t.given + 1)])
  }

  function Run(w: World, actions: seq<Action>): World {
    if |actions| == 0 then w else Step(Run(w, actions[..|actions| - 1]), actions[|actions| - 1])
  }

  // ---------- sums over transactions ----------

  function Holdings(txns: seq<Txn>): (r: seq<seq<Line>>)
    ensures |r| == |txns| && forall i :: 0 <= i < |r| ==> r[i] == Holding(txns[i])
  {
    seq(|txns|, i requires 0 <= i < |txns| => Holding(txns[i]))
  }

  function Commitments(txns: seq<Txn>): (r: seq<seq<Line>>)
    ensures |r| == |txns| && forall i :: 0 <= i < |r| ==> r[i] == CommittedLines(txns[i])
  {
    seq(|txns|, i requires 0 <= i < |txns| => CommittedLines(txns[i]))
  }

  function Total(parts: seq<seq<Line>>, v: VariantId): int {
    if |parts| == 0 then 0 else Total(parts[..|parts| - 1], v) + Demand(parts[|parts| - 1], v)
  }

  lemma {:induction false} TotalOfUpdate(parts: seq<seq<Line>>, i: nat, lines: seq<Line>, v: VariantId)
    requires i < |parts|
    ensures Total(parts[i := lines], v) == Total(parts, v) - Demand(parts[i], v) + Demand(lines, v)
  {
    var front := parts[..|parts| - 1];
    if i == |parts| - 1 {
      assert parts[i := lines][..|parts| - 1] == front;
    } else {
      TotalOfUpdate(front, i, lines, v);
      assert parts[i := lines][..|parts| - 1] == front[i := lines];
    }
  }

  /** Parts that each ask for no more add up to no more; any single gap carries over to the sum. */
  lemma {:induction false} TotalIsMonotone(a: seq<seq<Line>>, b: seq<seq<Line>>, v: VariantId)
    requires |a| == |b| && forall i :: 0 <= i < |a| ==> Demand(a[i], v) <= Demand(b[i], v)
    ensures Total(a, v) <= Total(b, v)
    ensures forall i :: 0 <= i < |a| ==> Total(a, v) + Demand(b[i], v) - Demand(a[i], v) <= Total(b, v)
  {
    if |a| > 0 {
      TotalIsMonotone(a[..|a| - 1], b[..|b| - 1], v);
      forall i | 0 <= i < |a|
        ensures Total(a, v) + Demand(b[i], v) - Demand(a[i], v) <= Total(b, v)
      {
        if i < |a| - 1 {
          assert a[..|a| - 1][i] == a[i] && b[..|b| - 1][i] == b[i];
        }
      }
    }
  }

  // ---------- the invariant ----------

  ghost predicate TxnOk(t: Txn) {
    && Positive(t.lines)
    && (t.Taking? ==> t.done <= |t.lines| && AllSellable(t.catalog, t.lines[..t.done]))
    && (t.Undoing? ==> t.left <= |t.lines|)
    && (t.Releasing? ==> t.given <= |t.lines|)
  }

  /**
    * `available` is never negative, and `reserved` is exactly what the transactions hold between them: committed
    * reservations, takes still in flight, and what is not yet given back.
    */
  ghost predicate Safe(w: World) {
    && (forall i :: 0 <= i < |w.txns| ==> TxnOk(w.txns[i]))
    && Balanced(w.inv) && NoneNegative(w.inv)
    && (forall v :: v in w.inv ==> w.inv[v].reserved == Total(Holdings(w.txns), v))
    && (forall v :: v !in w.inv ==> Total(Holdings(w.txns), v) == 0)
  }

  lemma HoldingIsPositive(t: Txn)
    requires TxnOk(t)
    ensures Positive(Holding(t))
  {
  }

  lemma HoldingsCover(w: World, i: nat, v: VariantId)
    requires Safe(w) && i < |w.txns|
    ensures 0 <= Demand(Holding(w.txns[i]), v) <= Total(Holdings(w.txns), v)
  {
    var none := seq(|w.txns|, j requires 0 <= j < |w.txns| => []);
    forall j | 0 <= j < |w.txns|
      ensures 0 == Demand(none[j], v) <= Demand(Holdings(w.txns)[j], v)
    {
      HoldingIsPositive(w.txns[j]);
      DemandSign(Holding(w.txns[j]), v);
    }
    TotalIsMonotone(none, Holdings(w.txns), v);
    TotalOfNothing(none, v);
    assert Total(none, v) + Demand(Holdings(w.txns)[i], v) - Demand(none[i], v) <= Total(Holdings(w.txns), v);
  }

  lemma {:induction false} TotalOfNothing(parts: seq<seq<Line>>, v: VariantId)
    requires forall j :: 0 <= j < |parts| ==> parts[j] == []
    ensures Total(parts, v) == 0
  {
    if |parts| > 0 {
      TotalOfNothing(parts[..|parts| - 1], v);
    }
  }

  lemma HoldingsOfUpdate(txns: seq<Txn>, i: nat, t: Txn, v: VariantId)
    requires i < |txns|
    ensures Total(Holdings(txns[i := t]), v) ==
      Total(Holdings(txns), v) - Demand(Holding(txns[i]), v) + Demand(Holding(t), v)
    ensures Total(Commitments(txns[i := t]), v) ==
      Total(Commitments(txns), v) - Demand(CommittedLines(txns[i]), v) + Demand(CommittedLines(t), v)
  {
    assert Holdings(txns[i := t]) == Holdings(txns)[i := Holding(t)];
    TotalOfUpdate(Holdings(txns), i, Holding(t), v);
    assert Commitments(txns[i := t]) == Commitments(txns)[i := CommittedLines(t)];
    TotalOfUpdate(Commitments(txns), i, CommittedLines(t), v);
  }

  /** A change of phase that holds the same lines. */
  lemma RephaseIsSafe(w: World, i: nat, t: Txn)
    requires Safe(w) && i < |w.txns| && TxnOk(t) && Holding(t) == Holding(w.txns[i])
    ensures Safe(w.(txns := w.txns[i := t]))
  {
    forall v { HoldingsOfUpdate(w.txns, i, t, v); }
  }

  lemma TakeIsSafe(w: World, i: nat)
    requires Safe(w) && i < |w.txns| && w.txns[i].Taking? && w.txns[i].done < |w.txns[i].lines|
    ensures Safe(TakeNext(w, i))
  {
    var t := w.txns[i];
    assert TxnOk(t);
    var line := t.lines[t.done];
    if ReserveLine(t.catalog, t.read, w.inv, line).Err? {
      RephaseIsSafe(w, i, Undoing(t.lines, t.done));
    } else {
      var next := t.(done := t.done + 1);
      assert t.lines[..t.done + 1] == t.lines[..t.done] + [line];
      assert TxnOk(next);
      forall v
        ensures Total(Holdings(w.txns[i := next]), v) == Total(Holdings(w.txns), v) + Asked(line, v)
      {
        HoldingsOfUpdate(w.txns, i, next, v);
        DemandOfAppend(t.lines[..t.done], line, v);
      }
    }
  }

  lemma DemandOfOne(line: Line, v: VariantId)
    ensures Demand([line], v) == Asked(line, v)
  {
    DemandOfAppend([], line, v);
    assert [] + [line] == [line];
  }

  /** Handing one held line back, unclamped. */
  lemma ReturnIsSafe(w: World, i: nat, next: Txn, line: Line)
    requires Safe(w) && i < |w.txns| && TxnOk(next) && line.quantity >= 1
    requires forall v :: Demand(Holding(w.txns[i]), v) == Demand(Holding(next), v) + Asked(line, v)
    ensures Safe(World(Returned(w.inv, [line]), w.txns[i := next]))
  {
    forall v
      ensures Total(Holdings(w.txns[i := next]), v) == Total(Holdings(w.txns), v) - Demand([line], v)
      ensures 0 <= Demand([line], v) <= Total(Holdings(w.txns), v)
    {
      HoldingsOfUpdate(w.txns, i, next, v);
      DemandOfOne(line, v);
      HoldingsCover(w, i, v);
      HoldingIsPositive(next);
      DemandSign(Holding(next), v);
    }
  }

  lemma UndoIsSafe(w: World, i: nat)
    requires Safe(w) && i < |w.txns| && w.txns[i].Undoing? && w.txns[i].left <= |w.txns[i].lines|
    ensures Safe(UndoLast(w, i))
  {
    var t := w.txns[i];
    assert TxnOk(t);
    if t.left == 0 {
      RephaseIsSafe(w, i, Failed(t.lines));
    } else {
      var line, next := t.lines[t.left - 1], t.(left := t.left - 1);
      assert t.lines[..t.left] == t.lines[..t.left - 1] + [line];
      forall v { DemandOfAppend(t.lines[..t.left - 1], line, v); }
      ReturnIsSafe(w, i, next, line);
    }
  }

  lemma HeldTail(t: Txn, v: VariantId)
    requires t.Releasing? && t.given < |t.lines|
    ensures Demand(Holding(t), v) == Demand(Holding(t.(given := t.given + 1)), v) + Asked(t.lines[t.given], v)
  {
    assert t.lines[t.given..] == [t.lines[t.given]] + t.lines[t.given + 1..];
    DemandOfConcat([t.lines[t.given]], t.lines[t.given + 1..], v);
    DemandOfOne(t.lines[t.given], v);
  }

  /** The clamps of a release never bite, even between the updates of other transactions. */
  lemma GiveBackIsPlain(w: World, i: nat)
    requires Safe(w) && i < |w.txns| && w.txns[i].Releasing? && w.txns[i].given < |w.txns[i].lines|
    ensures var line := w.txns[i].lines[w.txns[i].given];
      line.variant in w.inv && ReleaseOne(w.inv, line) == Returned(w.inv, [line])
  {
    var t := w.txns[i];
    var line, next := t.lines[t.given], t.(given := t.given + 1);
    assert TxnOk(t) && TxnOk(next);
    forall v
      ensures Demand([line], v) == Asked(line, v) <= Total(Holdings(w.txns), v)
    {
      HeldTail(t, v);
      HoldingIsPositive(next);
      DemandSign(Holding(next), v);
      HoldingsCover(w, i, v);
      DemandOfOne(line, v);
    }
    assert Returned(w.inv, [line]) == ReleaseOne(w.inv, line);
  }

  lemma GiveBackIsSafe(w: World, i: nat)
    requires Safe(w) && i < |w.txns| && w.txns[i].Releasing? && w.txns[i].given <= |w.txns[i].lines|
    ensures Safe(GiveBackNext(w, i))
  {
    var t := w.txns[i];
    assert TxnOk(t);
    if t.given == |t.lines| {
      RephaseIsSafe(w, i, Ended(t.lines));
    } else {
      var line, next := t.lines[t.given], t.(given := t.given + 1);
      GiveBackIsPlain(w, i);
      assert GiveBackNext(w, i) == World(Returned(w.inv, [line]), w.txns[i := next]);
      forall v { HeldTail(t, v); }
      ReturnIsSafe(w, i, next, line);
    }
  }

  lemma StepIsSafe(w: World, a: Action)
    requires Safe(w)
    ensures Safe(Step(w, a))
  {
    if a.i < |w.txns| {
      var t := w.txns[a.i];
      assert TxnOk(t);
      match a
      case Begin(i, catalog) =>
        if t.Waiting? {
          RephaseIsSafe(w, i, Taking(t.lines, catalog, w.inv, 0));
        }
      case Take(i) =>
        if t.Taking? && t.done < |t.lines| {
          TakeIsSafe(w, i);
        }
      case Commit(i) =>
        if t.Taking? && t.done == |t.lines| {
          assert t.lines[..t.done] == t.lines;
          RephaseIsSafe(w, i, Committed(t.lines));
        }
      case Undo(i) =>
        if t.Undoing? && t.left <= |t.lines| {
          UndoIsSafe(w, i);
        }
      case StartRelease(i) =>
        if t.Committed? {
          assert t.lines[0..] == t.lines;
          RephaseIsSafe(w, i, Releasing(t.lines, 0));
        }
      case GiveBack(i) =>
        if t.Releasing? && t.given <= |t.lines| {
          GiveBackIsSafe(w, i);
        }
    }
  }

  /** In every interleaving, at every point, no variant is oversold and every reserved unit is accounted for. */
  lemma {:induction false} RunIsSafe(w: World, actions: seq<Action>)
    requires Safe(w)
    ensures Safe(Run(w, actions))
  {
    if |actions| > 0 {
      RunIsSafe(w, actions[..|actions| - 1]);
      StepIsSafe(Run(w, actions[..|actions| - 1]), actions[|actions| - 1]);
    }
  }

  // ---------- the interleaved machine refines the atomic one ----------

  /** The stock an observer sees who counts a transaction's lines as reserved from its commit to its release. */
  function Seen(w: World): Inventory {
    map v | v in w.inv ::
      Level(w.inv[v].onHand, w.inv[v].onHand - Total(Commitments(w.txns), v), Total(Commitments(w.txns), v))
  }

  /** One whole transaction, executed at once. */
  datatype Atomic = AtomicReserve(catalog: Catalog, lines: seq<Line>) | AtomicRelease(lines: seq<Line>)

  function Execute(inv: Inventory, op: Atomic): Option<Inventory> {
    match op
    case AtomicReserve(catalog, lines) =>
      (match ReserveLines(catalog, inv, lines)
       case Ok(after) => Some(after)
       case Err(_) => None)
    case AtomicRelease(lines) => Some(ReleaseAll(inv, lines))
  }

  /** The atomic transaction a step completes, if it completes one. */
  function Completes(w: World, a: Action): Option<Atomic> {
    if a.i >= |w.txns| then None
    else
      var t := w.txns[a.i];
      if a.Commit? && t.Taking? && t.done == |t.lines| then Some(AtomicReserve(t.catalog, t.lines))
      else if a.StartRelease? && t.Committed? then Some(AtomicRelease(t.lines))
      else None
  }

  lemma StepKeepsOnHand(w: World, a: Action)
    requires Safe(w)
    ensures Step(w, a).inv.Keys == w.inv.Keys
    ensures forall v :: v in w.inv ==> Step(w, a).inv[v].onHand == w.inv[v].onHand
  {
  }

  lemma SeenOfUpdate(w: World, inv: Inventory, i: nat, t: Txn, v: VariantId)
    requires i < |w.txns| && v in w.inv
    requires inv.Keys == w.inv.Keys && inv[v].onHand == w.inv[v].onHand
    ensures var after := Seen(World(inv, w.txns[i := t]));
      var moved := Demand(CommittedLines(t), v) - Demand(CommittedLines(w.txns[i]), v);
      after[v] == Level(Seen(w)[v].onHand, Seen(w)[v].available - moved, Seen(w)[v].reserved + moved)
  {
    HoldingsOfUpdate(w.txns, i, t, v);
  }

  lemma StepWritesOne(w: World, a: Action)
    requires a.i < |w.txns|
    ensures |Step(w, a).txns| == |w.txns|
    ensures Step(w, a).txns == w.txns[a.i := Step(w, a).txns[a.i]]
    ensures Completes(w, a).None? ==> CommittedLines(Step(w, a).txns[a.i]) == CommittedLines(w.txns[a.i])
  {
  }

  /** A step that completes no transaction changes nothing an observer sees. */
  lemma StutterIsUnseen(w: World, a: Action)
    requires Safe(w) && Completes(w, a).None?
    ensures Seen(Step(w, a)) == Seen(w)
  {
    if a.i < |w.txns| {
      var after := Step(w, a);
      StepKeepsOnHand(w, a);
      StepWritesOne(w, a);
      forall v | v in w.inv
        ensures Seen(World(after.inv, w.txns[a.i := after.txns[a.i]]))[v] == Seen(w)[v]
      {
        SeenOfUpdate(w, after.inv, a.i, after.txns[a.i], v);
      }
      assert after == World(after.inv, w.txns[a.i := after.txns[a.i]]);
    }
  }

  lemma CommitmentsAreHeld(w: World, v: VariantId)
    requires Safe(w)
    ensures Total(Commitments(w.txns), v) <= Total(Holdings(w.txns), v)
    ensures forall i :: 0 <= i < |w.txns| && !w.txns[i].Committed? ==>
      Total(Commitments(w.txns), v) + Demand(Holding(w.txns[i]), v) <= Total(Holdings(w.txns), v)
    ensures 0 <= Total(Commitments(w.txns), v)
  {
    var a, b := Commitments(w.txns), Holdings(w.txns);
    forall j | 0 <= j < |a|
      ensures 0 <= Demand(a[j], v) <= Demand(b[j], v)
    {
      assert TxnOk(w.txns[j]);
      HoldingIsPositive(w.txns[j]);
      DemandSign(Holding(w.txns[j]), v);
    }
    TotalIsMonotone(a, b, v);
    forall i | 0 <= i < |w.txns| && !w.txns[i].Committed?
      ensures Total(a, v) + Demand(Holding(w.txns[i]), v) <= Total(b, v)
    {
      assert a[i] == [] && b[i] == Holding(w.txns[i]);
    }
    var none := seq(|a|, j requires 0 <= j < |a| => []);
    TotalIsMonotone(none, a, v);
    TotalOfNothing(none, v);
  }

  lemma TakenFits(w: World, i: nat)
    requires Safe(w) && i < |w.txns| && w.txns[i].Taking? && w.txns[i].done == |w.txns[i].lines|
    ensures Covered(Seen(w), w.txns[i].lines)
  {
    var t := w.txns[i];
    assert TxnOk(t);
    assert Holding(t) == t.lines;
    forall j | 0 <= j < |t.lines|
      ensures Demand(t.lines, t.lines[j].variant) <= Available(Seen(w), t.lines[j].variant)
    {
      var v := t.lines[j].variant;
      CommitmentsAreHeld(w, v);
      DemandSign(t.lines, v);
    }
  }

  /** Committing is one atomic reserve: its lines fit the stock an observer sees at that moment. */
  lemma CommitIsAtomicReserve(w: World, i: nat)
    requires Safe(w) && i < |w.txns| && w.txns[i].Taking? && w.txns[i].done == |w.txns[i].lines|
    ensures ReserveLines(w.txns[i].catalog, Seen(w), w.txns[i].lines) == Ok(Seen(Step(w, Commit(i))))
  {
    var t := w.txns[i];
    assert TxnOk(t);
    assert t.lines[..t.done] == t.lines;
    TakenFits(w, i);
    ReserveLinesLaw(t.catalog, Seen(w), t.lines);
    var after := World(w.inv, w.txns[i := Committed(t.lines)]);
    forall v | v in w.inv
      ensures Seen(after)[v] == Taken(Seen(w), t.lines)[v]
    {
      SeenOfUpdate(w, w.inv, i, Committed(t.lines), v);
    }
    assert Seen(after) == Taken(Seen(w), t.lines);
    assert Step(w, Commit(i)) == after;
  }

  /** Starting to release is one atomic release, clamps and all. */
  lemma ReleaseIsAtomic(w: World, i: nat)
    requires Safe(w) && i < |w.txns| && w.txns[i].Committed?
    ensures ReleaseAll(Seen(w), w.txns[i].lines) == Seen(Step(w, StartRelease(i)))
  {
    var t := w.txns[i];
    assert TxnOk(t);
    forall v | v in w.inv
      ensures Demand(t.lines, v) <= Total(Commitments(w.txns), v)
    {
      RestCommitted(w, i, v);
    }
    ReleaseAllIsReturned(Seen(w), t.lines);
    var after := World(w.inv, w.txns[i := Releasing(t.lines, 0)]);
    forall v | v in w.inv
      ensures Seen(after)[v] == Returned(Seen(w), t.lines)[v]
    {
      SeenOfUpdate(w, w.inv, i, Releasing(t.lines, 0), v);
    }
    assert Seen(after) == Returned(Seen(w), t.lines);
    assert Step(w, StartRelease(i)) == after;
  }

  lemma RestCommitted(w: World, i: nat, v: VariantId)
    requires Safe(w) && i < |w.txns|
    ensures Demand(CommittedLines(w.txns[i]), v) <= Total(Commitments(w.txns), v)
  {
    var a := Commitments(w.txns);
    var none := seq(|a|, j requires 0 <= j < |a| => []);
    forall j | 0 <= j < |a|
      ensures Demand(none[j], v) <= Demand(a[j], v)
    {
      assert TxnOk(w.txns[j]);
      DemandSign(a[j], v);
    }
    TotalIsMonotone(none, a, v);
    TotalOfNothing(none, v);
    assert Total(none, v) + Demand(a[i], v) - Demand(none[i], v) <= Total(a, v);
  }

  /** The serial history of an interleaved run: the transactions it completed, in the order of completion. */
  function History(w: World, actions: seq<Action>): seq<Atomic> {
    if |actions| == 0 then []
    else
      var front := actions[..|actions| - 1];
      var last := Completes(Run(w, front), actions[|actions| - 1]);
      History(w, front) + (if last.Some? then [last.value] else [])
  }

  /** A serial execution; None as soon as one transaction fails. */
  function ExecuteAll(inv: Inventory, ops: seq<Atomic>): Option<Inventory> {
    if |ops| == 0 then Some(inv)
    else
      match ExecuteAll(inv, ops[..|ops| - 1])
      case None => None
      case Some(before) => Execute(before, ops[|ops| - 1])
  }

  /**
    * Every interleaving is explained by a serial order: executing its completed transactions one at a time, from the
    * stock seen at the start, every one of them succeeds, and the result is the stock seen at the end.
    */
  lemma {:induction false} InterleavingIsSerial(w: World, actions: seq<Action>)
    requires Safe(w)
    ensures ExecuteAll(Seen(w), History(w, actions)) == Some(Seen(Run(w, actions)))
  {
    if |actions| > 0 {
      var front, last := actions[..|actions| - 1], actions[|actions| - 1];
      var before := Run(w, front);
      InterleavingIsSerial(w, front);
      RunIsSafe(w, front);
      var op := Completes(before, last);
      if op.None? {
        StutterIsUnseen(before, last);
        assert History(w, actions) == History(w, front);
      } else {
        var ops := History(w, front) + [op.value];
        assert ops[..|ops| - 1] == History(w, front);
        assert History(w, actions) == ops;
        if last.Commit? {
          CommitIsAtomicReserve(before, last.i);
        } else {
          ReleaseIsAtomic(before, last.i);
        }
      }
    }
  }

  /** Once no transaction is under way, what an observer sees is the table itself. */
  lemma SeenAtRest(w: World)
    requires Safe(w)
    requires forall i :: 0 <= i < |w.txns| ==> !w.txns[i].Taking? && !w.txns[i].Undoing? && !w.txns[i].Releasing?
    ensures Seen(w) == w.inv
  {
    assert Commitments(w.txns) == Holdings(w.txns);
  }
}
