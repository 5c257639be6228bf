/** The inventory table: the guarded UPDATE that takes stock and the clamped UPDATE that gives it back. */
module Stock {
  import opened Outcomes
  import opened Lines

  datatype Level = Level(onHand: int, available: int, reserved: int)

  type Inventory = map<VariantId, Level>

  function Available(inv: Inventory, v: VariantId): int {
    if v in inv then inv[v].available else 0
  }

  /** One guarded UPDATE; None when no row matched, that is, when stock was short or the row is missing. */
  function TakeOne(inv: Inventory, line: Line): Option<Inventory> {
    if line.variant in inv && inv[line.variant].available >= line.quantity then
      var l := inv[line.variant];
      Some(inv[line.variant := Level(l.onHand, l.available - line.quantity, l.reserved + line.quantity)])
    else None
  }

  /** One releasing UPDATE with its LEAST and GREATEST clamps. */
  function ReleaseOne(inv: Inventory, line: Line): Inventory {
    if line.variant in inv then
      var l := inv[line.variant];
      var available, reserved := Min(l.available + line.quantity, l.onHand), Max(l.reserved - line.quantity, 0);
      inv[line.variant := Level(l.onHand, available, reserved)]
    else inv
  }

  function ReleaseAll(inv: Inventory, lines: seq<Line>): Inventory {
    if |lines| == 0 then inv
    else ReleaseOne(ReleaseAll(inv, lines[..|lines| - 1]), lines[|lines| - 1])
  }

  /** The whole demand of `lines` moved from available to reserved at once. */
  function Taken(inv: Inventory, lines: seq<Line>): Inventory {
    map v | v in inv ::
      Level(inv[v].onHand, inv[v].available - Demand(lines, v), inv[v].reserved + Demand(lines, v))
  }

  /** The whole demand of `lines` moved back from reserved to available at once, with no clamp. */
  function Returned(inv: Inventory, lines: seq<Line>): Inventory {
    map v | v in inv ::
      Level(inv[v].onHand, inv[v].available + Demand(lines, v), inv[v].reserved - Demand(lines, v))
  }

  ghost predicate Balanced(inv: Inventory) {
    forall v :: v in inv ==> inv[v].available + inv[v].reserved == inv[v].onHand
  }

  ghost predicate NoneNegative(inv: Inventory) {
    forall v :: v in inv ==> inv[v].available >= 0
  }

  lemma TakeOneIsTaken(inv: Inventory, front: seq<Line>, line: Line)
    requires TakeOne(Taken(inv, front), line).Some?
    ensures TakeOne(Taken(inv, front), line).value == Taken(inv, front + [line])
  {
    forall v { DemandOfAppend(front, line, v); }
    assert TakeOne(Taken(inv, front), line).value == Taken(inv, front + [line]);
  }

  /**
    * The clamps never bite: while the table is balanced and `reserved` covers what is given back,
    * releasing line by line through LEAST and GREATEST is the plain, unclamped return of the demand.
    */
  lemma {:induction false} ReleaseAllIsReturned(inv: Inventory, lines: seq<Line>)
    requires Positive(lines) && Balanced(inv)
    requires forall v :: v in inv ==> Demand(lines, v) <= inv[v].reserved
    ensures ReleaseAll(inv, lines) == Returned(inv, lines)
  {
    if lines == [] {
      assert Returned(inv, lines) == inv;
    } else {
      var front, last := lines[..|lines| - 1], lines[|lines| - 1];
      forall v { DemandOfPrefix(lines, |lines| - 1, v); }
      ReleaseAllIsReturned(inv, front);
      assert lines == front + [last];
      forall v | v in inv
        ensures ReleaseOne(Returned(inv, front), last)[v] == Returned(inv, lines)[v]
      {
        DemandSign(front, v);
      }
    }
  }

  /** Taking and then releasing the same lines is the identity on a balanced table. */
  lemma ReleaseUndoesTake(inv: Inventory, lines: seq<Line>)
    requires Positive(lines) && Balanced(inv)
    requires forall v :: v in inv ==> inv[v].reserved >= 0
    ensures ReleaseAll(Taken(inv, lines), lines) == inv
  {
    forall v { DemandSign(lines, v); }
    ReleaseAllIsReturned(Taken(inv, lines), lines);
    assert Returned(Taken(inv, lines), lines) == inv;
  }
}
