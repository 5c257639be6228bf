/** What each checkout operation does to stock, sessions and reservations. */
module CheckoutLaws {
  import opened Lines
  import opened Catalog
  import opened Stock
  import opened Checkout

  // ---------- the reserve loop against total demand ----------

  ghost predicate AllSellable(catalog: Catalog, lines: seq<Line>) {
    forall i :: 0 <= i < |lines| ==> Sellable(catalog, lines[i].variant)
  }

  /** For every variant a line names, the demand of all lines together is covered. */
  ghost predicate Covered(inv: Inventory, lines: seq<Line>) {
    forall i :: 0 <= i < |lines| ==> Demand(lines, lines[i].variant) <= Available(inv, lines[i].variant)
  }

  lemma CoveredOfPrefix(inv: Inventory, front: seq<Line>, last: Line)
    requires Positive(front + [last]) && Covered(inv, front + [last])
    ensures Covered(inv, front)
  {
    var lines := front + [last];
    forall i | 0 <= i < |front|
      ensures Demand(front, front[i].variant) <= Available(inv, front[i].variant)
    {
      assert lines[i] == front[i];
      assert lines[|front|] == last;
      DemandOfAppend(front, last, front[i].variant);
    }
  }

  lemma CoveredOfAppend(inv: Inventory, front: seq<Line>, last: Line)
    requires Positive(front) && last.quantity >= 1 && Covered(inv, front)
    ensures Covered(inv, front + [last]) <==>
      Demand(front, last.variant) + last.quantity <= Available(inv, last.variant)
  {
    var lines := front + [last];
    assert lines[|front|] == last;
    forall v { DemandOfAppend(front, last, v); }
    forall i | 0 <= i < |front|
      ensures lines[i] == front[i]
    {
    }
  }

  /**
    * Reserving line by line succeeds exactly when every line can be sold and, for every variant named, the demand
    * summed over all lines, duplicates included, is at most what was available; it then moves exactly that demand.
    */
  lemma {:induction false} ReserveLinesLaw(catalog: Catalog, inv: Inventory, lines: seq<Line>)
    requires Positive(lines)
    ensures ReserveLines(catalog, inv, lines).Ok? <==> AllSellable(catalog, lines) && Covered(inv, lines)
    ensures ReserveLines(catalog, inv, lines).Ok? ==> ReserveLines(catalog, inv, lines).value == Taken(inv, lines)
  {
    if |lines| == 0 {
      assert Taken(inv, lines) == inv;
    } else {
      var front, last := lines[..|lines| - 1], lines[|lines| - 1];
      assert lines == front + [last];
      ReserveLinesLaw(catalog, inv, front);
      if AllSellable(catalog, front) && Covered(inv, front) {
        ReserveLastLine(catalog, inv, front, last);
      } else {
        if Covered(inv, lines) {
          CoveredOfPrefix(inv, front, last);
        }
        if AllSellable(catalog, lines) {
          assert forall i :: 0 <= i < |front| ==> front[i] == lines[i];
        }
      }
    }
  }

  lemma ReserveLastLine(catalog: Catalog, inv: Inventory, front: seq<Line>, last: Line)
    requires Positive(front) && last.quantity >= 1
    requires AllSellable(catalog, front) && Covered(inv, front)
    ensures ReserveLine(catalog, inv, Taken(inv, front), last).Ok? <==>
      AllSellable(catalog, front + [last]) && Covered(inv, front + [last])
    ensures ReserveLine(catalog, inv, Taken(inv, front), last).Ok? ==>
      ReserveLine(catalog, inv, Taken(inv, front), last).value == Taken(inv, front + [last])
  {
    var lines := front + [last];
    assert AllSellable(catalog, lines) <==> Sellable(catalog, last.variant) by {
      assert lines[|front|] == last;
      assert forall i :: 0 <= i < |front| ==> lines[i] == front[i];
    }
    CoveredOfAppend(inv, front, last);
    DemandSign(front, last.variant);
    if TakeOne(Taken(inv, front), last).Some? {
      TakeOneIsTaken(inv, front, last);
    }
  }

  lemma MembersOfPermutation(a: seq<Line>, b: seq<Line>)
    requires multiset(a) == multiset(b)
    ensures forall i :: 0 <= i < |b| ==> b[i] in a
  {
    forall i | 0 <= i < |b|
      ensures b[i] in a
    {
      assert b[i] in multiset(a);
    }
  }

  lemma GuardsOfPermutation(catalog: Catalog, inv: Inventory, a: seq<Line>, b: seq<Line>)
    requires multiset(a) == multiset(b)
    ensures Positive(a) ==> Positive(b)
    ensures AllSellable(catalog, a) ==> AllSellable(catalog, b)
    ensures Covered(inv, a) ==> Covered(inv, b)
  {
    MembersOfPermutation(a, b);
    forall v { DemandOfPermutation(a, b, v); }
    forall i | 0 <= i < |b|
      ensures exists j :: 0 <= j < |a| && a[j] == b[i]
    {
      assert b[i] in a;
    }
  }

  /** Neither success nor the stock afterwards depends on the order of the lines. */
  lemma ReserveIgnoresOrder(catalog: Catalog, inv: Inventory, a: seq<Line>, b: seq<Line>)
    requires Positive(a) && multiset(a) == multiset(b)
    ensures ReserveLines(catalog, inv, a).Ok? <==> ReserveLines(catalog, inv, b).Ok?
    ensures ReserveLines(catalog, inv, a).Ok? ==>
      ReserveLines(catalog, inv, a).value == ReserveLines(catalog, inv, b).value
  {
    GuardsOfPermutation(catalog, inv, a, b);
    GuardsOfPermutation(catalog, inv, b, a);
    ReserveLinesLaw(catalog, inv, a);
    ReserveLinesLaw(catalog, inv, b);
    TakenOfPermutation(inv, a, b);
  }

  lemma TakenOfPermutation(inv: Inventory, a: seq<Line>, b: seq<Line>)
    requires multiset(a) == multiset(b)
    ensures Taken(inv, a) == Taken(inv, b)
  {
    forall v { DemandOfPermutation(a, b, v); }
  }
}
