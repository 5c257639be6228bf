/** What each statement of an interleaved transaction does, and that transactions left alone run to their end. */
module InterleavingProgress {
  import opened Lines
  import opened Catalog
  import opened Stock
  import opened CheckoutLaws
  import opened Interleaving

  /** What the next line asks for is on sale, was there when the transaction read, and is there now. */
  predicate Fits(w: World, t: Txn)
    requires t.Taking? && t.done < |t.lines|
  {
    var line := t.lines[t.done];
    && Sellable(t.catalog, line.variant)
    && line.variant in t.read && line.quantity <= t.read[line.variant].available
    && line.variant in w.inv && line.quantity <= w.inv[line.variant].available
  }

  /** One turn of the reserve loop takes exactly its line and goes on, or takes nothing and turns back. */
  lemma TakeTakesOrTurnsBack(w: World, i: nat)
    requires i < |w.txns| && w.txns[i].Taking? && w.txns[i].done < |w.txns[i].lines|
    requires w.txns[i].lines[w.txns[i].done].quantity >= 1
    ensures var t := w.txns[i];
            var line := t.lines[t.done];
            if Fits(w, t) then
              var l := w.inv[line.variant];
              Step(w, Take(i)) == World(
                w.inv[line.variant := Level(l.onHand, l.available - line.quantity, l.reserved + line.quantity)],
                w.txns[i := Taking(t.lines, t.catalog, t.read, t.done + 1)])
            else Step(w, Take(i)) == World(w.inv, w.txns[i := Undoing(t.lines, t.done)])
  {
  }

  /** Undoing puts the last line taken back, unclamped, and at the end the transaction has failed. */
  lemma UndoPutsBack(w: World, i: nat)
    requires i < |w.txns| && w.txns[i].Undoing? && w.txns[i].left <= |w.txns[i].lines|
    ensures var t := w.txns[i];
            if t.left == 0 then Step(w, Undo(i)) == World(w.inv, w.txns[i := Failed(t.lines)])
            else
              var line := t.lines[t.left - 1];
              Step(w, Undo(i)) == World(Returned(w.inv, [line]), w.txns[i := Undoing(t.lines, t.left - 1)])
  {
  }

  function Repeat(a: Action, n: nat): seq<Action> {
    if n == 0 then [] else Repeat(a, n - 1) + [a]
  }

  lemma OneMore(w: World, actions: seq<Action>, a: Action)
    ensures Run(w, actions + [a]) == Step(Run(w, actions), a)
  {
    assert (actions + [a])[..|actions|] == actions;
  }

  lemma {:induction false} RunOfConcat(w: World, first: seq<Action>, second: seq<Action>)
    ensures Run(w, first + second) == Run(Run(w, first), second)
  {
    if |second| == 0 {
      assert first + second == first;
    } else {
      RunOfConcat(w, first, second[..|second| - 1]);
      assert (first + second)[..|first + second| - 1] == first + second[..|second| - 1];
    }
  }

  // ---------- a reserve left alone ----------

  /** Read once and take `k` lines. */
  function TakeSome(i: nat, catalog: Catalog, k: nat): seq<Action> {
    [Begin(i, catalog)] + Repeat(Take(i), k)
  }

  ghost predicate Takable(catalog: Catalog, inv: Inventory, lines: seq<Line>) {
    AllSellable(catalog, lines) && Covered(inv, lines)
  }

  /** What the transaction has left when it turned back after `j` lines. */
  ghost predicate TurnedBack(w: World, after: World, i: nat, catalog: Catalog, j: nat)
    requires i < |w.txns| && w.txns[i].Waiting? && j <= |w.txns[i].lines|
  {
    var lines := w.txns[i].lines;
    after == World(Taken(w.inv, lines[..j]), w.txns[i := Undoing(lines, j)])
  }

  /** After `k` turns: all `k` lines taken if they can be, and otherwise turned back somewhere before. */
  ghost predicate Took(w: World, after: World, i: nat, catalog: Catalog, k: nat)
    requires i < |w.txns| && w.txns[i].Waiting? && k <= |w.txns[i].lines|
  {
    var lines := w.txns[i].lines;
    if Takable(catalog, w.inv, lines[..k]) then
      after == World(Taken(w.inv, lines[..k]), w.txns[i := Taking(lines, catalog, w.inv, k)])
    else exists j: nat :: j < k && TurnedBack(w, after, i, catalog, j)
  }

  lemma TakableOfFront(catalog: Catalog, inv: Inventory, lines: seq<Line>)
    requires |lines| > 0 && Positive(lines) && Takable(catalog, inv, lines)
    ensures Takable(catalog, inv, lines[..|lines| - 1])
  {
    var front, last := lines[..|lines| - 1], lines[|lines| - 1];
    assert lines == front + [last];
    CoveredOfPrefix(inv, front, last);
    assert forall j :: 0 <= j < |front| ==> front[j] == lines[j];
  }

  /** One more turn while everything so far was taken. */
  lemma TookOneMore(w: World, i: nat, catalog: Catalog, k: nat)
    requires i < |w.txns| && w.txns[i].Waiting? && Positive(w.txns[i].lines) && 0 < k <= |w.txns[i].lines|
    requires Takable(catalog, w.inv, w.txns[i].lines[..k - 1])
    ensures var lines := w.txns[i].lines;
            var before := World(Taken(w.inv, lines[..k - 1]), w.txns[i := Taking(lines, catalog, w.inv, k - 1)]);
            Took(w, Step(before, Take(i)), i, catalog, k)
  {
    var lines := w.txns[i].lines;
    var front, last := lines[..k - 1], lines[k - 1];
    var before := World(Taken(w.inv, front), w.txns[i := Taking(lines, catalog, w.inv, k - 1)]);
    assert lines[..k] == front + [last];
    ReserveLastLine(catalog, w.inv, front, last);
    if Takable(catalog, w.inv, lines[..k]) {
      assert Step(before, Take(i)).txns == w.txns[i := Taking(lines, catalog, w.inv, k)];
    } else {
      assert Step(before, Take(i)).txns == w.txns[i := Undoing(lines, k - 1)];
      assert TurnedBack(w, Step(before, Take(i)), i, catalog, k - 1);
    }
  }

  /** Once turned back, a transaction takes nothing more. */
  lemma StaysTurnedBack(w: World, before: World, i: nat, catalog: Catalog, k: nat)
    requires i < |w.txns| && w.txns[i].Waiting? && Positive(w.txns[i].lines) && 0 < k <= |w.txns[i].lines|
    requires !Takable(catalog, w.inv, w.txns[i].lines[..k - 1]) && Took(w, before, i, catalog, k - 1)
    ensures Took(w, Step(before, Take(i)), i, catalog, k)
  {
    var lines := w.txns[i].lines;
    var j: nat :| j < k - 1 && TurnedBack(w, before, i, catalog, j);
    assert Step(before, Take(i)) == before;
    assert lines[..k][..k - 1] == lines[..k - 1];
    NotTakableAfter(catalog, w.inv, lines[..k]);
    assert j < k && TurnedBack(w, Step(before, Take(i)), i, catalog, j);
  }

  lemma NotTakableAfter(catalog: Catalog, inv: Inventory, lines: seq<Line>)
    requires |lines| > 0 && Positive(lines) && !Takable(catalog, inv, lines[..|lines| - 1])
    ensures !Takable(catalog, inv, lines)
  {
    if Takable(catalog, inv, lines) {
      TakableOfFront(catalog, inv, lines);
    }
  }

  lemma TookMore(w: World, before: World, i: nat, catalog: Catalog, k: nat)
    requires i < |w.txns| && w.txns[i].Waiting? && Positive(w.txns[i].lines) && 0 < k <= |w.txns[i].lines|
    requires Took(w, before, i, catalog, k - 1)
    ensures Took(w, Step(before, Take(i)), i, catalog, k)
  {
    if Takable(catalog, w.inv, w.txns[i].lines[..k - 1]) {
      TookOneMore(w, i, catalog, k);
    } else {
      StaysTurnedBack(w, before, i, catalog, k);
    }
  }

  lemma Began(w: World, i: nat, catalog: Catalog)
    requires i < |w.txns| && w.txns[i].Waiting?
    ensures Took(w, Run(w, TakeSome(i, catalog, 0)), i, catalog, 0)
  {
    var none: seq<Action> := [];
    OneMore(w, none, Begin(i, catalog));
    assert TakeSome(i, catalog, 0) == none + [Begin(i, catalog)];
    assert Taken(w.inv, w.txns[i].lines[..0]) == w.inv;
  }

  lemma {:induction false} TakesSome(w: World, i: nat, catalog: Catalog, k: nat)
    requires i < |w.txns| && w.txns[i].Waiting? && Positive(w.txns[i].lines) && k <= |w.txns[i].lines|
    ensures Took(w, Run(w, TakeSome(i, catalog, k)), i, catalog, k)
  {
    if k == 0 {
      Began(w, i, catalog);
    } else {
      TakesSome(w, i, catalog, k - 1);
      assert TakeSome(i, catalog, k) == TakeSome(i, catalog, k - 1) + [Take(i)];
      OneMore(w, TakeSome(i, catalog, k - 1), Take(i));
      TookMore(w, Run(w, TakeSome(i, catalog, k - 1)), i, catalog, k);
    }
  }

  /**
   * A reserve that nothing comes between commits exactly when every line can be sold and the demand of all lines
   * together is covered by the stock it read; it has then moved exactly that demand.
   */
  lemma LeftAloneCommitsIff(w: World, i: nat, catalog: Catalog)
    requires i < |w.txns| && w.txns[i].Waiting? && Positive(w.txns[i].lines)
    ensures var lines := w.txns[i].lines;
            var after := Run(w, TakeSome(i, catalog, |lines|) + [Commit(i)]);
            && |after.txns| == |w.txns|
            && (after.txns[i] == Committed(lines) <==> AllSellable(catalog, lines) && Covered(w.inv, lines))
            && (after.txns[i].Committed? ==>
                  after == World(Taken(w.inv, lines), w.txns[i := Committed(lines)]))
  {
    var lines := w.txns[i].lines;
    TakesSome(w, i, catalog, |lines|);
    assert lines[..|lines|] == lines;
    OneMore(w, TakeSome(i, catalog, |lines|), Commit(i));
    var before := Run(w, TakeSome(i, catalog, |lines|));
    if Takable(catalog, w.inv, lines) {
      assert Step(before, Commit(i)).txns == w.txns[i := Committed(lines)];
    }
  }

  // ---------- turning back ----------

  lemma ReturnedMore(inv: Inventory, lines: seq<Line>, line: Line)
    ensures Returned(Returned(inv, lines), [line]) == Returned(inv, [line] + lines)
  {
    forall v { DemandOfConcat([line], lines, v); }
  }

  /** The world after `k` of the takes are put back. */
  function Undone(w: World, i: nat, k: nat): World
    requires i < |w.txns| && w.txns[i].Undoing? && k <= w.txns[i].left <= |w.txns[i].lines|
  {
    var t := w.txns[i];
    World(Returned(w.inv, t.lines[t.left - k..t.left]), w.txns[i := Undoing(t.lines, t.left - k)])
  }

  lemma UndoneMore(w: World, i: nat, k: nat)
    requires i < |w.txns| && w.txns[i].Undoing? && 0 < k <= w.txns[i].left <= |w.txns[i].lines|
    ensures Step(Undone(w, i, k - 1), Undo(i)) == Undone(w, i, k)
  {
    var t := w.txns[i];
    var from := t.left - (k - 1);
    UndoPutsBack(Undone(w, i, k - 1), i);
    ReturnedMore(w.inv, t.lines[from..t.left], t.lines[from - 1]);
    assert [t.lines[from - 1]] + t.lines[from..t.left] == t.lines[from - 1..t.left];
  }

  lemma {:induction false} UndoesSome(w: World, i: nat, k: nat)
    requires i < |w.txns| && w.txns[i].Undoing? && k <= w.txns[i].left <= |w.txns[i].lines|
    ensures Run(w, Repeat(Undo(i), k)) == Undone(w, i, k)
  {
    if k == 0 {
      var t := w.txns[i];
      assert Returned(w.inv, t.lines[t.left..t.left]) == w.inv;
      assert w.txns[i := Undoing(t.lines, t.left)] == w.txns;
    } else {
      UndoesSome(w, i, k - 1);
      OneMore(w, Repeat(Undo(i), k - 1), Undo(i));
      UndoneMore(w, i, k);
    }
  }

  lemma UndoesAll(w: World, i: nat)
    requires i < |w.txns| && w.txns[i].Undoing? && w.txns[i].left <= |w.txns[i].lines|
    ensures var t := w.txns[i];
            Run(w, Repeat(Undo(i), t.left + 1)) ==
            World(Returned(w.inv, t.lines[..t.left]), w.txns[i := Failed(t.lines)])
  {
    var t := w.txns[i];
    UndoesSome(w, i, t.left);
    OneMore(w, Repeat(Undo(i), t.left), Undo(i));
    assert t.lines[0..t.left] == t.lines[..t.left];
  }

  lemma ReturnUndoesTake(inv: Inventory, lines: seq<Line>)
    ensures Returned(Taken(inv, lines), lines) == inv
  {
  }

  /** A transaction that turned back after `j` lines ends failed, with the stock it found. */
  lemma TurnsBackClean(w: World, before: World, i: nat, catalog: Catalog, j: nat)
    requires i < |w.txns| && w.txns[i].Waiting? && j <= |w.txns[i].lines| && TurnedBack(w, before, i, catalog, j)
    ensures Run(before, Repeat(Undo(i), j + 1)) == World(w.inv, w.txns[i := Failed(w.txns[i].lines)])
  {
    var lines := w.txns[i].lines;
    UndoesAll(before, i);
    ReturnUndoesTake(w.inv, lines[..j]);
    assert before.txns[i := Failed(lines)] == w.txns[i := Failed(lines)];
  }

  /** Some number of undo turns ends the transaction as failed, with every stock level as it was. */
  ghost predicate EndsClean(w: World, i: nat, actions: seq<Action>)
    requires i < |w.txns|
  {
    exists n: nat :: Run(w, actions + Repeat(Undo(i), n)) == World(w.inv, w.txns[i := Failed(w.txns[i].lines)])
  }

  /** And when it does not commit, undoing ends in failure with every stock level as it was. */
  lemma LeftAloneFailsClean(w: World, i: nat, catalog: Catalog)
    requires i < |w.txns| && w.txns[i].Waiting? && Positive(w.txns[i].lines)
    requires !(AllSellable(catalog, w.txns[i].lines) && Covered(w.inv, w.txns[i].lines))
    ensures EndsClean(w, i, TakeSome(i, catalog, |w.txns[i].lines|))
  {
    var lines := w.txns[i].lines;
    var takes := TakeSome(i, catalog, |lines|);
    TakesSome(w, i, catalog, |lines|);
    assert lines[..|lines|] == lines;
    var j: nat :| j < |lines| && TurnedBack(w, Run(w, takes), i, catalog, j);
    RunOfConcat(w, takes, Repeat(Undo(i), j + 1));
    TurnsBackClean(w, Run(w, takes), i, catalog, j);
  }

  // ---------- a release left alone ----------

  /** Start the release and give `k` lines back. */
  function GiveSome(i: nat, k: nat): seq<Action> {
    [StartRelease(i)] + Repeat(GiveBack(i), k)
  }

  /** The world after `k` lines are given back. */
  function Given(w: World, i: nat, k: nat): World
    requires i < |w.txns| && w.txns[i].Committed? && k <= |w.txns[i].lines|
  {
    var lines := w.txns[i].lines;
    World(ReleaseAll(w.inv, lines[..k]), w.txns[i := Releasing(lines, k)])
  }

  lemma GivenMore(w: World, i: nat, k: nat)
    requires i < |w.txns| && w.txns[i].Committed? && 0 < k <= |w.txns[i].lines|
    ensures Step(Given(w, i, k - 1), GiveBack(i)) == Given(w, i, k)
  {
    var lines := w.txns[i].lines;
    assert lines[..k][..k - 1] == lines[..k - 1];
  }

  lemma GivenNone(w: World, i: nat)
    requires i < |w.txns| && w.txns[i].Committed?
    ensures Run(w, GiveSome(i, 0)) == Given(w, i, 0)
  {
    var none: seq<Action> := [];
    OneMore(w, none, StartRelease(i));
    assert GiveSome(i, 0) == none + [StartRelease(i)];
  }

  lemma {:induction false} GivesSome(w: World, i: nat, k: nat)
    requires i < |w.txns| && w.txns[i].Committed? && k <= |w.txns[i].lines|
    ensures Run(w, GiveSome(i, k)) == Given(w, i, k)
  {
    if k == 0 {
      GivenNone(w, i);
    } else {
      GivesSome(w, i, k - 1);
      GivesOneMore(w, i, k);
      GivenMore(w, i, k);
    }
  }

  lemma GivesOneMore(w: World, i: nat, k: nat)
    requires k > 0
    ensures Run(w, GiveSome(i, k)) == Step(Run(w, GiveSome(i, k - 1)), GiveBack(i))
  {
    OneMore(w, GiveSome(i, k - 1), GiveBack(i));
    assert GiveSome(i, k) == GiveSome(i, k - 1) + [GiveBack(i)];
  }

  /** A release that nothing comes between gives back exactly the transaction's demand and ends. */
  lemma LeftAloneReleases(w: World, i: nat)
    requires Safe(w) && i < |w.txns| && w.txns[i].Committed?
    ensures var lines := w.txns[i].lines;
            Run(w, GiveSome(i, |lines| + 1)) == World(Returned(w.inv, lines), w.txns[i := Ended(lines)])
  {
    var lines := w.txns[i].lines;
    GivesSome(w, i, |lines|);
    GivesOneMore(w, i, |lines| + 1);
    assert lines[..|lines|] == lines;
    assert w.txns[i := Releasing(lines, |lines|)][i := Ended(lines)] == w.txns[i := Ended(lines)];
    ReleaseIsPlain(w, i);
  }

  lemma ReleaseIsPlain(w: World, i: nat)
    requires Safe(w) && i < |w.txns| && w.txns[i].Committed?
    ensures ReleaseAll(w.inv, w.txns[i].lines) == Returned(w.inv, w.txns[i].lines)
  {
    assert TxnOk(w.txns[i]);
    forall v | v in w.inv ensures Demand(w.txns[i].lines, v) <= w.inv[v].reserved {
      HoldingsCover(w, i, v);
    }
    ReleaseAllIsReturned(w.inv, w.txns[i].lines);
  }
}
