/**
  * Merging a guest cart: the line-by-line loop of the cart service, and its closed form. The loop clamps after
  * every line; the closed form clamps once, after adding everything up.
  */
module CartMerge {
  import opened Outcomes
  import opened Lines
  import opened Catalog
  import opened Stock
  import opened Carts
  import opened CartLaws

  datatype MergeLine = MergeLine(line: Line, isSelected: Option<bool>)

  /** The rows so far and the three counters the service reports. */
  datatype Progress = Progress(rows: seq<Row>, merged: nat, keptSeparate: nat, skipped: nat)

  predicate Purchasable(catalog: Catalog, inv: Inventory, v: VariantId) {
    v in catalog && !catalog[v].deleted && StockOf(inv, v) > 0
  }

  /** Into a line the cart already has. */
  function MergeInto(p: Progress, i: nat, inv: Inventory, l: MergeLine): Progress
    requires i < |p.rows|
  {
    var row := p.rows[i];
    var stock := StockOf(inv, row.variant);
    var target := ClampToBounds(Min(row.quantity + l.line.quantity, stock));
    if target <= 0 then p.(skipped := p.skipped + 1)
    else
      p.(merged := p.merged + 1,
         rows := p.rows[i := row.(quantity := target, subtotal := row.unitPrice * target,
                                  isSelected := Chosen(l.isSelected, row.isSelected), stockAtAdd := stock)])
  }

  /** A line the cart does not have: a plain insert, so a soft-deleted row of the variant makes it fail. */
  function MergeNew(p: Progress, catalog: Catalog, inv: Inventory, l: MergeLine): Result<Progress, CartError>
    requires l.line.variant in catalog
  {
    var v := l.line.variant;
    if |Live(p.rows)| + 1 > MAX_ITEMS_PER_CART then Ok(p.(keptSeparate := p.keptSeparate + 1))
    else
      var stock := StockOf(inv, v);
      var target := ClampToBounds(Min(l.line.quantity, stock));
      if target <= 0 then Ok(p.(skipped := p.skipped + 1))
      else if Find(p.rows, v, true) >= 0 then Err(UniqueViolation)
      else
        Ok(p.(merged := p.merged + 1, rows := p.rows + [NewRow(catalog, inv, l, target)]))
  }

  function NewRow(catalog: Catalog, inv: Inventory, l: MergeLine, quantity: int): Row {
    var v := l.line.variant;
    Row(v, quantity, PriceOf(catalog, v), PriceOf(catalog, v) * quantity, Chosen(l.isSelected, true), StockOf(inv, v),
        false)
  }

  function MergeOne(p: Progress, catalog: Catalog, inv: Inventory, l: MergeLine): Result<Progress, CartError> {
    var v := l.line.variant;
    if !InBounds(l.line.quantity) then Err(InvalidQuantity)
    else if !Purchasable(catalog, inv, v) then Ok(p.(skipped := p.skipped + 1))
    else
      var i := Find(p.rows, v, false);
      if i >= 0 then Ok(MergeInto(p, i, inv, l)) else MergeNew(p, catalog, inv, l)
  }

  function MergeAll(rows: seq<Row>, catalog: Catalog, inv: Inventory,
                    lines: seq<MergeLine>): Result<Progress, CartError> {
    if |lines| == 0 then Ok(Progress(rows, 0, 0, 0))
    else
      match MergeAll(rows, catalog, inv, lines[..|lines| - 1])
      case Err(e) => Err(e)
      case Ok(p) => MergeOne(p, catalog, inv, lines[|lines| - 1])
  }

  // ---------- the closed form ----------

  /** The plain lines behind the merge lines. */
  function Plain(lines: seq<MergeLine>): (r: seq<Line>)
    ensures |r| == |lines| && forall i :: 0 <= i < |r| ==> r[i] == lines[i].line
  {
    seq(|lines|, i requires 0 <= i < |lines| => lines[i].line)
  }

  predicate NamesVariant(lines: seq<MergeLine>, v: VariantId) {
    exists i :: 0 <= i < |lines| && lines[i].line.variant == v
  }

  /** The last selection the lines ask for on variant `v`, or `default` when none does. */
  function LastChoice(lines: seq<MergeLine>, v: VariantId, default: bool): bool {
    if |lines| == 0 then default
    else
      var last := lines[|lines| - 1];
      var before := LastChoice(lines[..|lines| - 1], v, default);
      if last.line.variant == v then Chosen(last.isSelected, before) else before
  }

  /** The distinct purchasable variants with no live row in `rows`, in order of first appearance. */
  function Newcomers(rows: seq<Row>, catalog: Catalog, inv: Inventory, lines: seq<MergeLine>): seq<VariantId> {
    if |lines| == 0 then []
    else
      var front := Newcomers(rows, catalog, inv, lines[..|lines| - 1]);
      var v := lines[|lines| - 1].line.variant;
      if Purchasable(catalog, inv, v) && Find(rows, v, false) < 0 && v !in front then front + [v] else front
  }

  function FreeSlots(rows: seq<Row>): nat {
    if |Live(rows)| < MAX_ITEMS_PER_CART then MAX_ITEMS_PER_CART - |Live(rows)| else 0
  }

  /** The newcomers that still find a slot: the first ones. */
  function Admitted(rows: seq<Row>, catalog: Catalog, inv: Inventory, lines: seq<MergeLine>): seq<VariantId> {
    var all := Newcomers(rows, catalog, inv, lines);
    all[..Min(|all|, FreeSlots(rows))]
  }

  /** One clamp of everything asked of `v` on top of what is held. */
  function MergedQuantity(inv: Inventory, lines: seq<MergeLine>, v: VariantId, held: int): int {
    Min(held + Demand(Plain(lines), v), StockOf(inv, v))
  }

  function MergedRow(catalog: Catalog, inv: Inventory, lines: seq<MergeLine>, row: Row): Row {
    var v := row.variant;
    if row.deleted || !Purchasable(catalog, inv, v) || !NamesVariant(lines, v) then row
    else
      var q := MergedQuantity(inv, lines, v, row.quantity);
      Row(v, q, row.unitPrice, row.unitPrice * q, LastChoice(lines, v, row.isSelected), StockOf(inv, v), false)
  }

  function PriceOf(catalog: Catalog, v: VariantId): Money {
    if v in catalog then catalog[v].price else 0
  }

  function AdmittedRow(catalog: Catalog, inv: Inventory, lines: seq<MergeLine>, v: VariantId): Row {
    var q := MergedQuantity(inv, lines, v, 0);
    Row(v, q, PriceOf(catalog, v), PriceOf(catalog, v) * q, LastChoice(lines, v, true), StockOf(inv, v), false)
  }

  /** The rows the whole merge leaves: the old ones updated in place, then one for each admitted variant. */
  function MergedRows(rows: seq<Row>, catalog: Catalog, inv: Inventory, lines: seq<MergeLine>): (r: seq<Row>)
    ensures var adm := Admitted(rows, catalog, inv, lines);
      && |r| == |rows| + |adm|
      && (forall i :: 0 <= i < |rows| ==> r[i] == MergedRow(catalog, inv, lines, rows[i]))
      && (forall k :: |rows| <= k < |r| ==> r[k] == AdmittedRow(catalog, inv, lines, adm[k - |rows|]))
  {
    var adm := Admitted(rows, catalog, inv, lines);
    seq(|rows|, i requires 0 <= i < |rows| => MergedRow(catalog, inv, lines, rows[i])) +
    seq(|adm|, k requires 0 <= k < |adm| => AdmittedRow(catalog, inv, lines, adm[k]))
  }

  /** What a caller can check beforehand: quantities in bounds, no soft-deleted row for an admitted variant. */
  ghost predicate Mergeable(rows: seq<Row>, catalog: Catalog, inv: Inventory, lines: seq<MergeLine>) {
    && (forall i :: 0 <= i < |lines| ==> InBounds(lines[i].line.quantity))
    && (forall v :: v in Admitted(rows, catalog, inv, lines) ==> Find(rows, v, true) < 0)
  }

  lemma {:induction false} NewcomersLaw(rows: seq<Row>, catalog: Catalog, inv: Inventory, lines: seq<MergeLine>)
    ensures var all := Newcomers(rows, catalog, inv, lines);
      && (forall v :: v in all <==> Purchasable(catalog, inv, v) && Find(rows, v, false) < 0 && NamesVariant(lines, v))
      && (forall i, j :: 0 <= i < j < |all| ==> all[i] != all[j])
  {
    if lines != [] {
      var front, last := lines[..|lines| - 1], lines[|lines| - 1];
      NewcomersLaw(rows, catalog, inv, front);
      forall v
        ensures NamesVariant(lines, v) <==> NamesVariant(front, v) || last.line.variant == v
      {
        NamesOfAppend(front, last, v);
        assert lines == front + [last];
      }
    }
  }

  lemma NamesOfAppend(front: seq<MergeLine>, last: MergeLine, v: VariantId)
    ensures NamesVariant(front + [last], v) <==> NamesVariant(front, v) || last.line.variant == v
  {
    var lines := front + [last];
    if NamesVariant(front, v) {
      var i :| 0 <= i < |front| && front[i].line.variant == v;
      assert lines[i].line.variant == v;
    }
    if last.line.variant == v {
      assert lines[|front|].line.variant == v;
    }
  }

  // ---------- one more line ----------

  /** A line leaves everything the closed form reads about other variants as it was. */
  lemma OtherVariantFrame(front: seq<MergeLine>, l: MergeLine, v: VariantId, default: bool)
    requires v != l.line.variant
    ensures Demand(Plain(front + [l]), v) == Demand(Plain(front), v)
    ensures NamesVariant(front + [l], v) <==> NamesVariant(front, v)
    ensures LastChoice(front + [l], v, default) == LastChoice(front, v, default)
  {
    PlainOfAppend(front, l);
    DemandOfAppend(Plain(front), l.line, v);
    NamesOfAppend(front, l, v);
    assert (front + [l])[..|front|] == front;
  }

  lemma SameVariantStep(front: seq<MergeLine>, l: MergeLine, default: bool)
    requires forall i :: 0 <= i < |front| ==> InBounds(front[i].line.quantity)
    ensures var v := l.line.variant;
      && Demand(Plain(front + [l]), v) == Demand(Plain(front), v) + l.line.quantity
      && Demand(Plain(front), v) >= 0
      && (!NamesVariant(front, v) ==> Demand(Plain(front), v) == 0)
      && NamesVariant(front + [l], v)
      && LastChoice(front + [l], v, default) == Chosen(l.isSelected, LastChoice(front, v, default))
      && (!NamesVariant(front, v) ==> LastChoice(front, v, default) == default)
  {
    var v := l.line.variant;
    PlainOfAppend(front, l);
    DemandOfAppend(Plain(front), l.line, v);
    DemandSign(Plain(front), v);
    NamesOfAppend(front, l, v);
    assert (front + [l])[..|front|] == front;
    if Names(Plain(front), v) {
      var i :| 0 <= i < |front| && Plain(front)[i].variant == v;
      assert front[i].line.variant == v;
    }
    if !NamesVariant(front, v) {
      UnnamedChoice(front, v, default);
    }
  }

  lemma PlainOfAppend(front: seq<MergeLine>, l: MergeLine)
    ensures Plain(front + [l]) == Plain(front) + [l.line]
  {
  }

  lemma {:induction false} UnnamedChoice(lines: seq<MergeLine>, v: VariantId, default: bool)
    requires !NamesVariant(lines, v)
    ensures LastChoice(lines, v, default) == default
  {
    if lines != [] {
      var front, last := lines[..|lines| - 1], lines[|lines| - 1];
      assert lines == front + [last];
      NamesOfAppend(front, last, v);
      UnnamedChoice(front, v, default);
    }
  }

  lemma NewcomersOfAppend(rows: seq<Row>, catalog: Catalog, inv: Inventory, front: seq<MergeLine>, l: MergeLine)
    ensures var v := l.line.variant; var before := Newcomers(rows, catalog, inv, front);
      Newcomers(rows, catalog, inv, front + [l]) ==
        if Purchasable(catalog, inv, v) && Find(rows, v, false) < 0 && v !in before then before + [v] else before
  {
    assert (front + [l])[..|front|] == front;
  }

  /** The admitted variants grow by at most the variant of the new line, and only while a slot is free. */
  lemma AdmittedOfAppend(rows: seq<Row>, catalog: Catalog, inv: Inventory, front: seq<MergeLine>, l: MergeLine)
    ensures var v := l.line.variant; var before := Admitted(rows, catalog, inv, front);
      Admitted(rows, catalog, inv, front + [l]) ==
        if Purchasable(catalog, inv, v) && Find(rows, v, false) < 0 && v !in before && |before| < FreeSlots(rows)
        then before + [v] else before
    ensures |Admitted(rows, catalog, inv, front)| <= FreeSlots(rows)
  {
    NewcomersOfAppend(rows, catalog, inv, front, l);
  }

  /** A row after one more line of its variant is merged into it. */
  function Updated(inv: Inventory, row: Row, l: MergeLine): Row {
    var q := Min(row.quantity + l.line.quantity, StockOf(inv, row.variant));
    row.(quantity := q, subtotal := row.unitPrice * q, isSelected := Chosen(l.isSelected, row.isSelected),
         stockAtAdd := StockOf(inv, row.variant))
  }

  lemma MergedRowStep(catalog: Catalog, inv: Inventory, front: seq<MergeLine>, l: MergeLine, row: Row)
    requires forall i :: 0 <= i < |front| ==> InBounds(front[i].line.quantity)
    requires InBounds(l.line.quantity)
    ensures MergedRow(catalog, inv, front + [l], row) ==
      if !row.deleted && Purchasable(catalog, inv, row.variant) && row.variant == l.line.variant
      then Updated(inv, MergedRow(catalog, inv, front, row), l)
      else MergedRow(catalog, inv, front, row)
  {
    if row.variant == l.line.variant {
      SameVariantStep(front, l, row.isSelected);
    } else {
      OtherVariantFrame(front, l, row.variant, row.isSelected);
    }
  }

  lemma AdmittedRowStep(catalog: Catalog, inv: Inventory, front: seq<MergeLine>, l: MergeLine, v: VariantId)
    requires forall i :: 0 <= i < |front| ==> InBounds(front[i].line.quantity)
    requires InBounds(l.line.quantity)
    ensures AdmittedRow(catalog, inv, front + [l], v) ==
      if v == l.line.variant then Updated(inv, AdmittedRow(catalog, inv, front, v), l)
      else AdmittedRow(catalog, inv, front, v)
  {
    if v == l.line.variant {
      SameVariantStep(front, l, true);
    } else {
      OtherVariantFrame(front, l, v, true);
    }
  }

  /** `r` has the rows of `rows`, changed only in their payload, followed by one new live row for each of `adm`. */
  ghost predicate Extends(rows: seq<Row>, adm: seq<VariantId>, r: seq<Row>) {
    && |r| == |rows| + |adm|
    && (forall i :: 0 <= i < |rows| ==> r[i].variant == rows[i].variant && r[i].deleted == rows[i].deleted)
    && (forall k :: |rows| <= k < |r| ==> r[k].variant == adm[k - |rows|] && !r[k].deleted)
  }

  /** Variants without any row, none twice. */
  ghost predicate AllNew(rows: seq<Row>, adm: seq<VariantId>) {
    && (forall k :: 0 <= k < |adm| ==> Find(rows, adm[k], false) < 0 && Find(rows, adm[k], true) < 0)
    && (forall i, j :: 0 <= i < j < |adm| ==> adm[i] != adm[j])
  }

  lemma ExtendedIsDistinct(rows: seq<Row>, adm: seq<VariantId>, r: seq<Row>)
    requires Distinct(rows) && Extends(rows, adm, r) && AllNew(rows, adm)
    ensures Distinct(r)
  {
    forall i, j | 0 <= i < j < |r|
      ensures r[i].variant != r[j].variant
    {
      if i < |rows| <= j {
        assert rows[i].variant != adm[j - |rows|];
      }
    }
  }

  lemma ExtendedLive(rows: seq<Row>, adm: seq<VariantId>, r: seq<Row>)
    requires Extends(rows, adm, r)
    ensures |Live(r)| == |Live(rows)| + |adm|
  {
    assert r == r[..|rows|] + r[|rows|..];
    LiveOfConcat(r[..|rows|], r[|rows|..]);
    LiveOfFlags(rows, r[..|rows|]);
    AllLive(r[|rows|..]);
  }

  lemma ExtendedFindOld(rows: seq<Row>, adm: seq<VariantId>, r: seq<Row>, i: nat)
    requires Distinct(r) && Extends(rows, adm, r) && i < |rows|
    ensures Find(r, rows[i].variant, rows[i].deleted) == i
    ensures Find(r, rows[i].variant, !rows[i].deleted) == -1
  {
    FindIsUnique(r, i);
  }

  lemma ExtendedFindNew(rows: seq<Row>, adm: seq<VariantId>, r: seq<Row>, k: nat)
    requires Distinct(r) && Extends(rows, adm, r) && k < |adm|
    ensures Find(r, adm[k], false) == |rows| + k
  {
    FindIsUnique(r, |rows| + k);
  }

  lemma ExtendedFindNone(rows: seq<Row>, adm: seq<VariantId>, r: seq<Row>, v: VariantId)
    requires Extends(rows, adm, r)
    ensures Find(rows, v, true) < 0 ==> Find(r, v, true) < 0
    ensures Find(rows, v, false) < 0 && v !in adm ==> Find(r, v, false) < 0
  {
    var live, dead := Find(r, v, false), Find(r, v, true);
    if 0 <= live < |rows| {
      assert rows[live].variant == v && !rows[live].deleted;
    }
    if 0 <= dead < |rows| {
      assert rows[dead].variant == v && rows[dead].deleted;
    }
  }

  lemma {:induction false} LiveOfConcat(a: seq<Row>, b: seq<Row>)
    ensures Live(a + b) == Live(a) + Live(b)
  {
    if b == [] {
      assert a + b == a;
    } else {
      var front, last := b[..|b| - 1], b[|b| - 1];
      LiveOfConcat(a, front);
      assert a + b == (a + front) + [last];
      LiveOfAppend(a + front, last);
      assert b == front + [last];
    }
  }

  lemma {:induction false} AllLive(rows: seq<Row>)
    requires forall i :: 0 <= i < |rows| ==> !rows[i].deleted
    ensures Live(rows) == rows
  {
    if rows != [] {
      AllLive(rows[..|rows| - 1]);
    }
  }

  lemma MergedExtends(rows: seq<Row>, catalog: Catalog, inv: Inventory, lines: seq<MergeLine>)
    requires forall v :: v in Admitted(rows, catalog, inv, lines) ==> Find(rows, v, true) < 0
    ensures Extends(rows, Admitted(rows, catalog, inv, lines), MergedRows(rows, catalog, inv, lines))
    ensures AllNew(rows, Admitted(rows, catalog, inv, lines))
  {
    var adm := Admitted(rows, catalog, inv, lines);
    NewcomersLaw(rows, catalog, inv, lines);
    forall k | 0 <= k < |adm|
      ensures Find(rows, adm[k], false) < 0 && Find(rows, adm[k], true) < 0
    {
      assert adm[k] in adm && adm[k] in Newcomers(rows, catalog, inv, lines);
    }
  }

  // ---------- one step of the loop against one step of the closed form ----------

  /** Merging into an existing row is the plain update: the outer clamp has nothing left to do. */
  lemma MergeIntoIsUpdate(p: Progress, i: nat, inv: Inventory, l: MergeLine)
    requires i < |p.rows| && p.rows[i].quantity >= 0 && InBounds(l.line.quantity) && StockOf(inv, p.rows[i].variant) > 0
    ensures MergeInto(p, i, inv, l) == p.(merged := p.merged + 1, rows := p.rows[i := Updated(inv, p.rows[i], l)])
  {
  }

  ghost predicate StepInvariant(rows: seq<Row>, catalog: Catalog, inv: Inventory, front: seq<MergeLine>, p: Progress) {
    && Distinct(rows) && RowsOk(rows)
    && Mergeable(rows, catalog, inv, front)
    && p.rows == MergedRows(rows, catalog, inv, front)
  }

  /** The branches of the loop body, with the clamps that cannot bite removed. */
  lemma MergeOneCases(p: Progress, catalog: Catalog, inv: Inventory, l: MergeLine)
    requires InBounds(l.line.quantity) && Purchasable(catalog, inv, l.line.variant)
    ensures var i := Find(p.rows, l.line.variant, false);
      i >= 0 && p.rows[i].quantity >= 0 ==>
        MergeOne(p, catalog, inv, l) == Ok(p.(merged := p.merged + 1, rows := p.rows[i := Updated(inv, p.rows[i], l)]))
    ensures Find(p.rows, l.line.variant, false) < 0 ==>
      MergeOne(p, catalog, inv, l) ==
        if |Live(p.rows)| >= MAX_ITEMS_PER_CART then Ok(p.(keptSeparate := p.keptSeparate + 1))
        else if Find(p.rows, l.line.variant, true) >= 0 then Err(UniqueViolation)
        else Ok(p.(merged := p.merged + 1, rows := p.rows + [
          NewRow(catalog, inv, l, Min(l.line.quantity, StockOf(inv, l.line.variant)))]))
  {
    var i := Find(p.rows, l.line.variant, false);
    if i >= 0 && p.rows[i].quantity >= 0 {
      MergeIntoIsUpdate(p, i, inv, l);
    }
  }

  /** Where a known variant, live at the start or already admitted, has its row. */
  lemma LookupKnown(rows: seq<Row>, catalog: Catalog, inv: Inventory, front: seq<MergeLine>, p: Progress, v: VariantId)
    requires StepInvariant(rows, catalog, inv, front, p)
    requires Find(rows, v, false) >= 0 || v in Admitted(rows, catalog, inv, front)
    ensures Distinct(p.rows) && Extends(rows, Admitted(rows, catalog, inv, front), p.rows)
    ensures var i := Find(p.rows, v, false);
      i >= 0 && (p.rows[i] == AdmittedRow(catalog, inv, front, v)
                 || (i < |rows| && p.rows[i] == MergedRow(catalog, inv, front, rows[i])))
  {
    var adm := Admitted(rows, catalog, inv, front);
    MergedExtends(rows, catalog, inv, front);
    ExtendedIsDistinct(rows, adm, p.rows);
    if Find(rows, v, false) >= 0 {
      ExtendedFindOld(rows, adm, p.rows, Find(rows, v, false));
    } else {
      var k :| 0 <= k < |adm| && adm[k] == v;
      ExtendedFindNew(rows, adm, p.rows, k);
    }
  }

  lemma KnownQuantity(catalog: Catalog, inv: Inventory, front: seq<MergeLine>, row: Row)
    requires forall i :: 0 <= i < |front| ==> InBounds(front[i].line.quantity)
    ensures RowOk(row) ==> MergedRow(catalog, inv, front, row).quantity >= 0
    ensures Purchasable(catalog, inv, row.variant) ==> AdmittedRow(catalog, inv, front, row.variant).quantity >= 0
  {
    DemandSign(Plain(front), row.variant);
  }

  /** A line whose variant is live at the start or already admitted is merged into its row. */
  lemma StepExisting(rows: seq<Row>, catalog: Catalog, inv: Inventory, front: seq<MergeLine>, l: MergeLine, p: Progress)
    requires StepInvariant(rows, catalog, inv, front, p)
    requires InBounds(l.line.quantity) && Purchasable(catalog, inv, l.line.variant)
    requires Find(rows, l.line.variant, false) >= 0 || l.line.variant in Admitted(rows, catalog, inv, front)
    ensures var i := Find(p.rows, l.line.variant, false);
      i >= 0 && p.rows[i].quantity >= 0 &&
      MergedRows(rows, catalog, inv, front + [l]) == p.rows[i := Updated(inv, p.rows[i], l)]
  {
    LookupKnown(rows, catalog, inv, front, p, l.line.variant);
    AdmittedOfAppend(rows, catalog, inv, front, l);
    var i := Find(p.rows, l.line.variant, false);
    assert i < |rows| ==> RowOk(rows[i]);
    KnownQuantity(catalog, inv, front, if i < |rows| then rows[i] else p.rows[i]);
    StepRows(rows, catalog, inv, front, l, p, i);
  }

  /** The merged table after one more line differs from the one before in the row of its variant only. */
  lemma StepRows(rows: seq<Row>, catalog: Catalog, inv: Inventory, front: seq<MergeLine>, l: MergeLine, p: Progress,
                 i: nat)
    requires StepInvariant(rows, catalog, inv, front, p)
    requires InBounds(l.line.quantity) && Purchasable(catalog, inv, l.line.variant)
    requires i < |p.rows| && p.rows[i].variant == l.line.variant && !p.rows[i].deleted
    requires Admitted(rows, catalog, inv, front + [l]) == Admitted(rows, catalog, inv, front)
    requires Distinct(p.rows) && Extends(rows, Admitted(rows, catalog, inv, front), p.rows)
    ensures p.rows[i := Updated(inv, p.rows[i], l)] == MergedRows(rows, catalog, inv, front + [l])
  {
    var after := MergedRows(rows, catalog, inv, front + [l]);
    var adm := Admitted(rows, catalog, inv, front);
    forall j | 0 <= j < |after|
      ensures after[j] == if j == i then Updated(inv, p.rows[i], l) else p.rows[j]
    {
      if j < |rows| {
        MergedRowStep(catalog, inv, front, l, rows[j]);
      } else {
        AdmittedRowStep(catalog, inv, front, l, adm[j - |rows|]);
      }
    }
  }

  /** A line that changes no row: unpurchasable, or new with every slot taken. */
  lemma StepUnchanged(rows: seq<Row>, catalog: Catalog, inv: Inventory, front: seq<MergeLine>, l: MergeLine)
    requires forall i :: 0 <= i < |front| ==> InBounds(front[i].line.quantity)
    requires InBounds(l.line.quantity)
    requires !Purchasable(catalog, inv, l.line.variant) || Find(rows, l.line.variant, false) < 0
    requires l.line.variant !in Admitted(rows, catalog, inv, front)
    requires Admitted(rows, catalog, inv, front + [l]) == Admitted(rows, catalog, inv, front)
    ensures MergedRows(rows, catalog, inv, front + [l]) == MergedRows(rows, catalog, inv, front)
  {
    var before, after := MergedRows(rows, catalog, inv, front), MergedRows(rows, catalog, inv, front + [l]);
    var adm := Admitted(rows, catalog, inv, front);
    forall j | 0 <= j < |after|
      ensures after[j] == before[j]
    {
      if j < |rows| {
        MergedRowStep(catalog, inv, front, l, rows[j]);
      } else {
        assert adm[j - |rows|] in adm;
        AdmittedRowStep(catalog, inv, front, l, adm[j - |rows|]);
      }
    }
  }

  lemma AdmittedAreNewcomers(rows: seq<Row>, catalog: Catalog, inv: Inventory, lines: seq<MergeLine>, v: VariantId)
    ensures v in Admitted(rows, catalog, inv, lines) ==>
      Purchasable(catalog, inv, v) && Find(rows, v, false) < 0 && NamesVariant(lines, v)
  {
    NewcomersLaw(rows, catalog, inv, lines);
    var adm := Admitted(rows, catalog, inv, lines);
    if v in adm {
      var k :| 0 <= k < |adm| && adm[k] == v;
      assert Newcomers(rows, catalog, inv, lines)[k] == v;
    }
  }

  /** What the rows so far say about a variant that is neither live at the start nor admitted. */
  lemma LookupStranger(rows: seq<Row>, catalog: Catalog, inv: Inventory, front: seq<MergeLine>, p: Progress,
                       v: VariantId)
    requires StepInvariant(rows, catalog, inv, front, p)
    requires Find(rows, v, false) < 0 && v !in Admitted(rows, catalog, inv, front)
    ensures Find(p.rows, v, false) < 0
    ensures Find(p.rows, v, true) >= 0 <==> Find(rows, v, true) >= 0
    ensures |Live(p.rows)| == |Live(rows)| + |Admitted(rows, catalog, inv, front)|
  {
    var adm := Admitted(rows, catalog, inv, front);
    MergedExtends(rows, catalog, inv, front);
    ExtendedIsDistinct(rows, adm, p.rows);
    ExtendedLive(rows, adm, p.rows);
    ExtendedFindNone(rows, adm, p.rows, v);
    if Find(rows, v, true) >= 0 {
      ExtendedFindOld(rows, adm, p.rows, Find(rows, v, true));
    }
  }

  /** While slots are free, a purchasable newcomer that was not admitted was not named. */
  lemma FirstNaming(rows: seq<Row>, catalog: Catalog, inv: Inventory, front: seq<MergeLine>, v: VariantId)
    requires Purchasable(catalog, inv, v) && Find(rows, v, false) < 0
    requires v !in Admitted(rows, catalog, inv, front) && |Admitted(rows, catalog, inv, front)| < FreeSlots(rows)
    ensures !NamesVariant(front, v)
  {
    NewcomersLaw(rows, catalog, inv, front);
    assert Admitted(rows, catalog, inv, front) == Newcomers(rows, catalog, inv, front);
  }

  lemma StepAppend(rows: seq<Row>, catalog: Catalog, inv: Inventory, front: seq<MergeLine>, l: MergeLine, p: Progress)
    requires StepInvariant(rows, catalog, inv, front, p)
    requires InBounds(l.line.quantity) && Purchasable(catalog, inv, l.line.variant)
    requires Find(rows, l.line.variant, false) < 0 && l.line.variant !in Admitted(rows, catalog, inv, front)
    requires |Admitted(rows, catalog, inv, front)| < FreeSlots(rows)
    ensures MergedRows(rows, catalog, inv, front + [l]) ==
      p.rows + [NewRow(catalog, inv, l, Min(l.line.quantity, StockOf(inv, l.line.variant)))]
  {
    var v, adm := l.line.variant, Admitted(rows, catalog, inv, front);
    var before, after := p.rows, MergedRows(rows, catalog, inv, front + [l]);
    AdmittedOfAppend(rows, catalog, inv, front, l);
    forall j | 0 <= j < |before|
      ensures after[j] == before[j]
    {
      if j < |rows| {
        MergedRowStep(catalog, inv, front, l, rows[j]);
      } else {
        assert adm[j - |rows|] in adm;
        AdmittedRowStep(catalog, inv, front, l, adm[j - |rows|]);
      }
    }
    FirstRow(rows, catalog, inv, front, l);
    assert after[|before|] == AdmittedRow(catalog, inv, front + [l], v);
  }

  lemma FirstRow(rows: seq<Row>, catalog: Catalog, inv: Inventory, front: seq<MergeLine>, l: MergeLine)
    requires forall i :: 0 <= i < |front| ==> InBounds(front[i].line.quantity)
    requires Purchasable(catalog, inv, l.line.variant) && Find(rows, l.line.variant, false) < 0
    requires l.line.variant !in Admitted(rows, catalog, inv, front)
    requires |Admitted(rows, catalog, inv, front)| < FreeSlots(rows)
    ensures AdmittedRow(catalog, inv, front + [l], l.line.variant) ==
      NewRow(catalog, inv, l, Min(l.line.quantity, StockOf(inv, l.line.variant)))
  {
    FirstNaming(rows, catalog, inv, front, l.line.variant);
    SameVariantStep(front, l, true);
  }

  // ---------- the whole loop ----------

  /** Which way one line goes, read off the cart at the start and the lines before it. */
  lemma StepLaw(rows: seq<Row>, catalog: Catalog, inv: Inventory, front: seq<MergeLine>, l: MergeLine, p: Progress)
    requires StepInvariant(rows, catalog, inv, front, p)
    ensures MergeOne(p, catalog, inv, l).Ok? <==> Mergeable(rows, catalog, inv, front + [l])
    ensures MergeOne(p, catalog, inv, l).Ok? ==>
      var v := l.line.variant;
      var next := MergeOne(p, catalog, inv, l).value;
      && next.rows == MergedRows(rows, catalog, inv, front + [l])
      && next.skipped == p.skipped + (if Purchasable(catalog, inv, v) then 0 else 1)
      && next.keptSeparate == p.keptSeparate + (if Purchasable(catalog, inv, v) && Find(rows, v, false) < 0
                                                   && v !in Admitted(rows, catalog, inv, front + [l]) then 1 else 0)
      && next.merged + next.keptSeparate + next.skipped == p.merged + p.keptSeparate + p.skipped + 1
  {
    var v, adm := l.line.variant, Admitted(rows, catalog, inv, front);
    assert (front + [l])[|front|] == l;
    assert forall i :: 0 <= i < |front| ==> (front + [l])[i] == front[i];
    AdmittedOfAppend(rows, catalog, inv, front, l);
    AdmittedAreNewcomers(rows, catalog, inv, front, v);
    if !InBounds(l.line.quantity) {
    } else if !Purchasable(catalog, inv, v) {
      StepUnchanged(rows, catalog, inv, front, l);
    } else {
      MergeOneCases(p, catalog, inv, l);
      if Find(rows, v, false) >= 0 || v in adm {
        StepExisting(rows, catalog, inv, front, l, p);
      } else {
        LookupStranger(rows, catalog, inv, front, p, v);
        if |adm| >= FreeSlots(rows) {
          StepUnchanged(rows, catalog, inv, front, l);
        } else {
          StepAppend(rows, catalog, inv, front, l, p);
        }
      }
    }
  }

  /** The number of lines whose variant cannot be purchased. */
  function Unpurchasable(catalog: Catalog, inv: Inventory, lines: seq<MergeLine>): nat {
    if |lines| == 0 then 0
    else
      Unpurchasable(catalog, inv, lines[..|lines| - 1])
      + (if Purchasable(catalog, inv, lines[|lines| - 1].line.variant) then 0 else 1)
  }

  /** The number of purchasable lines whose variant is neither in the cart nor among `adm`. */
  function TurnedAway(rows: seq<Row>, catalog: Catalog, inv: Inventory, lines: seq<MergeLine>,
                      adm: seq<VariantId>): nat {
    if |lines| == 0 then 0
    else
      var v := lines[|lines| - 1].line.variant;
      TurnedAway(rows, catalog, inv, lines[..|lines| - 1], adm)
      + (if Purchasable(catalog, inv, v) && Find(rows, v, false) < 0 && v !in adm then 1 else 0)
  }

  lemma {:induction false} TurnedAwayFrame(rows: seq<Row>, catalog: Catalog, inv: Inventory,
                                           lines: seq<MergeLine>, a: seq<VariantId>, b: seq<VariantId>)
    requires forall i :: 0 <= i < |lines| ==> (lines[i].line.variant in a <==> lines[i].line.variant in b)
    ensures TurnedAway(rows, catalog, inv, lines, a) == TurnedAway(rows, catalog, inv, lines, b)
  {
    if lines != [] {
      TurnedAwayFrame(rows, catalog, inv, lines[..|lines| - 1], a, b);
      assert lines[|lines| - 1].line.variant in a <==> lines[|lines| - 1].line.variant in b;
    }
  }

  /** Admission is settled at the first naming: one more line admits or turns away no variant named before it. */
  lemma AdmissionIsSettled(rows: seq<Row>, catalog: Catalog, inv: Inventory, front: seq<MergeLine>, l: MergeLine)
    ensures forall i :: 0 <= i < |front| ==>
      (front[i].line.variant in Admitted(rows, catalog, inv, front + [l]) <==>
       front[i].line.variant in Admitted(rows, catalog, inv, front))
  {
    var adm, next := Admitted(rows, catalog, inv, front), Admitted(rows, catalog, inv, front + [l]);
    AdmittedOfAppend(rows, catalog, inv, front, l);
    if next != adm {
      FirstNaming(rows, catalog, inv, front, l.line.variant);
      assert forall i :: 0 <= i < |front| ==> front[i].line.variant != l.line.variant;
    }
  }

  /** However many lines follow: what becomes of a line's variant is decided by the lines up to it. */
  lemma {:induction false} LaterLinesChangeNoAdmission(rows: seq<Row>, catalog: Catalog, inv: Inventory,
                                                       lines: seq<MergeLine>, k: nat, i: nat)
    requires i < k <= |lines|
    ensures lines[i].line.variant in Admitted(rows, catalog, inv, lines) <==>
      lines[i].line.variant in Admitted(rows, catalog, inv, lines[..k])
  {
    if k == |lines| {
      assert lines[..k] == lines;
    } else {
      var front, last := lines[..|lines| - 1], lines[|lines| - 1];
      LaterLinesChangeNoAdmission(rows, catalog, inv, front, k, i);
      AdmissionIsSettled(rows, catalog, inv, front, last);
      assert lines == front + [last] && front[..k] == lines[..k] && front[i] == lines[i];
    }
  }

  lemma TurnedAwayIsSettled(rows: seq<Row>, catalog: Catalog, inv: Inventory, front: seq<MergeLine>, l: MergeLine)
    ensures TurnedAway(rows, catalog, inv, front, Admitted(rows, catalog, inv, front + [l])) ==
      TurnedAway(rows, catalog, inv, front, Admitted(rows, catalog, inv, front))
  {
    AdmissionIsSettled(rows, catalog, inv, front, l);
    TurnedAwayFrame(rows, catalog, inv, front,
                    Admitted(rows, catalog, inv, front + [l]), Admitted(rows, catalog, inv, front));
  }

  lemma MergeableOfPrefix(rows: seq<Row>, catalog: Catalog, inv: Inventory, front: seq<MergeLine>, l: MergeLine)
    requires Mergeable(rows, catalog, inv, front + [l])
    ensures Mergeable(rows, catalog, inv, front)
  {
    AdmittedOfAppend(rows, catalog, inv, front, l);
    assert forall i :: 0 <= i < |front| ==> (front + [l])[i] == front[i];
  }

  /**
    * The merge is its closed form. It succeeds exactly when every quantity is in bounds and no admitted variant has
    * a soft-deleted row; then each row ends with one clamp of the sum of what was held and asked for, the admitted
    * variants are the first new purchasable ones that find a slot, and the counters count what they say.
    */
  lemma {:induction false} MergeClosedForm(rows: seq<Row>, catalog: Catalog, inv: Inventory, lines: seq<MergeLine>)
    requires Distinct(rows) && RowsOk(rows)
    ensures MergeAll(rows, catalog, inv, lines).Ok? <==> Mergeable(rows, catalog, inv, lines)
    ensures MergeAll(rows, catalog, inv, lines).Ok? ==>
      var p := MergeAll(rows, catalog, inv, lines).value;
      && p.rows == MergedRows(rows, catalog, inv, lines)
      && p.skipped == Unpurchasable(catalog, inv, lines)
      && p.keptSeparate == TurnedAway(rows, catalog, inv, lines, Admitted(rows, catalog, inv, lines))
      && p.merged + p.keptSeparate + p.skipped == |lines|
  {
    if lines == [] {
      assert forall row :: MergedRow(catalog, inv, lines, row) == row;
      assert MergedRows(rows, catalog, inv, lines) == rows;
    } else {
      var front, l := lines[..|lines| - 1], lines[|lines| - 1];
      assert lines == front + [l];
      MergeClosedForm(rows, catalog, inv, front);
      if Mergeable(rows, catalog, inv, front) {
        StepLaw(rows, catalog, inv, front, l, MergeAll(rows, catalog, inv, front).value);
        TurnedAwayIsSettled(rows, catalog, inv, front, l);
      } else if Mergeable(rows, catalog, inv, lines) {
        MergeableOfPrefix(rows, catalog, inv, front, l);
      }
    }
  }

  /** A merged cart is in order, whatever was merged into it. */
  lemma MergedRowsAreOk(c: Cart, catalog: Catalog, inv: Inventory, lines: seq<MergeLine>)
    requires CartOk(c) && Mergeable(c.rows, catalog, inv, lines)
    ensures CartOk(Recomputed(c, MergedRows(c.rows, catalog, inv, lines)))
  {
    var r, adm := MergedRows(c.rows, catalog, inv, lines), Admitted(c.rows, catalog, inv, lines);
    MergedExtends(c.rows, catalog, inv, lines);
    ExtendedIsDistinct(c.rows, adm, r);
    ExtendedLive(c.rows, adm, r);
    forall i | 0 <= i < |r|
      ensures RowOk(r[i])
    {
      if i < |c.rows| {
        assert RowOk(c.rows[i]);
        MergedQuantityInBounds(catalog, inv, lines, c.rows[i].variant, c.rows[i].quantity);
      } else {
        assert adm[i - |c.rows|] in adm;
        AdmittedAreNewcomers(c.rows, catalog, inv, lines, adm[i - |c.rows|]);
        MergedQuantityInBounds(catalog, inv, lines, adm[i - |c.rows|], 0);
      }
    }
  }

  lemma MergedQuantityInBounds(catalog: Catalog, inv: Inventory, lines: seq<MergeLine>, v: VariantId, held: nat)
    requires forall i :: 0 <= i < |lines| ==> InBounds(lines[i].line.quantity)
    ensures Purchasable(catalog, inv, v) && NamesVariant(lines, v) ==> InBounds(MergedQuantity(inv, lines, v, held))
  {
    DemandSign(Plain(lines), v);
    if NamesVariant(lines, v) {
      var i :| 0 <= i < |lines| && lines[i].line.variant == v;
      assert Plain(lines)[i].variant == v;
    }
  }

  // ---------- line order ----------

  ghost function Elements(s: seq<VariantId>): set<VariantId> {
    set v | v in s
  }

  lemma {:induction false} DistinctLength(s: seq<VariantId>)
    requires forall i, j :: 0 <= i < j < |s| ==> s[i] != s[j]
    ensures |Elements(s)| == |s|
  {
    if s == [] {
      assert Elements(s) == {};
    } else {
      var front, last := s[..|s| - 1], s[|s| - 1];
      DistinctLength(front);
      assert last !in front;
      assert s == front + [last];
      assert Elements(s) == Elements(front) + {last};
    }
  }

  lemma NamesByMultiset(a: seq<MergeLine>, b: seq<MergeLine>, v: VariantId)
    requires multiset(Plain(a)) == multiset(Plain(b))
    ensures NamesVariant(a, v) ==> NamesVariant(b, v)
  {
    if NamesVariant(a, v) {
      var i :| 0 <= i < |a| && a[i].line.variant == v;
      assert Plain(a)[i] in multiset(Plain(b));
      var j :| 0 <= j < |b| && Plain(b)[j] == Plain(a)[i];
      assert b[j].line.variant == v;
    }
  }

  /** With enough slots, the newcomers of two orders of the same lines are the same variants. */
  lemma NewcomersOfPermutation(rows: seq<Row>, catalog: Catalog, inv: Inventory, a: seq<MergeLine>, b: seq<MergeLine>)
    requires multiset(Plain(a)) == multiset(Plain(b))
    ensures forall v :: v in Newcomers(rows, catalog, inv, a) <==> v in Newcomers(rows, catalog, inv, b)
    ensures |Newcomers(rows, catalog, inv, a)| == |Newcomers(rows, catalog, inv, b)|
  {
    var x, y := Newcomers(rows, catalog, inv, a), Newcomers(rows, catalog, inv, b);
    NewcomersLaw(rows, catalog, inv, a);
    NewcomersLaw(rows, catalog, inv, b);
    forall v
      ensures v in x <==> v in y
    {
      NamesByMultiset(a, b, v);
      NamesByMultiset(b, a, v);
    }
    DistinctLength(x);
    DistinctLength(y);
    assert Elements(x) == Elements(y);
  }

  /** The quantity of `v` after a merge with enough slots for every newcomer. */
  lemma QuantityAfterMerge(rows: seq<Row>, catalog: Catalog, inv: Inventory, lines: seq<MergeLine>, v: VariantId)
    requires Distinct(rows) && Mergeable(rows, catalog, inv, lines)
    requires |Newcomers(rows, catalog, inv, lines)| <= FreeSlots(rows)
    ensures OldQuantity(MergedRows(rows, catalog, inv, lines), v) ==
      if Purchasable(catalog, inv, v) && NamesVariant(lines, v)
      then MergedQuantity(inv, lines, v, OldQuantity(rows, v))
      else OldQuantity(rows, v)
  {
    var r, adm := MergedRows(rows, catalog, inv, lines), Admitted(rows, catalog, inv, lines);
    MergedExtends(rows, catalog, inv, lines);
    ExtendedIsDistinct(rows, adm, r);
    NewcomersLaw(rows, catalog, inv, lines);
    assert adm == Newcomers(rows, catalog, inv, lines);
    if Find(rows, v, false) >= 0 {
      ExtendedFindOld(rows, adm, r, Find(rows, v, false));
    } else if v in adm {
      var k :| 0 <= k < |adm| && adm[k] == v;
      ExtendedFindNew(rows, adm, r, k);
    } else {
      ExtendedFindNone(rows, adm, r, v);
    }
  }

  /** When slots suffice, neither success nor any quantity depends on the order of the lines. */
  lemma MergeIgnoresOrder(rows: seq<Row>, catalog: Catalog, inv: Inventory, a: seq<MergeLine>, b: seq<MergeLine>,
                          v: VariantId)
    requires Distinct(rows) && RowsOk(rows)
    requires multiset(Plain(a)) == multiset(Plain(b))
    requires |Newcomers(rows, catalog, inv, a)| <= FreeSlots(rows)
    ensures MergeAll(rows, catalog, inv, a).Ok? <==> MergeAll(rows, catalog, inv, b).Ok?
    ensures MergeAll(rows, catalog, inv, a).Ok? ==>
      OldQuantity(MergeAll(rows, catalog, inv, a).value.rows, v) ==
        OldQuantity(MergeAll(rows, catalog, inv, b).value.rows, v)
  {
    MergeClosedForm(rows, catalog, inv, a);
    MergeClosedForm(rows, catalog, inv, b);
    NewcomersOfPermutation(rows, catalog, inv, a, b);
    if Mergeable(rows, catalog, inv, a) {
      MergeableByMultiset(rows, catalog, inv, a, b);
    } else if Mergeable(rows, catalog, inv, b) {
      MergeableByMultiset(rows, catalog, inv, b, a);
    }
    if Mergeable(rows, catalog, inv, a) {
      QuantityAfterMerge(rows, catalog, inv, a, v);
      QuantityAfterMerge(rows, catalog, inv, b, v);
      DemandOfPermutation(Plain(a), Plain(b), v);
      NamesByMultiset(a, b, v);
      NamesByMultiset(b, a, v);
    }
  }

  lemma MergeableByMultiset(rows: seq<Row>, catalog: Catalog, inv: Inventory, a: seq<MergeLine>, b: seq<MergeLine>)
    requires multiset(Plain(a)) == multiset(Plain(b))
    requires |Newcomers(rows, catalog, inv, a)| <= FreeSlots(rows)
    requires Mergeable(rows, catalog, inv, a)
    ensures Mergeable(rows, catalog, inv, b)
  {
    NewcomersOfPermutation(rows, catalog, inv, a, b);
    assert Admitted(rows, catalog, inv, a) == Newcomers(rows, catalog, inv, a);
    assert Admitted(rows, catalog, inv, b) == Newcomers(rows, catalog, inv, b);
    forall i | 0 <= i < |b|
      ensures InBounds(b[i].line.quantity)
    {
      assert Plain(b)[i] in multiset(Plain(a));
      var j :| 0 <= j < |a| && Plain(a)[j] == Plain(b)[i];
      assert a[j].line == b[i].line;
    }
  }

  // ---------- the merge as a cart operation ----------

  function MergeCart(c: Cart, catalog: Catalog, inv: Inventory, lines: seq<MergeLine>): CartOutcome {
    match MergeAll(c.rows, catalog, inv, lines)
    case Err(e) => CartOutcome(c, Some(e))
    case Ok(p) => CartOutcome(Recomputed(c, p.rows), None)
  }

  lemma MergeOfOne(rows: seq<Row>, catalog: Catalog, inv: Inventory, l: MergeLine)
    ensures MergeAll(rows, catalog, inv, [l]) == MergeOne(Progress(rows, 0, 0, 0), catalog, inv, l)
  {
    var none: seq<MergeLine> := [];
    assert [l][..0] == none;
    assert MergeAll(rows, catalog, inv, none) == Ok(Progress(rows, 0, 0, 0));
  }

  /**
    * The merge promise fails on a variant that was once removed: putting it in the cart by hand revives its
    * soft-deleted row, merging the very same line runs into the unique key and is rolled back.
    */
  lemma TombstoneSplitsAddAndMerge(c: Cart, catalog: Catalog, inv: Inventory, v: VariantId, quantity: int,
                                   isSelected: Option<bool>)
    requires CartOk(c) && Find(c.rows, v, true) >= 0 && FreeSlots(c.rows) > 0
    requires Unsellable(catalog, v).None? && InBounds(quantity) && quantity <= StockOf(inv, v)
    ensures AddItem(c, catalog, inv, v, quantity, isSelected).error.None?
    ensures MergeCart(c, catalog, inv, [MergeLine(Line(v, quantity), isSelected)]) ==
      CartOutcome(c, Some(UniqueViolation))
  {
    var l := MergeLine(Line(v, quantity), isSelected);
    var dead := Find(c.rows, v, true);
    FindIsUnique(c.rows, dead);
    AddItemSucceedsIff(c, catalog, inv, v, quantity, isSelected);
    MergeOfOne(c.rows, catalog, inv, l);
    MergeOneCases(Progress(c.rows, 0, 0, 0), catalog, inv, l);
  }
}
