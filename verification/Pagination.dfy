/** The page numbers shown under a list. */
module Pagination {
  import opened Outcomes

  datatype Item = Number(page: int) | Gap

  /** The pages `from`..`to`; none when `to` is below `from`. */
  function Upto(from: int, to: int): seq<int> {
    seq(Max(0, to - from + 1), i requires 0 <= i => from + i)
  }

  function Numbers(from: int, to: int): seq<Item> {
    seq(Max(0, to - from + 1), i requires 0 <= i => Number(from + i))
  }

  function PushIf(range: seq<Item>, wanted: bool, item: Item): seq<Item> {
    if wanted then range + [item] else range
  }

  function First(page: int, siblings: int): int { Max(2, page - siblings) }

  function Last(page: int, total: int, siblings: int): int { Min(total - 1, page + siblings) }

  /** What the pushes leave behind. */
  function Range(page: int, total: int, siblings: int): seq<Item> {
    var start, end := First(page, siblings), Last(page, total, siblings);
    PushIf(
      PushIf(PushIf([Number(1)], start > 2, Gap) + Numbers(start, end), end < total - 1, Gap),
      total > 1, Number(total))
  }

  method BuildRange(page: int, total: int, siblings: int) returns (range: seq<Item>)
    ensures range == Range(page, total, siblings)
  {
    range := [];
    var start := Max(2, page - siblings);
    var end := Min(total - 1, page + siblings);
    range := range + [Number(1)];
    if start > 2 {
      range := range + [Gap];
    }
    ghost var front := PushIf([Number(1)], start > 2, Gap);
    assert range == front;
    var i := start;
    while i <= end
      invariant i == start || start <= i <= end + 1
      invariant range == front + Numbers(start, i - 1)
    {
      range := range + [Number(i)];
      NumbersGrow(front, start, i);
      i := i + 1;
    }
    assert range == front + Numbers(start, end) by {
      assert Numbers(start, i - 1) == Numbers(start, end);
    }
    if end < total - 1 {
      range := range + [Gap];
    }
    if total > 1 {
      range := range + [Number(total)];
    }
  }

  lemma NumbersGrow(front: seq<Item>, start: int, i: int)
    requires start <= i
    ensures front + Numbers(start, i) == front + Numbers(start, i - 1) + [Number(i)]
  {
  }

  // ---------- what a reader makes of it ----------

  /** The pages an item stands for, given what stands before and behind it. */
  function Meaning(range: seq<Item>, k: nat): seq<int>
    requires k < |range|
  {
    match range[k]
    case Number(page) => [page]
    case Gap =>
      if 0 < k < |range| - 1 && range[k - 1].Number? && range[k + 1].Number?
      then Upto(range[k - 1].page + 1, range[k + 1].page - 1)
      else []
  }

  /** Every gap replaced by the pages missing between its neighbours. */
  function Expand(range: seq<Item>, n: nat): seq<int>
    requires n <= |range|
  {
    if n == 0 then [] else Expand(range, n - 1) + Meaning(range, n - 1)
  }

  /** A gap stands between two numbers and hides at least one page. */
  ghost predicate GapsHide(range: seq<Item>) {
    forall k :: 0 <= k < |range| && range[k].Gap? ==>
      0 < k < |range| - 1 && range[k - 1].Number? && range[k + 1].Number? && |Meaning(range, k)| >= 1
  }

  /** The layout, place by place: `at` is where the window begins and `next` where it is over. */
  ghost predicate LaidOut(range: seq<Item>, start: int, end: int, total: int, at: nat, next: nat) {
    && at == (if start > 2 then 2 else 1) && next == at + Max(0, end - start + 1)
    && |range| == next + (if end < total - 1 then 2 else 1)
    && range[0] == Number(1)
    && (start > 2 ==> range[1] == Gap)
    && (forall k :: at <= k < next ==> range[k] == Number(start + (k - at)))
    && (end < total - 1 ==> range[next] == Gap)
    && range[|range| - 1] == Number(total)
  }

  /** The window lies between the first and the last page, and is empty only next to one of them. */
  predicate Window(start: int, end: int, total: int) {
    2 <= start <= end + 1 && end < total && (start == end + 1 ==> start == 2 || end == total - 1)
  }

  lemma RangeIsLaidOut(page: int, total: int, siblings: int, at: nat, next: nat)
    requires 1 <= page <= total && total > 1 && siblings >= 0
    requires var start, end := First(page, siblings), Last(page, total, siblings);
             at == (if start > 2 then 2 else 1) && next == at + Max(0, end - start + 1)
    ensures LaidOut(Range(page, total, siblings), First(page, siblings), Last(page, total, siblings), total, at, next)
  {
  }

  lemma UptoJoins(a: int, b: int, c: int)
    requires a <= b + 1 && b <= c
    ensures Upto(a, b) + Upto(b + 1, c) == Upto(a, c)
  {
  }

  /** Over a stretch of plain numbers nothing is hidden. */
  lemma {:induction false} ExpandNumbers(range: seq<Item>, at: nat, start: int, n: nat)
    requires at + n <= |range|
    requires forall k :: at <= k < at + n ==> range[k] == Number(start + (k - at))
    ensures Expand(range, at + n) == Expand(range, at) + Upto(start, start + n - 1)
  {
    if n == 0 {
      assert Upto(start, start - 1) == [];
    } else {
      ExpandNumbers(range, at, start, n - 1);
      assert Meaning(range, at + n - 1) == [start + (n - 1)];
      assert Upto(start, start + n - 1) == Upto(start, start + n - 2) + [start + n - 1];
    }
  }

  /** Up to the window, every page below it. */
  lemma ExpandHead(range: seq<Item>, start: int, end: int, total: int, at: nat, next: nat)
    requires LaidOut(range, start, end, total, at, next) && Window(start, end, total)
    ensures Expand(range, at) == Upto(1, start - 1)
  {
    assert Expand(range, 0) == [];
    assert Expand(range, 1) == Upto(1, 1);
    if start > 2 {
      assert range[2] == Number(start);
      assert Meaning(range, 1) == Upto(2, start - 1);
      UptoJoins(1, 1, start - 1);
    }
  }

  /** The gap behind the window, if there is one. */
  lemma ExpandTailGap(range: seq<Item>, start: int, end: int, total: int, at: nat, next: nat)
    requires LaidOut(range, start, end, total, at, next) && Window(start, end, total)
    requires Expand(range, next) == Upto(1, end)
    ensures Expand(range, |range| - 1) == Upto(1, total - 1)
  {
    if end < total - 1 {
      assert range[next - 1] == Number(end);
      assert Meaning(range, next) == Upto(end + 1, total - 1);
      UptoJoins(1, end, total - 1);
    }
  }

  /** Behind the window, every page above it. */
  lemma ExpandTail(range: seq<Item>, start: int, end: int, total: int, at: nat, next: nat)
    requires LaidOut(range, start, end, total, at, next) && Window(start, end, total)
    requires Expand(range, next) == Upto(1, end)
    ensures Expand(range, |range|) == Upto(1, total)
  {
    ExpandTailGap(range, start, end, total, at, next);
    var n := |range| - 1;
    assert Meaning(range, n) == [total];
    assert Expand(range, n + 1) == Expand(range, n) + [total];
    assert Upto(1, total) == Upto(1, total - 1) + [total];
  }

  lemma OnePage(siblings: int)
    requires siblings >= 0
    ensures var range := Range(1, 1, siblings);
            Expand(range, |range|) == Upto(1, 1)
  {
    var range := Range(1, 1, siblings);
    assert range == [Number(1)];
    assert Expand(range, 0) == [];
    assert Upto(1, 1) == [1];
  }

  /** The window itself, every page in it. */
  lemma WindowExpands(range: seq<Item>, start: int, end: int, total: int, at: nat, next: nat)
    requires LaidOut(range, start, end, total, at, next) && Window(start, end, total)
    requires Expand(range, at) == Upto(1, start - 1)
    ensures Expand(range, next) == Upto(1, end)
  {
    var n := next - at;
    assert start + n - 1 == end;
    ExpandNumbers(range, at, start, n);
    UptoJoins(1, start - 1, end);
  }

  lemma LaidOutIsAllPages(range: seq<Item>, start: int, end: int, total: int, at: nat, next: nat)
    requires LaidOut(range, start, end, total, at, next) && Window(start, end, total)
    ensures Expand(range, |range|) == Upto(1, total)
  {
    ExpandHead(range, start, end, total, at, next);
    WindowExpands(range, start, end, total, at, next);
    ExpandTail(range, start, end, total, at, next);
  }

  /** Read with its gaps filled in, the range is exactly all the pages, each once and in order. */
  lemma RangeIsAllPages(page: int, total: int, siblings: int)
    requires 1 <= page <= total && siblings >= 0
    ensures var range := Range(page, total, siblings);
            Expand(range, |range|) == Upto(1, total)
  {
    var start, end := First(page, siblings), Last(page, total, siblings);
    if total == 1 {
      OnePage(siblings);
    } else {
      var at := if start > 2 then 2 else 1;
      var next := at + Max(0, end - start + 1);
      RangeIsLaidOut(page, total, siblings, at, next);
      LaidOutIsAllPages(Range(page, total, siblings), start, end, total, at, next);
    }
  }

  /** A gap always hides something and never stands next to another; the strip stays short. */
  lemma GapsAreHonest(page: int, total: int, siblings: int)
    requires 1 <= page <= total && siblings >= 0
    ensures GapsHide(Range(page, total, siblings))
    ensures |Range(page, total, siblings)| <= 2 * siblings + 5
  {
    var start, end := First(page, siblings), Last(page, total, siblings);
    if total > 1 {
      var at := if start > 2 then 2 else 1;
      RangeIsLaidOut(page, total, siblings, at, at + Max(0, end - start + 1));
    }
  }

  /** Exactly the first page, the last and the window around the current one are spelled out. */
  lemma ShownIff(page: int, total: int, siblings: int, p: int)
    requires 1 <= page <= total && siblings >= 0 && 1 <= p <= total
    ensures Number(p) in Range(page, total, siblings) <==>
      p == 1 || p == total || page - siblings <= p <= page + siblings
  {
    var start, end := First(page, siblings), Last(page, total, siblings);
    if start <= p <= end {
      assert Numbers(start, end)[p - start] == Number(p);
      assert Number(p) in Numbers(start, end);
    }
  }
}
