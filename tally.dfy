/**
 What the header shows, as functions of the checkboxes: the four accumulators of
 the recount, the effect of one toggle, of clearing every box, and the totals of
 a freshly loaded window in terms of the task records themselves.
 */
module Tally {
  import opened PyText
  import opened LabelCodec
  import opened Catalog

  /** The sum of `w` over `xs`, accumulated front to back. */
  function Sum<T>(xs: seq<T>, w: T -> int): int {
    if xs == [] then 0 else Sum(xs[..|xs| - 1], w) + w(xs[|xs| - 1])
  }

  /** The points of one checkbox, parsed from its text as the recount does. */
  function EntryBp(e: Entry): int {
    ParseBpCounts(e.text)
  }

  /** What a checkbox adds to today's points. */
  function EntryCheckedBp(e: Entry): int {
    if e.checked then EntryBp(e) else 0
  }

  /** What a checkbox adds to the checked count. */
  function EntryCheckedOne(e: Entry): int {
    if e.checked then 1 else 0
  }

  /** The recount's `total_bp`. */
  function SumBp(es: seq<Entry>): int {
    Sum(es, EntryBp)
  }

  /** The recount's `today_bp`. */
  function SumCheckedBp(es: seq<Entry>): int {
    Sum(es, EntryCheckedBp)
  }

  /** The recount's `checked_count`. */
  function CountChecked(es: seq<Entry>): int {
    Sum(es, EntryCheckedOne)
  }

  function TaskPoints(t: Task): int {
    t.bp
  }

  function TaskCheckedPoints(t: Task): int {
    if t.checked == Some(true) then t.bp else 0
  }

  function TaskCheckedOne(t: Task): int {
    if t.checked == Some(true) then 1 else 0
  }

  /** Sum of `bp` over task records. */
  function TaskBp(ts: seq<Task>): int {
    Sum(ts, TaskPoints)
  }

  /** Sum of `bp` over the records that say `checked: true`. */
  function TaskCheckedBp(ts: seq<Task>): int {
    Sum(ts, TaskCheckedPoints)
  }

  /** Number of records that say `checked: true`. */
  function TaskChecked(ts: seq<Task>): int {
    Sum(ts, TaskCheckedOne)
  }

  /** Every checkbox unchecked, texts kept. */
  function ClearAll(es: seq<Entry>): (r: seq<Entry>)
    ensures |r| == |es|
    ensures forall i :: 0 <= i < |es| ==> r[i] == es[i].(checked := false)
  {
    if es == [] then []
    else
      var r := ClearAll(es[..|es| - 1]) + [es[|es| - 1].(checked := false)];
      assert forall i :: 0 <= i < |es| - 1 ==> r[i] == ClearAll(es[..|es| - 1])[i];
      r
  }

  /** Checkbox `i` flipped, every other one kept. */
  function Flip(es: seq<Entry>, i: nat): seq<Entry>
    requires i < |es|
  {
    es[i := es[i].(checked := !es[i].checked)]
  }

  /** One more element adds its own weight. */
  lemma SumSnoc<T>(xs: seq<T>, x: T, w: T -> int)
    ensures Sum(xs + [x], w) == Sum(xs, w) + w(x)
  {
    assert (xs + [x])[..|xs|] == xs;
  }

  /** The sums over two stretches add up. */
  lemma {:induction false} SumAppend<T>(a: seq<T>, b: seq<T>, w: T -> int)
    ensures Sum(a + b, w) == Sum(a, w) + Sum(b, w)
  {
    if b == [] {
      assert a + b == a;
    } else {
      var init, last := b[..|b| - 1], b[|b| - 1];
      assert a + b == (a + init) + [last];
      SumSnoc(a + init, last, w);
      assert b == init + [last];
      SumSnoc(init, last, w);
      SumAppend(a, init, w);
    }
  }

  /** Replacing one element changes the sum by the difference of the two weights. */
  lemma {:induction false} SumUpdate<T>(xs: seq<T>, i: nat, x: T, w: T -> int)
    requires i < |xs|
    ensures Sum(xs[i := x], w) == Sum(xs, w) - w(xs[i]) + w(x)
  {
    var init, last := xs[..|xs| - 1], xs[|xs| - 1];
    assert xs == init + [last];
    SumSnoc(init, last, w);
    if i == |xs| - 1 {
      assert xs[i := x] == init + [x];
      SumSnoc(init, x, w);
    } else {
      assert xs[i := x] == init[i := x] + [last];
      SumSnoc(init[i := x], last, w);
      SumUpdate(init, i, x, w);
    }
  }

  /** Element by element equal weights give equal sums. */
  lemma {:induction false} SumPointwise<T, U>(a: seq<T>, b: seq<U>, w: T -> int, v: U -> int)
    requires |a| == |b|
    requires forall i :: 0 <= i < |a| ==> w(a[i]) == v(b[i])
    ensures Sum(a, w) == Sum(b, v)
  {
    if a != [] {
      SumPointwise(a[..|a| - 1], b[..|b| - 1], w, v);
    }
  }

  /** A checked count lies between none and all of the boxes. */
  lemma {:induction false} CheckedAtMostItems(es: seq<Entry>)
    ensures 0 <= CountChecked(es) <= |es|
  {
    if es != [] {
      CheckedAtMostItems(es[..|es| - 1]);
    }
  }

  /** With no negative point value, today's points lie between zero and the total. */
  lemma {:induction false} TodayAtMostTotal(es: seq<Entry>)
    requires forall i :: 0 <= i < |es| ==> EntryBp(es[i]) >= 0
    ensures 0 <= SumCheckedBp(es) <= SumBp(es)
  {
    if es != [] {
      TodayAtMostTotal(es[..|es| - 1]);
    }
  }

  /** The total points depend only on the texts, never on which boxes are checked. */
  lemma TotalBpIgnoresChecks(a: seq<Entry>, b: seq<Entry>)
    requires |a| == |b|
    requires forall i :: 0 <= i < |a| ==> a[i].text == b[i].text
    ensures SumBp(a) == SumBp(b)
  {
    SumPointwise(a, b, EntryBp, EntryBp);
  }

  /** Flipping box `i` moves today's points by its parsed points and the checked
      count by one, up when it was unchecked and down when it was checked, and
      leaves the total points alone. */
  lemma FlipEffect(es: seq<Entry>, i: nat)
    requires i < |es|
    ensures SumBp(Flip(es, i)) == SumBp(es)
    ensures SumCheckedBp(Flip(es, i))
         == if es[i].checked then SumCheckedBp(es) - EntryBp(es[i]) else SumCheckedBp(es) + EntryBp(es[i])
    ensures CountChecked(Flip(es, i))
         == if es[i].checked then CountChecked(es) - 1 else CountChecked(es) + 1
  {
    var flipped := es[i].(checked := !es[i].checked);
    assert EntryBp(flipped) == EntryBp(es[i]);
    SumUpdate(es, i, flipped, EntryBp);
    SumUpdate(es, i, flipped, EntryCheckedBp);
    SumUpdate(es, i, flipped, EntryCheckedOne);
  }

  /** Flipping the same box twice restores the boxes, hence the totals. */
  lemma FlipFlip(es: seq<Entry>, i: nat)
    requires i < |es|
    ensures Flip(Flip(es, i), i) == es
  {
  }

  /** After clearing: nothing checked, no points today, same total points. */
  lemma ClearAllTotals(es: seq<Entry>)
    ensures SumCheckedBp(ClearAll(es)) == 0 && CountChecked(ClearAll(es)) == 0
    ensures SumBp(ClearAll(es)) == SumBp(es)
  {
    var none: Entry -> int := _ => 0;
    SumZero(es, none);
    SumPointwise(ClearAll(es), es, EntryCheckedBp, none);
    SumPointwise(ClearAll(es), es, EntryCheckedOne, none);
    TotalBpIgnoresChecks(ClearAll(es), es);
  }

  /** Weights that are all zero sum to zero. */
  lemma {:induction false} SumZero<T>(xs: seq<T>, w: T -> int)
    requires forall x :: w(x) == 0
    ensures Sum(xs, w) == 0
  {
    if xs != [] {
      SumZero(xs[..|xs| - 1], w);
    }
  }

  /** Clearing twice is clearing once. */
  lemma ClearAllIdempotent(es: seq<Entry>)
    ensures ClearAll(ClearAll(es)) == ClearAll(es)
  {
  }

  /** A weight of the checkboxes that reads, off every task's checkbox, a weight
      of the task itself sums over the tasks' checkboxes to the tasks' total. */
  lemma {:induction false} EntriesSum(ts: seq<Task>, w: Entry -> int, v: Task -> int)
    requires forall t :: w(MakeEntry(t)) == v(t)
    ensures Sum(Entries(ts), w) == Sum(ts, v)
  {
    if ts != [] {
      var init, t := ts[..|ts| - 1], ts[|ts| - 1];
      EntriesSum(init, w, v);
      assert ts == init + [t];
      EntriesSnoc(init, t);
      SumSnoc(Entries(init), MakeEntry(t), w);
      SumSnoc(init, t, v);
    }
  }

  /** The total of `w` over the contents of the four tabs. */
  function TabsSum(ts: seq<Task>, w: Task -> int): int {
    Sum(InTab(ts, TabNames[0]), w) + Sum(InTab(ts, TabNames[1]), w)
    + Sum(InTab(ts, TabNames[2]), w) + Sum(InTab(ts, TabNames[3]), w)
  }

  /** The number of checkboxes over the four tabs. */
  function TabsSize(ts: seq<Task>): int {
    |InTab(ts, TabNames[0])| + |InTab(ts, TabNames[1])| + |InTab(ts, TabNames[2])| + |InTab(ts, TabNames[3])|
  }

  /** One more record lands in exactly one tab when its tab is one of the four,
      and in none otherwise. */
  lemma TabsSnoc(ts: seq<Task>, t: Task, w: Task -> int)
    ensures TabsSum(ts + [t], w) == TabsSum(ts, w) + (if IsShown(t) then w(t) else 0)
    ensures TabsSize(ts + [t]) == TabsSize(ts) + (if IsShown(t) then 1 else 0)
  {
    forall k | 0 <= k < |TabNames|
      ensures Sum(InTab(ts + [t], TabNames[k]), w)
           == Sum(InTab(ts, TabNames[k]), w) + (if t.tab == Some(TabNames[k]) then w(t) else 0)
      ensures |InTab(ts + [t], TabNames[k])| == |InTab(ts, TabNames[k])| + (if t.tab == Some(TabNames[k]) then 1 else 0)
    {
      InTabSnoc(ts, t, TabNames[k]);
      SumSnoc(InTab(ts, TabNames[k]), t, w);
    }
  }

  /** The four tabs together hold the displayed records: their sizes, and their
      sums of any weight, add up to those of the displayed records. */
  lemma {:induction false} TabsCoverDisplayed(ts: seq<Task>, w: Task -> int)
    ensures TabsSize(ts) == |Displayed(ts)|
    ensures TabsSum(ts, w) == Sum(Displayed(ts), w)
  {
    if ts != [] {
      var init, t := ts[..|ts| - 1], ts[|ts| - 1];
      TabsCoverDisplayed(init, w);
      assert ts == init + [t];
      TabsSnoc(init, t, w);
      DisplayedSnoc(init, t);
      SumSnoc(Displayed(init), t, w);
    }
  }

  /** A weight that reads a task's weight off its checkbox sums, over the whole
      window, to the total of that weight over the displayed records. */
  lemma LayoutSum(ts: seq<Task>, w: Entry -> int, v: Task -> int)
    requires forall t :: w(MakeEntry(t)) == v(t)
    ensures Sum(Layout(ts), w) == Sum(Displayed(ts), v)
  {
    var t0, t1, t2, t3 := InTab(ts, TabNames[0]), InTab(ts, TabNames[1]), InTab(ts, TabNames[2]), InTab(ts, TabNames[3]);
    var g0, g1, g2, g3 := Entries(t0), Entries(t1), Entries(t2), Entries(t3);
    SumAppend(g0, g1, w);
    SumAppend(g0 + g1, g2, w);
    SumAppend(g0 + g1 + g2, g3, w);
    EntriesSum(t0, w, v);
    EntriesSum(t1, w, v);
    EntriesSum(t2, w, v);
    EntriesSum(t3, w, v);
    TabsCoverDisplayed(ts, v);
  }

  /** The totals of a freshly built window are the totals of the records with a
      recognised tab: a task with any other `tab` is neither shown nor counted. */
  lemma LayoutTotals(ts: seq<Task>)
    ensures |Layout(ts)| == |Displayed(ts)|
    ensures SumBp(Layout(ts)) == TaskBp(Displayed(ts))
    ensures SumCheckedBp(Layout(ts)) == TaskCheckedBp(Displayed(ts))
    ensures CountChecked(Layout(ts)) == TaskChecked(Displayed(ts))
  {
    forall t ensures EntryBp(MakeEntry(t)) == TaskPoints(t)
      && EntryCheckedBp(MakeEntry(t)) == TaskCheckedPoints(t)
      && EntryCheckedOne(MakeEntry(t)) == TaskCheckedOne(t)
    {
      EntryOfTask(t);
    }
    TabsCoverDisplayed(ts, TaskPoints);
    LayoutSum(ts, EntryBp, TaskPoints);
    LayoutSum(ts, EntryCheckedBp, TaskCheckedPoints);
    LayoutSum(ts, EntryCheckedOne, TaskCheckedOne);
  }
}
