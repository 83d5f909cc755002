/**
 The loaded task records, the checkbox built for each one, and the grouping of
 the checkboxes into the four fixed tabs of the window.
 */
module Catalog {
  import opened PyText
  import opened LabelCodec

  /** One record of the task file. `tab` and `checked` are `None` when the key is absent. */
  datatype Task = Task(title: string, bp: int, tab: Option<string>, checked: Option<bool>)

  /** One checkbox: its display text and its checked state. */
  datatype Entry = Entry(text: string, checked: bool)

  /** The four tabs, in the order they are added to the window
      (single, paired, state and crime tasks). */
  const TabNames: seq<string> := ["Одиночные", "Парные", "Гос", "Крайм"]

  /** The checkbox of a task: labelled with title and points, checked when the
      record says `checked: true` (an absent key means unchecked). */
  function MakeEntry(t: Task): Entry {
    Entry(Label(t.title, t.bp), t.checked.GetOr(false))
  }

  /** A task's checkbox gives back the record's `bp` to both parsers, the
      stripped title to the export, and is checked exactly when the record
      says `checked: true`. */
  lemma EntryOfTask(t: Task)
    ensures ParseBpCounts(MakeEntry(t).text) == t.bp && ParseBpExport(MakeEntry(t).text) == t.bp
    ensures ExportTitle(MakeEntry(t).text) == Strip(t.title)
    ensures MakeEntry(t).checked <==> t.checked == Some(true)
  {
    LabelRoundTrip(t.title, t.bp);
    if t.checked.Some? {
      assert MakeEntry(t).checked == t.checked.value;
    }
  }

  /** `[f(x) for x in xs]`. */
  function Map<T, U>(xs: seq<T>, f: T -> U): (ys: seq<U>)
    ensures |ys| == |xs|
    ensures forall i :: 0 <= i < |xs| ==> ys[i] == f(xs[i])
  {
    if xs == [] then []
    else
      var init := xs[..|xs| - 1];
      var ys := Map(init, f) + [f(xs[|xs| - 1])];
      assert forall i :: 0 <= i < |init| ==> ys[i] == Map(init, f)[i] && init[i] == xs[i];
      ys
  }

  /** The checkboxes of a sequence of tasks, one each, in order. */
  function Entries(ts: seq<Task>): (es: seq<Entry>)
    ensures |es| == |ts|
    ensures forall i :: 0 <= i < |ts| ==> es[i] == MakeEntry(ts[i])
  {
    Map(ts, MakeEntry)
  }

  /** The tasks whose `tab` is `name`, in file order. */
  function InTab(ts: seq<Task>, name: string): seq<Task> {
    if ts == [] then []
    else InTab(ts[..|ts| - 1], name) + (if ts[|ts| - 1].tab == Some(name) then [ts[|ts| - 1]] else [])
  }

  predicate IsShown(t: Task) {
    t.tab.Some? && t.tab.value in TabNames
  }

  /** The tasks that get a checkbox at all, in file order. */
  function Displayed(ts: seq<Task>): seq<Task> {
    if ts == [] then []
    else Displayed(ts[..|ts| - 1]) + (if IsShown(ts[|ts| - 1]) then [ts[|ts| - 1]] else [])
  }

  /** All checkboxes of the window, tab by tab, each tab in file order. */
  function Layout(ts: seq<Task>): seq<Entry> {
    Entries(InTab(ts, TabNames[0])) + Entries(InTab(ts, TabNames[1]))
    + Entries(InTab(ts, TabNames[2])) + Entries(InTab(ts, TabNames[3]))
  }

  /** The window setup's outer loop: one container per tab, in tab order. */
  method Group(tasks: seq<Task>) returns (groups: seq<seq<Entry>>)
    ensures |groups| == |TabNames|
    ensures forall k :: 0 <= k < |TabNames| ==> groups[k] == Entries(InTab(tasks, TabNames[k]))
    ensures groups[0] + groups[1] + groups[2] + groups[3] == Layout(tasks)
  {
    groups := [];
    for k := 0 to |TabNames|
      invariant |groups| == k
      invariant forall j :: 0 <= j < k ==> groups[j] == Entries(InTab(tasks, TabNames[j]))
    {
      var container := FillTab(tasks, TabNames[k]);
      groups := groups + [container];
    }
  }

  /** The window setup's inner loop: a checkbox for every task whose `tab`
      equals `name`, in file order. */
  method FillTab(tasks: seq<Task>, name: string) returns (container: seq<Entry>)
    ensures container == Entries(InTab(tasks, name))
  {
    container := [];
    for i := 0 to |tasks|
      invariant container == Entries(InTab(tasks[..i], name))
    {
      assert tasks[..i + 1] == tasks[..i] + [tasks[i]];
      InTabSnoc(tasks[..i], tasks[i], name);
      if tasks[i].tab == Some(name) {
        EntriesSnoc(InTab(tasks[..i], name), tasks[i]);
        container := container + [MakeEntry(tasks[i])];
      }
    }
    assert tasks[..|tasks|] == tasks;
  }

  /** A tab holds exactly the tasks whose `tab` field names it. */
  lemma {:induction false} InTabMembers(ts: seq<Task>, name: string, t: Task)
    ensures t in InTab(ts, name) <==> t in ts && t.tab == Some(name)
  {
    if ts != [] {
      var init := ts[..|ts| - 1];
      InTabMembers(init, name, t);
      assert ts == init + [ts[|ts| - 1]];
    }
  }

  /** Tabs keep file order: the tasks of an earlier stretch of the file come first. */
  lemma {:induction false} InTabAppend(a: seq<Task>, b: seq<Task>, name: string)
    ensures InTab(a + b, name) == InTab(a, name) + InTab(b, name)
  {
    if b == [] {
      assert a + b == a;
    } else {
      var init := b[..|b| - 1];
      InTabAppend(a, init, name);
      assert (a + b)[..|a + b| - 1] == a + init;
    }
  }

  /** A task whose `tab` names none of the four tabs is in no tab. */
  lemma UnknownTabDropped(ts: seq<Task>, t: Task)
    requires !IsShown(t)
    ensures forall k :: 0 <= k < |TabNames| ==> t !in InTab(ts, TabNames[k])
    ensures t !in Displayed(ts)
  {
    forall k | 0 <= k < |TabNames| ensures t !in InTab(ts, TabNames[k]) {
      InTabMembers(ts, TabNames[k], t);
    }
    DisplayedMembers(ts, t);
  }

  lemma {:induction false} DisplayedMembers(ts: seq<Task>, t: Task)
    ensures t in Displayed(ts) <==> t in ts && IsShown(t)
  {
    if ts != [] {
      var init := ts[..|ts| - 1];
      DisplayedMembers(init, t);
      assert ts == init + [ts[|ts| - 1]];
    }
  }

  lemma EntriesSnoc(ts: seq<Task>, t: Task)
    ensures Entries(ts + [t]) == Entries(ts) + [MakeEntry(t)]
  {
    MapSnoc(ts, t, MakeEntry);
  }

  /** One more element adds its image at the end. */
  lemma MapSnoc<T, U>(xs: seq<T>, x: T, f: T -> U)
    ensures Map(xs + [x], f) == Map(xs, f) + [f(x)]
  {
    assert (xs + [x])[..|xs|] == xs;
  }

  /** One more record joins the tab it names, and no other. */
  lemma InTabSnoc(ts: seq<Task>, t: Task, name: string)
    ensures InTab(ts + [t], name) == if t.tab == Some(name) then InTab(ts, name) + [t] else InTab(ts, name)
  {
    assert (ts + [t])[..|ts|] == ts;
  }

  /** One more record is displayed exactly when its tab is one of the four. */
  lemma DisplayedSnoc(ts: seq<Task>, t: Task)
    ensures Displayed(ts + [t]) == if IsShown(t) then Displayed(ts) + [t] else Displayed(ts)
  {
    assert (ts + [t])[..|ts|] == ts;
  }
}
