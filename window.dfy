/**
 The main window's bookkeeping: the checkboxes of all four tabs, in tab order,
 and the four numbers behind the header labels. The header is recounted from
 scratch after every change of a checkbox and after a reset; the export reads
 the checkboxes into CSV rows.
 */
module Window {
  import opened PyText
  import opened LabelCodec
  import opened Catalog
  import opened Tally

  /** The first row of every export. */
  const ExportHeader: seq<string> := ["title", "bp", "checked"]

  /** The export row of one checkbox: the stripped text before its last `(`,
      the points as the export's parser reads them, and `"1"` or `"0"`. */
  function ExportRow(e: Entry): (row: seq<string>)
    ensures |row| == 3
    ensures row[2] == "1" <==> e.checked
    ensures row[2] == "0" <==> !e.checked
  {
    [ExportTitle(e.text), IntToString(ParseBpExport(e.text)), if e.checked then "1" else "0"]
  }

  /** For a checkbox built from a task record, the export row holds the
      record's stripped title, `str(bp)` and its checked flag. */
  lemma ExportRowOfTask(t: Task)
    ensures ExportRow(MakeEntry(t))
         == [Strip(t.title), IntToString(t.bp), if t.checked == Some(true) then "1" else "0"]
  {
    EntryOfTask(t);
  }

  class MainWindow {
    /** Every checkbox of the window, tab after tab, each tab in file order. */
    const entries: array<Entry>
    /** The numbers behind the header: today's points, total points, checked
        boxes and all boxes. */
    var todayBp: int
    var totalBp: int
    var checkedCount: int
    var totalItems: int

    /** The header shows the recount of the current checkboxes. */
    ghost predicate Valid()
      reads this, entries
    {
      && totalBp == SumBp(entries[..])
      && todayBp == SumCheckedBp(entries[..])
      && checkedCount == CountChecked(entries[..])
      && totalItems == entries.Length
    }

    /** Window setup: one checkbox per task whose tab is one of the four, laid
        out tab by tab, then a first recount. */
    constructor (tasks: seq<Task>)
      ensures entries[..] == Layout(tasks)
      ensures Valid()
      ensures totalItems == |Displayed(tasks)|
      ensures totalBp == TaskBp(Displayed(tasks)) && todayBp == TaskCheckedBp(Displayed(tasks))
      ensures checkedCount == TaskChecked(Displayed(tasks))
      ensures fresh(entries)
    {
      var groups := Group(tasks);
      var all := groups[0] + groups[1] + groups[2] + groups[3];
      entries := new Entry[|all|](k requires 0 <= k < |all| => all[k]);
      todayBp, totalBp, checkedCount, totalItems := 0, 0, 0, 0;
      new;
      assert entries[..] == all;
      UpdateCounts();
      LayoutTotals(tasks);
    }

    /** The recount: one pass over every checkbox with four accumulators. */
    method Recount() returns (today: int, total: int, checked: int, items: int)
      ensures total == SumBp(entries[..]) && today == SumCheckedBp(entries[..])
      ensures checked == CountChecked(entries[..]) && items == entries.Length
    {
      today, total, checked, items := 0, 0, 0, 0;
      for k := 0 to entries.Length
        invariant total == SumBp(entries[..k]) && today == SumCheckedBp(entries[..k])
        invariant checked == CountChecked(entries[..k]) && items == k
      {
        var e := entries[k];
        assert entries[..k + 1] == entries[..k] + [e];
        SumSnoc(entries[..k], e, EntryBp);
        SumSnoc(entries[..k], e, EntryCheckedBp);
        SumSnoc(entries[..k], e, EntryCheckedOne);
        items := items + 1;
        var bp := ParseBpCounts(e.text);
        total := total + bp;
        if e.checked {
          checked := checked + 1;
          today := today + bp;
        }
      }
      assert entries[..entries.Length] == entries[..];
    }

    /** Recount and show the result in the header. */
    method UpdateCounts()
      modifies this
      ensures Valid()
    {
      todayBp, totalBp, checkedCount, totalItems := Recount();
    }

    /** The user clicks checkbox `i`: its flag flips and the header is recounted.
        Today's points move by the box's parsed points and the checked count by
        one; the total points and the number of boxes stay. */
    method Toggle(i: nat)
      requires Valid() && i < entries.Length
      modifies this, entries
      ensures entries[..] == Flip(old(entries[..]), i)
      ensures Valid()
      ensures totalBp == old(totalBp) && totalItems == old(totalItems)
      ensures old(entries[i].checked) ==>
        todayBp == old(todayBp) - EntryBp(old(entries[i])) && checkedCount == old(checkedCount) - 1
      ensures !old(entries[i].checked) ==>
        todayBp == old(todayBp) + EntryBp(old(entries[i])) && checkedCount == old(checkedCount) + 1
    {
      FlipEffect(entries[..], i);
      entries[i] := entries[i].(checked := !entries[i].checked);
      UpdateCounts();
    }

    /** The reset button: every checked box is unchecked, each such change
        triggering a recount, and a final recount follows. Afterwards nothing is
        checked and no points are earned today; the texts, the total points and
        the number of boxes are those of before. */
    method Reset()
      requires Valid()
      modifies this, entries
      ensures entries[..] == ClearAll(old(entries[..]))
      ensures Valid()
      ensures todayBp == 0 && checkedCount == 0
      ensures totalBp == old(totalBp) && totalItems == old(totalItems)
    {
      for k := 0 to entries.Length
        invariant forall j :: 0 <= j < k ==> entries[j] == old(entries[j]).(checked := false)
        invariant forall j :: k <= j < entries.Length ==> entries[j] == old(entries[j])
      {
        if entries[k].checked {
          entries[k] := entries[k].(checked := false);
          UpdateCounts();
        }
      }
      assert entries[..] == ClearAll(old(entries[..]));
      ClearAllTotals(old(entries[..]));
      UpdateCounts();
    }

    /** The rows the export writes: the header, then one row per checkbox in
        tab order. */
    method ExportRows() returns (rows: seq<seq<string>>)
      ensures |rows| == entries.Length + 1
      ensures Valid() ==> |rows| == totalItems + 1
      ensures rows[0] == ExportHeader
      ensures forall k :: 0 <= k < entries.Length ==> rows[k + 1] == ExportRow(entries[k])
    {
      rows := [ExportHeader];
      for k := 0 to entries.Length
        invariant |rows| == k + 1 && rows[0] == ExportHeader
        invariant forall j :: 0 <= j < k ==> rows[j + 1] == ExportRow(entries[j])
      {
        rows := rows + [ExportRow(entries[k])];
      }
    }
  }
}
