# Farm BP checklist — a Dafny model of its bookkeeping

The program is a small desktop checklist for a game's daily "farm" tasks. Each
task record (`title`, `bp` points, `tab`, optional `checked`) whose `tab` names
one of the four tabs becomes a checkbox labelled `title (bp)`; a record with any
other `tab` is not shown and not counted. The checkboxes are grouped into four fixed tabs
(`Одиночные`, `Парные`, `Гос`, `Крайм`). A header shows today's points, the total
points and `checked/total`. A reset button unchecks everything. An export button
writes one CSV row per checkbox.

The model covers the logic behind the widgets:

- `PyText` holds the Python string built-ins the program relies on, over
  `string`:
  - `str.isspace` with Python's whitespace set;
  - `strip()`, `rsplit(c, 1)`, `endswith`, `[:-1]`;
  - `str(n)`;
  - `int(s)`, with a sign, `_` between digits and surrounding whitespace. `int()`
    skips a narrower set of characters than `strip()`: the separators
    U+001C..U+001F count as whitespace for `strip()` but make `int()` fail.
- `LabelCodec` holds:
  - the checkbox label;
  - the two parsers that read the points back out of the label: the header
    recount's parser and the export's slightly different one.
- `Catalog` holds:
  - the task record and the checkbox (`Entry`);
  - the checkbox built from a record;
  - the grouping loops of the window setup (`Group`, `FillTab`), proved against
    the filter `InTab` and the layout `Layout`.
- `Tally` holds the header numbers as functions of the checkboxes:
  - a generic `Sum` with its algebra;
  - the effect of flipping one box and of clearing all boxes;
  - the totals of a freshly built window in terms of the records.
- `Window` holds `MainWindow`, a class with:
  - the array of checkboxes, in tab order;
  - the four header numbers;
  - the methods for setup, recount, a click on a box, reset and export rows.

  The class invariant `Valid()` says that the header equals the recount of the
  boxes. The constructor establishes it and every public method keeps it.
  `Toggle` and `Reset` require it, since every reachable window satisfies it.

Facts about the parsing worth knowing:

- **Parentheses in titles.** A title containing parentheses still parses,
  because both parsers split at the last `(`: for every title both read back
  exactly the label's `bp` (`LabelRoundTrip`).
- **Negative points.** `bp` may be any integer, negative included, in the
  program and in the model.
- **Trailing whitespace.** The two parsers do differ on a text with trailing
  whitespace (`TrailingSpaceSplitsParsers`). The recount strips the text; the
  export tests the raw text for a final `)`. Labels built by the program never
  end in whitespace, and on such texts the parsers agree (`ParsersAgree`).

## Model

| member | source | states |
|---|---|---|
| `PyText.IsSpace` | main.py:114 | no ensures; the characters `str.isspace()` accepts, which `strip()` removes |
| `PyText.Leading` | main.py:114 | the count of a character class at the front: all counted characters are in the class and the next one is not |
| `PyText.Trailing` | main.py:114 | the same count at the back |
| `PyText.StripBy` | main.py:114 | stripping a character class keeps the stretch that starts right after the leading run of the class, and only class characters follow it |
| `PyText.StripByShape` | main.py:114 | what stripping keeps has no class character at either end, is empty exactly when every character is in the class, and holds only characters of its input |
| `PyText.StripByUnpadded` | main.py:114 | a text without class characters at its ends is left as it is |
| `PyText.Strip` | main.py:114 | `strip()` never lengthens its argument; it is `StripBy` for `IsSpace`, so `StripBy` and `StripByShape` state what it keeps |
| `PyText.StripAppendSpace` | main.py:114 | appending whitespace does not change `strip()` |
| `PyText.RSplit1` | main.py:114 | `rsplit(c, 1)` gives one part (the whole string) exactly when `c` is absent; otherwise two parts around an occurrence of `c`, with no `c` after it |
| `PyText.RSplitAtLast` | main.py:148 | the cut is at the last `c`, whatever precedes it |
| `PyText.DropLast` | main.py:118 | `[:-1]` removes exactly the last character of a non-empty string |
| `PyText.NatToString` | main.py:14 | `str(n)` is a non-empty run of digits without a leading zero whose value is `n` |
| `PyText.IntToString` | main.py:14 | no ensures; `str(n)` for any integer, characterised by `NatToString` and `ParseIntRoundTrip` |
| `PyText.IsIntSpace` | main.py:118 | no ensures; the whitespace `int()` skips: `isspace()` without U+001C..U+001F |
| `PyText.IntStrip` | main.py:118 | `int()`'s skipping never lengthens the text; it is `StripBy` for `IsIntSpace`, so `StripBy` and `StripByShape` state what it keeps |
| `PyText.EndsWith` | main.py:116 | no ensures; `endswith(c)` for one character: the text is non-empty and its last character is `c` |
| `PyText.DigitRun` | main.py:118 | no ensures; the digit strings `int()` accepts: ASCII digits, a single `_` allowed between two digits; `NatToString` produces one |
| `PyText.DigitsValue` | main.py:118 | no ensures; the number a digit string spells, `_` ignored; `NatToString` states `DigitsValue(str(n)) == n` |
| `PyText.ParseInt` | main.py:118 | no ensures; `int(s)` with `None` for a `ValueError`, characterised by `ParseIntRoundTrip`, `IntSpaceNarrower` and the parser lemmas of `LabelCodec` |
| `PyText.IntSpaceNarrower` | main.py:118 | U+001C is whitespace to `strip()` but `int()` rejects a number preceded by it |
| `PyText.ParseIntRoundTrip` | main.py:118 | `int(str(n)) == n` for every integer |
| `LabelCodec.Label` | main.py:14 | no ensures; the checkbox text `title (bp)`, characterised by `LabelRoundTrip` |
| `LabelCodec.ParseBpCounts` | main.py:113-120 | no ensures; the recount's parser, characterised by `ParseBpCountsTail`, `ParseBpCountsFallback` and `LabelRoundTrip` |
| `LabelCodec.ParseBpExport` | main.py:147-153 | no ensures; the export's parser, characterised by `ParseBpExportTail`, `ParsersAgree` and `LabelRoundTrip` |
| `LabelCodec.ExportTitle` | main.py:148 | no ensures; the export's title column, characterised by `ParseBpExportTail` and `LabelRoundTrip` |
| `LabelCodec.ParseBpCountsTail` | main.py:113-120 | the recount's parser reads whatever sits in a final `(...)` as `int()` reads it, 0 on failure |
| `LabelCodec.ParseBpExportTail` | main.py:147-153 | the export's parser reads a final `(...)` the same way; its title column is the stripped text before it |
| `LabelCodec.LabelRoundTrip` | main.py:14 | for every title and integer `bp`, both parsers read `bp` back from the label and the export title is the stripped title |
| `LabelCodec.ParseBpCountsFallback` | main.py:114-120 | a non-zero result needs a `(`, a stripped text ending in `)` and an integer between them; otherwise the parser yields 0 without error |
| `LabelCodec.ParsersAgree` | main.py:150-152 | on a text not ending in whitespace the export's parser equals the recount's |
| `LabelCodec.TrailingSpaceSplitsParsers` | main.py:150 | a trailing whitespace character is ignored by the recount's parser but zeroes the export's |
| `Catalog.MakeEntry` | main.py:14-15 | no ensures; a record's checkbox, characterised by `EntryOfTask` |
| `Catalog.EntryOfTask` | main.py:14-15 | a record's checkbox reads back the record's `bp` and stripped title, and is checked iff the record says `checked: true` (absent means unchecked) |
| `Catalog.Map` | main.py:67 | proof helper: one image per element, the `i`-th image being that of the `i`-th element, for the checkbox built per record at main.py:67 |
| `Catalog.Entries` | main.py:65-69 | one checkbox per record, in order: the `i`-th checkbox is the `i`-th record's |
| `Catalog.MapSnoc` | main.py:67-69 | proof helper: one more element adds its image at the end |
| `Catalog.EntriesSnoc` | main.py:67-69 | proof helper: adding a record adds its checkbox at the end |
| `Catalog.FillTab` | main.py:65-69 | a tab's container holds the checkboxes of exactly the records naming that tab, in file order |
| `Catalog.Group` | main.py:56-69 | four containers in the fixed tab order, each filled as `FillTab` states; together, in order, they are the window's layout |
| `Catalog.InTab` | main.py:65-66 | no ensures; the records naming one tab, in file order, characterised by `InTabMembers`, `InTabAppend` and `UnknownTabDropped` |
| `Catalog.Displayed` | main.py:56-66 | no ensures; the records naming one of the four tabs, characterised by `DisplayedMembers` and `TabsCoverDisplayed` |
| `Catalog.Layout` | main.py:56-69 | no ensures; the checkboxes tab after tab, characterised by `Group`, `LayoutSum` and `LayoutTotals` |
| `Catalog.InTabMembers` | main.py:66 | a record is in a tab iff its `tab` equals that tab's name |
| `Catalog.InTabAppend` | main.py:65 | a tab keeps file order: records of an earlier stretch of the file come first |
| `Catalog.InTabSnoc` | main.py:66-69 | proof helper: a further record joins the tab it names and no other |
| `Catalog.DisplayedMembers` | main.py:56 | a record is displayed iff its `tab` is one of the four names |
| `Catalog.DisplayedSnoc` | main.py:56-66 | proof helper: a further record is displayed exactly when its tab is one of the four |
| `Catalog.UnknownTabDropped` | main.py:56-69 | a record with any other `tab` is in no tab and not displayed |
| `Tally.ClearAll` | main.py:133-134 | clearing keeps every text and unchecks every box |
| `Tally.Sum` | main.py:110-124 | no ensures; an accumulator `+=` front to back over the boxes, characterised by `SumAppend`, `SumUpdate`, `SumPointwise` and `SumZero` |
| `Tally.EntryBp` | main.py:113-120 | no ensures; one box's points, as the recount parses them from its text |
| `Tally.SumBp` | main.py:121 | no ensures; the recount's `total_bp`, characterised by `TotalBpIgnoresChecks`, `FlipEffect` and `LayoutTotals` |
| `Tally.SumCheckedBp` | main.py:122-124 | no ensures; the recount's `today_bp`, characterised by `TodayAtMostTotal`, `FlipEffect`, `ClearAllTotals` and `LayoutTotals` |
| `Tally.CountChecked` | main.py:122-123 | no ensures; the recount's `checked_count`, characterised by `CheckedAtMostItems`, `FlipEffect`, `ClearAllTotals` and `LayoutTotals` |
| `Tally.Flip` | main.py:98-99 | no ensures; one box's flag flipped, characterised by `FlipEffect`, `FlipFlip` and `MainWindow.Toggle` |
| `Tally.SumSnoc` | main.py:110-111 | proof helper: one more box adds its own weight to an accumulator |
| `Tally.SumAppend` | main.py:106-110 | the accumulation over tab after tab is the sum of the per-tab accumulations |
| `Tally.SumUpdate` | main.py:121-124 | changing one box changes an accumulator by the difference of that box's weights |
| `Tally.SumPointwise` | main.py:121-124 | boxes with equal weights give equal accumulators |
| `Tally.SumZero` | main.py:122-124 | all-zero weights accumulate to 0 |
| `Tally.CheckedAtMostItems` | main.py:122-123 | `0 <= checked_count <= total_items` |
| `Tally.TodayAtMostTotal` | main.py:121-124 | with no negative point value, `0 <= today_bp <= total_bp` |
| `Tally.TotalBpIgnoresChecks` | main.py:121 | `total_bp` depends on the texts only, never on the checked flags |
| `Tally.FlipEffect` | main.py:121-124 | flipping one box leaves `total_bp`; it moves `today_bp` by that box's parsed points and `checked_count` by one, up if it was unchecked and down if it was checked |
| `Tally.FlipFlip` | main.py:98-99 | flipping the same box twice restores every box |
| `Tally.ClearAllTotals` | main.py:129-135 | after clearing, `today_bp == 0` and `checked_count == 0`, and `total_bp` is unchanged |
| `Tally.ClearAllIdempotent` | main.py:129-135 | clearing twice is clearing once |
| `Tally.EntriesSum` | main.py:65-69 | a weight read off every record's checkbox sums, over the checkboxes, to the records' own total |
| `Tally.TabsSnoc` | main.py:56-69 | a further record adds to exactly one tab when its tab is one of the four, and to none otherwise |
| `Tally.TabsCoverDisplayed` | main.py:56-69 | the four tabs together hold as many records, and the same totals, as the displayed records |
| `Tally.LayoutSum` | main.py:56-69 | over the whole window, a weight read off the checkboxes sums to the displayed records' total |
| `Tally.LayoutTotals` | main.py:96 | after setup the recount gives the displayed records' number, `bp` total, checked `bp` total and checked count |
| `Window.ExportRow` | main.py:147-154 | an export row has three columns and its third is `"1"` iff the box is checked, `"0"` otherwise |
| `Window.ExportRowOfTask` | main.py:148-154 | for a record's checkbox the row is the stripped title, `str(bp)`, and `"1"`/`"0"` for `checked: true` or not |
| `Window.MainWindow.constructor` | main.py:56-96 | the boxes are laid out tab by tab in file order; the header holds the displayed records' totals and the class invariant holds |
| `Window.MainWindow.Recount` | main.py:101-124 | the one-pass, four-accumulator recount equals `total_bp`, `today_bp`, `checked_count` and the number of boxes |
| `Window.MainWindow.UpdateCounts` | main.py:101-127 | after a recount the header shows the recount of the current boxes |
| `Window.MainWindow.Toggle` | main.py:98-99 | a click flips exactly that box and recounts; `total_bp` and `total_items` stay, `today_bp` and `checked_count` move as `FlipEffect` states |
| `Window.MainWindow.Reset` | main.py:129-135 | every box is unchecked with its text kept; afterwards `today_bp == 0`, `checked_count == 0`, and `total_bp`, `total_items` are unchanged |
| `Window.MainWindow.ExportRows` | main.py:142-154 | the header row `title,bp,checked` is followed by one row per box in tab order, `total_items + 1` rows in all |

## Left out

- Qt widget construction, layouts, scroll areas, styles and signal wiring (main.py:35-55, 70-96, 163-175) are not modelled. Checkboxes are a plain array.
- `findChildren` is assumed to return a tab's checkboxes in insertion order. The nested tab and checkbox loops of the recount, the reset and the export are therefore one loop over the array in tab order.
- Loading `tasks.json`, including its fallback to an empty list (main.py:28-33), is file I/O. The loaded records are the constructor's argument.
- The save dialog and its cancel path, `csv.writer` quoting, file writing and the message boxes (main.py:140-141, 155-161) are I/O and are not modelled. `ExportRows` returns the list of rows.
- The header's text and HTML (main.py:125-127) are not modelled. `UpdateCounts` stores the four numbers behind the header.
- `main()` and the event loop (main.py:178-185) are not modelled.
- Single-threaded event dispatch is modelled as one method call per user action.
- `PyText.ParseInt`: accepts ASCII decimal digits only. Python's `int()` also accepts other Unicode decimal digits, which the model reads as a parse failure (0 points).
- Records are typed: `title` a string, `bp` an integer, `tab` a string or absent, and `checked` a boolean or absent. Records with missing `title`/`bp` keys (a `KeyError` when the record's `tab` is one of the four; a record with another `tab` is dropped before its keys are read), non-integer `bp`, or non-boolean truthy `checked` values are not modelled.
- The constructor sets the initial checked flags before any recount is connected, as the program does. The model does not represent the signal connection itself.
- `Window.MainWindow.Reset`: the program recounts once for each box that actually changes, because Qt only emits `stateChanged` on a real change, and then once more. The model does the same; only the final recount is visible in the contract.
