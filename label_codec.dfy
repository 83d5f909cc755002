/**
 The checkbox label of a task and the two parsers that read a point value (BP)
 back out of such a label: the one the header tally uses and the slightly
 different one the CSV export uses. The point value is never read from the
 task record after the label is built; it is always re-parsed from the text.
 */
module LabelCodec {
  import opened PyText

  /** The checkbox text `title + " (" + str(bp) + ")"`. */
  function Label(title: string, bp: int): string {
    title + " (" + IntToString(bp) + ")"
  }

  /** The tally's parser: strip the text, split it at its last `(`, demand a
      trailing `)`, and read the rest as an integer; 0 whenever a step fails. */
  function ParseBpCounts(text: string): int {
    var m := RSplit1(Strip(text), '(');
    if |m| == 2 && EndsWith(m[1], ')') then ParseInt(DropLast(m[1])).GetOr(0) else 0
  }

  /** The export's parser: no strip, a `"(" in text` test and a `)` at the very
      end of the unstripped text, then the same split and integer read. */
  function ParseBpExport(text: string): int {
    if '(' in text && EndsWith(text, ')') then ParseInt(DropLast(RSplit1(text, '(')[1])).GetOr(0)
    else 0
  }

  /** The export's title column: everything before the last `(`, stripped. */
  function ExportTitle(text: string): string {
    Strip(RSplit1(text, '(')[0])
  }

  /** Whatever precedes it, a final `(s)` is what the tally parses. */
  lemma ParseBpCountsTail(p: string, s: string)
    requires '(' !in s
    ensures ParseBpCounts(p + "(" + s + ")") == ParseInt(s).GetOr(0)
  {
    var text := p + "(" + s + ")";
    StripUnpaddedEnd(text);
    var a := Leading(text, IsSpace);
    assert !IsSpace(text[|p|]);
    assert text[a..] == p[a..] + ['('] + (s + ")");
    RSplitAtLast(text[a..], '(', p[a..], s + ")");
    assert DropLast(s + ")") == s;
  }

  /** Whatever precedes it, a final `(s)` is what the export parses, and the
      title column is the stripped text before it. */
  lemma ParseBpExportTail(p: string, s: string)
    requires '(' !in s
    ensures ParseBpExport(p + "(" + s + ")") == ParseInt(s).GetOr(0)
    ensures ExportTitle(p + "(" + s + ")") == Strip(p)
  {
    var text := p + "(" + s + ")";
    assert text == p + ['('] + (s + ")");
    RSplitAtLast(text, '(', p, s + ")");
    assert DropLast(s + ")") == s;
  }

  /** Round trip: both parsers recover `bp` from the label, for every title,
      including titles that contain `(` or `)` or surrounding whitespace; the
      export's title column is the title stripped. */
  lemma LabelRoundTrip(title: string, bp: int)
    ensures ParseBpCounts(Label(title, bp)) == bp
    ensures ParseBpExport(Label(title, bp)) == bp
    ensures ExportTitle(Label(title, bp)) == Strip(title)
  {
    var digits := IntToString(bp);
    IntToStringShape(bp);
    ParseIntRoundTrip(bp);
    assert Label(title, bp) == (title + " ") + "(" + digits + ")";
    ParseBpCountsTail(title + " ", digits);
    ParseBpExportTail(title + " ", digits);
    StripAppendSpace(title, ' ');
  }

  /** The tally's parser yields a non-zero value only for a text that holds a `(`,
      whose stripped form ends in `)`, and whose part between the last `(` and
      that `)` reads as that integer: it falls back to 0, without error, when
      there is no `(`, no closing `)`, or no integer between them. */
  lemma ParseBpCountsFallback(text: string)
    ensures ParseBpCounts(text) != 0 ==> '(' in text && EndsWith(Strip(text), ')')
    ensures ParseBpCounts(text) != 0 ==>
      |RSplit1(Strip(text), '(')| == 2 && ParseInt(DropLast(RSplit1(Strip(text), '(')[1])) == Some(ParseBpCounts(text))
  {
    var t := Strip(text);
    var m := RSplit1(t, '(');
    if |m| == 2 && EndsWith(m[1], ')') {
      assert t == m[0] + ['('] + m[1];
      assert t[|t| - 1] == m[1][|m[1]| - 1];
      assert t[|m[0]|] == '(';
    }
  }

  /** Stripping a text that does not end in whitespace leaves what follows its
      last `(` untouched. */
  lemma StripKeepsTail(text: string)
    requires text != [] && !IsSpace(text[|text| - 1]) && '(' in text
    ensures |RSplit1(Strip(text), '(')| == 2
    ensures RSplit1(Strip(text), '(')[1] == RSplit1(text, '(')[1]
  {
    var a := Leading(text, IsSpace);
    var parts := RSplit1(text, '(');
    var p, q := parts[0], parts[1];
    assert text == p + ['('] + q;
    assert a <= |p| by { assert !IsSpace(text[|p|]); }
    assert text[a..] == p[a..] + ['('] + q;
    RSplitAtLast(text[a..], '(', p[a..], q);
    assert Strip(text) == text[a..] by { StripUnpaddedEnd(text); }
  }

  /** On a text that does not end in whitespace, the two parsers agree. */
  lemma ParsersAgree(text: string)
    requires text == [] || !IsSpace(text[|text| - 1])
    ensures ParseBpExport(text) == ParseBpCounts(text)
  {
    if text == [] {
      StripByUnpadded(text, IsSpace);
    } else if '(' in text {
      StripKeepsTail(text);
      var q := RSplit1(text, '(')[1];
      assert text == RSplit1(text, '(')[0] + ['('] + q;
      assert EndsWith(text, ')') == EndsWith(q, ')');
    } else {
      assert '(' !in Strip(text);
    }
  }

  /** A trailing whitespace character is invisible to the tally's parser but
      makes the export's parser fall back to 0. */
  lemma TrailingSpaceSplitsParsers(text: string, c: char)
    requires IsSpace(c)
    ensures ParseBpCounts(text + [c]) == ParseBpCounts(text)
    ensures ParseBpExport(text + [c]) == 0
  {
    StripAppendSpace(text, c);
  }
}
