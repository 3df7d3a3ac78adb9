/** Strings as the scripts write them: tab-separated fields, newline-terminated
    lines; and the splitting a reader of those files uses. */
module Text {

  /** str.split(sep) with an explicit one-character separator. */
  function Split(s: string, sep: char): (parts: seq<string>)
    ensures |parts| >= 1
    ensures forall k :: 0 <= k < |parts| ==> sep !in parts[k]
    decreases |s|
  {
    if |s| == 0 then [""]
    else
      var rest := Split(s[1..], sep);
      if s[0] == sep then [""] + rest
      else [[s[0]] + rest[0]] + rest[1..]
  }

  /** sep.join(parts) */
  function Join(parts: seq<string>, sep: char): string
  {
    if |parts| == 0 then ""
    else if |parts| == 1 then parts[0]
    else parts[0] + [sep] + Join(parts[1..], sep)
  }

  lemma Join3(a: string, b: string, c: string, sep: char)
    ensures Join([a, b, c], sep) == a + [sep] + (b + [sep] + c)
  {
    assert [b, c][1..] == [c];
    assert Join([b, c], sep) == b + [sep] + c;
    assert [a, b, c][1..] == [b, c];
  }

  lemma Join4(a: string, b: string, c: string, d: string, sep: char)
    ensures Join([a, b, c, d], sep) == a + [sep] + (b + [sep] + (c + [sep] + d))
  {
    assert [a, b, c, d][1..] == [b, c, d];
    Join3(b, c, d, sep);
  }

  /** The text of a file written line by line, each line followed by "\n". */
  function LinesToText(lines: seq<string>): string
  {
    if lines == [] then "" else lines[0] + "\n" + LinesToText(lines[1..])
  }

  /** Reading a table back: split into lines (a final empty piece after the
      last newline is not a line), then every line into tab-separated fields. */
  function ParseTable(text: string): (rows: seq<seq<string>>)
  {
    var pieces := Split(text, '\n');
    var lines := if pieces[|pieces| - 1] == "" then pieces[..|pieces| - 1] else pieces;
    seq(|lines|, k requires 0 <= k < |lines| => Split(lines[k], '\t'))
  }

  lemma {:induction false} SplitWithoutSeparator(a: string, sep: char)
    requires sep !in a
    ensures Split(a, sep) == [a]
    decreases |a|
  {
    if |a| > 0 {
      SplitWithoutSeparator(a[1..], sep);
      assert [a[0]] + a[1..] == a;
    }
  }

  lemma {:induction false} SplitAfterFirst(a: string, sep: char, b: string)
    requires sep !in a
    ensures Split(a + [sep] + b, sep) == [a] + Split(b, sep)
    decreases |a|
  {
    var s := a + [sep] + b;
    if |a| == 0 {
      assert s[1..] == b;
    } else {
      assert s[1..] == a[1..] + [sep] + b;
      SplitAfterFirst(a[1..], sep, b);
      assert [a[0]] + a[1..] == a;
    }
  }

  /** Splitting undoes joining, for fields free of the separator. */
  lemma {:induction false} SplitJoin(parts: seq<string>, sep: char)
    requires |parts| >= 1
    requires forall k :: 0 <= k < |parts| ==> sep !in parts[k]
    ensures Split(Join(parts, sep), sep) == parts
    decreases |parts|
  {
    if |parts| == 1 {
      SplitWithoutSeparator(parts[0], sep);
    } else {
      SplitJoin(parts[1..], sep);
      SplitAfterFirst(parts[0], sep, Join(parts[1..], sep));
    }
  }

  lemma {:induction false} LinesToTextSnoc(lines: seq<string>, line: string)
    ensures LinesToText(lines + [line]) == LinesToText(lines) + line + "\n"
    decreases |lines|
  {
    if lines == [] {
      assert [line][1..] == [];
    } else {
      assert (lines + [line])[1..] == lines[1..] + [line];
      LinesToTextSnoc(lines[1..], line);
    }
  }

  /** Splitting a written file on newlines gives back its lines, plus the empty
      piece after the final newline. */
  lemma {:induction false} SplitLinesToText(lines: seq<string>)
    requires forall k :: 0 <= k < |lines| ==> '\n' !in lines[k]
    ensures Split(LinesToText(lines), '\n') == lines + [""]
    decreases |lines|
  {
    if lines == [] {
    } else {
      SplitLinesToText(lines[1..]);
      SplitAfterFirst(lines[0], '\n', LinesToText(lines[1..]));
      assert lines[0] + "\n" + LinesToText(lines[1..]) == lines[0] + ['\n'] + LinesToText(lines[1..]);
      assert [lines[0]] + lines[1..] == lines;
    }
  }

  /** Reading back a written file gives each line's fields, line by line. */
  lemma ParseLinesToText(lines: seq<string>)
    requires forall k :: 0 <= k < |lines| ==> '\n' !in lines[k]
    ensures ParseTable(LinesToText(lines)) == seq(|lines|, k requires 0 <= k < |lines| => Split(lines[k], '\t'))
  {
    SplitLinesToText(lines);
    var pieces := lines + [""];
    assert pieces[..|pieces| - 1] == lines;
  }

  /** The lines of a table whose rows are given as fields. */
  function JoinedLines(rows: seq<seq<string>>, sep: char): (lines: seq<string>)
  {
    seq(|rows|, k requires 0 <= k < |rows| => Join(rows[k], sep))
  }

  /** No field of `fields` holds a tab or a newline. */
  predicate PlainFields(fields: seq<string>)
  {
    forall i :: 0 <= i < |fields| ==> '\t' !in fields[i] && '\n' !in fields[i]
  }

  lemma {:induction false} JoinAvoids(parts: seq<string>, sep: char, c: char)
    requires c != sep
    requires forall i :: 0 <= i < |parts| ==> c !in parts[i]
    ensures c !in Join(parts, sep)
    decreases |parts|
  {
    if |parts| > 1 {
      JoinAvoids(parts[1..], sep, c);
    }
  }

  /** Reading back a written table of tab-joined rows gives the rows. */
  lemma ParseJoinedLines(rows: seq<seq<string>>)
    requires forall k :: 0 <= k < |rows| ==> |rows[k]| >= 1 && PlainFields(rows[k])
    ensures ParseTable(LinesToText(JoinedLines(rows, '\t'))) == rows
  {
    var lines := JoinedLines(rows, '\t');
    forall k | 0 <= k < |lines| ensures '\n' !in lines[k] && Split(lines[k], '\t') == rows[k] {
      JoinAvoids(rows[k], '\t', '\n');
      SplitJoin(rows[k], '\t');
    }
    ParseLinesToText(lines);
  }
}
