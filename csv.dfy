/** Assembly of the CSV files the three views offer for download: fields are
    joined with "," and lines with "\n". */
module Csv {
  import Strings

  /** The outcome of a download request: rejected (the view shows an error
      toast and writes no file) or the text of the file. */
  datatype Export = Rejected | File(text: string)

  predicate NewlineFree(s: string) { '\n' !in s }

  /** `fields.join(",")`. */
  function Line(fields: seq<string>): string
  {
    Strings.Join(fields, ",")
  }

  /** `lines.join("\n")`. */
  function Document(lines: seq<string>): string
  {
    Strings.Join(lines, "\n")
  }

  /** A document of newline-free lines splits back into exactly those lines:
      one line of text per element, no trailing empty line. */
  lemma DocumentLines(lines: seq<string>)
    requires |lines| >= 1
    requires forall i :: 0 <= i < |lines| ==> NewlineFree(lines[i])
    ensures Strings.Split(Document(lines), '\n') == lines
  {
    Strings.SplitJoin(lines, '\n');
  }

  /** A line of comma-free fields splits back into exactly those fields. */
  lemma LineFields(fields: seq<string>)
    requires |fields| >= 1
    requires forall i :: 0 <= i < |fields| ==> ',' !in fields[i]
    ensures Strings.Split(Line(fields), ',') == fields
  {
    Strings.SplitJoin(fields, ',');
  }

  /** A line built from newline-free fields is newline-free. */
  lemma LineNewlineFree(fields: seq<string>)
    requires forall i :: 0 <= i < |fields| ==> NewlineFree(fields[i])
    ensures NewlineFree(Line(fields))
  {
    Strings.JoinAvoids(fields, ",", '\n');
  }
}
