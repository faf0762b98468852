/** `write-csv-to` and a reader for what it writes (src/cmds.io.cc). */
module Csv {

  // ---------- The writer ----------

  predicate Special(c: char) {
    c == ',' || c == '"' || c == '\r' || c == '\n'
  }

  /** `csv_needs_quoting`. */
  predicate NeedsQuoting(s: string) {
    exists i :: 0 <= i < |s| && Special(s[i])
  }

  /** Every quote twice. */
  function DoubleQuotes(s: string): string {
    if s == "" then "" else (if s[0] == '"' then "\"\"" else [s[0]]) + DoubleQuotes(s[1..])
  }

  /** `csv_quote_string`. */
  function QuoteString(s: string): string {
    "\"" + DoubleQuotes(s) + "\""
  }

  function Field(s: string): string {
    if NeedsQuoting(s) then QuoteString(s) else s
  }

  function Fields(fs: seq<string>): string {
    if fs == [] then ""
    else if |fs| == 1 then Field(fs[0])
    else Field(fs[0]) + "," + Fields(fs[1..])
  }

  /** A file with the records `rs`. */
  function File(rs: seq<seq<string>>): string {
    if rs == [] then "" else Fields(rs[0]) + "\n" + File(rs[1..])
  }

  lemma {:induction false} FieldsSnoc(fs: seq<string>, f: string)
    ensures Fields(fs + [f]) == if fs == [] then Field(f) else Fields(fs) + "," + Field(f)
  {
    if |fs| == 1 {
      assert (fs + [f])[1..] == [f];
    } else if |fs| > 1 {
      FieldsSnoc(fs[1..], f);
      assert (fs + [f])[1..] == fs[1..] + [f];
    }
  }

  lemma {:induction false} FileSnoc(rs: seq<seq<string>>, r: seq<string>)
    ensures File(rs + [r]) == File(rs) + Fields(r) + "\n"
  {
    if rs == [] {
      assert File([r]) == Fields(r) + "\n" + File([]);
    } else {
      FileSnoc(rs[1..], r);
      assert (rs + [r])[1..] == rs[1..] + [r];
    }
  }

  lemma AppendThree(start: string, a: string, b: string, c: string)
    ensures start + a + b + c == start + (a + b + c)
  {
  }

  /** A dry run stops when more than this many rows are out. */
  const DRY_RUN_LINES := 10

  /** How often the progress callback is asked whether to go on. */
  const PROGRESS_ROWS := 1000

  /** How many rows are written: a dry run stops early, and so does an interrupt, once its row is out. */
  function RowsWritten(n: nat, dryRun: bool, interrupted: set<nat>, row: nat): (r: nat)
    requires row <= n
    ensures row <= r <= n
    decreases n - row
  {
    if row == n || (dryRun && row > DRY_RUN_LINES) then row
    else if row > 0 && row % PROGRESS_ROWS == 0 && row in interrupted then row + 1
    else RowsWritten(n, dryRun, interrupted, row + 1)
  }

  /** Without columns there is no query result to write. */
  datatype Outcome = Written | NoQueryResult

  class Writer {
    var out: string

    constructor ()
      ensures out == ""
    {
      out := "";
    }

    /** `csv_write_string`. */
    method WriteString(s: string)
      modifies this
      ensures out == old(out) + Field(s)
    {
      if NeedsQuoting(s) {
        var quoted := QuoteString(s);
        out := out + quoted;
      } else {
        out := out + s;
      }
    }

    /** One field, after those already written. */
    method WriteField(ghost before: seq<string>, f: string, first: bool, ghost start: string)
      requires out == start + Fields(before) && (first <==> before == [])
      modifies this
      ensures out == start + Fields(before + [f])
    {
      FieldsSnoc(before, f);
      if !first {
        out := out + ",";
      }
      WriteString(f);
      assert first ==> start + Fields(before) == start;
      AppendThree(start, Fields(before), ",", Field(f));
    }

    /** One record: a comma before every field but the first, a line break after the last. */
    method WriteRecord(fs: seq<string>)
      modifies this
      ensures out == old(out) + Fields(fs) + "\n"
    {
      var first := true;
      for lpc := 0 to |fs|
        invariant first <==> lpc == 0
        invariant out == old(out) + Fields(fs[..lpc])
      {
        assert fs[..lpc + 1] == fs[..lpc] + [fs[lpc]];
        WriteField(fs[..lpc], fs[lpc], first, old(out));
        first := false;
      }
      assert fs[..|fs|] == fs;
      out := out + "\n";
    }

    /** One record, after those already written. */
    method AppendRecord(ghost before: seq<seq<string>>, r: seq<string>, ghost start: string)
      requires out == start + File(before)
      modifies this
      ensures out == start + File(before + [r])
    {
      FileSnoc(before, r);
      WriteRecord(r);
      AppendThree(start, File(before), Fields(r), "\n");
    }

    /** The header, and the rows until the loop over them stops. */
    method WriteRows(header: seq<string>, rows: seq<seq<string>>, dryRun: bool, interrupted: set<nat>)
      modifies this
      ensures out == old(out) + File([header] + rows[..RowsWritten(|rows|, dryRun, interrupted, 0)])
    {
      var lineCount := 0;
      assert out + File([]) == out;
      AppendRecord([], header, old(out));
      assert [header] + rows[..0] == [] + [header];
      var row := 0;
      while row < |rows|
        invariant lineCount == row <= |rows|
        invariant out == old(out) + File([header] + rows[..row])
        invariant RowsWritten(|rows|, dryRun, interrupted, 0) == RowsWritten(|rows|, dryRun, interrupted, row)
      {
        if dryRun && lineCount > DRY_RUN_LINES {
          break;
        }
        assert [header] + rows[..row + 1] == [header] + rows[..row] + [rows[row]];
        AppendRecord([header] + rows[..row], rows[row], old(out));
        if row > 0 && row % PROGRESS_ROWS == 0 && row in interrupted {
          return;
        }
        lineCount := lineCount + 1;
        row := row + 1;
      }
    }

    /** `write-csv-to`; `interrupted` are the rows after which the progress callback says to stop.  A
        query result without columns is refused before anything is written. */
    method WriteCsv(header: seq<string>, rows: seq<seq<string>>, dryRun: bool, interrupted: set<nat>)
      returns (r: Outcome)
      modifies this
      ensures r == NoQueryResult <==> header == []
      ensures r == NoQueryResult ==> out == old(out)
      ensures r == Written ==>
        out == old(out) + File([header] + rows[..RowsWritten(|rows|, dryRun, interrupted, 0)])
    {
      if header == [] {
        return NoQueryResult;
      }
      WriteRows(header, rows, dryRun, interrupted);
      r := Written;
    }
  }

  // ---------- A reader for RFC 4180, section 2, that also takes a bare LF as the end of a record ----------

  datatype Reading<T> = Got(value: T, rest: string) | Malformed

  /** An unquoted field: up to a separator, and without quotes. */
  function ReadBare(s: string): Reading<string> {
    if s == "" || s[0] == ',' || s[0] == '\r' || s[0] == '\n' then Got("", s)
    else if s[0] == '"' then Malformed
    else
      var r := ReadBare(s[1..]);
      if r.Got? then Got([s[0]] + r.value, r.rest) else Malformed
  }

  /** What follows an opening quote: two quotes are one, a single one ends the field. */
  function ReadQuoted(s: string): Reading<string> {
    if s == "" then Malformed
    else if s[0] != '"' then
      var r := ReadQuoted(s[1..]);
      if r.Got? then Got([s[0]] + r.value, r.rest) else Malformed
    else if |s| > 1 && s[1] == '"' then
      var r := ReadQuoted(s[2..]);
      if r.Got? then Got(['"'] + r.value, r.rest) else Malformed
    else Got("", s[1..])
  }

  function ReadField(s: string): (r: Reading<string>)
  {
    if s != "" && s[0] == '"' then ReadQuoted(s[1..]) else ReadBare(s)
  }

  lemma {:induction false} ReadersShrink(s: string)
    ensures ReadBare(s).Got? ==> |ReadBare(s).rest| <= |s|
    ensures ReadQuoted(s).Got? ==> |ReadQuoted(s).rest| <= |s|
    decreases |s|
  {
    if s != "" {
      ReadersShrink(s[1..]);
      if |s| > 1 {
        ReadersShrink(s[2..]);
      }
    }
  }

  /** One or more fields and the end of the record. */
  function ReadRecord(s: string): (r: Reading<seq<string>>)
    ensures r.Got? ==> |r.rest| <= |s| && (s != "" ==> |r.rest| < |s|)
    decreases |s|
  {
    ReadersShrink(s);
    assert s != "" ==> (ReadersShrink(s[1..]); true);
    var f := ReadField(s);
    if f.Malformed? then Malformed
    else if f.rest == "" then Got([f.value], "")
    else if f.rest[0] == ',' then
      var more := ReadRecord(f.rest[1..]);
      if more.Got? then Got([f.value] + more.value, more.rest) else Malformed
    else if f.rest[0] == '\n' then Got([f.value], f.rest[1..])
    else if |f.rest| > 1 && f.rest[0] == '\r' && f.rest[1] == '\n' then Got([f.value], f.rest[2..])
    else Malformed
  }

  function ReadFile(s: string): Reading<seq<seq<string>>>
    decreases |s|
  {
    if s == "" then Got([], "")
    else
      var r := ReadRecord(s);
      if r.Malformed? then Malformed
      else
        var more := ReadFile(r.rest);
        if more.Got? then Got([r.value] + more.value, "") else Malformed
  }

  // ---------- The round trip ----------

  predicate EndsField(rest: string) {
    rest == "" || rest[0] == ',' || rest[0] == '\n'
  }

  lemma {:induction false} BareReads(s: string, rest: string)
    requires !NeedsQuoting(s) && EndsField(rest)
    ensures ReadBare(s + rest) == Got(s, rest)
  {
    if s == "" {
      assert s + rest == rest;
    } else {
      assert Special(s[0]) == false;
      assert forall i | 0 <= i < |s[1..]| :: s[1..][i] == s[i + 1];
      BareReads(s[1..], rest);
      assert (s + rest)[1..] == s[1..] + rest;
      assert [s[0]] + s[1..] == s;
    }
  }

  lemma {:induction false} QuotedReads(s: string, rest: string)
    requires EndsField(rest)
    ensures ReadQuoted(DoubleQuotes(s) + "\"" + rest) == Got(s, rest)
  {
    var all := DoubleQuotes(s) + "\"" + rest;
    if s == "" {
      assert all == "\"" + rest;
      assert all[1..] == rest;
    } else {
      QuotedReads(s[1..], rest);
      var tail := DoubleQuotes(s[1..]) + "\"" + rest;
      assert [s[0]] + s[1..] == s;
      if s[0] == '"' {
        assert all == "\"\"" + tail;
        assert all[2..] == tail;
      } else {
        assert all == [s[0]] + tail;
        assert all[1..] == tail;
      }
    }
  }

  lemma QuotedFieldReads(s: string, rest: string)
    requires EndsField(rest)
    ensures ReadField(QuoteString(s) + rest) == Got(s, rest)
  {
    var inside := DoubleQuotes(s) + "\"" + rest;
    QuotedReads(s, rest);
    assert QuoteString(s) + rest == "\"" + inside;
    assert ("\"" + inside)[1..] == inside;
  }

  lemma FieldReads(s: string, rest: string)
    requires EndsField(rest)
    ensures ReadField(Field(s) + rest) == Got(s, rest)
  {
    if NeedsQuoting(s) {
      QuotedFieldReads(s, rest);
    } else {
      BareReads(s, rest);
      assert s != "" ==> !Special(s[0]) && (s + rest)[0] == s[0];
      assert s == "" ==> s + rest == rest;
    }
  }

  lemma {:induction false} LastFieldReads(s: string, f: string, rest: string)
    requires ReadField(s) == Got(f, "\n" + rest)
    ensures ReadRecord(s) == Got([f], rest)
  {
    assert ("\n" + rest)[1..] == rest;
  }

  lemma {:induction false} FieldThenMore(s: string, f: string, tail: string)
    requires ReadField(s) == Got(f, "," + tail) && ReadRecord(tail).Got?
    ensures ReadRecord(s) == Got([f] + ReadRecord(tail).value, ReadRecord(tail).rest)
  {
    assert ("," + tail)[1..] == tail;
  }

  lemma {:induction false} FirstOfFields(fs: seq<string>, rest: string)
    requires fs != []
    ensures Fields(fs) + "\n" + rest
      == Field(fs[0]) + (if |fs| == 1 then "\n" + rest else "," + (Fields(fs[1..]) + "\n" + rest))
  {
  }

  lemma {:induction false} FirstFieldReads(fs: seq<string>, rest: string)
    requires fs != []
    ensures ReadField(Fields(fs) + "\n" + rest)
      == Got(fs[0], if |fs| == 1 then "\n" + rest else "," + (Fields(fs[1..]) + "\n" + rest))
  {
    FirstOfFields(fs, rest);
    FieldReads(fs[0], if |fs| == 1 then "\n" + rest else "," + (Fields(fs[1..]) + "\n" + rest));
  }

  lemma {:induction false} RecordReads(fs: seq<string>, rest: string)
    requires fs != []
    ensures ReadRecord(Fields(fs) + "\n" + rest) == Got(fs, rest)
  {
    var s := Fields(fs) + "\n" + rest;
    if |fs| == 1 {
      FirstFieldReads(fs, rest);
      LastFieldReads(s, fs[0], rest);
      assert [fs[0]] == fs;
    } else {
      var tail := Fields(fs[1..]) + "\n" + rest;
      assert ReadRecord(tail) == Got(fs[1..], rest) by {
        RecordReads(fs[1..], rest);
      }
      FirstFieldReads(fs, rest);
      FieldThenMore(s, fs[0], tail);
      assert [fs[0]] + fs[1..] == fs;
    }
  }

  /** Reading what was written gives back exactly the records, whatever is in the fields. */
  lemma {:induction false} FileReads(rs: seq<seq<string>>)
    requires forall i :: 0 <= i < |rs| ==> rs[i] != []
    ensures ReadFile(File(rs)) == Got(rs, "")
  {
    if rs != [] {
      RecordReads(rs[0], File(rs[1..]));
      FileReads(rs[1..]);
      assert [rs[0]] + rs[1..] == rs;
    }
  }

  lemma {:induction false} BlankRecords(rs: seq<seq<string>>)
    requires rs != [] && rs[0] == []
    ensures var r := ReadFile(File(rs)); r.Got? ==> r.value != [] && r.value[0] == [""]
  {
    var s := File(rs);
    assert s == "\n" + File(rs[1..]);
    assert ReadBare(s) == Got("", s);
  }

  /** Why a table without columns has to be refused: it would come back with one nameless column, while
      every other one comes back as it is. */
  lemma RoundTripIff(header: seq<string>, rows: seq<seq<string>>)
    requires forall i :: 0 <= i < |rows| ==> |rows[i]| == |header|
    ensures ReadFile(File([header] + rows)) == Got([header] + rows, "") <==> header != []
  {
    if header != [] {
      FileReads([header] + rows);
    } else {
      BlankRecords([header] + rows);
    }
  }

  lemma {:induction false} AllWritten(n: nat, row: nat)
    requires row <= n
    ensures RowsWritten(n, false, {}, row) == n
    decreases n - row
  {
    if row < n {
      AllWritten(n, row + 1);
    }
  }

  /** Everything together: what is not refused reads back as the header and the rows that were written,
      and these are all of them unless it is a dry run or interrupted. */
  method WriteAndRead(header: seq<string>, rows: seq<seq<string>>, dryRun: bool, interrupted: set<nat>)
    returns (written: Outcome, r: Reading<seq<seq<string>>>)
    requires forall i :: 0 <= i < |rows| ==> |rows[i]| == |header|
    ensures written == Written <==> header != []
    ensures written == Written ==>
      r == Got([header] + rows[..RowsWritten(|rows|, dryRun, interrupted, 0)], "")
    ensures written == Written && !dryRun && interrupted == {} ==> r == Got([header] + rows, "")
  {
    var w := new Writer();
    written := w.WriteCsv(header, rows, dryRun, interrupted);
    r := ReadFile(w.out);
    if written == Written {
      var n := RowsWritten(|rows|, dryRun, interrupted, 0);
      RoundTripIff(header, rows[..n]);
      assert "" + File([header] + rows[..n]) == File([header] + rows[..n]);
      if !dryRun && interrupted == {} {
        AllWritten(|rows|, 0);
        assert rows[..|rows|] == rows;
      }
    }
  }

  /** A dry run writes at most eleven rows. */
  lemma {:induction false} DryRunRows(n: nat, interrupted: set<nat>, row: nat)
    requires row <= n && row <= DRY_RUN_LINES + 1
    ensures RowsWritten(n, true, interrupted, row) <= DRY_RUN_LINES + 1
    ensures (interrupted == {}) ==>
      RowsWritten(n, true, interrupted, row) == if n < DRY_RUN_LINES + 1 then n else DRY_RUN_LINES + 1
    decreases n - row
  {
    if row < n && row <= DRY_RUN_LINES {
      DryRunRows(n, interrupted, row + 1);
    }
  }
}
