/**
 * The CSV upload handler (`handleFileUpload`): the `.csv` extension check
 * and the line-and-comma parsing of the file's text into one record per
 * non-blank data line, keyed by the trimmed header names.
 */
module CsvUploader {
  import opened Wrappers
  import opened Text
  import opened Seqs
  import opened Records

  /** `line.split(',').map(value => value.trim())`. */
  function Cells(line: string): (r: seq<string>)
    ensures |r| >= 1
    ensures forall k :: 0 <= k < |r| ==> IsTrimmed(r[k]) && ',' !in r[k]
  {
    TrimAll(Split(line, ','))
  }

  /** `.map(value => value.trim())`. */
  function TrimAll(pieces: seq<string>): seq<string> {
    seq(|pieces|, k requires 0 <= k < |pieces| => Trim(pieces[k]))
  }

  /** Appending white space to the last piece leaves the trimmed pieces as they were. */
  lemma TrimAllSnoc(pieces: seq<string>, c: char)
    requires |pieces| > 0 && IsSpace(c)
    ensures TrimAll(pieces[..|pieces| - 1] + [pieces[|pieces| - 1] + [c]]) == TrimAll(pieces)
  {
    var n := |pieces|;
    var spaced := pieces[..n - 1] + [pieces[n - 1] + [c]];
    TrimDropsTrailingSpace(pieces[n - 1], c);
    var a, b := TrimAll(spaced), TrimAll(pieces);
    forall k | 0 <= k < n ensures a[k] == b[k] {
      if k < n - 1 {
        assert spaced[k] == pieces[k];
      } else {
        assert spaced[k] == pieces[n - 1] + [c];
      }
    }
  }

  /** The header names: the first line's comma-separated cells, trimmed. */
  function Headers(text: string): seq<string> {
    Cells(Split(text, '\n')[0])
  }

  /** `row => row.trim()` as a filter: the line holds something other than white space. */
  predicate NonBlank(line: string) {
    Trim(line) != ""
  }

  /** `rows.slice(1).filter(row => row.trim())`: the data lines, in file order. */
  function DataLines(text: string): seq<string> {
    Filter(Split(text, '\n')[1..], NonBlank)
  }

  /** `values[index] || ''`: the cell at `index`, or `''` past the end of the line. */
  function CellAt(values: seq<string>, index: nat): string {
    if index < |values| then values[index] else ""
  }

  /**
   * The object the `reduce` over the headers builds: for each header in
   * turn, `obj[header] = values[index] || ''`.
   */
  function RecordFor(headers: seq<string>, values: seq<string>): Record<string> {
    if |headers| == 0 then []
    else Set(RecordFor(headers[..|headers| - 1], values), headers[|headers| - 1], CellAt(values, |headers| - 1))
  }

  /** A record's keys are the header names, each once, in order of first appearance. */
  lemma {:induction false} RecordKeys(headers: seq<string>, values: seq<string>)
    ensures Keys(RecordFor(headers, values)) == FirstOccurrences(headers)
  {
    if |headers| > 0 {
      var prefix := headers[..|headers| - 1];
      var h := headers[|headers| - 1];
      var m := RecordFor(prefix, values);
      RecordKeys(prefix, values);
      assert h in Keys(m) <==> h in prefix;
      assert Keys(RecordFor(headers, values)) == if h in prefix then Keys(m) else Keys(m) + [h];
      FirstOccurrencesLast(headers);
    }
  }

  /** A record never holds the same key twice. */
  lemma RecordDistinctKeys(headers: seq<string>, values: seq<string>)
    ensures DistinctKeys(RecordFor(headers, values))
  {
    RecordKeys(headers, values);
  }

  /**
   * Each header's value is the cell under its LAST column with that name
   * (a later duplicate header overwrites an earlier one); other keys are
   * absent.
   */
  lemma {:induction false} RecordLookup(headers: seq<string>, values: seq<string>, key: string)
    ensures key in headers ==> Lookup(RecordFor(headers, values), key) == Some(CellAt(values, LastIndexOf(headers, key)))
    ensures key !in headers ==> Lookup(RecordFor(headers, values), key) == None
  {
    if |headers| > 0 {
      var prefix := headers[..|headers| - 1];
      var h := headers[|headers| - 1];
      InitLast(headers);
      RecordLookup(prefix, values, key);
      if key != h {
        LookupSet(RecordFor(prefix, values), h, CellAt(values, |headers| - 1), key);
      }
    }
  }

  /** `headers.reduce(...)`: the record for one data line. */
  method BuildRecord(headers: seq<string>, values: seq<string>) returns (obj: Record<string>)
    ensures obj == RecordFor(headers, values)
  {
    obj := [];
    for index := 0 to |headers|
      invariant obj == RecordFor(headers[..index], values)
    {
      assert headers[..index + 1][..index] == headers[..index];
      obj := Set(obj, headers[index], CellAt(values, index));
    }
    assert headers[..|headers|] == headers;
  }

  /** The arrow function mapped over the data lines: split, trim, and build the record. */
  method ParseLine(headers: seq<string>, line: string) returns (obj: Record<string>)
    ensures obj == RecordFor(headers, Cells(line))
  {
    var values := Cells(line);
    obj := BuildRecord(headers, values);
  }

  /** The arrow function mapped over the data lines, as a function of the line. */
  function LineRecord(headers: seq<string>): string -> Record<string> {
    (line: string) => RecordFor(headers, Cells(line))
  }

  /** `.map(row => ...)` over the data lines: one record per line, in order. */
  method ParseLines(headers: seq<string>, lines: seq<string>) returns (data: seq<Record<string>>)
    ensures |data| == |lines|
    ensures forall k :: 0 <= k < |data| ==> data[k] == RecordFor(headers, Cells(lines[k]))
  {
    data := [];
    for k := 0 to |lines|
      invariant data == Map(lines[..k], LineRecord(headers))
    {
      var obj := ParseLine(headers, lines[k]);
      MapSnoc(lines[..k], lines[k], LineRecord(headers));
      TakeSnoc(lines, k);
      data := data + [obj];
    }
    assert lines[..|lines|] == lines;
  }


  /**
   * The parsing block of `handleFileUpload`: the headers of the first
   * line, and one record per non-blank data line, in file order.
   */
  method ParseCsvText(text: string) returns (headers: seq<string>, data: seq<Record<string>>)
    ensures headers == Headers(text)
    ensures |data| == |DataLines(text)|
    ensures forall k :: 0 <= k < |data| ==> data[k] == RecordFor(headers, Cells(DataLines(text)[k]))
  {
    headers := Headers(text);
    data := ParseLines(headers, DataLines(text));
  }

  /** A trailing newline (or any number of them) adds no record. */
  lemma TrailingNewlineAddsNoRecord(text: string)
    ensures DataLines(text + "\n") == DataLines(text)
  {
    SplitTrailingSeparator(text, '\n');
    var rows := Split(text, '\n');
    assert Split(text + "\n", '\n')[1..] == rows[1..] + [""];
    FilterAppendRejected(rows[1..], "", NonBlank);
  }

  /** A header line ending in `\r` (a CRLF file) gives the same header names as without it. */
  lemma CarriageReturnTrimmed(line: string, rest: string)
    requires '\n' !in line
    ensures Headers(line + "\r\n" + rest) == Headers(line + "\n" + rest)
  {
    assert line + "\r\n" + rest == (line + "\r") + ['\n'] + rest;
    assert line + "\n" + rest == line + ['\n'] + rest;
    SplitFirst(line + "\r", '\n', rest);
    SplitFirst(line, '\n', rest);
    CellsCarriageReturn(line);
  }

  /** The cells of a line ending in `\r` are those of the line without it. */
  lemma CellsCarriageReturn(line: string)
    ensures Cells(line + "\r") == Cells(line)
  {
    SplitSnoc(line, ',', '\r');
    TrimAllSnoc(Split(line, ','), '\r');
  }

  /** The uploaded file: its name and the text `file.text()` resolves to. */
  datatype UploadedFile = UploadedFile(name: string, text: string)

  datatype UploadOutcome =
    | NoFile
    | Rejected(message: string)
    | Uploaded(fileName: string, data: seq<Record<string>>)

  /**
   * `handleFileUpload`: nothing without a file; a file whose name does not
   * end in `.csv` is rejected with "Please upload a CSV file" and nothing is
   * parsed; otherwise the parsed records are uploaded under the file's name.
   */
  method HandleFileUpload(file: Option<UploadedFile>) returns (outcome: UploadOutcome)
    ensures file.None? ==> outcome == NoFile
    ensures file.Some? && !EndsWith(file.value.name, ".csv") ==> outcome == Rejected("Please upload a CSV file")
    ensures file.Some? && EndsWith(file.value.name, ".csv") ==>
      && outcome.Uploaded?
      && outcome.fileName == file.value.name
      && |outcome.data| == |DataLines(file.value.text)|
      && forall k :: 0 <= k < |outcome.data| ==>
           outcome.data[k] == RecordFor(Headers(file.value.text), Cells(DataLines(file.value.text)[k]))
  {
    if file.None? {
      return NoFile;
    }
    if !EndsWith(file.value.name, ".csv") {
      return Rejected("Please upload a CSV file");
    }
    var headers, data := ParseCsvText(file.value.text);
    return Uploaded(file.value.name, data);
  }
}
