/**
 * The text half of the contacts export (`exportToCSV`): a header line and
 * one line of four double-quoted cells per contact, joined with `\n`, and
 * the name of the downloaded file. `formatDate` is a parameter: its module
 * is not part of this model.
 */
module Export {
  import opened Wrappers
  import opened Text
  import opened Seqs
  import opened Types

  const HeaderCells: seq<string> := ["Sent Time", "Email Address", "Name", "Template"]

  /** `headers.join(',')`: the header names, unquoted. */
  function HeaderLine(): (r: string)
    ensures r == "Sent Time" + "," + "Email Address" + "," + "Name" + "," + "Template"
  {
    JoinFour(HeaderCells[0], HeaderCells[1], HeaderCells[2], HeaderCells[3], ',');
    Join(HeaderCells, ',')
  }

  /** `"${cell}"`: the cell text between double quotes, inserted as it is. */
  function Quote(cell: string): string {
    "\"" + cell + "\""
  }

  /** The four cells of a contact's row; a missing name becomes `''`. */
  function RowCells(contact: Contact, formatDate: int -> string): seq<string> {
    [formatDate(contact.sentAt), contact.emailAddress,
     if contact.name.Some? then contact.name.value else "", contact.templateName]
  }

  /** `row.map(cell => `"${cell}"`)`. */
  function QuotedCells(contact: Contact, formatDate: int -> string): seq<string> {
    Map(RowCells(contact, formatDate), Quote)
  }

  /** A contact's line: its four cells, each quoted, separated by commas. */
  function DataLine(contact: Contact, formatDate: int -> string): (r: string)
    ensures var cells := RowCells(contact, formatDate);
      r == Quote(cells[0]) + "," + Quote(cells[1]) + "," + Quote(cells[2]) + "," + Quote(cells[3])
  {
    var cells := RowCells(contact, formatDate);
    var quoted := QuotedCells(contact, formatDate);
    assert quoted == [Quote(cells[0]), Quote(cells[1]), Quote(cells[2]), Quote(cells[3])];
    JoinFour(Quote(cells[0]), Quote(cells[1]), Quote(cells[2]), Quote(cells[3]), ',');
    Join(quoted, ',')
  }

  function DataLines(contacts: seq<Contact>, formatDate: int -> string): (r: seq<string>)
    ensures |r| == |contacts|
    ensures forall k :: 0 <= k < |r| ==> r[k] == DataLine(contacts[k], formatDate)
  {
    seq(|contacts|, k requires 0 <= k < |contacts| => DataLine(contacts[k], formatDate))
  }

  /** `csvContent`: the header line, then one line per contact, joined with `\n` and no final newline. */
  function CsvContent(contacts: seq<Contact>, formatDate: int -> string): string {
    Join([HeaderLine()] + DataLines(contacts, formatDate), '\n')
  }

  /** No cell of the contact's row holds a line break. */
  predicate SingleLineCells(contact: Contact, formatDate: int -> string) {
    forall k :: 0 <= k < 4 ==> '\n' !in RowCells(contact, formatDate)[k]
  }

  /**
   * When no cell holds a line break, splitting the content at `\n` gives
   * back the header line followed by exactly one line per contact, in
   * input order.
   */
  lemma ContentLines(contacts: seq<Contact>, formatDate: int -> string)
    requires forall k :: 0 <= k < |contacts| ==> SingleLineCells(contacts[k], formatDate)
    ensures Split(CsvContent(contacts, formatDate), '\n') == [HeaderLine()] + DataLines(contacts, formatDate)
  {
    LinesAreSingle(contacts, formatDate);
    SplitJoin([HeaderLine()] + DataLines(contacts, formatDate), '\n');
  }

  /** No line of the content holds a line break when no cell does. */
  lemma LinesAreSingle(contacts: seq<Contact>, formatDate: int -> string)
    requires forall k :: 0 <= k < |contacts| ==> SingleLineCells(contacts[k], formatDate)
    ensures forall k :: 0 <= k < |contacts| + 1 ==> '\n' !in ([HeaderLine()] + DataLines(contacts, formatDate))[k]
  {
    var lines := [HeaderLine()] + DataLines(contacts, formatDate);
    forall k | 0 <= k < |lines| ensures '\n' !in lines[k] {
      if k == 0 {
        HeaderIsOneLine();
      } else {
        assert lines[k] == DataLines(contacts, formatDate)[k - 1];
        DataLineIsOneLine(contacts[k - 1], formatDate);
      }
    }
  }


  /** The header line has no line break. */
  lemma HeaderIsOneLine()
    ensures '\n' !in HeaderLine()
  {
    JoinAvoids(HeaderCells, ',', '\n');
  }

  /** A line built from cells without line breaks has none. */
  lemma DataLineIsOneLine(contact: Contact, formatDate: int -> string)
    requires SingleLineCells(contact, formatDate)
    ensures '\n' !in DataLine(contact, formatDate)
  {
    var cells := RowCells(contact, formatDate);
    var quoted := QuotedCells(contact, formatDate);
    forall j | 0 <= j < |quoted| ensures '\n' !in quoted[j] {
      assert '\n' !in cells[j];
    }
    JoinAvoids(quoted, ',', '\n');
  }

  /** An empty contact list exports only the header line. */
  lemma EmptyExport(formatDate: int -> string)
    ensures CsvContent([], formatDate) == HeaderLine()
  {
    assert [HeaderLine()] + DataLines([], formatDate) == [HeaderLine()];
  }

  /**
   * Embedded double quotes are not doubled (section 2, rule 7 of RFC 4180
   * asks for `""`): the cell `a"b` is written `"a"b"`.
   */
  lemma QuotesNotDoubled(cell: string)
    requires cell == "a\"b"
    ensures Quote(cell) == "\"a\"b\""
  {
  }

  /** The download name: `${filename}_${formatDate(now)}.csv`, with `filename` defaulting to `contacts`. */
  function DownloadName(filename: Option<string>, now: int, formatDate: int -> string): (r: string)
    ensures StartsWith(r, filename.GetOr("contacts") + "_")
    ensures EndsWith(r, ".csv")
    ensures |r| == |filename.GetOr("contacts")| + |formatDate(now)| + 5
    ensures r[|filename.GetOr("contacts")| + 1..|r| - 4] == formatDate(now)
  {
    var name := filename.GetOr("contacts");
    var r := name + "_" + formatDate(now) + ".csv";
    assert r[..|name| + 1] == name + "_";
    assert r[|r| - 4..] == ".csv";
    assert r[|name| + 1..|r| - 4] == formatDate(now);
    r
  }
}
