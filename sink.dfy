/**
 * `write_to_csv` (medium_scraper.py): appends one article record to a CSV
 * file as a row, writing the header row first when the file does not exist.
 */
module Sink {
  import opened Wrappers
  import opened PyText
  import opened Extractor

  /** One CSV row, as the list of its cells' texts. */
  type Row = seq<string>

  /** The header, and the order of every row's cells. */
  const Fieldnames: seq<string> :=
    ["title", "subtitle", "tags", "title_character", "image_count", "duration", "success"]

  /** The cell the csv module writes for None or a string: None becomes "". */
  function OptionalText(v: Option<string>): string {
    match v
    case None => ""
    case Some(s) => s
  }

  /** The record as the dictionary handed to `writerow`, each value as the text the csv module writes. */
  function AsDict(r: ArticleRecord): map<string, string> {
    map[
      "title" := OptionalText(r.title),
      "subtitle" := OptionalText(r.subtitle),
      "tags" := ListRepr(r.tags),
      "title_character" := Decimal(r.titleCharacter),
      "image_count" := Decimal(r.imageCount),
      "duration" := Decimal(r.duration),
      "success" := Decimal(r.success)]
  }

  /** `csv.DictWriter(file, fieldnames=fields).writerow(d)`: d's values in the order of the field names. */
  function DictRow(d: map<string, string>, fields: seq<string>): (row: Row)
    requires forall f :: f in fields ==> f in d
    ensures |row| == |fields|
    ensures forall i :: 0 <= i < |fields| ==> row[i] == d[fields[i]]
  {
    seq(|fields|, i requires 0 <= i < |fields| => d[fields[i]])
  }

  /** The row `write_to_csv` appends for a record: its fields in the order title, subtitle, tags, title_character, image_count, duration, success. */
  function RecordRow(r: ArticleRecord): (row: Row)
    ensures row == [OptionalText(r.title), OptionalText(r.subtitle), ListRepr(r.tags),
                    Decimal(r.titleCharacter), Decimal(r.imageCount), Decimal(r.duration),
                    Decimal(r.success)]
  {
    DictRow(AsDict(r), Fieldnames)
  }

  /** A CSV file: None while it does not exist, else its rows in order. */
  class CsvFile {
    var content: Option<seq<Row>>
    /** Whether opening the file for appending succeeds. */
    const writable: bool

    constructor (content: Option<seq<Row>>, writable: bool)
      ensures this.content == content && this.writable == writable
    {
      this.content := content;
      this.writable := writable;
    }
  }

  /**
   * The file after one `write_to_csv`: a new file gets the header and the
   * row, an existing one gets the row; a file that cannot be opened is left
   * as it was (the error is printed and swallowed).
   */
  function AfterWrite(content: Option<seq<Row>>, writable: bool, r: ArticleRecord): Option<seq<Row>> {
    if !writable then content
    else
      match content
      case None => Some([Fieldnames, RecordRow(r)])
      case Some(rows) => Some(rows + [RecordRow(r)])
  }

  /** `write_to_csv(data, file_path)`. */
  method WriteToCsv(data: ArticleRecord, file: CsvFile)
    modifies file
    ensures file.writable && old(file.content).None? ==> file.content == Some([Fieldnames, RecordRow(data)])
    ensures file.writable && old(file.content).Some? ==> file.content == Some(old(file.content).value + [RecordRow(data)])
    ensures !file.writable ==> file.content == old(file.content)
    ensures file.content == AfterWrite(old(file.content), file.writable, data)
  {
    var writeHeaders := file.content.None?;
    if !file.writable {
      return;
    }
    var rows := if writeHeaders then [Fieldnames] else file.content.value;
    file.content := Some(rows + [RecordRow(data)]);
    assert writeHeaders ==> rows + [RecordRow(data)] == [Fieldnames, RecordRow(data)];
  }

  /** The file after writing each record in turn. */
  function WriteAll(content: Option<seq<Row>>, writable: bool, recs: seq<ArticleRecord>): Option<seq<Row>> {
    if recs == [] then content
    else AfterWrite(WriteAll(content, writable, recs[..|recs| - 1]), writable, recs[|recs| - 1])
  }

  function Rows(recs: seq<ArticleRecord>): (rows: seq<Row>)
    ensures |rows| == |recs|
    ensures forall i :: 0 <= i < |recs| ==> rows[i] == RecordRow(recs[i])
  {
    seq(|recs|, i requires 0 <= i < |recs| => RecordRow(recs[i]))
  }

  // ---------------------------------------------------------------------------
  // Properties

  /** The numeric cells read back as the record's numbers; the title cell is empty exactly for a falsy title. */
  lemma RecordRowReadsBack(r: ArticleRecord)
    ensures var row := RecordRow(r);
            AllDigits(row[3]) && DigitsValue(row[3]) == r.titleCharacter
            && AllDigits(row[4]) && DigitsValue(row[4]) == r.imageCount
            && AllDigits(row[5]) && DigitsValue(row[5]) == r.duration
            && AllDigits(row[6]) && DigitsValue(row[6]) == r.success
            && (row[0] == "" <==> !Truthy(r.title))
  {
    DecimalRoundTrip(r.titleCharacter);
    DecimalRoundTrip(r.imageCount);
    DecimalRoundTrip(r.duration);
    DecimalRoundTrip(r.success);
  }

  /** No data row can be mistaken for the header: its tags cell begins with '['. */
  lemma RecordRowIsNotHeader(r: ArticleRecord)
    ensures RecordRow(r) != Fieldnames
  {
    assert RecordRow(r)[2][0] == '[';
    assert Fieldnames[2][0] == 't';
  }

  /** Appending to an existing file adds one row per record after the earlier rows, which stay as they were. */
  lemma {:induction false} WriteAllExisting(rows: seq<Row>, recs: seq<ArticleRecord>)
    ensures WriteAll(Some(rows), true, recs) == Some(rows + Rows(recs))
  {
    if recs != [] {
      var front := recs[..|recs| - 1];
      WriteAllExisting(rows, front);
      assert Rows(recs) == Rows(front) + [RecordRow(recs[|recs| - 1])];
      assert rows + Rows(recs) == (rows + Rows(front)) + [RecordRow(recs[|recs| - 1])];
    } else {
      assert rows + Rows(recs) == rows;
    }
  }

  /** Writing records to a new file gives the header once, then one row per record. */
  lemma {:induction false} WriteAllFresh(recs: seq<ArticleRecord>)
    requires recs != []
    ensures WriteAll(None, true, recs) == Some([Fieldnames] + Rows(recs))
  {
    var front := recs[..|recs| - 1];
    var last := RecordRow(recs[|recs| - 1]);
    if front == [] {
      assert WriteAll(None, true, front) == None;
      assert WriteAll(None, true, recs) == Some([Fieldnames, last]);
      assert Rows(recs) == [last];
      assert [Fieldnames] + Rows(recs) == [Fieldnames, last];
    } else {
      WriteAllFresh(front);
      assert Rows(recs) == Rows(front) + [last];
      assert [Fieldnames] + Rows(recs) == ([Fieldnames] + Rows(front)) + [last];
    }
  }

  /** A file that cannot be opened never changes. */
  lemma {:induction false} WriteAllUnwritable(content: Option<seq<Row>>, recs: seq<ArticleRecord>)
    ensures WriteAll(content, false, recs) == content
  {
    if recs != [] {
      WriteAllUnwritable(content, recs[..|recs| - 1]);
    }
  }

  /** In a file the sink created, the header is the first row and no other row is a header. */
  lemma HeaderWrittenOnce(recs: seq<ArticleRecord>)
    requires recs != []
    ensures var rows := WriteAll(None, true, recs).value;
            |rows| == |recs| + 1 && rows[0] == Fieldnames
            && forall i :: 1 <= i < |rows| ==> rows[i] != Fieldnames
  {
    WriteAllFresh(recs);
    forall i | 0 <= i < |recs| {
      RecordRowIsNotHeader(recs[i]);
    }
  }
}
