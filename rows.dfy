/**
 The rows `write_quotes_to_csv` hands to the CSV writer (app/parse.py:16, 52-56):
 a header naming the fields of Quote in declaration order, then one row per quote.
 The byte-level CSV encoding is not modelled; a cell is a string or, for `tags`,
 the list of strings itself.
 */
module Rows {
  import opened Wrappers
  import opened Quotes

  /** One value handed to the CSV writer. */
  datatype Cell = Text(s: string) | Items(items: seq<string>)

  type Row = seq<Cell>

  /** `QUOTES_FIELDS`: the names of the fields of Quote, in declaration order. */
  const QuoteFields: seq<string> := ["text", "author", "tags"]

  /** `getattr(quote, name)` for a field name; None for a name Quote does not have. */
  function FieldValue(q: Quote, name: string): Option<Cell> {
    if name == "text" then Some(Text(q.text))
    else if name == "author" then Some(Text(q.author))
    else if name == "tags" then Some(Items(q.tags))
    else None
  }

  /** `astuple(quote)`: the row's i-th cell is the value of the field the header names i-th. */
  function AsTuple(q: Quote): (row: Row)
    ensures |row| == |QuoteFields|
    ensures forall i :: 0 <= i < |row| ==> FieldValue(q, QuoteFields[i]) == Some(row[i])
  {
    [Text(q.text), Text(q.author), Items(q.tags)]
  }

  /** The header row `writer.writerow(QUOTES_FIELDS)`. */
  function HeaderRow(): Row {
    [Text(QuoteFields[0]), Text(QuoteFields[1]), Text(QuoteFields[2])]
  }

  /** `[astuple(quote) for quote in quotes]`. */
  function TupleRows(quotes: seq<Quote>): (rows: seq<Row>)
    ensures |rows| == |quotes|
  {
    if quotes == [] then [] else [AsTuple(quotes[0])] + TupleRows(quotes[1..])
  }

  /** Everything written to the file, row by row. */
  function CsvRows(quotes: seq<Quote>): (rows: seq<Row>)
    ensures |rows| == |quotes| + 1 && rows[0] == HeaderRow()
  {
    [HeaderRow()] + TupleRows(quotes)
  }

  /** The layout: the header first, then the i-th quote's fields in header order on row i + 1. */
  lemma {:induction false} CsvRowsLayout(quotes: seq<Quote>)
    ensures |CsvRows(quotes)| == |quotes| + 1
    ensures CsvRows(quotes)[0] == HeaderRow()
    ensures forall i :: 0 <= i < |quotes| ==>
              CsvRows(quotes)[i + 1] == [Text(quotes[i].text), Text(quotes[i].author), Items(quotes[i].tags)]
  {
    TupleRowsAt(quotes);
  }

  lemma {:induction false} TupleRowsAt(quotes: seq<Quote>)
    ensures forall i :: 0 <= i < |quotes| ==> TupleRows(quotes)[i] == AsTuple(quotes[i])
  {
    if quotes != [] {
      TupleRowsAt(quotes[1..]);
      assert forall i :: 1 <= i < |quotes| ==> quotes[i] == quotes[1..][i - 1];
    }
  }

  /** Reads a data row back as a quote; None unless it has the shape `astuple` produces. */
  function FromTuple(row: Row): Option<Quote> {
    if |row| == 3 && row[0].Text? && row[1].Text? && row[2].Items? then
      Some(Quote(row[0].s, row[1].s, row[2].items))
    else None
  }

  function FromTuples(rows: seq<Row>): Option<seq<Quote>> {
    if rows == [] then Some([])
    else match (FromTuple(rows[0]), FromTuples(rows[1..]))
      case (Some(q), Some(qs)) => Some([q] + qs)
      case _ => None
  }

  /** Reads written rows back: the header, then one quote per row. */
  function ReadRows(rows: seq<Row>): Option<seq<Quote>> {
    if rows == [] || rows[0] != HeaderRow() then None else FromTuples(rows[1..])
  }

  /** Reading back the rows written for any quotes gives the same quotes, field by field and in order. */
  lemma {:induction false} CsvRowsRoundTrip(quotes: seq<Quote>)
    ensures ReadRows(CsvRows(quotes)) == Some(quotes)
  {
    var rows := CsvRows(quotes);
    assert rows[1..] == TupleRows(quotes);
    TupleRowsRoundTrip(quotes);
  }

  lemma {:induction false} TupleRowsRoundTrip(quotes: seq<Quote>)
    ensures FromTuples(TupleRows(quotes)) == Some(quotes)
  {
    if quotes != [] {
      var rows := TupleRows(quotes);
      assert rows[0] == AsTuple(quotes[0]);
      assert rows[1..] == TupleRows(quotes[1..]);
      TupleRowsRoundTrip(quotes[1..]);
      assert [quotes[0]] + quotes[1..] == quotes;
    }
  }
}
