/** `build_rows`: the table-row markup of the admin dashboard, and a decoder
    for it that shows the markup keeps every field of every booking. */
module Rows {
  import opened Text
  import opened Escape
  import opened Appointments

  /** The single row shown when nothing is booked. */
  const EMPTY_TABLE: string := "<tr><td colspan='7'>No appointments yet</td></tr>"

  /** One table cell holding an escaped value. */
  function Cell(value: string): string {
    "<td>" + HtmlEscape(value) + "</td>"
  }

  /** The concatenated cells of a list of values. */
  function Cells(values: seq<string>): string {
    if values == [] then "" else Cell(values[0]) + Cells(values[1..])
  }

  /** One table row: seven cells in the order patient name, age, gender,
      phone, doctor type, date, slot (the order of `Fields`). */
  function Row(a: Appointment): string {
    "<tr>" + Cells(Fields(a)) + "</tr>"
  }

  /** The rows of the bookings, in order. */
  function RowList(appts: seq<Appointment>): (rows: seq<string>)
    ensures |rows| == |appts|
    ensures forall k :: 0 <= k < |appts| ==> rows[k] == Row(appts[k])
  {
    if appts == [] then [] else [Row(appts[0])] + RowList(appts[1..])
  }

  /** What `build_rows(appts)` returns. */
  function RowsMarkup(appts: seq<Appointment>): string {
    if appts == [] then EMPTY_TABLE else Join(RowList(appts), "\n")
  }

  /** `build_rows`: one row per booking, collected in a list and joined
      with newlines; the fixed row for an empty store. */
  method BuildRows(appts: seq<Appointment>) returns (html: string)
    ensures html == RowsMarkup(appts)
    ensures appts == [] <==> html == EMPTY_TABLE
  {
    if appts == [] {
      return EMPTY_TABLE;
    }
    var rows: seq<string> := [];
    for i := 0 to |appts|
      invariant |rows| == i
      invariant forall k :: 0 <= k < i ==> rows[k] == Row(appts[k])
    {
      rows := rows + [Row(appts[i])];
    }
    assert rows == RowList(appts);
    html := Join(rows, "\n");
    DecodeRowsMarkup(appts);
    DecodeEmptyTable();
  }

  // ---- Reading the markup back ----

  /** Index of the first `<` of `s`, or `|s|` when there is none. */
  function UntilTag(s: string): (n: nat)
    ensures n <= |s|
    ensures forall k :: 0 <= k < n ==> s[k] != '<'
    ensures n == |s| || s[n] == '<'
  {
    if s == [] || s[0] == '<' then 0 else 1 + UntilTag(s[1..])
  }

  /** Reads one `<td>…</td>` cell; returns the decoded value and the rest. */
  function ParseCell(s: string): (res: Option<(string, string)>)
    ensures res.Some? ==> |res.value.1| < |s|
  {
    if !StartsWith(s, "<td>") then None
    else
      var body := s[4..];
      var n := UntilTag(body);
      var rest := body[n..];
      if !StartsWith(rest, "</td>") then None
      else Some((Unescape(body[..n]), rest[5..]))
  }

  /** Reads cells for as long as the text opens one. */
  function ParseCells(s: string): (res: Option<(seq<string>, string)>)
    ensures res.Some? ==> |res.value.1| <= |s|
    decreases |s|
  {
    if !StartsWith(s, "<td>") then Some(([], s))
    else
      match ParseCell(s)
      case None => None
      case Some((value, rest)) =>
        match ParseCells(rest)
        case None => None
        case Some((values, rest')) => Some(([value] + values, rest'))
  }

  /** Reads one `<tr>…</tr>` row of seven cells. */
  function ParseRow(s: string): (res: Option<(Appointment, string)>)
    ensures res.Some? ==> |res.value.1| < |s|
  {
    if !StartsWith(s, "<tr>") then None
    else
      match ParseCells(s[4..])
      case None => None
      case Some((values, rest)) =>
        if |values| != 7 || !StartsWith(rest, "</tr>") then None
        else Some((FromFields(values), rest[5..]))
  }

  /** Reads newline-separated rows up to the end of the text. */
  function ParseRows(s: string): Option<seq<Appointment>>
    decreases |s|
  {
    match ParseRow(s)
    case None => None
    case Some((a, rest)) =>
      if rest == [] then Some([a])
      else if rest[0] != '\n' then None
      else
        match ParseRows(rest[1..])
        case None => None
        case Some(more) => Some([a] + more)
  }

  /** Decodes the dashboard's row markup into the bookings it shows. */
  function DecodeTable(html: string): Option<seq<Appointment>> {
    if html == EMPTY_TABLE then Some([]) else ParseRows(html)
  }

  /** The first `<` of `e + t` is the one opening `t` when `e` has none. */
  lemma {:induction false} UntilTagAt(e: string, t: string)
    requires forall k :: 0 <= k < |e| ==> e[k] != '<'
    requires t != [] && t[0] == '<'
    ensures UntilTag(e + t) == |e|
  {
    if e != [] {
      assert (e + t)[1..] == e[1..] + t;
      UntilTagAt(e[1..], t);
    }
  }

  /** Where `ParseCell` cuts a cell whose text has no `<`. */
  lemma CellCuts(e: string, rest: string)
    requires forall k :: 0 <= k < |e| ==> e[k] != '<'
    ensures var s := "<td>" + e + "</td>" + rest;
      && StartsWith(s, "<td>")
      && UntilTag(s[4..]) == |e|
      && s[4..][..|e|] == e
      && StartsWith(s[4..][|e|..], "</td>")
      && s[4..][|e|..][5..] == rest
  {
    var close := "</td>" + rest;
    var s := "<td>" + e + "</td>" + rest;
    assert s == "<td>" + (e + close);
    assert s[..4] == "<td>";
    var body := s[4..];
    assert body == e + close;
    UntilTagAt(e, close);
    assert body[..|e|] == e;
    assert body[|e|..] == close;
    assert close[..5] == "</td>";
  }

  /** A cell whose text has no `<` reads back as the decoded text. */
  lemma ParseCellText(e: string, value: string, rest: string)
    requires forall k :: 0 <= k < |e| ==> e[k] != '<'
    requires Unescape(e) == value
    ensures ParseCell("<td>" + e + "</td>" + rest) == Some((value, rest))
  {
    CellCuts(e, rest);
  }

  /** A cell reads back as the value it escapes. */
  lemma ParseCellOf(value: string, rest: string)
    ensures ParseCell(Cell(value) + rest) == Some((value, rest))
  {
    HtmlEscapeSafe(value);
    HtmlEscapeRoundTrip(value);
    ParseCellText(HtmlEscape(value), value, rest);
  }

  lemma CellOpens(value: string, rest: string)
    ensures StartsWith(Cell(value) + rest, "<td>")
  {
    assert Cell(value) + rest == "<td>" + (HtmlEscape(value) + "</td>" + rest);
  }

  lemma {:induction false} ParseCellsOf(values: seq<string>, rest: string)
    requires !StartsWith(rest, "<td>")
    ensures ParseCells(Cells(values) + rest) == Some((values, rest))
    decreases |values|
  {
    if values == [] {
      assert Cells(values) + rest == rest;
    } else {
      var tail := Cells(values[1..]) + rest;
      assert Cells(values) + rest == Cell(values[0]) + tail;
      CellOpens(values[0], tail);
      ParseCellOf(values[0], tail);
      ParseCellsOf(values[1..], rest);
      assert [values[0]] + values[1..] == values;
    }
  }

  /** A row reads back as its booking, whatever follows it. */
  lemma ParseRowOf(a: Appointment, rest: string)
    ensures ParseRow(Row(a) + rest) == Some((a, rest))
  {
    var cells := Cells(Fields(a));
    var close := "</tr>" + rest;
    var s := Row(a) + rest;
    assert s[..4] == "<tr>";
    assert s[4..] == cells + close;
    DiffersAt(close, "<td>", 1);
    ParseCellsOf(Fields(a), close);
    assert close[..5] == "</tr>";
    assert close[5..] == rest;
  }

  /** The markup of two or more bookings is the first row, a newline and
      the markup of the rest. */
  lemma RowsMarkupCons(appts: seq<Appointment>)
    requires |appts| > 1
    ensures RowsMarkup(appts) == Row(appts[0]) + "\n" + RowsMarkup(appts[1..])
  {
    assert RowList(appts)[1..] == RowList(appts[1..]);
  }

  lemma RowsMarkupOne(a: Appointment)
    ensures RowsMarkup([a]) == Row(a)
  {
  }

  /** A row, a newline and decodable rows decode to one booking more. */
  lemma ParseRowsCons(a: Appointment, more: string)
    requires ParseRows(more).Some?
    ensures ParseRows(Row(a) + "\n" + more) == Some([a] + ParseRows(more).value)
  {
    var rest := "\n" + more;
    assert Row(a) + "\n" + more == Row(a) + rest;
    ParseRowOf(a, rest);
    assert rest[1..] == more;
  }

  /** The joined rows of a non-empty store read back as the store. */
  lemma {:induction false} ParseRowsOf(appts: seq<Appointment>)
    requires appts != []
    ensures ParseRows(RowsMarkup(appts)) == Some(appts)
    decreases |appts|
  {
    if |appts| == 1 {
      assert appts == [appts[0]];
      RowsMarkupOne(appts[0]);
      ParseRowOf(appts[0], "");
      assert Row(appts[0]) + "" == Row(appts[0]);
    } else {
      RowsMarkupCons(appts);
      ParseRowsOf(appts[1..]);
      ParseRowsCons(appts[0], RowsMarkup(appts[1..]));
      assert [appts[0]] + appts[1..] == appts;
    }
  }

  /** The fixed empty-table row is not the markup of any booking. */
  lemma DecodeEmptyTable()
    ensures ParseRows(EMPTY_TABLE) == None
  {
    var body := EMPTY_TABLE[4..];
    assert body[3] == ' ';
    assert !StartsWith(body, "<td>");
  }

  /** The dashboard's row markup determines the store: decoding gives back
      every booking, every field, in order. */
  lemma DecodeRowsMarkup(appts: seq<Appointment>)
    ensures DecodeTable(RowsMarkup(appts)) == Some(appts)
  {
    if appts != [] {
      ParseRowsOf(appts);
      DecodeEmptyTable();
    }
  }
}
