/** The micro:bit communicator widget: turns an incoming table into text
    and sends it over the link, or leaves it in the send box. */
module MicrobitWidget {
  import opened Wrappers
  import opened Text
  import opened SerialLink
  import opened OrangeTable
  import Microbit

  /** A cell value survives extraction unless it is the missing-value text
      "?" or empty. */
  predicate Kept(v: string) {
    v != "?" && v != ""
  }

  predicate InRange(positions: seq<nat>, width: nat) {
    forall j :: 0 <= j < |positions| ==> positions[j] < width
  }

  /** The cell at `k`; a position past the row (which a well-formed table
      never has) reads as empty. */
  function CellAt(cells: seq<string>, k: nat): string {
    if k < |cells| then cells[k] else ""
  }

  /** The surviving values of one row's string cells, in domain order. */
  function RowTexts(cells: seq<string>, positions: seq<nat>): (r: seq<string>)
    ensures forall j :: 0 <= j < |r| ==> Kept(r[j])
    ensures |r| <= |positions|
  {
    if positions == [] then []
    else
      var n := |positions| - 1;
      var v := CellAt(cells, positions[n]);
      RowTexts(cells, positions[..n]) + (if Kept(v) then [v] else [])
  }

  /** A value is extracted from a row exactly when it survives and sits in
      one of the string cells. */
  lemma {:induction false} RowTextsMembers(cells: seq<string>, positions: seq<nat>, v: string)
    ensures v in RowTexts(cells, positions) <==>
      Kept(v) && exists j :: 0 <= j < |positions| && CellAt(cells, positions[j]) == v
  {
    if positions != [] {
      var n := |positions| - 1;
      RowTextsMembers(cells, positions[..n], v);
      if v in RowTexts(cells, positions) && v !in RowTexts(cells, positions[..n]) {
        assert CellAt(cells, positions[n]) == v;
      }
      if Kept(v) && CellAt(cells, positions[n]) != v
         && (exists j :: 0 <= j < |positions| && CellAt(cells, positions[j]) == v) {
        var j :| 0 <= j < |positions| && CellAt(cells, positions[j]) == v;
        assert positions[..n][j] == positions[j];
      }
    }
  }

  /** `text_content`: one line per row that has a surviving value, its
      values joined by single spaces. */
  function RowLines(positions: seq<nat>, rows: seq<Row>): (r: seq<string>)
    ensures |r| <= |rows|
  {
    if rows == [] then []
    else
      var n := |rows| - 1;
      var texts := RowTexts(Cells(rows[n]), positions);
      RowLines(positions, rows[..n]) + (if texts != [] then [Join(" ", texts)] else [])
  }

  /** In a well-formed table every string position is a cell of row `i`. */
  lemma RowInRange(t: Table, i: nat)
    requires WellFormed(t) && i < |t.rows|
    ensures |Cells(t.rows[i])| == |AllVars(t)|
    ensures InRange(StringPositions(AllVars(t)), |Cells(t.rows[i])|)
  {
    assert t.rows[i] in t.rows;
  }

  /** The text `set_text_data` extracts from a table: its lines joined by
      line feeds. */
  function ExtractedText(t: Table): string {
    Join("\n", RowLines(StringPositions(AllVars(t)), t.rows))
  }

  /** A join of parts whose first part is non-empty is non-empty. */
  lemma JoinNonEmpty(sep: string, parts: seq<string>)
    requires parts != [] && parts[0] != []
    ensures Join(sep, parts) != []
  {
    if |parts| > 1 {
      assert Join(sep, parts)[0] == parts[0][0];
    }
  }

  /** Every line of `text_content` is non-empty. */
  lemma {:induction false} RowLinesNonEmpty(positions: seq<nat>, rows: seq<Row>)
    ensures forall i :: 0 <= i < |RowLines(positions, rows)| ==> RowLines(positions, rows)[i] != []
  {
    if rows != [] {
      var n := |rows| - 1;
      RowLinesNonEmpty(positions, rows[..n]);
      var texts := RowTexts(Cells(rows[n]), positions);
      if texts != [] {
        JoinNonEmpty(" ", texts);
      }
    }
  }

  /** No row has a surviving string value. */
  predicate Silent(positions: seq<nat>, rows: seq<Row>) {
    forall i :: 0 <= i < |rows| ==> RowTexts(Cells(rows[i]), positions) == []
  }

  /** A row list is silent exactly when its front is and its last row is. */
  lemma SilentSnoc(positions: seq<nat>, rows: seq<Row>)
    requires rows != []
    ensures Silent(positions, rows) <==>
      Silent(positions, rows[..|rows| - 1]) && RowTexts(Cells(rows[|rows| - 1]), positions) == []
  {
    var n := |rows| - 1;
    var init := rows[..n];
    if Silent(positions, init) && RowTexts(Cells(rows[n]), positions) == [] {
      forall i | 0 <= i < |rows|
        ensures RowTexts(Cells(rows[i]), positions) == []
      {
        if i < n {
          assert init[i] == rows[i];
        }
      }
    }
    if Silent(positions, rows) {
      forall i | 0 <= i < n
        ensures RowTexts(Cells(init[i]), positions) == []
      {
        assert init[i] == rows[i];
      }
    }
  }

  /** No line comes out exactly when no row has a surviving string value. */
  lemma {:induction false} RowLinesEmpty(positions: seq<nat>, rows: seq<Row>)
    ensures RowLines(positions, rows) == [] <==> Silent(positions, rows)
  {
    if rows != [] {
      var n := |rows| - 1;
      RowLinesEmpty(positions, rows[..n]);
      SilentSnoc(positions, rows);
    }
  }

  /** A row yields no value exactly when each of its string cells is "?"
      or empty. */
  lemma RowTextsEmpty(cells: seq<string>, vars: seq<Variable>)
    requires |cells| == |vars|
    ensures RowTexts(cells, StringPositions(vars)) == [] <==>
      forall k :: 0 <= k < |vars| && vars[k].isString ==> !Kept(cells[k])
  {
    var positions := StringPositions(vars);
    if RowTexts(cells, positions) != [] {
      var v := RowTexts(cells, positions)[0];
      RowTextsMembers(cells, positions, v);
    } else {
      forall k | 0 <= k < |vars| && vars[k].isString
        ensures !Kept(cells[k])
      {
        StringPositionListed(vars, k);
        var j :| 0 <= j < |positions| && positions[j] == k;
        RowTextsMembers(cells, positions, cells[k]);
      }
    }
  }

  /** The extracted text is empty exactly when every string cell of every
      row is "?" or empty (in particular when there are no string
      variables or no rows). */
  lemma ExtractedEmpty(t: Table)
    requires WellFormed(t)
    ensures ExtractedText(t) == [] <==>
      forall i, k :: 0 <= i < |t.rows| && 0 <= k < |AllVars(t)| && AllVars(t)[k].isString ==>
        !Kept(Cells(t.rows[i])[k])
  {
    var vars := AllVars(t);
    var positions := StringPositions(vars);
    var lines := RowLines(positions, t.rows);
    RowLinesNonEmpty(positions, t.rows);
    RowLinesEmpty(positions, t.rows);
    if lines != [] {
      JoinNonEmpty("\n", lines);
    }
    forall i | 0 <= i < |t.rows|
      ensures RowTexts(Cells(t.rows[i]), positions) == [] <==>
        forall k :: 0 <= k < |vars| && vars[k].isString ==> !Kept(Cells(t.rows[i])[k])
    {
      RowInRange(t, i);
      RowTextsEmpty(Cells(t.rows[i]), vars);
    }
  }

  /** The inner loop of `set_text_data`: the surviving values of one row. */
  method CollectRowTexts(cells: seq<string>, positions: seq<nat>) returns (rowTexts: seq<string>)
    requires InRange(positions, |cells|)
    ensures rowTexts == RowTexts(cells, positions)
  {
    rowTexts := [];
    for j := 0 to |positions|
      invariant rowTexts == RowTexts(cells, positions[..j])
    {
      assert positions[..j + 1][..j] == positions[..j];
      var value := cells[positions[j]];
      if value != "?" && value != "" {
        rowTexts := rowTexts + [value];
      }
    }
    assert positions[..|positions|] == positions;
  }

  /** One more row adds its line, if it has one. */
  lemma RowLinesPrefix(positions: seq<nat>, rows: seq<Row>, i: nat)
    requires i < |rows|
    ensures RowLines(positions, rows[..i + 1]) == RowLines(positions, rows[..i]) +
      (if RowTexts(Cells(rows[i]), positions) != [] then [Join(" ", RowTexts(Cells(rows[i]), positions))] else [])
  {
    assert rows[..i + 1][..i] == rows[..i];
  }

  /** The nested loops of `set_text_data` over the string variables'
      positions: builds `text_content`. */
  method CollectLines(t: Table, positions: seq<nat>) returns (textContent: seq<string>)
    requires WellFormed(t) && positions == StringPositions(AllVars(t))
    ensures textContent == RowLines(positions, t.rows)
  {
    textContent := [];
    for i := 0 to |t.rows|
      invariant textContent == RowLines(positions, t.rows[..i])
    {
      RowInRange(t, i);
      var rowTexts := CollectRowTexts(Cells(t.rows[i]), positions);
      RowLinesPrefix(positions, t.rows, i);
      if rowTexts != [] {
        textContent := textContent + [Join(" ", rowTexts)];
      }
    }
    assert t.rows[..|t.rows|] == t.rows;
  }

  /** The log line of one `send_text_to_microbit` call. */
  function SendLog(text: string, connected: bool, writeError: Option<string>): string {
    if text == [] then "No text to send."
    else if !connected then "Port not connected."
    else if writeError.None? then "Sent: " + text
    else "Send failed"
  }

  /** The log line explaining why a table gave no text, if it gave none. */
  function ExtractNote(t: Table): seq<string> {
    if ExtractedText(t) != [] then []
    else if StringPositions(AllVars(t)) == [] then ["No String variables in input table."]
    else ["String variables exist but no valid text."]
  }

  /** The log lines of presenting the extracted text. */
  function PresentLog(text: string, autoSend: bool, connected: bool, writeError: Option<string>): seq<string> {
    if text == [] then ["No text extracted from input."]
    else ["Received input data: " + text] + (if autoSend then [SendLog(text, connected, writeError)] else [])
  }

  /** Whether an input reaches `send_text`: a table with text, auto-send
      on, over an open link. */
  predicate Sends(input: Input, autoSend: bool, connected: bool) {
    input.TableValue? && ExtractedText(input.table) != [] && autoSend && connected
  }

  /** The widget's state: the last input table, the send box, the auto-send
      check box and the log box, over the process-wide link. */
  class Widget {
    var textData: Option<Table>
    var sendBox: string
    var autoSend: bool
    var log: seq<string>
    const link: Link

    /** A fresh widget: no data, an empty send box, auto-send on. */
    constructor (link: Link)
      ensures this.link == link
      ensures textData == None && sendBox == [] && autoSend && log == []
    {
      this.link := link;
      textData := None;
      sendBox := [];
      autoSend := true;
      log := [];
    }

    /** `send_text_to_microbit(text)`: sends only non-empty text over an
        open link, with one `send_text` call; every outcome is logged. */
    method SendTextToMicrobit(text: string, writeError: Option<string>)
      modifies this, link.conn
      ensures log == old(log) + [SendLog(text, old(link.IsConnected()), writeError)]
      ensures textData == old(textData) && sendBox == old(sendBox) && autoSend == old(autoSend)
      ensures (text == [] || !old(link.IsConnected())) && link.conn != null ==> unchanged(link.conn)
      ensures text != [] && old(link.IsConnected()) ==> (link.conn.isOpen && link.conn.input == []
        && link.conn.output == old(link.conn.output) + (if writeError.None? then Microbit.Framed(text) else []))
    {
      if text == [] {
        log := log + ["No text to send."];
        return;
      }
      if !link.IsConnected() {
        log := log + ["Port not connected."];
        return;
      }
      var success := Microbit.SendText(link, text, writeError);
      if success {
        log := log + ["Sent: " + text];
      } else {
        log := log + ["Send failed"];
      }
    }

    /** `set_text_data(data)`. */
    method SetTextData(input: Input, writeError: Option<string>)
      requires input.TableValue? ==> WellFormed(input.table)
      modifies this, link.conn
      ensures autoSend == old(autoSend)
      ensures input.NoInput? ==> (textData == None && log == old(log) + ["Input data is None."]
        && sendBox == (if autoSend then old(sendBox) else []))
      ensures input.NotATable? ==> (textData == old(textData) && sendBox == old(sendBox)
        && log == old(log) + ["Unexpected data type: " + input.typeName])
      ensures !Sends(input, autoSend, old(link.IsConnected())) && link.conn != null ==> unchanged(link.conn)
      ensures input.TableValue? ==> (
        var text := ExtractedText(input.table);
        && textData == Some(input.table)
        && sendBox == (if autoSend then old(sendBox) else text)
        && log == old(log) + ExtractNote(input.table) + PresentLog(text, autoSend, old(link.IsConnected()), writeError)
        && (Sends(input, autoSend, old(link.IsConnected())) ==>
              link.conn.isOpen && link.conn.input == []
              && link.conn.output == old(link.conn.output) + (if writeError.None? then Microbit.Framed(text) else [])))
    {
      if input.NoInput? {
        log := log + ["Input data is None."];
        textData := None;
        if !autoSend {
          sendBox := [];
        }
        return;
      }
      if input.NotATable? {
        log := log + ["Unexpected data type: " + input.typeName];
        return;
      }
      var data := input.table;
      textData := Some(data);
      var text, note := ExtractText(data);
      log := log + note;
      Present(text, writeError);
    }

    /** The end of `set_text_data` for a table: non-empty text is sent when
        auto-send is on and put in the send box otherwise; empty text
        clears the box only when auto-send is off. */
    method Present(text: string, writeError: Option<string>)
      modifies this, link.conn
      ensures textData == old(textData) && autoSend == old(autoSend)
      ensures sendBox == (if autoSend then old(sendBox) else text)
      ensures log == old(log) + PresentLog(text, autoSend, old(link.IsConnected()), writeError)
      ensures !(text != [] && autoSend && old(link.IsConnected())) && link.conn != null ==> unchanged(link.conn)
      ensures text != [] && autoSend && old(link.IsConnected()) ==>
        link.conn.isOpen && link.conn.input == []
        && link.conn.output == old(link.conn.output) + (if writeError.None? then Microbit.Framed(text) else [])
    {
      if text != [] {
        log := log + ["Received input data: " + text];
        if autoSend {
          SendTextToMicrobit(text, writeError);
        } else {
          sendBox := text;
        }
      } else {
        log := log + ["No text extracted from input."];
        if !autoSend {
          sendBox := [];
        }
      }
    }

    /** The send button: strips the box's text, then sends it. Stripping
        twice is harmless, so what goes on the wire is the box's text
        framed as `send_text` frames it; a blank box sends nothing. */
    method SendToMicrobit(writeError: Option<string>)
      modifies this, link.conn
      ensures log == old(log) + [SendLog(Strip(sendBox), old(link.IsConnected()), writeError)]
      ensures textData == old(textData) && sendBox == old(sendBox) && autoSend == old(autoSend)
      ensures (Strip(sendBox) == [] || !old(link.IsConnected())) && link.conn != null ==> unchanged(link.conn)
      ensures Strip(sendBox) != [] && old(link.IsConnected()) ==>
        link.conn.isOpen && link.conn.input == []
        && link.conn.output == old(link.conn.output) + (if writeError.None? then Microbit.Framed(sendBox) else [])
    {
      var text := Strip(sendBox);
      StripIdempotent(sendBox);
      SendTextToMicrobit(text, writeError);
    }
  }

  /** The extraction part of `set_text_data`: the text, and the log line
      explaining an empty result. */
  method ExtractText(data: Table) returns (text: string, note: seq<string>)
    requires WellFormed(data)
    ensures text == ExtractedText(data)
    ensures note == ExtractNote(data)
  {
    text := [];
    note := [];
    var positions := StringPositions(AllVars(data));
    if positions != [] {
      var textContent := CollectLines(data, positions);
      if textContent != [] {
        text := Join("\n", textContent);
      } else {
        note := ["String variables exist but no valid text."];
      }
    } else {
      note := ["No String variables in input table."];
    }
    TextIsExtracted(data, positions, text);
  }

  /** Whichever branch `set_text_data` takes, the text it goes on with is
      the extracted text. */
  lemma TextIsExtracted(data: Table, positions: seq<nat>, text: string)
    requires positions == StringPositions(AllVars(data))
    requires positions == [] ==> text == []
    requires positions != [] ==>
      var lines := RowLines(positions, data.rows);
      text == (if lines != [] then Join("\n", lines) else [])
    ensures text == ExtractedText(data)
    ensures positions != [] && RowLines(positions, data.rows) != [] ==> text != []
  {
    var lines := RowLines(positions, data.rows);
    RowLinesNonEmpty(positions, data.rows);
    if lines != [] {
      JoinNonEmpty("\n", lines);
    }
    if positions == [] {
      RowLinesEmpty(positions, data.rows);
      assert lines == [];
    }
  }
}
