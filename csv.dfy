/**
 * The browser's CSV reader (script.js, nutrition.js, comparison.js): the
 * quote-aware line splitter and the two variants of `parseCSV`.
 *
 * The splitter is a simplified form of section 2 of RFC 4180: a double quote
 * only toggles the "inside quotes" state and is dropped, so a doubled quote is
 * not an escaped quote character.
 */
module Csv {
  import opened Text
  import opened Lists

  predicate IsQuote(c: char) {
    c == '"'
  }

  predicate IsComma(c: char) {
    c == ','
  }

  predicate IsNewline(c: char) {
    c == '\n'
  }

  predicate NotQuote(c: char) {
    c != '"'
  }

  /** `s.replace(/"/g, '')`: the text with every double quote removed. */
  function RemoveQuotes(s: string): (r: string)
    ensures forall j :: 0 <= j < |r| ==> r[j] != '"'
    decreases |s|
  {
    if s == [] then []
    else RemoveQuotes(s[..|s| - 1]) + (if s[|s| - 1] == '"' then [] else [s[|s| - 1]])
  }

  /** Removing quotes is filtering the characters that are not quotes. */
  lemma {:induction false} RemoveQuotesIsFilter(s: string)
    ensures RemoveQuotes(s) == Filter(s, NotQuote)
    decreases |s|
  {
    if s != [] {
      RemoveQuotesIsFilter(s[..|s| - 1]);
    }
  }

  /** A text without quotes is its own quote-free form. */
  lemma {:induction false} RemoveQuotesNoQuotes(s: string)
    requires forall j :: 0 <= j < |s| ==> s[j] != '"'
    ensures RemoveQuotes(s) == s
    decreases |s|
  {
    if s != [] {
      RemoveQuotesNoQuotes(s[..|s| - 1]);
      assert s[..|s| - 1] + [s[|s| - 1]] == s;
    }
  }

  // ---------------------------------------------------------------------------
  // parseCSVLine.

  /** The loop state of `parseCSVLine`: the finished fields, the field being read and the quote flag. */
  datatype ScanState = ScanState(values: seq<string>, current: string, inQuotes: bool)

  /** One iteration: a quote toggles the flag, a comma outside quotes ends the field, anything else is kept. */
  function StepChar(st: ScanState, c: char): ScanState {
    if c == '"' then st.(inQuotes := !st.inQuotes)
    else if c == ',' && !st.inQuotes then ScanState(st.values + [st.current], "", st.inQuotes)
    else st.(current := st.current + [c])
  }

  /** The state after reading all of `s`. */
  function Scan(s: string): ScanState
    decreases |s|
  {
    if s == [] then ScanState([], "", false) else StepChar(Scan(s[..|s| - 1]), s[|s| - 1])
  }

  /** The fields `parseCSVLine` returns: the finished ones and the last one. */
  function ParseLine(line: string): (fields: seq<string>)
    ensures |fields| == 1 + OutsideCommas(line)
    ensures Join(fields, ",") == RemoveQuotes(line)
    ensures forall k, j :: 0 <= k < |fields| && 0 <= j < |fields[k]| ==> fields[k][j] != '"'
  {
    ScanProperties(line);
    Scan(line).values + [Scan(line).current]
  }

  /**
   * The commas met outside quotes: a comma counts when an even number of
   * quotes precede it.
   */
  function OutsideCommas(s: string): nat
    decreases |s|
  {
    if s == [] then 0
    else
      var p := s[..|s| - 1];
      OutsideCommas(p) + (if s[|s| - 1] == ',' && Count(p, IsQuote) % 2 == 0 then 1 else 0)
  }

  /** Appending to a non-empty list of pieces adds a separator and the new piece. */
  lemma {:induction false} JoinSnoc(ps: seq<string>, x: string, sep: string)
    requires ps != []
    ensures Join(ps + [x], sep) == Join(ps, sep) + sep + x
    decreases |ps|
  {
    if |ps| > 1 {
      assert (ps + [x])[1..] == ps[1..] + [x];
      JoinSnoc(ps[1..], x, sep);
    }
  }

  /** Extending the last piece extends the joined text. */
  lemma JoinExtendLast(ps: seq<string>, x: string, c: char, sep: string)
    ensures Join(ps + [x + [c]], sep) == Join(ps + [x], sep) + [c]
  {
    if ps != [] {
      JoinSnoc(ps, x + [c], sep);
      JoinSnoc(ps, x, sep);
    }
  }

  /**
   * What the scan keeps: the fields joined with commas are the line without
   * quotes, one field is finished per comma outside quotes, the flag is the
   * parity of the quotes read, and no field holds a quote.
   */
  lemma {:induction false} ScanProperties(s: string)
    ensures Join(Scan(s).values + [Scan(s).current], ",") == RemoveQuotes(s)
    ensures |Scan(s).values| == OutsideCommas(s)
    ensures Scan(s).inQuotes <==> Count(s, IsQuote) % 2 == 1
    ensures forall k, j :: 0 <= k < |Scan(s).values| && 0 <= j < |Scan(s).values[k]| ==> Scan(s).values[k][j] != '"'
    ensures forall j :: 0 <= j < |Scan(s).current| ==> Scan(s).current[j] != '"'
    decreases |s|
  {
    if s != [] {
      var p := s[..|s| - 1];
      var c := s[|s| - 1];
      ScanProperties(p);
      assert p + [c] == s;
      CountConcat(p, [c], IsQuote);
      var st := Scan(p);
      if c == '"' {
      } else if c == ',' && !st.inQuotes {
        assert st.values + [st.current] + [""] == (st.values + [st.current]) + [""];
        JoinSnoc(st.values + [st.current], "", ",");
      } else {
        JoinExtendLast(st.values, st.current, c, ",");
      }
    }
  }

  /** `parseCSVLine(line)`: the scan over the line, then the last field. */
  method ParseCsvLine(line: string) returns (values: seq<string>)
    ensures values == ParseLine(line)
  {
    values := [];
    var current := "";
    var inQuotes := false;
    for i := 0 to |line|
      invariant ScanState(values, current, inQuotes) == Scan(line[..i])
    {
      assert line[..i + 1][..i] == line[..i];
      var c := line[i];
      if c == '"' {
        inQuotes := !inQuotes;
      } else if c == ',' && !inQuotes {
        values := values + [current];
        current := "";
      } else {
        current := current + [c];
      }
    }
    assert line[..|line|] == line;
    values := values + [current];
  }

  /** Doubled quotes are not an escape: the four-quote field that RFC 4180 reads as one quote character is read as empty. */
  lemma DoubledQuoteIsNotEscape()
    ensures ParseLine("\"\"\"\"") == [""]
  {
    assert "\"\"\"\""[..3] == "\"\"\"";
    assert "\"\"\""[..2] == "\"\"";
    assert "\"\""[..1] == "\"";
    assert "\""[..0] == "";
  }

  // ---------------------------------------------------------------------------
  // parseCSV.

  /** An object built from headers and values: each header maps to the value at its position, later headers overwriting earlier ones. */
  function Record(headers: seq<string>, values: seq<string>): (r: map<string, string>)
    requires |values| >= |headers|
    ensures forall h :: h in r <==> h in headers
    ensures forall i :: 0 <= i < |headers| && (forall j :: i < j < |headers| ==> headers[j] != headers[i]) ==> r[headers[i]] == values[i]
    decreases |headers|
  {
    if headers == [] then map[]
    else Record(headers[..|headers| - 1], values)[headers[|headers| - 1] := values[|headers| - 1]]
  }

  /** The characters of a trimmed text are characters of the text. */
  lemma TrimmedChars(s: string, white: char -> bool)
    ensures forall j :: 0 <= j < |Trim(s, white)| ==> Trim(s, white)[j] in s
  {
    var r := Trim(s, white);
    var i, k :| WhiteCut(s, i, k, white) && r == s[i..k];
    forall j | 0 <= j < |r|
      ensures r[j] in s
    {
      assert r[j] == s[i + j];
    }
  }

  /** script.js: a header or value without quotes, then trimmed (numeric conversion aside). */
  function CleanScript(v: string): string {
    JsTrim(RemoveQuotes(v))
  }

  /** nutrition.js: a value trimmed, then without quotes; an empty value stays ''. */
  function CleanNutrition(v: string): string {
    if v != "" then RemoveQuotes(JsTrim(v)) else ""
  }

  /** On the fields of a parsed line, which hold no quotes, both cleanings are plain trimming. */
  lemma CleaningsAgree(v: string)
    requires forall j :: 0 <= j < |v| ==> v[j] != '"'
    ensures CleanScript(v) == CleanNutrition(v) == JsTrim(v)
  {
    RemoveQuotesNoQuotes(v);
    TrimmedChars(v, IsJsWhite);
    RemoveQuotesNoQuotes(JsTrim(v));
  }

  /** Every value of a list cleaned. */
  function CleanAll(vs: seq<string>, clean: string -> string): (r: seq<string>)
    ensures |r| == |vs| && forall i :: 0 <= i < |vs| ==> r[i] == clean(vs[i])
  {
    seq(|vs|, i requires 0 <= i < |vs| => clean(vs[i]))
  }

  /** The objects of the lines `keep` accepts, in order: one `row(line)` per kept line. */
  function KeptRows(lines: seq<string>, keep: string -> bool, row: string -> map<string, string>): seq<map<string, string>>
    decreases |lines|
  {
    if lines == [] then []
    else
      var last := lines[|lines| - 1];
      KeptRows(lines[..|lines| - 1], keep, row) + (if keep(last) then [row(last)] else [])
  }

  /** The kept rows are the objects of the filtered lines, one each, in order. */
  lemma {:induction false} KeptRowsOfFilter(lines: seq<string>, keep: string -> bool, row: string -> map<string, string>)
    ensures |KeptRows(lines, keep, row)| == |Filter(lines, keep)|
    ensures forall i :: 0 <= i < |Filter(lines, keep)| ==> KeptRows(lines, keep, row)[i] == row(Filter(lines, keep)[i])
    decreases |lines|
  {
    if lines != [] {
      KeptRowsOfFilter(lines[..|lines| - 1], keep, row);
    }
  }

  /** script.js: the lines of the trimmed text. */
  function ScriptLines(text: string): (lines: seq<string>)
    ensures |lines| >= 1
    ensures forall k, j :: 0 <= k < |lines| && 0 <= j < |lines[k]| ==> lines[k][j] != '\n'
    ensures Join(lines, "\n") == JsTrim(text)
  {
    JoinSplit(JsTrim(text), '\n', IsNewline);
    Split(JsTrim(text), IsNewline)
  }

  /** script.js: the header names, without quotes and trimmed. */
  function ScriptHeaders(line: string): seq<string> {
    CleanAll(Split(line, IsComma), CleanScript)
  }

  /** script.js: the object of a data line. */
  function ScriptRow(headers: seq<string>, line: string): map<string, string>
    requires |ParseLine(line)| == |headers|
  {
    Record(headers, CleanAll(ParseLine(line), CleanScript))
  }

  /** script.js keeps a data line whose field count equals the header count. */
  function ScriptKeep(headers: seq<string>): string -> bool {
    l => |ParseLine(l)| == |headers|
  }

  function ScriptRowOf(headers: seq<string>): string -> map<string, string> {
    l => if |ParseLine(l)| == |headers| then ScriptRow(headers, l) else map[]
  }

  /** script.js `parseCSV`: nothing for fewer than two lines, else the objects of the data lines whose field count equals the header count. */
  function ScriptCsv(text: string): seq<map<string, string>> {
    var lines := ScriptLines(text);
    if |lines| < 2 then []
    else
      var headers := ScriptHeaders(lines[0]);
      KeptRows(lines[1..], ScriptKeep(headers), ScriptRowOf(headers))
  }

  /**
   * What script.js `parseCSV` returns: nothing for fewer than two lines;
   * otherwise one object per data line whose field count equals the header
   * count, in order, and none for any other line.
   */
  lemma ScriptCsvRows(text: string)
    ensures |ScriptLines(text)| < 2 ==> ScriptCsv(text) == []
    ensures |ScriptLines(text)| >= 2 ==>
      var lines := ScriptLines(text);
      var headers := ScriptHeaders(lines[0]);
      var kept := Filter(lines[1..], ScriptKeep(headers));
      |ScriptCsv(text)| == |kept| <= |lines| - 1 &&
      forall i :: 0 <= i < |kept| ==> |ParseLine(kept[i])| == |headers| && ScriptCsv(text)[i] == ScriptRow(headers, kept[i])
  {
    var lines := ScriptLines(text);
    if |lines| >= 2 {
      var headers := ScriptHeaders(lines[0]);
      KeptRowsOfFilter(lines[1..], ScriptKeep(headers), ScriptRowOf(headers));
    }
  }

  /** The loop of script.js `parseCSV` over the data lines. */
  method ScriptDataRows(headers: seq<string>, dataLines: seq<string>) returns (data: seq<map<string, string>>)
    ensures data == KeptRows(dataLines, ScriptKeep(headers), ScriptRowOf(headers))
  {
    data := [];
    for i := 0 to |dataLines|
      invariant data == KeptRows(dataLines[..i], ScriptKeep(headers), ScriptRowOf(headers))
    {
      assert dataLines[..i + 1][..i] == dataLines[..i];
      var values := ParseCsvLine(dataLines[i]);
      if |values| == |headers| {
        data := data + [Record(headers, CleanAll(values, CleanScript))];
      }
    }
    assert dataLines[..|dataLines|] == dataLines;
  }

  /** script.js `parseCSV`. */
  method ParseCsvScript(text: string) returns (data: seq<map<string, string>>)
    ensures data == ScriptCsv(text)
  {
    var lines := Split(JsTrim(text), IsNewline);
    if |lines| < 2 {
      return [];
    }
    data := ScriptDataRows(ScriptHeaders(lines[0]), lines[1..]);
  }

  /** `line.trim()` is truthy. */
  predicate NotBlank(line: string) {
    JsTrim(line) != ""
  }

  /** nutrition.js: the lines of the text that are not blank. */
  function NutritionLines(text: string): (lines: seq<string>)
    ensures forall i :: 0 <= i < |lines| ==> NotBlank(lines[i]) && lines[i] in Split(text, IsNewline)
    ensures forall l :: l in Split(text, IsNewline) && NotBlank(l) ==> l in lines
  {
    Filter(Split(text, IsNewline), NotBlank)
  }

  /** nutrition.js: a header trimmed, then without quotes. */
  function CleanNutritionHeader(h: string): string {
    RemoveQuotes(JsTrim(h))
  }

  /** nutrition.js: the header names, trimmed and without quotes. */
  function NutritionHeaders(line: string): seq<string> {
    CleanAll(Split(line, IsComma), CleanNutritionHeader)
  }

  /** nutrition.js: the object of a kept line; fields beyond the headers are ignored. */
  function NutritionRow(headers: seq<string>, line: string): map<string, string>
    requires |ParseLine(line)| >= |headers|
  {
    Record(headers, CleanAll(ParseLine(line)[..|headers|], CleanNutrition))
  }

  /** nutrition.js keeps a data line with at least as many fields as headers. */
  function NutritionKeep(headers: seq<string>): string -> bool {
    l => |ParseLine(l)| >= |headers|
  }

  function NutritionRowOf(headers: seq<string>): string -> map<string, string> {
    l => if |ParseLine(l)| >= |headers| then NutritionRow(headers, l) else map[]
  }

  /** nutrition.js `parseCSV`: blank lines dropped, nothing for fewer than two remaining lines, else the objects of the data lines with at least as many fields as headers. */
  function NutritionCsv(text: string): seq<map<string, string>> {
    var lines := NutritionLines(text);
    if |lines| < 2 then []
    else
      var headers := NutritionHeaders(lines[0]);
      KeptRows(lines[1..], NutritionKeep(headers), NutritionRowOf(headers))
  }

  /**
   * What nutrition.js `parseCSV` returns: nothing for fewer than two non-blank
   * lines; otherwise one object per data line with at least as many fields as
   * headers, in order, and none for any other line.
   */
  lemma NutritionCsvRows(text: string)
    ensures |NutritionLines(text)| < 2 ==> NutritionCsv(text) == []
    ensures |NutritionLines(text)| >= 2 ==>
      var lines := NutritionLines(text);
      var headers := NutritionHeaders(lines[0]);
      var kept := Filter(lines[1..], NutritionKeep(headers));
      |NutritionCsv(text)| == |kept| <= |lines| - 1 &&
      forall i :: 0 <= i < |kept| ==> |ParseLine(kept[i])| >= |headers| && NutritionCsv(text)[i] == NutritionRow(headers, kept[i])
  {
    var lines := NutritionLines(text);
    if |lines| >= 2 {
      var headers := NutritionHeaders(lines[0]);
      KeptRowsOfFilter(lines[1..], NutritionKeep(headers), NutritionRowOf(headers));
    }
  }

  /** The loop of nutrition.js `parseCSV` over the data lines. */
  method NutritionDataRows(headers: seq<string>, dataLines: seq<string>) returns (data: seq<map<string, string>>)
    ensures data == KeptRows(dataLines, NutritionKeep(headers), NutritionRowOf(headers))
  {
    data := [];
    for i := 0 to |dataLines|
      invariant data == KeptRows(dataLines[..i], NutritionKeep(headers), NutritionRowOf(headers))
    {
      assert dataLines[..i + 1][..i] == dataLines[..i];
      var values := ParseCsvLine(dataLines[i]);
      if |values| >= |headers| {
        data := data + [Record(headers, CleanAll(values[..|headers|], CleanNutrition))];
      }
    }
    assert dataLines[..|dataLines|] == dataLines;
  }

  /** nutrition.js `parseCSV`. */
  method ParseCsvNutrition(text: string) returns (data: seq<map<string, string>>)
    ensures data == NutritionCsv(text)
  {
    var lines := NutritionLines(text);
    if |lines| < 2 {
      return [];
    }
    data := NutritionDataRows(NutritionHeaders(lines[0]), lines[1..]);
  }

  /**
   * On a line with exactly as many fields as headers, the two readers build the
   * same object.
   */
  lemma ReadersAgreeOnFullLines(headers: seq<string>, line: string)
    requires |ParseLine(line)| == |headers|
    ensures NutritionRow(headers, line) == ScriptRow(headers, line)
  {
    var fields := ParseLine(line);
    assert fields[..|headers|] == fields;
    forall i | 0 <= i < |fields|
      ensures CleanNutrition(fields[i]) == CleanScript(fields[i])
    {
      CleaningsAgree(fields[i]);
    }
    assert CleanAll(fields, CleanNutrition) == CleanAll(fields, CleanScript);
  }
}
