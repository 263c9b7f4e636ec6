/** The metadata preamble of a sync log CSV:

      Property;Value
      <key>;<value>        (one line per entry)
      ;;
      Block_height;...     (the data header)

    `find_header_row` locates the data header, `extract_metadata` reads the
    entries back, and the save callbacks write the preamble. */
module Preamble {

  import opened Wrappers
  import opened Text
  import opened Dicts

  // ------------------------------------------------------------------
  // find_header_row

  /** The header heuristic: names a key column and has at least two ';'. */
  predicate IsHeaderLine(line: string) {
    (Contains(line, "Block_height") || Contains(line, "Block_timestamp")) && CountChar(line, ';') >= 2
  }

  function FirstHeaderFrom(lines: seq<string>, i: nat): (r: Option<nat>)
    requires i <= |lines|
    ensures r.Some? ==>
      (i <= r.value < |lines| && IsHeaderLine(lines[r.value])
       && forall j | i <= j < r.value :: !IsHeaderLine(lines[j]))
    ensures r.None? ==> forall j | i <= j < |lines| :: !IsHeaderLine(lines[j])
    decreases |lines| - i
  {
    if i == |lines| then None
    else if IsHeaderLine(lines[i]) then Some(i)
    else FirstHeaderFrom(lines, i + 1)
  }

  /** `find_header_row` of the progress tool: the first header-like line,
      or 0 when there is none. */
  function FindHeaderRow(lines: seq<string>): (r: nat)
    ensures (exists i | 0 <= i < |lines| :: IsHeaderLine(lines[i])) ==>
      r < |lines| && IsHeaderLine(lines[r]) && forall j | 0 <= j < r :: !IsHeaderLine(lines[j])
    ensures (forall i | 0 <= i < |lines| :: !IsHeaderLine(lines[i])) ==> r == 0
  {
    match FirstHeaderFrom(lines, 0)
    case Some(i) => i
    case None => 0
  }

  /** `find_header_row` of the measurement tool, which when no header-like
      line exists also looks for a progress-log header in line 0. */
  function FindHeaderRowMeasurement(lines: seq<string>): nat {
    match FirstHeaderFrom(lines, 0)
    case Some(i) => i
    case None =>
      if |lines| > 0 && Contains(lines[0], "Accumulated_sync_time[s]") then 0 else 0
  }

  /** The extra line-0 test changes nothing: both variants agree. */
  lemma FindHeaderRowVariantsAgree(lines: seq<string>)
    ensures FindHeaderRowMeasurement(lines) == FindHeaderRow(lines)
  {
  }

  // ------------------------------------------------------------------
  // extract_metadata

  /** Inside the section, a line that names a key column or is ";;" ends it. */
  predicate EndsSection(line: string) {
    Contains(line, "Block_height") || Contains(line, "Block_timestamp") || line == ";;"
  }

  predicate OpensSection(line: string) {
    Contains(line, "Property;Value")
  }

  /** One stripped line inside the section: split at the first ';' and store
      the entry when both parts are non-empty; a repeated key overwrites. */
  function AddEntry(d: Dict, line: string): Dict {
    match SplitFirst(line, ';')
    case None => d
    case Some((k, v)) => if k != "" && v != "" then Put(d, k, v) else d
  }

  /** Every line stripped, as the scan looks at it. */
  function StripAll(lines: seq<string>): (r: seq<string>)
    ensures |r| == |lines|
  {
    seq(|lines|, j requires 0 <= j < |lines| => Strip(lines[j]))
  }

  /** The first stripped line at or after `i` that opens the section. */
  function SectionStart(texts: seq<string>, i: nat): (r: Option<nat>)
    requires i <= |texts|
    ensures r.Some? ==> i <= r.value < |texts| && OpensSection(texts[r.value])
    ensures r.None? ==> forall j | i <= j < |texts| :: !OpensSection(texts[j])
    decreases |texts| - i
  {
    if i == |texts| then None
    else if OpensSection(texts[i]) then Some(i)
    else SectionStart(texts, i + 1)
  }

  /** The entries from stripped line `i` up to the end of the section, added to `d`. */
  function ScanEntries(texts: seq<string>, i: nat, d: Dict): Dict
    requires i <= |texts|
    decreases |texts| - i
  {
    if i == |texts| then d
    else if EndsSection(texts[i]) then d
    else ScanEntries(texts, i + 1, AddEntry(d, texts[i]))
  }

  /** What `extract_metadata` returns. */
  function Metadata(lines: seq<string>): Dict {
    var texts := StripAll(lines);
    match SectionStart(texts, 0)
    case None => []
    case Some(s) => ScanEntries(texts, s + 1, [])
  }

  /** `extract_metadata`: the flag-driven scan over the lines. */
  method ExtractMetadata(lines: seq<string>) returns (metadata: Dict)
    ensures metadata == Metadata(lines)
  {
    ghost var texts := StripAll(lines);
    ghost var start := SectionStart(texts, 0);
    ghost var target := Metadata(lines);
    metadata := [];
    var inSection := false;
    var i := 0;
    while i < |lines|
      invariant 0 <= i <= |lines|
      invariant !inSection ==> metadata == [] && SectionStart(texts, i) == start
      invariant inSection ==> ScanEntries(texts, i, metadata) == target
    {
      var line := Strip(lines[i]);
      StrippedAt(lines, i);
      if !inSection {
        if OpensSection(line) {
          OpenAt(lines, i);
          inSection := true;
        } else {
          PassOver(texts, i);
        }
      } else {
        if EndsSection(line) {
          break;
        }
        ScanOne(texts, i, metadata);
        metadata := AddEntry(metadata, line);
      }
      i := i + 1;
    }
    ScanDone(lines, texts, i, inSection, metadata);
  }

  lemma StrippedAt(lines: seq<string>, i: nat)
    requires i < |lines|
    ensures StripAll(lines)[i] == Strip(lines[i])
  {
  }

  /** A line that does not open the section moves the search on. */
  lemma PassOver(texts: seq<string>, i: nat)
    requires i < |texts| && !OpensSection(texts[i])
    ensures SectionStart(texts, i + 1) == SectionStart(texts, i)
  {
  }

  /** The section opens at the first line that names it. */
  lemma OpenAt(lines: seq<string>, i: nat)
    requires i < |lines| && OpensSection(StripAll(lines)[i])
    requires SectionStart(StripAll(lines), i) == SectionStart(StripAll(lines), 0)
    ensures ScanEntries(StripAll(lines), i + 1, []) == Metadata(lines)
  {
  }

  lemma ScanDone(lines: seq<string>, texts: seq<string>, i: nat, inSection: bool, metadata: Dict)
    requires texts == StripAll(lines) && i <= |lines|
    requires !inSection ==> metadata == [] && SectionStart(texts, i) == SectionStart(texts, 0)
    requires inSection ==> ScanEntries(texts, i, metadata) == Metadata(lines)
    requires i < |lines| ==> inSection && EndsSection(texts[i])
    ensures metadata == Metadata(lines)
  {
  }

  lemma ScanOne(texts: seq<string>, i: nat, d: Dict)
    requires i < |texts| && !EndsSection(texts[i])
    ensures ScanEntries(texts, i, d) == ScanEntries(texts, i + 1, AddEntry(d, texts[i]))
  {
  }

  lemma UniqueAfterAdd(d: Dict, line: string)
    requires UniqueKeys(d)
    ensures UniqueKeys(AddEntry(d, line))
  {
    match SplitFirst(line, ';')
    case None =>
    case Some((k, v)) =>
      if k != "" && v != "" {
        PutUnique(d, k, v);
      }
  }

  /** Reading never yields a repeated key, an empty key or an empty value. */
  lemma {:induction false} ScanEntriesWellFormed(texts: seq<string>, i: nat, d: Dict)
    requires i <= |texts| && UniqueKeys(d)
    requires forall j | 0 <= j < |d| :: d[j].0 != "" && d[j].1 != ""
    ensures var r := ScanEntries(texts, i, d);
      UniqueKeys(r) && forall j | 0 <= j < |r| :: r[j].0 != "" && r[j].1 != ""
    decreases |texts| - i
  {
    if i < |texts| && !EndsSection(texts[i]) {
      UniqueAfterAdd(d, texts[i]);
      ScanEntriesWellFormed(texts, i + 1, AddEntry(d, texts[i]));
    }
  }

  lemma MetadataWellFormed(lines: seq<string>)
    ensures UniqueKeys(Metadata(lines))
    ensures forall j | 0 <= j < |Metadata(lines)| :: Metadata(lines)[j].0 != "" && Metadata(lines)[j].1 != ""
  {
    var texts := StripAll(lines);
    match SectionStart(texts, 0)
    case None =>
    case Some(s) => ScanEntriesWellFormed(texts, s + 1, []);
  }

  lemma SplitAt(k: string, v: string)
    requires ';' !in k
    ensures SplitFirst(k + ";" + v, ';') == Some((k, v))
  {
    var s := k + ";" + v;
    assert s[|k|] == ';';
    var i := FindChar(s, ';').value;
    assert i == |k|;
    assert s[..|k|] == k && s[|k| + 1..] == v;
  }

  // ------------------------------------------------------------------
  // the writer in write_csv_new / write_csv_overwrite

  function EntryLine(kv: (string, string)): string {
    kv.0 + ";" + kv.1 + "\n"
  }

  /** The preamble lines written before the data, none for empty metadata. */
  function PreambleLines(d: Dict): (r: seq<string>)
    ensures |d| == 0 ==> r == []
    ensures |d| > 0 ==> |r| == |d| + 2
  {
    if |d| == 0 then []
    else ["Property;Value\n"] + seq(|d|, i requires 0 <= i < |d| => EntryLine(d[i])) + [";;\n"]
  }

  /** The text of a saved file: preamble, then the CSV lines of the table. */
  function FileText(d: Dict, csvLines: seq<string>): string {
    Concat(PreambleLines(d) + csvLines)
  }

  /** Metadata the writer and the reader agree on: unique non-empty keys
      without ';', non-empty values, no surrounding whitespace, no line
      boundary, and no key column name in a key or a value. */
  predicate RoundTripSafe(d: Dict) {
    && UniqueKeys(d)
    && forall i | 0 <= i < |d| :: SafeEntry(d[i].0, d[i].1)
  }

  predicate SafeEntry(k: string, v: string) {
    && k != "" && v != "" && ';' !in k
    && !IsSpace(k[0]) && !IsSpace(v[|v| - 1])
    && (forall j | 0 <= j < |k| :: !IsLineBreak(k[j]))
    && (forall j | 0 <= j < |v| :: !IsLineBreak(v[j]))
    && !Contains(k, "Block_height") && !Contains(k, "Block_timestamp")
    && !Contains(v, "Block_height") && !Contains(v, "Block_timestamp")
  }

  /** The table part as `to_csv` writes it: whole lines, the first one the
      column header. */
  predicate CsvLines(csvLines: seq<string>) {
    && |csvLines| > 0 && IsHeaderLine(csvLines[0])
    && forall k | 0 <= k < |csvLines| :: IsTerminatedLine(csvLines[k])
  }

  lemma StripLine(body: string)
    requires |body| > 0 && !IsSpace(body[0]) && !IsSpace(body[|body| - 1])
    ensures Strip(body + "\n") == body
  {
    var line := body + "\n";
    assert TrimLeft(line) == line;
    assert line[..|line| - 1] == body;
  }

  lemma AppendNewlineAvoids(body: string, sub: string)
    requires |sub| > 0 && '\n' !in sub && !Contains(body, sub)
    ensures !Contains(body + "\n", sub)
  {
    assert !OccursAt("", sub, 0);
    assert body + "\n" == body + ['\n'] + "";
    OccurrenceAvoidsSeparator(body, '\n', "", sub);
  }

  lemma EntryAvoids(k: string, v: string, sub: string)
    requires |sub| > 0 && ';' !in sub && '\n' !in sub && !Contains(k, sub) && !Contains(v, sub)
    ensures !Contains(k + ";" + v, sub) && !Contains(k + ";" + v + "\n", sub)
  {
    OccurrenceAvoidsSeparator(k, ';', v, sub);
    AppendNewlineAvoids(k + ";" + v, sub);
  }

  lemma EntryLineTerminated(k: string, v: string)
    requires SafeEntry(k, v)
    ensures IsTerminatedLine(EntryLine((k, v)))
  {
    var line := EntryLine((k, v));
    forall j | 0 <= j < |line| - 1 ensures !IsLineBreak(line[j]) {
      if j < |k| {
        assert line[j] == k[j];
      } else if j > |k| {
        assert line[j] == v[j - |k| - 1];
      }
    }
  }

  lemma EntryLineStrip(k: string, v: string)
    requires SafeEntry(k, v)
    ensures Strip(EntryLine((k, v))) == k + ";" + v
  {
    var body := k + ";" + v;
    assert body[0] == k[0] && body[|body| - 1] == v[|v| - 1];
    assert EntryLine((k, v)) == body + "\n";
    StripLine(body);
  }

  lemma EntryTextContinues(k: string, v: string)
    requires SafeEntry(k, v)
    ensures !EndsSection(k + ";" + v)
  {
    var body := k + ";" + v;
    EntryAvoids(k, v, "Block_height");
    EntryAvoids(k, v, "Block_timestamp");
    assert body != ";;" by {
      assert body[0] == k[0];
    }
  }

  lemma EntryLineNotHeader(k: string, v: string)
    requires SafeEntry(k, v)
    ensures !IsHeaderLine(EntryLine((k, v)))
  {
    assert EntryLine((k, v)) == k + ";" + v + "\n";
    EntryAvoids(k, v, "Block_height");
    EntryAvoids(k, v, "Block_timestamp");
  }

  lemma OpeningLineTerminated()
    ensures IsTerminatedLine("Property;Value\n")
  {
  }

  lemma OpeningLineStrip()
    ensures Strip("Property;Value\n") == "Property;Value" && OpensSection("Property;Value")
  {
    StripLine("Property;Value");
    ContainsAtStart("Property;Value", "Property;Value");
  }

  lemma OpeningLineNotHeader()
    ensures !IsHeaderLine("Property;Value\n")
  {
    AbsentFirstChar("Property;Value\n", "Block_height");
    AbsentFirstChar("Property;Value\n", "Block_timestamp");
  }

  lemma OpeningLineFacts()
    ensures IsTerminatedLine("Property;Value\n")
    ensures Strip("Property;Value\n") == "Property;Value" && OpensSection("Property;Value")
    ensures !IsHeaderLine("Property;Value\n")
  {
    OpeningLineTerminated();
    OpeningLineStrip();
    OpeningLineNotHeader();
  }

  lemma ClosingLineFacts()
    ensures IsTerminatedLine(";;\n")
    ensures Strip(";;\n") == ";;" && EndsSection(";;")
    ensures !IsHeaderLine(";;\n")
  {
    StripLine(";;");
    AbsentFirstChar(";;\n", "Block_height");
    AbsentFirstChar(";;\n", "Block_timestamp");
  }

  /** What the scan needs of a written entry line. */
  predicate ReadableEntry(k: string, v: string) {
    k != "" && v != "" && ';' !in k && !EndsSection(k + ";" + v)
  }

  lemma SafeReadable(k: string, v: string)
    requires SafeEntry(k, v)
    ensures ReadableEntry(k, v)
  {
    EntryTextContinues(k, v);
  }

  lemma ScanStep(texts: seq<string>, i: nat, d: Dict, k: string, v: string)
    requires i < |texts| && ReadableEntry(k, v) && texts[i] == k + ";" + v
    requires forall j | 0 <= j < |d| :: d[j].0 != k
    ensures ScanEntries(texts, i, d) == ScanEntries(texts, i + 1, d + [(k, v)])
  {
    ScanOne(texts, i, d);
    SplitAt(k, v);
    assert AddEntry(d, texts[i]) == Put(d, k, v);
    PutNewKey(d, k, v);
  }

  lemma {:induction false} ScanWrittenEntries(texts: seq<string>, d: Dict, j: nat)
    requires UniqueKeys(d) && (forall i | 0 <= i < |d| :: ReadableEntry(d[i].0, d[i].1)) && j <= |d| && |texts| > |d| + 1
    requires forall i | 0 <= i < |d| :: texts[i + 1] == d[i].0 + ";" + d[i].1
    requires texts[|d| + 1] == ";;"
    ensures ScanEntries(texts, j + 1, d[..j]) == d
    decreases |d| - j
  {
    if j == |d| {
      assert d[..j] == d;
    } else {
      ScanWrittenEntry(texts, d, j);
      ScanWrittenEntries(texts, d, j + 1);
    }
  }

  /** Line `j + 1` of the written preamble adds entry `j`. */
  lemma ScanWrittenEntry(texts: seq<string>, d: Dict, j: nat)
    requires UniqueKeys(d) && j < |d| && ReadableEntry(d[j].0, d[j].1) && j + 1 < |texts|
    requires texts[j + 1] == d[j].0 + ";" + d[j].1
    ensures ScanEntries(texts, j + 1, d[..j]) == ScanEntries(texts, j + 2, d[..j + 1])
  {
    var k := d[j].0;
    var v := d[j].1;
    forall i | 0 <= i < j ensures d[..j][i].0 != k {
      assert d[..j][i] == d[i];
    }
    ScanStep(texts, j + 1, d[..j], k, v);
    PrefixExtend(d, j);
  }

  lemma PrefixExtend(d: Dict, j: nat)
    requires j < |d|
    ensures d[..j] + [d[j]] == d[..j + 1]
  {
  }

  /** Round trip: after the written preamble, `extract_metadata` reads the
      same dict back and `find_header_row` finds the table header right after
      the ";;" line (line 0 when there is no preamble). */
  lemma PreambleRoundTrip(d: Dict, csvLines: seq<string>)
    requires RoundTripSafe(d) && CsvLines(csvLines)
    requires |d| == 0 ==> forall k | 0 <= k < |csvLines| :: !OpensSection(Strip(csvLines[k]))
    ensures var lines := SplitLines(FileText(d, csvLines));
      && lines == PreambleLines(d) + csvLines
      && Metadata(lines) == d
      && FindHeaderRow(lines) == (if |d| == 0 then 0 else |d| + 2)
  {
    var lines := PreambleLines(d) + csvLines;
    WrittenLinesTerminated(d, csvLines);
    SplitConcat(lines);
    if |d| == 0 {
      ReadWithoutPreamble(d, csvLines);
    } else {
      ReadWithPreamble(d, csvLines);
    }
  }

  lemma ReadWithoutPreamble(d: Dict, csvLines: seq<string>)
    requires |d| == 0 && CsvLines(csvLines)
    requires forall k | 0 <= k < |csvLines| :: !OpensSection(Strip(csvLines[k]))
    ensures Metadata(PreambleLines(d) + csvLines) == d
    ensures FindHeaderRow(PreambleLines(d) + csvLines) == 0
  {
    var lines := PreambleLines(d) + csvLines;
    assert lines == csvLines;
    var texts := StripAll(lines);
    assert forall k | 0 <= k < |texts| :: !OpensSection(texts[k]);
    assert SectionStart(texts, 0).None?;
  }

  lemma ReadWithPreamble(d: Dict, csvLines: seq<string>)
    requires RoundTripSafe(d) && CsvLines(csvLines) && |d| > 0
    ensures Metadata(PreambleLines(d) + csvLines) == d
    ensures FindHeaderRow(PreambleLines(d) + csvLines) == |d| + 2
  {
    var texts := StripAll(PreambleLines(d) + csvLines);
    WrittenTexts(d, csvLines);
    OpeningLineStrip();
    assert SectionStart(texts, 0) == Some(0);
    forall i | 0 <= i < |d| ensures ReadableEntry(d[i].0, d[i].1) {
      SafeReadable(d[i].0, d[i].1);
    }
    ScanWrittenEntries(texts, d, 0);
    assert d[..0] == [];
    WrittenHeader(d, csvLines);
  }

  lemma WrittenLinesTerminated(d: Dict, csvLines: seq<string>)
    requires RoundTripSafe(d) && CsvLines(csvLines)
    ensures forall k | 0 <= k < |PreambleLines(d) + csvLines| :: IsTerminatedLine((PreambleLines(d) + csvLines)[k])
  {
    var pre := PreambleLines(d);
    var lines := pre + csvLines;
    forall k | 0 <= k < |lines| ensures IsTerminatedLine(lines[k]) {
      if k < |pre| {
        assert lines[k] == pre[k];
        PreambleLineTerminated(d, k);
      } else {
        assert lines[k] == csvLines[k - |pre|];
      }
    }
  }

  lemma PreambleLineTerminated(d: Dict, k: nat)
    requires RoundTripSafe(d) && k < |PreambleLines(d)|
    ensures IsTerminatedLine(PreambleLines(d)[k])
  {
    var pre := PreambleLines(d);
    if k == 0 {
      OpeningLineTerminated();
    } else if k <= |d| {
      assert pre[k] == EntryLine(d[k - 1]);
      assert SafeEntry(d[k - 1].0, d[k - 1].1);
      EntryLineTerminated(d[k - 1].0, d[k - 1].1);
    } else {
      assert pre[k] == ";;\n";
      ClosingLineFacts();
    }
  }

  lemma PreambleLineNotHeader(d: Dict, k: nat)
    requires RoundTripSafe(d) && k < |PreambleLines(d)|
    ensures !IsHeaderLine(PreambleLines(d)[k])
  {
    var pre := PreambleLines(d);
    if k == 0 {
      OpeningLineNotHeader();
    } else if k <= |d| {
      assert pre[k] == EntryLine(d[k - 1]);
      assert SafeEntry(d[k - 1].0, d[k - 1].1);
      EntryLineNotHeader(d[k - 1].0, d[k - 1].1);
    } else {
      assert pre[k] == ";;\n";
      ClosingLineFacts();
    }
  }

  lemma WrittenTexts(d: Dict, csvLines: seq<string>)
    requires RoundTripSafe(d) && |d| > 0
    ensures var texts := StripAll(PreambleLines(d) + csvLines);
      && |texts| > |d| + 1
      && texts[0] == "Property;Value"
      && (forall i | 0 <= i < |d| :: texts[i + 1] == d[i].0 + ";" + d[i].1)
      && texts[|d| + 1] == ";;"
  {
    var pre := PreambleLines(d);
    var lines := pre + csvLines;
    var texts := StripAll(lines);
    assert lines[0] == "Property;Value\n";
    OpeningLineStrip();
    assert texts[0] == "Property;Value";
    assert lines[|d| + 1] == ";;\n";
    ClosingLineFacts();
    assert texts[|d| + 1] == ";;";
    forall i | 0 <= i < |d| ensures texts[i + 1] == d[i].0 + ";" + d[i].1 {
      assert lines[i + 1] == pre[i + 1] == EntryLine(d[i]);
      EntryLineStrip(d[i].0, d[i].1);
    }
  }

  lemma WrittenHeader(d: Dict, csvLines: seq<string>)
    requires RoundTripSafe(d) && CsvLines(csvLines) && |d| > 0
    ensures FindHeaderRow(PreambleLines(d) + csvLines) == |d| + 2
  {
    var pre := PreambleLines(d);
    var lines := pre + csvLines;
    forall j | 0 <= j < |pre| ensures !IsHeaderLine(lines[j]) {
      assert lines[j] == pre[j];
      PreambleLineNotHeader(d, j);
    }
    assert lines[|pre|] == csvLines[0];
  }
}
