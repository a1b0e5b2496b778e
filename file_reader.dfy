/** `FileReader.LoadCSV` (the line rules) and `FileReader.LoadCSVAsDictionary` (rows to
    dictionaries). Reading the file is left to the engine: `LoadCSV` here starts from the
    field lists `GetCsvLine` returned, and the numeric normalisation of a field
    (`IsValidInt`/`IsValidFloat` and the round trip through a number) is a parameter. */
module FileReader {
  import opened Common
  import opened Text

  /** `isLastLine` of `LoadCSV`: no field, or one empty field. */
  predicate IsSkippedLine(csvLine: seq<string>) {
    |csvLine| == 0 || (|csvLine| == 1 && csvLine[0] == "")
  }

  /** The parsed fields of one line: stripped, then normalised. */
  function ParseLine(csvLine: seq<string>, normalize: string -> string): (r: seq<string>)
    ensures |r| == |csvLine|
    ensures forall i :: 0 <= i < |r| ==> r[i] == normalize(Trim(csvLine[i]))
  {
    seq(|csvLine|, i requires 0 <= i < |csvLine| => normalize(Trim(csvLine[i])))
  }

  /** The lines kept by the read loop, in order. */
  function KeptLines(csvLines: seq<seq<string>>, normalize: string -> string): (r: seq<seq<string>>)
    ensures |r| <= |csvLines|
    ensures forall k :: 0 <= k < |r| ==> |r[k]| >= 1
  {
    if csvLines == [] then []
    else
      var init := KeptLines(csvLines[..|csvLines| - 1], normalize);
      var last := csvLines[|csvLines| - 1];
      if IsSkippedLine(last) then init else init + [ParseLine(last, normalize)]
  }

  /** A parsed line of one empty field, the one `LoadCSV` drops at the end. */
  predicate IsEmptySingleField(line: seq<string>) {
    |line| == 1 && line[0] == ""
  }

  /** The whole of `LoadCSV` after the file is open. */
  function CsvLines(csvLines: seq<seq<string>>, normalize: string -> string): seq<seq<string>> {
    var lines := KeptLines(csvLines, normalize);
    if lines != [] && IsEmptySingleField(lines[|lines| - 1]) then lines[..|lines| - 1] else lines
  }

  /** `LoadCSV`: `csvLines` are the field lists the file yields line by line. */
  method LoadCSV(csvLines: seq<seq<string>>, normalize: string -> string) returns (lines: seq<seq<string>>)
    ensures lines == CsvLines(csvLines, normalize)
  {
    lines := KeepParsedLines(csvLines, normalize);
    if lines != [] && |lines[|lines| - 1]| == 1 && lines[|lines| - 1][0] == "" {
      lines := lines[..|lines| - 1];
    }
  }

  /** The read loop of `LoadCSV`: blank lines are skipped, the others parsed. */
  method KeepParsedLines(csvLines: seq<seq<string>>, normalize: string -> string) returns (lines: seq<seq<string>>)
    ensures lines == KeptLines(csvLines, normalize)
  {
    lines := [];
    var n := 0;
    while n < |csvLines|
      invariant 0 <= n <= |csvLines|
      invariant lines == KeptLines(csvLines[..n], normalize)
    {
      var csvLine := csvLines[n];
      KeptLinesStep(csvLines, normalize, n);
      n := n + 1;
      var isLastLine := |csvLine| == 0 || (|csvLine| == 1 && csvLine[0] == "");
      if isLastLine {
        continue;
      }
      var parsedLine := ParseFields(csvLine, normalize);
      lines := lines + [parsedLine];
    }
    assert csvLines[..|csvLines|] == csvLines;
  }

  /** The inner loop of `LoadCSV`: each field stripped, then normalised. */
  method ParseFields(csvLine: seq<string>, normalize: string -> string) returns (parsedLine: seq<string>)
    ensures parsedLine == ParseLine(csvLine, normalize)
  {
    parsedLine := [];
    for f := 0 to |csvLine|
      invariant |parsedLine| == f
      invariant forall i :: 0 <= i < f ==> parsedLine[i] == normalize(Trim(csvLine[i]))
    {
      var fieldToAdd := Trim(csvLine[f]);
      parsedLine := parsedLine + [normalize(fieldToAdd)];
    }
  }

  lemma KeptLinesStep(csvLines: seq<seq<string>>, normalize: string -> string, n: nat)
    requires n < |csvLines|
    ensures KeptLines(csvLines[..n + 1], normalize)
            == KeptLines(csvLines[..n], normalize)
               + (if IsSkippedLine(csvLines[n]) then [] else [ParseLine(csvLines[n], normalize)])
  {
    var p := csvLines[..n + 1];
    assert p[..|p| - 1] == csvLines[..n];
    assert p[|p| - 1] == csvLines[n];
  }

  /** Every kept line is one raw line that is not skipped, parsed, in the same order. */
  lemma {:induction false} KeptLinesAreParsedLines(csvLines: seq<seq<string>>, normalize: string -> string)
    ensures KeptLines(csvLines, normalize)
            == ParsedUnskipped(csvLines, normalize)
    decreases |csvLines|
  {
    if csvLines != [] {
      var init := csvLines[..|csvLines| - 1];
      KeptLinesAreParsedLines(init, normalize);
      ParsedUnskippedSnoc(init, csvLines[|csvLines| - 1], normalize);
      assert init + [csvLines[|csvLines| - 1]] == csvLines;
    }
  }

  /** The same lines read front to back. */
  function ParsedUnskipped(csvLines: seq<seq<string>>, normalize: string -> string): seq<seq<string>> {
    if csvLines == [] then []
    else (if IsSkippedLine(csvLines[0]) then [] else [ParseLine(csvLines[0], normalize)])
         + ParsedUnskipped(csvLines[1..], normalize)
  }

  lemma {:induction false} ParsedUnskippedSnoc(init: seq<seq<string>>, last: seq<string>, normalize: string -> string)
    ensures ParsedUnskipped(init + [last], normalize)
            == ParsedUnskipped(init, normalize)
               + (if IsSkippedLine(last) then [] else [ParseLine(last, normalize)])
    decreases |init|
  {
    if init == [] {
      assert [last][1..] == [];
    } else {
      assert (init + [last])[1..] == init[1..] + [last];
      ParsedUnskippedSnoc(init[1..], last, normalize);
    }
  }

  /** A raw line of two or more fields is never dropped as blank, however empty its
      fields are. */
  lemma {:induction false} MultiFieldLinesAreKept(csvLines: seq<seq<string>>, normalize: string -> string, k: nat)
    requires k < |csvLines| && |csvLines[k]| >= 2
    ensures ParseLine(csvLines[k], normalize) in KeptLines(csvLines, normalize)
    decreases |csvLines|
  {
    var init := csvLines[..|csvLines| - 1];
    if k < |csvLines| - 1 {
      assert init[k] == csvLines[k];
      MultiFieldLinesAreKept(init, normalize, k);
    }
  }

  // ---------------------------------------------------------------------
  // LoadCSVAsDictionary

  type Row = map<string, Option<string>>

  /** The dictionary the inner loop has built after the first `n` column headers: each
      header maps to the field in its column, or to nothing for a missing column. */
  function RowUpTo(headers: seq<string>, fields: seq<string>, n: nat): Row
    requires n <= |headers|
  {
    if n == 0 then map[]
    else RowUpTo(headers, fields, n - 1)[headers[n - 1] := if n - 1 < |fields| then Some(fields[n - 1]) else None]
  }

  function RowDictionary(headers: seq<string>, fields: seq<string>): Row {
    RowUpTo(headers, fields, |headers|)
  }

  /** The keys of the dictionary are the headers. */
  lemma {:induction false} RowDictionaryKeys(headers: seq<string>, fields: seq<string>, n: nat)
    requires n <= |headers|
    ensures RowUpTo(headers, fields, n).Keys == set i | 0 <= i < n :: headers[i]
  {
    if n > 0 {
      RowDictionaryKeys(headers, fields, n - 1);
      var before := set i | 0 <= i < n - 1 :: headers[i];
      assert (set i | 0 <= i < n :: headers[i]) == before + {headers[n - 1]};
    }
  }

  /** A header takes the field of its LAST column, or nothing when the row is too short. */
  lemma {:induction false} RowDictionaryValue(headers: seq<string>, fields: seq<string>, n: nat, i: nat)
    requires i < n <= |headers|
    requires forall j :: i < j < n ==> headers[j] != headers[i]
    ensures headers[i] in RowUpTo(headers, fields, n)
    ensures RowUpTo(headers, fields, n)[headers[i]] == (if i < |fields| then Some(fields[i]) else None)
  {
    if i < n - 1 {
      RowDictionaryValue(headers, fields, n - 1, i);
    }
  }

  /** Rows after the header, each made a dictionary, up to the first one longer than the
      header (which ends the result). */
  function RowsUntilOversized(headers: seq<string>, rows: seq<seq<string>>): (r: seq<Row>)
    ensures |r| <= |rows|
  {
    if rows == [] || |rows[0]| > |headers| then []
    else [RowDictionary(headers, rows[0])] + RowsUntilOversized(headers, rows[1..])
  }

  function HasOversizedRow(headers: seq<string>, rows: seq<seq<string>>): bool {
    exists i :: 0 <= i < |rows| && |rows[i]| > |headers|
  }

  /** `LoadCSVAsDictionary` on the lines `LoadCSV` returned: empty content gives an empty
      result, the first line is the header, and a row longer than the header is reported
      (`errorReported`) and ends the processing. */
  method LoadCSVAsDictionary(content: seq<seq<string>>) returns (result: seq<Row>, errorReported: bool)
    ensures content == [] ==> result == [] && !errorReported
    ensures content != [] ==> result == RowsUntilOversized(content[0], content[1..])
    ensures content != [] ==> (errorReported <==> HasOversizedRow(content[0], content[1..]))
  {
    result := [];
    errorReported := false;
    if content == [] {
      return;
    }
    var columnHeaders := content[0];
    var index := 1;
    while index < |content|
      invariant 1 <= index <= |content|
      invariant result + RowsUntilOversized(columnHeaders, content[index..])
                == RowsUntilOversized(columnHeaders, content[1..])
      invariant !HasOversizedRow(columnHeaders, content[1..index])
    {
      var currentFields := content[index];
      if |currentFields| > |columnHeaders| {
        errorReported := true;
        assert content[1..][index - 1] == currentFields;
        assert RowsUntilOversized(columnHeaders, content[index..]) == [];
        assert result == RowsUntilOversized(columnHeaders, content[1..]);
        return;
      }
      var currentDictionary := FieldsToDictionary(columnHeaders, currentFields);
      assert content[index..][1..] == content[index + 1..];
      result := result + [currentDictionary];
      assert content[1..index + 1] == content[1..index] + [currentFields];
      index := index + 1;
    }
    assert content[index..] == [];
    assert content[1..index] == content[1..];
  }

  /** The inner loop of `LoadCSVAsDictionary`: each header in turn is set to the field
      in its column, or to nothing past the end of the row. */
  method FieldsToDictionary(columnHeaders: seq<string>, currentFields: seq<string>) returns (currentDictionary: Row)
    ensures currentDictionary == RowDictionary(columnHeaders, currentFields)
  {
    currentDictionary := map[];
    for headerIndex := 0 to |columnHeaders|
      invariant currentDictionary == RowUpTo(columnHeaders, currentFields, headerIndex)
    {
      currentDictionary := currentDictionary[columnHeaders[headerIndex] :=
        if headerIndex < |currentFields| then Some(currentFields[headerIndex]) else None];
    }
  }

  /** The rows that were kept are the first ones, in order; when the result falls short,
      the next row is the first one longer than the header. */
  lemma {:induction false} RowsUntilOversizedMeaning(headers: seq<string>, rows: seq<seq<string>>)
    ensures var r := RowsUntilOversized(headers, rows);
            (forall i :: 0 <= i < |r| ==> |rows[i]| <= |headers| && r[i] == RowDictionary(headers, rows[i]))
            && (|r| < |rows| ==> |rows[|r|]| > |headers|)
            && (|r| == |rows| <==> !HasOversizedRow(headers, rows))
    decreases |rows|
  {
    if rows != [] && |rows[0]| <= |headers| {
      RowsUntilOversizedMeaning(headers, rows[1..]);
      var r := RowsUntilOversized(headers, rows);
      var t := RowsUntilOversized(headers, rows[1..]);
      assert r == [RowDictionary(headers, rows[0])] + t;
      forall i | 0 <= i < |r| ensures |rows[i]| <= |headers| && r[i] == RowDictionary(headers, rows[i]) {
        if i > 0 {
          assert r[i] == t[i - 1] && rows[i] == rows[1..][i - 1];
        }
      }
      if HasOversizedRow(headers, rows) {
        var i :| 0 <= i < |rows| && |rows[i]| > |headers|;
        assert rows[1..][i - 1] == rows[i];
      }
      if HasOversizedRow(headers, rows[1..]) {
        var i :| 0 <= i < |rows[1..]| && |rows[1..][i]| > |headers|;
        assert rows[i + 1] == rows[1..][i];
      }
    }
  }
}
