/**
 * The known-variant reader (eval_somatic_control.py, lines 127-159): a
 * tab-separated table whose first row is a header naming at least the seven
 * required columns, followed by one row per expected somatic variant. The
 * header is only checked for the presence of the names; the rows are read
 * by position.
 */
module TruthReader {
  import opened Results
  import opened PyText
  import opened PyNumbers
  import opened Records

  /** One expected variant: what the reader puts into each row's dict. */
  datatype TruthVariant = TruthVariant(chr: string, position: int, ref: string, alt: string,
                                       gene: string, hgvsp: string, vaf: Decimal)

  /** The column names the header must contain, in the order the rows hold them. */
  const RequiredFields: seq<string> := ["chr", "position", "ref", "alt", "gene", "hgvsp", "vaf"]

  /** The dict the reader builds for a row: the seven required keys, in that order. */
  function TruthDict(t: TruthVariant): Dict {
    [Field("chr", Str(t.chr)), Field("position", Int(t.position)), Field("ref", Str(t.ref)),
     Field("alt", Str(t.alt)), Field("gene", Str(t.gene)), Field("hgvsp", Str(t.hgvsp)),
     Field("vaf", Float(t.vaf))]
  }

  /** Every record the reader returns has exactly the required keys, once each, in their fixed order. */
  lemma TruthDictKeys(t: TruthVariant)
    ensures UniqueKeys(TruthDict(t))
    ensures Keys(TruthDict(t)) == RequiredFields
  {
    var d := TruthDict(t);
    var ks := Keys(d);
    assert |ks| == 7;
    assert ks[0] == "chr" && ks[1] == "position" && ks[2] == "ref" && ks[3] == "alt";
    assert ks[4] == "gene" && ks[5] == "hgvsp" && ks[6] == "vaf";
    assert ks == RequiredFields;
    RequiredFieldsDistinct();
  }

  /** The required names are pairwise different. */
  lemma RequiredFieldsDistinct()
    ensures forall i, j :: 0 <= i < j < |RequiredFields| ==> RequiredFields[i] != RequiredFields[j]
  {
  }

  /** The header check: every required name occurs among the header's cells, anywhere. */
  predicate HasRequiredFields(header: seq<string>) {
    forall f :: f in RequiredFields ==> f in header
  }

  /** The cells of one line of the table. */
  function Cells(line: string): seq<string> {
    Split(line, '\t')
  }

  /** The text handed to `float` for the VAF cell: stripped, with every `%` removed. */
  function VafText(cell: string): (t: string)
    ensures '%' !in t
  {
    ReplaceRemovesChar(Strip(cell), '%');
    Replace(Strip(cell), "%", "")
  }

  /**
   * One row's record. Python builds the dict literal left to right, so a row
   * of fewer than two cells fails at `row[0]` or `row[1]`, a bad position
   * fails before the later cells are looked at, and a row of fewer than
   * seven cells with a good position fails at the first missing cell.
   */
  function ParseTruthRow(row: seq<string>): (r: Result<TruthVariant>)
    ensures |row| < 2 ==> r == Err(IndexError)
    ensures |row| >= 2 && ParseInt(Strip(row[1])).Err? ==> r == Err(ValueError)
    ensures r.Ok? <==> |row| >= 7 && ParseInt(Strip(row[1])).Ok? && ParseFloat(VafText(row[6])).Ok?
    ensures r.Err? ==> r.error == IndexError || r.error == ValueError
  {
    if |row| < 2 then Err(IndexError)
    else
      var position :- ParseInt(Strip(row[1]));
      if |row| < 7 then Err(IndexError)
      else
        var vaf :- ParseFloat(VafText(row[6]));
        Ok(TruthVariant(Strip(row[0]), position, Strip(row[2]), Strip(row[3]),
                        Strip(row[4]), Strip(row[5]), vaf))
  }

  /** One line of the table after the header, read as a row. */
  function ParseTruthLine(line: string): Result<TruthVariant> {
    ParseTruthRow(Cells(line))
  }

  /** The records of the rows, in order, or the exception of the first row that fails. */
  function TruthRows(lines: seq<string>): Result<seq<TruthVariant>> {
    MapAll(lines, ParseTruthLine)
  }

  /**
   * What the reader returns for the lines of the table: StopIteration for an
   * empty table, the "Invalid header" error when a required name is missing
   * from the first line, and otherwise the records of the remaining lines.
   */
  function KnownRecords(lines: seq<string>): Result<seq<TruthVariant>> {
    if lines == [] then Err(StopIteration)
    else if !HasRequiredFields(Cells(lines[0])) then Err(InvalidHeader)
    else TruthRows(lines[1..])
  }

  /** The reader: the header check, then one pass over the rows, appending each record. */
  method ReadKnownTsv(lines: seq<string>) returns (r: Result<seq<TruthVariant>>)
    ensures r == KnownRecords(lines)
  {
    if |lines| == 0 {
      return Err(StopIteration);
    }
    var header := Cells(lines[0]);
    if !HasRequiredFields(header) {
      return Err(InvalidHeader);
    }
    var dataList: seq<TruthVariant> := [];
    var i := 1;
    PrependConcat([], [], TruthRows(lines[1..]));
    while i < |lines|
      invariant 1 <= i <= |lines|
      invariant TruthRows(lines[1..]) == Prepend(dataList, TruthRows(lines[i..]))
    {
      assert lines[i..][1..] == lines[i + 1..];
      var t := ParseTruthLine(lines[i]);
      if t.Err? {
        return Err(t.error);
      }
      PrependConcat(dataList, [t.value], TruthRows(lines[i + 1..]));
      dataList := dataList + [t.value];
      i := i + 1;
    }
    assert lines[i..] == [];
    assert dataList + [] == dataList;
    return Ok(dataList);
  }

  /** When reading the rows fails, it raises what the first failing row raises. */
  lemma TruthRowsFirstError(lines: seq<string>)
    requires TruthRows(lines).Err?
    ensures exists k :: FailsFirstAt(lines, ParseTruthLine, k, TruthRows(lines).error)
  {
    MapAllFirstError(lines, ParseTruthLine);
  }

  /**
   * With a valid header, the reader succeeds exactly when every later line
   * parses, and then yields one record per line, in order.
   */
  lemma TruthRowsShape(lines: seq<string>)
    requires lines != [] && HasRequiredFields(Cells(lines[0]))
    ensures KnownRecords(lines).Ok? <==> forall k :: 1 <= k < |lines| ==> ParseTruthLine(lines[k]).Ok?
    ensures KnownRecords(lines).Ok? ==>
              |KnownRecords(lines).value| == |lines| - 1
              && forall k :: 0 <= k < |lines| - 1 ==> ParseTruthLine(lines[k + 1]) == Ok(KnownRecords(lines).value[k])
  {
    MapAllTailEachOf(lines, ParseTruthLine, KnownRecords(lines));
  }

  /** A failing row fails the whole read with a row error, never with a header error. */
  lemma TruthRowsError(lines: seq<string>)
    requires TruthRows(lines).Err?
    ensures TruthRows(lines).error == IndexError || TruthRows(lines).error == ValueError
  {
    TruthRowsFirstError(lines);
    var k: nat :| FailsFirstAt(lines, ParseTruthLine, k, TruthRows(lines).error);
  }

  /**
   * The reader reports an empty table with StopIteration and rejects the
   * header exactly when a required name is missing from it.
   */
  lemma HeaderValidation(lines: seq<string>)
    ensures KnownRecords(lines) == Err(StopIteration) <==> lines == []
    ensures KnownRecords(lines) == Err(InvalidHeader) <==> lines != [] && !HasRequiredFields(Cells(lines[0]))
  {
    if lines != [] && HasRequiredFields(Cells(lines[0])) && TruthRows(lines[1..]).Err? {
      TruthRowsError(lines[1..]);
    }
  }

  /**
   * The header is checked only for the names it contains: reordering its
   * cells does not change the verdict, and extra columns are allowed.
   */
  lemma ColumnOrderIgnored(header: seq<string>, other: seq<string>, extra: seq<string>)
    requires multiset(header) == multiset(other)
    ensures HasRequiredFields(header) <==> HasRequiredFields(other)
    ensures HasRequiredFields(header) ==> HasRequiredFields(header + extra)
  {
    assert forall f :: f in header <==> f in multiset(header);
    assert forall f :: f in other <==> f in multiset(other);
  }

  /**
   * The rows are read by position whatever the header says: two tables with
   * different valid headers and the same rows give the same records.
   */
  lemma RowsReadByPosition(header: string, other: string, rows: seq<string>)
    requires HasRequiredFields(Cells(header)) && HasRequiredFields(Cells(other))
    ensures KnownRecords([header] + rows) == KnownRecords([other] + rows)
  {
    assert ([header] + rows)[1..] == rows;
    assert ([other] + rows)[1..] == rows;
  }

  /** Removing a one-character pattern from two texts separately or joined gives the same text. */
  lemma {:induction false} ReplaceCharConcat(a: string, b: string, c: char)
    ensures Replace(a + b, [c], []) == Replace(a, [c], []) + Replace(b, [c], [])
    decreases |a|
  {
    if a != [] {
      var s := a + b;
      assert s[1..] == a[1..] + b;
      ReplaceCharConcat(a[1..], b, c);
      if StartsWith(a, [c]) {
        assert StartsWith(s, [c]);
      } else {
        assert !StartsWith(s, [c]);
      }
    } else {
      assert a + b == b;
      assert Replace([], [c], []) == [] by {
        assert !StartsWith([], [c]);
      }
    }
  }

  /** Every `%` of the VAF cell is dropped, not only a trailing one: `1%2` reads as `12`. */
  lemma PercentAnywhere(a: string, b: string)
    ensures Replace(a + "%" + b, "%", "") == Replace(a + b, "%", "")
  {
    ReplaceCharConcat(a + "%", b, '%');
    ReplaceCharConcat(a, "%", '%');
    ReplaceCharConcat(a, b, '%');
    assert Replace("%", "%", "") == [] by {
      assert StartsWith("%", "%");
      assert "%"[1..] == [];
      assert !StartsWith([], "%");
    }
  }

  /** A cell as a writer of the table puts it: no tab inside and no white space at its ends. */
  predicate CleanCell(s: string) {
    '\t' !in s && Trimmed(s)
  }

  /** The cells of a row as a writer of the table puts them, the VAF as a percentage with its `%` sign. */
  function TruthCells(t: TruthVariant): seq<string> {
    [t.chr, IntToString(t.position), t.ref, t.alt, t.gene, t.hgvsp, FloatToString(t.vaf) + "%"]
  }

  function TruthLine(t: TruthVariant): string {
    Join(TruthCells(t), '\t')
  }

  /**
   * A written row reads back as the variant it was written from: every text
   * cell as it was, the position exactly and the VAF with the same value.
   */
  lemma TruthLineRoundTrip(t: TruthVariant)
    requires CleanCell(t.chr) && CleanCell(t.ref) && CleanCell(t.alt)
    requires CleanCell(t.gene) && CleanCell(t.hgvsp)
    ensures ParseTruthLine(TruthLine(t)).Ok?
    ensures var u := ParseTruthLine(TruthLine(t)).value;
            u == t.(vaf := u.vaf) && u.vaf.Value() == t.vaf.Value()
  {
    TruthLineCells(t);
    TruthCellsParse(t);
    FloatRoundTrip(t.vaf);
  }

  lemma TruthLineCells(t: TruthVariant)
    requires CleanCell(t.chr) && CleanCell(t.ref) && CleanCell(t.alt)
    requires CleanCell(t.gene) && CleanCell(t.hgvsp)
    ensures Cells(TruthLine(t)) == TruthCells(t)
  {
    TruthCellsTabFree(t);
    SplitJoin(TruthCells(t), '\t');
  }

  lemma TruthCellsParse(t: TruthVariant)
    requires Trimmed(t.chr) && Trimmed(t.ref) && Trimmed(t.alt) && Trimmed(t.gene) && Trimmed(t.hgvsp)
    ensures ParseFloat(FloatToString(t.vaf)).Ok?
    ensures ParseTruthRow(TruthCells(t)) == Ok(t.(vaf := ParseFloat(FloatToString(t.vaf)).value))
  {
    FloatRoundTrip(t.vaf);
    var v := ParseFloat(FloatToString(t.vaf)).value;
    VafCellParses(t, v);
    PositionCellParses(t);
    TruthCellsRow(t, v);
  }

  lemma VafCellParses(t: TruthVariant, v: Decimal)
    requires ParseFloat(FloatToString(t.vaf)) == Ok(v)
    ensures ParseFloat(VafText(TruthCells(t)[6])) == Ok(v)
  {
    VafCellText(t.vaf);
  }

  lemma PositionCellParses(t: TruthVariant)
    ensures ParseInt(Strip(TruthCells(t)[1])) == Ok(t.position)
  {
    assert TruthCells(t)[1] == IntToString(t.position);
    IntCellParses(t.position);
  }

  lemma IntCellParses(n: int)
    ensures ParseInt(Strip(IntToString(n))) == Ok(n)
  {
    var s := IntToString(n);
    NumberTextTrimmed(s);
    StripTrimmed(s);
    IntRoundTrip(n);
  }

  lemma TruthCellsRow(t: TruthVariant, v: Decimal)
    requires Trimmed(t.chr) && Trimmed(t.ref) && Trimmed(t.alt) && Trimmed(t.gene) && Trimmed(t.hgvsp)
    requires ParseFloat(VafText(TruthCells(t)[6])) == Ok(v)
    requires ParseInt(Strip(TruthCells(t)[1])) == Ok(t.position)
    ensures ParseTruthRow(TruthCells(t)) == Ok(t.(vaf := v))
  {
    ParseTruthRowOk(TruthCells(t), t.position, v);
    StripTrimmed(t.chr);
    StripTrimmed(t.ref);
    StripTrimmed(t.alt);
    StripTrimmed(t.gene);
    StripTrimmed(t.hgvsp);
  }

  /**
   * A row whose position and VAF convert yields the record of its cells. A
   * caller gets the record field by field without unfolding the parser, and
   * learns that cells past the seventh are never looked at.
   */
  lemma ParseTruthRowOk(row: seq<string>, position: int, vaf: Decimal)
    requires |row| >= 7
    requires ParseInt(Strip(row[1])) == Ok(position) && ParseFloat(VafText(row[6])) == Ok(vaf)
    ensures ParseTruthRow(row) == Ok(TruthVariant(Strip(row[0]), position, Strip(row[2]), Strip(row[3]),
                                                  Strip(row[4]), Strip(row[5]), vaf))
  {
  }

  lemma TruthCellsTabFree(t: TruthVariant)
    requires '\t' !in t.chr && '\t' !in t.ref && '\t' !in t.alt && '\t' !in t.gene && '\t' !in t.hgvsp
    ensures forall i :: 0 <= i < |TruthCells(t)| ==> '\t' !in TruthCells(t)[i]
  {
    var p1, p6 := IntToString(t.position), FloatToString(t.vaf) + "%";
    assert '\t' !in p1 by {
      IntTextChars(t.position);
    }
    VafCellTabFree(t.vaf);
    SevenTabFree(t.chr, p1, t.ref, t.alt, t.gene, t.hgvsp, p6);
  }

  lemma SevenTabFree(c0: string, c1: string, c2: string, c3: string, c4: string, c5: string, c6: string)
    requires '\t' !in c0 && '\t' !in c1 && '\t' !in c2 && '\t' !in c3
    requires '\t' !in c4 && '\t' !in c5 && '\t' !in c6
    ensures forall i :: 0 <= i < 7 ==> '\t' !in [c0, c1, c2, c3, c4, c5, c6][i]
  {
  }

  lemma VafCellTabFree(d: Decimal)
    ensures '\t' !in FloatToString(d) + "%"
  {
    FloatTextChars(d);
  }

  /** The VAF cell `str(x) + "%"` is handed to `float` as `str(x)`. */
  lemma VafCellText(d: Decimal)
    ensures VafText(FloatToString(d) + "%") == FloatToString(d)
  {
    var x := FloatToString(d);
    NumberTextTrimmed(x);
    PercentCellTrimmed(x);
    NoPercentInFloat(d);
    PercentRemoved(x);
    assert Strip(x + "%") == x + "%";
    assert Replace(x + "%", "%", "") == x;
  }

  lemma NoPercentInFloat(d: Decimal)
    ensures '%' !in FloatToString(d)
  {
    FloatTextChars(d);
  }

  lemma PercentCellTrimmed(x: string)
    requires |x| >= 1 && Trimmed(x)
    ensures Strip(x + "%") == x + "%"
  {
    var c := x + "%";
    assert c[0] == x[0] && c[|c| - 1] == '%';
    StripTrimmed(c);
  }

  lemma PercentRemoved(x: string)
    requires '%' !in x
    ensures Replace(x + "%", "%", "") == x
  {
    ReplaceCharConcat(x, "%", '%');
    ReplaceCharAbsent(x, '%');
    assert Replace("%", "%", "") == [] by {
      assert StartsWith("%", "%");
      assert "%"[1..] == [];
      assert !StartsWith([], "%");
    }
  }
}
