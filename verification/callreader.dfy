/**
 * The call-file reader (`read_vcf_data`, eval_somatic_control.py lines
 * 89-125): every line that does not start with `#` becomes one record
 * holding the chromosome, the position, the two alleles and the variant
 * allele fraction computed from the sample's AD (allelic depths) value.
 * The file is given as its sequence of lines.
 */
module CallReader {
  import opened Results
  import opened PyText
  import opened PyNumbers
  import opened Records

  /** One call: the dict the reader builds, with `vaf` None when FORMAT has no AD. */
  datatype CallVariant = CallVariant(chr: string, pos: int, ref: string, alt: string, vaf: Option<Decimal>)

  /** The call as the dict the script stores, keys in the source's order. */
  function CallDict(c: CallVariant): (d: Dict)
    ensures UniqueKeys(d)
  {
    [Field("chr", Str(c.chr)), Field("pos", Int(c.pos)), Field("ref", Str(c.ref)), Field("alt", Str(c.alt)),
     Field("vaf", VafValue(c.vaf))]
  }

  /** The stored `vaf`: a float, or None when there was no AD. */
  function VafValue(vaf: Option<Decimal>): Value {
    if vaf.Some? then Float(vaf.value) else NoneValue
  }

  /**
   * `round(alt / (ref + alt) * 100, 3)`: the share of the alternative allele
   * in percent, to three decimals; a zero total depth raises ZeroDivisionError.
   */
  function AlleleFraction(refDepth: int, altDepth: int): (r: Result<Decimal>)
    ensures r.Err? <==> refDepth + altDepth == 0
    ensures r.Err? ==> r.error == ZeroDivisionError
    ensures r.Ok? ==> r.value.scale == 3
  {
    var total := refDepth + altDepth;
    if total == 0 then Err(ZeroDivisionError)
    else Ok(Round3(altDepth as real / total as real * 100.0))
  }

  /** The fraction is the exact percentage to within half a thousandth. */
  lemma AlleleFractionClose(refDepth: int, altDepth: int)
    requires refDepth + altDepth != 0
    ensures var exact := altDepth as real / (refDepth + altDepth) as real * 100.0;
            -0.0005 <= AlleleFraction(refDepth, altDepth).value.Value() - exact <= 0.0005
  {
    Round3Close(altDepth as real / (refDepth + altDepth) as real * 100.0);
  }

  /** With depths that are not negative the allele fraction is a percentage. */
  lemma AlleleFractionIsPercentage(refDepth: nat, altDepth: nat)
    requires refDepth + altDepth > 0
    ensures AlleleFraction(refDepth, altDepth).Ok?
    ensures 0.0 <= AlleleFraction(refDepth, altDepth).value.Value() <= 100.0
  {
    var x := altDepth as real / (refDepth + altDepth) as real;
    assert 0.0 <= x <= 1.0;
    Round3Percentage(x * 100.0);
  }

  /** `ref_depth, alt_depth = map(int, value.split(","))` */
  function ParseDepths(value: string): (r: Result<(int, int)>)
    ensures r.Err? ==> r.error == ValueError
    ensures var parts := Split(value, ',');
            r.Ok? <==> |parts| == 2 && ParseInt(parts[0]).Ok? && ParseInt(parts[1]).Ok?
    ensures r.Ok? ==> r.value == (ParseInt(Split(value, ',')[0]).value, ParseInt(Split(value, ',')[1]).value)
  {
    var parts := Split(value, ',');
    if |parts| != 2 then Err(ValueError)
    else
      var refDepth :- ParseInt(parts[0]);
      var altDepth :- ParseInt(parts[1]);
      Ok((refDepth, altDepth))
  }

  /**
   * The `vaf` of a call line already split into at least nine fields: None
   * when the FORMAT field (index 8) lists no `AD`, otherwise the allele
   * fraction of the sample field's (index 9) value at the position of `AD`.
   */
  function SampleVaf(fields: seq<string>): (r: Result<Option<Decimal>>)
    requires |fields| >= 9
    ensures r == Ok(None) <==> "AD" !in Split(fields[8], ':')
    ensures "AD" in Split(fields[8], ':') && |fields| < 10 ==> r == Err(IndexError)
    ensures r.Err? ==> r.error == IndexError || r.error == ValueError || r.error == ZeroDivisionError
  {
    var format := Split(fields[8], ':');
    if "AD" !in format then Ok(None)
    else if |fields| < 10 then Err(IndexError)
    else
      var sample := Split(fields[9], ':');
      var k := Find(format, "AD");
      if k >= |sample| then Err(IndexError)
      else
        var depths :- ParseDepths(sample[k]);
        var vaf :- AlleleFraction(depths.0, depths.1);
        Ok(Some(vaf))
  }

  /**
   * One data line of the call file, turned into its record: fewer than nine
   * fields fail at `fields[8]`, the `vaf` is computed before the position is
   * converted, and a bad position fails with ValueError.
   */
  function ParseCallLine(line: string): Result<CallVariant> {
    var fields := Split(Strip(line), '\t');
    if |fields| < 9 then Err(IndexError)
    else
      var vaf :- SampleVaf(fields);
      var pos :- ParseInt(fields[1]);
      Ok(CallVariant(fields[0], pos, fields[3], fields[4], vaf))
  }

  /**
   * The outcome of one data line: IndexError for fewer than nine fields, the
   * exception of the `vaf` computation, then ValueError for a bad position;
   * a record exactly when all three succeed.
   */
  lemma ParseCallLineOutcome(line: string)
    ensures var fields := Split(Strip(line), '\t');
            |fields| < 9 ==> ParseCallLine(line) == Err(IndexError)
    ensures var fields := Split(Strip(line), '\t');
            ParseCallLine(line).Ok? <==> |fields| >= 9 && SampleVaf(fields).Ok? && ParseInt(fields[1]).Ok?
    ensures var fields := Split(Strip(line), '\t');
            |fields| >= 9 && SampleVaf(fields).Err? ==> ParseCallLine(line) == Err(SampleVaf(fields).error)
    ensures var fields := Split(Strip(line), '\t');
            |fields| >= 9 && SampleVaf(fields).Ok? && ParseInt(fields[1]).Err? ==> ParseCallLine(line) == Err(ValueError)
  {
  }

  predicate IsComment(line: string) {
    StartsWith(line, "#")
  }

  /** The lines the reader turns into records, in file order. */
  function DataLines(lines: seq<string>): seq<string> {
    if lines == [] then []
    else if IsComment(lines[0]) then DataLines(lines[1..])
    else [lines[0]] + DataLines(lines[1..])
  }

  /** Reading two pieces of a file one after the other keeps the data lines of each, in order. */
  lemma {:induction false} DataLinesAppend(a: seq<string>, b: seq<string>)
    ensures DataLines(a + b) == DataLines(a) + DataLines(b)
  {
    if a != [] {
      assert (a + b)[1..] == a[1..] + b;
      DataLinesAppend(a[1..], b);
    } else {
      assert a + b == b;
    }
  }

  /** A single line is kept, once, exactly when it is not a comment. */
  lemma DataLinesOne(line: string)
    ensures DataLines([line]) == if IsComment(line) then [] else [line]
  {
    assert [line][1..] == [];
  }

  /** The data lines are the lines that are not comments, each kept. */
  lemma {:induction false} DataLinesFilter(lines: seq<string>)
    ensures |DataLines(lines)| <= |lines|
    ensures forall k :: 0 <= k < |DataLines(lines)| ==> DataLines(lines)[k] in lines && !IsComment(DataLines(lines)[k])
    ensures forall k :: 0 <= k < |lines| && !IsComment(lines[k]) ==> lines[k] in DataLines(lines)
  {
    if lines != [] {
      DataLinesFilter(lines[1..]);
      var ds := DataLines(lines);
      var tail := DataLines(lines[1..]);
      forall k | 0 <= k < |lines| && !IsComment(lines[k]) ensures lines[k] in ds {
        if k > 0 {
          assert lines[k] == lines[1..][k - 1];
        }
      }
    }
  }

  /** What the reader returns for the given lines: all records, or the first failing line's exception. */
  function CallRecords(lines: seq<string>): Result<seq<CallVariant>> {
    MapAll(DataLines(lines), ParseCallLine)
  }

  /** The reader: one pass over the lines, appending each data line's record. */
  method ReadVcfData(lines: seq<string>) returns (r: Result<seq<CallVariant>>)
    ensures r == CallRecords(lines)
  {
    var dataList: seq<CallVariant> := [];
    var i := 0;
    assert lines[i..] == lines;
    PrependConcat([], [], CallRecords(lines));
    while i < |lines|
      invariant 0 <= i <= |lines|
      invariant CallRecords(lines) == Prepend(dataList, CallRecords(lines[i..]))
    {
      var line := lines[i];
      assert lines[i..][1..] == lines[i + 1..];
      assert DataLines(lines[i..]) == if IsComment(line) then DataLines(lines[i + 1..]) else [line] + DataLines(lines[i + 1..]);
      if !IsComment(line) {
        var c := ParseCallLine(line);
        if c.Err? {
          return Err(c.error);
        }
        PrependConcat(dataList, [c.value], CallRecords(lines[i + 1..]));
        dataList := dataList + [c.value];
      }
      i := i + 1;
    }
    assert lines[i..] == [];
    assert dataList + [] == dataList;
    return Ok(dataList);
  }

  /**
   * The reader succeeds exactly when every data line parses, and then yields
   * one record per data line, in order.
   */
  lemma CallRecordsPerLine(lines: seq<string>)
    ensures CallRecords(lines).Ok? <==> AllOk(DataLines(lines), ParseCallLine)
    ensures CallRecords(lines).Ok? ==> MapsTo(DataLines(lines), ParseCallLine, CallRecords(lines).value)
  {
    MapAllEachOf(DataLines(lines), ParseCallLine, CallRecords(lines));
  }

  /** When the reader fails, it raises what the first failing data line raises. */
  lemma CallRecordsFirstError(lines: seq<string>)
    requires CallRecords(lines).Err?
    ensures exists k :: FailsFirstAt(DataLines(lines), ParseCallLine, k, CallRecords(lines).error)
  {
    MapAllFirstError(DataLines(lines), ParseCallLine);
  }

  /** An AD value as a caller writes it: the two depths, comma-separated. */
  function AdText(refDepth: int, altDepth: int): string {
    IntToString(refDepth) + "," + IntToString(altDepth)
  }

  /** The sample field of a written call line: genotype `0/1`, then the AD value. */
  function SampleText(refDepth: int, altDepth: int): string {
    "0/1:" + AdText(refDepth, altDepth)
  }

  /** A call line as a caller writes it: ten tab-separated fields, FORMAT `GT:AD`. */
  function CallLine(chr: string, pos: int, id: string, ref: string, alt: string, qual: string,
                    filter: string, info: string, refDepth: int, altDepth: int): string
  {
    Join(CallFields(chr, pos, id, ref, alt, qual, filter, info, refDepth, altDepth), '\t')
  }

  function CallFields(chr: string, pos: int, id: string, ref: string, alt: string, qual: string,
                      filter: string, info: string, refDepth: int, altDepth: int): seq<string>
  {
    [chr, IntToString(pos), id, ref, alt, qual, filter, info, "GT:AD", SampleText(refDepth, altDepth)]
  }

  /** `str(n)` holds neither a separator of the call line nor a comma. */
  lemma IntTextSeparators(n: int)
    ensures ',' !in IntToString(n) && ':' !in IntToString(n) && '\t' !in IntToString(n)
  {
    IntTextChars(n);
  }

  /** The sample field holds no tab and ends in a digit. */
  lemma SampleTextChars(refDepth: int, altDepth: int)
    ensures ':' !in AdText(refDepth, altDepth)
    ensures '\t' !in SampleText(refDepth, altDepth)
    ensures IsDigit(SampleText(refDepth, altDepth)[|SampleText(refDepth, altDepth)| - 1])
  {
    var als := IntToString(altDepth);
    IntTextSeparators(refDepth);
    IntTextSeparators(altDepth);
    IntTextChars(altDepth);
    var s := SampleText(refDepth, altDepth);
    assert s[|s| - 1] == als[|als| - 1];
  }

  /** An AD value written as `str(ref) + "," + str(alt)` reads back as the two depths. */
  lemma DepthsText(refDepth: int, altDepth: int)
    ensures ParseDepths(AdText(refDepth, altDepth)) == Ok((refDepth, altDepth))
  {
    var rs := IntToString(refDepth);
    var als := IntToString(altDepth);
    IntTextSeparators(refDepth);
    IntTextSeparators(altDepth);
    assert Join([rs, als], ',') == rs + "," + als;
    SplitJoin([rs, als], ',');
    IntRoundTrip(refDepth);
    IntRoundTrip(altDepth);
  }

  /**
   * A line joined from tab-free fields, with no white space at its ends,
   * splits back into those fields.
   */
  lemma FieldsOfLine(parts: seq<string>)
    requires |parts| >= 1 && parts[0] != [] && parts[|parts| - 1] != []
    requires !IsSpace(parts[0][0]) && !IsSpace(parts[|parts| - 1][|parts[|parts| - 1]| - 1])
    requires forall k :: 0 <= k < |parts| ==> '\t' !in parts[k]
    ensures Split(Strip(Join(parts, '\t')), '\t') == parts
  {
    JoinEnds(parts, '\t');
    StripTrimmed(Join(parts, '\t'));
    SplitJoin(parts, '\t');
  }

  /**
   * The general case: FORMAT codes and sample values joined by `:`, none
   * holding a `:`, with the first `AD` at index `k` and a sample value there
   * that unpacks into two depths. The `vaf` is the allele fraction of those
   * depths, or ZeroDivisionError when they sum to zero.
   */
  lemma SampleVafAt(fields: seq<string>, format: seq<string>, values: seq<string>, k: nat,
                    refDepth: int, altDepth: int)
    requires |fields| >= 10
    requires fields[8] == Join(format, ':') && fields[9] == Join(values, ':')
    requires forall j :: 0 <= j < |format| ==> ':' !in format[j]
    requires forall j :: 0 <= j < |values| ==> ':' !in values[j]
    requires k < |format| && k < |values| && format[k] == "AD"
    requires forall j :: 0 <= j < k ==> format[j] != "AD"
    requires ParseDepths(values[k]) == Ok((refDepth, altDepth))
    ensures refDepth + altDepth != 0 ==> SampleVaf(fields) == Ok(Some(AlleleFraction(refDepth, altDepth).value))
    ensures refDepth + altDepth == 0 ==> SampleVaf(fields) == Err(ZeroDivisionError)
  {
    SplitJoin(format, ':');
    SplitJoin(values, ':');
    assert Split(fields[8], ':') == format;
    assert Split(fields[9], ':') == values;
    FindFirst(format, "AD", k);
    SampleVafOfParts(fields, k, refDepth, altDepth);
  }

  lemma FindFirst<T>(s: seq<T>, c: T, k: nat)
    requires k < |s| && s[k] == c && forall j :: 0 <= j < k ==> s[j] != c
    ensures Find(s, c) == k
  {
  }

  /** The same, stated on the split FORMAT and sample fields. */
  lemma SampleVafOfParts(fields: seq<string>, k: nat, refDepth: int, altDepth: int)
    requires |fields| >= 10
    requires k < |Split(fields[8], ':')| && Find(Split(fields[8], ':'), "AD") == k
    requires k < |Split(fields[9], ':')|
    requires ParseDepths(Split(fields[9], ':')[k]) == Ok((refDepth, altDepth))
    ensures refDepth + altDepth != 0 ==> SampleVaf(fields) == Ok(Some(AlleleFraction(refDepth, altDepth).value))
    ensures refDepth + altDepth == 0 ==> SampleVaf(fields) == Err(ZeroDivisionError)
  {
    assert "AD" in Split(fields[8], ':') by { assert Split(fields[8], ':')[k] == "AD"; }
  }

  lemma FormatGtAd()
    ensures Split("GT:AD", ':') == ["GT", "AD"]
    ensures Find(Split("GT:AD", ':'), "AD") == 1
  {
    var codes := ["GT", "AD"];
    assert Join(codes, ':') == "GT:AD";
    SplitJoin(codes, ':');
    assert codes[0] != "AD" && codes[1] == "AD";
  }

  lemma SampleSplit(ad: string)
    requires ':' !in ad
    ensures Split("0/1:" + ad, ':') == ["0/1", ad]
  {
    assert Join(["0/1", ad], ':') == "0/1:" + ad;
    SplitJoin(["0/1", ad], ':');
  }

  /** The sample field `0/1:<ref>,<alt>` under FORMAT `GT:AD` gives the allele fraction of the two depths. */
  lemma SampleVafOfAd(fields: seq<string>, refDepth: int, altDepth: int)
    requires |fields| == 10 && fields[8] == "GT:AD"
    requires fields[9] == SampleText(refDepth, altDepth)
    requires refDepth + altDepth != 0
    ensures SampleVaf(fields) == Ok(Some(AlleleFraction(refDepth, altDepth).value))
  {
    SampleTextChars(refDepth, altDepth);
    SampleSplit(AdText(refDepth, altDepth));
    FormatGtAd();
    DepthsText(refDepth, altDepth);
    SampleVafOfParts(fields, 1, refDepth, altDepth);
  }

  /** With more FORMAT codes around `AD`: `GT:DP:AD:GQ` over `0/1:100:30,70:99` gives 70.000. */
  lemma SampleVafAmongCodes(fields: seq<string>)
    requires |fields| == 10 && fields[8] == "GT:DP:AD:GQ" && fields[9] == "0/1:100:30,70:99"
    ensures SampleVaf(fields) == Ok(Some(Decimal(70000, 3)))
  {
    FourCodes();
    FindThirdCode();
    FourValues();
    SeventyPercent();
    SampleVafOfParts(fields, 2, 30, 70);
  }

  lemma FourCodes()
    ensures Split("GT:DP:AD:GQ", ':') == ["GT", "DP", "AD", "GQ"]
  {
    var codes := ["GT", "DP", "AD", "GQ"];
    assert Join(codes, ':') == "GT:DP:AD:GQ";
    SplitJoin(codes, ':');
  }

  lemma FindThirdCode()
    ensures Find(["GT", "DP", "AD", "GQ"], "AD") == 2
  {
    var codes := ["GT", "DP", "AD", "GQ"];
    assert codes[0] != "AD" && codes[1] != "AD" && codes[2] == "AD";
  }

  lemma FourValues()
    ensures Split("0/1:100:30,70:99", ':') == ["0/1", "100", "30,70", "99"]
    ensures ParseDepths("30,70") == Ok((30, 70))
  {
    assert Join(["0/1", "100", "30,70", "99"], ':') == "0/1:100:30,70:99";
    SplitJoin(["0/1", "100", "30,70", "99"], ':');
    AdThirtySeventy();
    DepthsText(30, 70);
  }

  lemma AdThirtySeventy()
    ensures AdText(30, 70) == "30,70"
  {
    assert Digits(3) == "3" && Digits(7) == "7";
    assert Digits(30) == "30" && Digits(70) == "70";
  }

  /**
   * A written call line reads back as the call it describes, with the allele
   * fraction computed from its AD value.
   */
  lemma CallLineRoundTrip(chr: string, pos: int, id: string, ref: string, alt: string, qual: string,
                          filter: string, info: string, refDepth: int, altDepth: int)
    requires chr != [] && !IsSpace(chr[0]) && !IsComment(chr)
    requires '\t' !in chr && '\t' !in id && '\t' !in ref && '\t' !in alt
    requires '\t' !in qual && '\t' !in filter && '\t' !in info
    requires refDepth + altDepth != 0
    ensures !IsComment(CallLine(chr, pos, id, ref, alt, qual, filter, info, refDepth, altDepth))
    ensures ParseCallLine(CallLine(chr, pos, id, ref, alt, qual, filter, info, refDepth, altDepth))
            == Ok(CallVariant(chr, pos, ref, alt, Some(AlleleFraction(refDepth, altDepth).value)))
  {
    var parts := CallFields(chr, pos, id, ref, alt, qual, filter, info, refDepth, altDepth);
    var line := CallLine(chr, pos, id, ref, alt, qual, filter, info, refDepth, altDepth);
    assert line == Join(parts, '\t');
    assert parts[0] == chr && parts[1] == IntToString(pos) && parts[3] == ref && parts[4] == alt;
    CallLineSplit(chr, pos, id, ref, alt, qual, filter, info, refDepth, altDepth);
    SampleVafOfAd(parts, refDepth, altDepth);
    IntRoundTrip(pos);
    ParseCallLineOfFields(line, parts);
  }

  lemma CallLineSplit(chr: string, pos: int, id: string, ref: string, alt: string, qual: string,
                      filter: string, info: string, refDepth: int, altDepth: int)
    requires chr != [] && !IsSpace(chr[0]) && !IsComment(chr)
    requires '\t' !in chr && '\t' !in id && '\t' !in ref && '\t' !in alt
    requires '\t' !in qual && '\t' !in filter && '\t' !in info
    ensures var parts := CallFields(chr, pos, id, ref, alt, qual, filter, info, refDepth, altDepth);
            !IsComment(Join(parts, '\t')) && Split(Strip(Join(parts, '\t')), '\t') == parts
  {
    var parts := CallFields(chr, pos, id, ref, alt, qual, filter, info, refDepth, altDepth);
    CallFieldsClean(chr, pos, id, ref, alt, qual, filter, info, refDepth, altDepth);
    FieldsOfLine(parts);
    JoinStartsWith(parts, '\t');
  }

  lemma CallFieldsClean(chr: string, pos: int, id: string, ref: string, alt: string, qual: string,
                        filter: string, info: string, refDepth: int, altDepth: int)
    requires chr != [] && !IsSpace(chr[0]) && !IsComment(chr)
    requires '\t' !in chr && '\t' !in id && '\t' !in ref && '\t' !in alt
    requires '\t' !in qual && '\t' !in filter && '\t' !in info
    ensures var parts := CallFields(chr, pos, id, ref, alt, qual, filter, info, refDepth, altDepth);
            |parts| == 10 && parts[0] != [] && parts[9] != [] && !IsSpace(parts[0][0]) && parts[0][0] != '#'
            && !IsSpace(parts[9][|parts[9]| - 1]) && forall k :: 0 <= k < |parts| ==> '\t' !in parts[k]
  {
    var parts := CallFields(chr, pos, id, ref, alt, qual, filter, info, refDepth, altDepth);
    assert chr[0] != '#' by {
      assert !IsComment(chr);
    }
    assert !IsSpace(parts[9][|parts[9]| - 1]) by {
      SampleTextChars(refDepth, altDepth);
    }
    CallFieldsTabFree(chr, pos, id, ref, alt, qual, filter, info, refDepth, altDepth);
  }

  lemma CallFieldsTabFree(chr: string, pos: int, id: string, ref: string, alt: string, qual: string,
                          filter: string, info: string, refDepth: int, altDepth: int)
    requires '\t' !in chr && '\t' !in id && '\t' !in ref && '\t' !in alt
    requires '\t' !in qual && '\t' !in filter && '\t' !in info
    ensures var parts := CallFields(chr, pos, id, ref, alt, qual, filter, info, refDepth, altDepth);
            forall k :: 0 <= k < |parts| ==> '\t' !in parts[k]
  {
    var parts := CallFields(chr, pos, id, ref, alt, qual, filter, info, refDepth, altDepth);
    var p1, p9 := IntToString(pos), SampleText(refDepth, altDepth);
    assert '\t' !in p1 by {
      IntTextSeparators(pos);
    }
    assert '\t' !in p9 by {
      SampleTextChars(refDepth, altDepth);
    }
    assert parts == [chr, p1, id, ref, alt, qual, filter, info, "GT:AD", p9];
    TenTabFree(chr, p1, id, ref, alt, qual, filter, info, "GT:AD", p9);
  }

  lemma TenTabFree(c0: string, c1: string, c2: string, c3: string, c4: string,
                   c5: string, c6: string, c7: string, c8: string, c9: string)
    requires '\t' !in c0 && '\t' !in c1 && '\t' !in c2 && '\t' !in c3 && '\t' !in c4
    requires '\t' !in c5 && '\t' !in c6 && '\t' !in c7 && '\t' !in c8 && '\t' !in c9
    ensures forall i :: 0 <= i < 10 ==> '\t' !in [c0, c1, c2, c3, c4, c5, c6, c7, c8, c9][i]
  {
  }

  /** A joined line starts with a `#` only when its first piece does. */
  lemma JoinStartsWith(parts: seq<string>, sep: char)
    requires |parts| >= 1 && parts[0] != [] && parts[|parts| - 1] != [] && parts[0][0] != '#'
    ensures !IsComment(Join(parts, sep))
  {
    JoinEnds(parts, sep);
  }

  /**
   * A data line whose fields all convert reads as the record of those fields.
   * A caller gets the record field by field without unfolding the parser, and
   * learns that fields 2 and 5 to 7 are never looked at.
   */
  lemma ParseCallLineOfFields(line: string, fields: seq<string>)
    requires Split(Strip(line), '\t') == fields && |fields| >= 9
    requires SampleVaf(fields).Ok? && ParseInt(fields[1]).Ok?
    ensures ParseCallLine(line)
            == Ok(CallVariant(fields[0], ParseInt(fields[1]).value, fields[3], fields[4], SampleVaf(fields).value))
  {
  }

  /** Thirty reference and seventy alternative reads give a fraction of 70. */
  lemma SeventyPercent()
    ensures AlleleFraction(30, 70) == Ok(Decimal(70000, 3))
  {
    assert 70 as real / 100 as real * 100.0 * 1000.0 == 70000.0;
    assert RoundHalfEven(70000.0) == 70000;
  }

  /**
   * A line of nine fields (no sample field) is accepted, without an allele
   * fraction, exactly when its FORMAT lists no AD; otherwise it raises
   * IndexError.
   */
  lemma NineFieldLine(chr: string, pos: int, id: string, ref: string, alt: string, qual: string,
                      filter: string, info: string, format: string)
    requires chr != [] && !IsSpace(chr[0])
    requires format != [] && !IsSpace(format[|format| - 1])
    requires '\t' !in chr && '\t' !in id && '\t' !in ref && '\t' !in alt
    requires '\t' !in qual && '\t' !in filter && '\t' !in info && '\t' !in format
    ensures ParseCallLine(Join([chr, IntToString(pos), id, ref, alt, qual, filter, info, format], '\t'))
            == if "AD" in Split(format, ':') then Err(IndexError) else Ok(CallVariant(chr, pos, ref, alt, None))
  {
    var parts := [chr, IntToString(pos), id, ref, alt, qual, filter, info, format];
    NineFieldsSplit(chr, pos, id, ref, alt, qual, filter, info, format);
    IntRoundTrip(pos);
    NineFieldsParse(Join(parts, '\t'), parts, pos);
  }

  lemma NineFieldsSplit(chr: string, pos: int, id: string, ref: string, alt: string, qual: string,
                        filter: string, info: string, format: string)
    requires chr != [] && !IsSpace(chr[0])
    requires format != [] && !IsSpace(format[|format| - 1])
    requires '\t' !in chr && '\t' !in id && '\t' !in ref && '\t' !in alt
    requires '\t' !in qual && '\t' !in filter && '\t' !in info && '\t' !in format
    ensures var parts := [chr, IntToString(pos), id, ref, alt, qual, filter, info, format];
            Split(Strip(Join(parts, '\t')), '\t') == parts
  {
    var parts := [chr, IntToString(pos), id, ref, alt, qual, filter, info, format];
    assert '\t' !in parts[1] by {
      IntTextSeparators(pos);
    }
    FieldsOfLine(parts);
  }

  lemma NineFieldsParse(line: string, parts: seq<string>, pos: int)
    requires |parts| == 9 && Split(Strip(line), '\t') == parts
    requires ParseInt(parts[1]) == Ok(pos)
    ensures ParseCallLine(line)
            == if "AD" in Split(parts[8], ':') then Err(IndexError)
               else Ok(CallVariant(parts[0], pos, parts[3], parts[4], None))
  {
    if "AD" in Split(parts[8], ':') {
      assert SampleVaf(parts) == Err(IndexError);
      ParseCallLineFails(line, parts);
    } else {
      assert SampleVaf(parts) == Ok(None);
      ParseCallLineOfFields(line, parts);
    }
  }

  /** A data line whose allele fraction cannot be computed raises what that computation raises. */
  lemma ParseCallLineFails(line: string, fields: seq<string>)
    requires Split(Strip(line), '\t') == fields && |fields| >= 9
    requires SampleVaf(fields).Err?
    ensures ParseCallLine(line) == Err(SampleVaf(fields).error)
  {
  }
}
