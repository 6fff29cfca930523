/**
 * The matcher and report builder (eval_somatic_control.py, lines 43-86).
 * Every expected record is annotated in place with `detected` and
 * `found_vaf` from the first call that has its chromosome, position,
 * reference and alternate allele; the annotated records are then written as
 * a tab-separated report, and a plot path is derived from the report path.
 */
module Presence {
  import opened Results
  import opened PyText
  import opened PyNumbers
  import opened Records
  import opened PyPath
  import opened CallReader
  import opened TruthReader

  /** What a run leaves behind besides the annotated records: the report text and the plot path. */
  datatype Output = Output(report: string, plotPath: string)

  /** The `found_vaf` of a record that no call matched. */
  const NotFound: Value := Str(".")

  /** `truth[tk] == call[ck]`, looking up the expected record's key first. */
  function Compare(truth: Dict, tk: string, call: Dict, ck: string): (r: Result<bool>)
    ensures r.Err? ==> r.error == KeyError(tk) || r.error == KeyError(ck)
  {
    var a :- Subscript(truth, tk);
    var b :- Subscript(call, ck);
    Ok(PyEq(a, b))
  }

  /**
   * The match test of lines 64-67: chromosome, position, reference and
   * alternate allele compared in that order; `and` stops at the first pair
   * that differs, so a later missing key raises only when the earlier pairs
   * are equal.
   */
  function KeyMatch(truth: Dict, call: Dict): (r: Result<bool>)
    ensures r.Err? ==> r.error in {KeyError("chr"), KeyError("position"), KeyError("pos"),
                                   KeyError("ref"), KeyError("alt")}
  {
    var chr :- Compare(truth, "chr", call, "chr");
    if !chr then Ok(false)
    else
      var position :- Compare(truth, "position", call, "pos");
      if !position then Ok(false)
      else
        var ref :- Compare(truth, "ref", call, "ref");
        if !ref then Ok(false)
        else Compare(truth, "alt", call, "alt")
  }

  /** The record after lines 61-62: not detected, with the placeholder VAF. */
  function Initialized(truth: Dict): Dict {
    Put(Put(truth, "detected", Bool(false)), "found_vaf", NotFound)
  }

  /** The record after lines 68-69, for a call whose `vaf` is `v`. */
  function Found(d: Dict, v: Value): Dict {
    Put(Put(d, "detected", Bool(true)), "found_vaf", v)
  }

  /** The scan of lines 63-70 over the remaining calls, stopping at the first match. */
  function MatchFrom(d: Dict, calls: seq<Dict>): Result<Dict> {
    if calls == [] then Ok(d)
    else
      var m :- KeyMatch(d, calls[0]);
      if m then
        var v :- Subscript(calls[0], "vaf");
        Ok(Found(d, v))
      else MatchFrom(d, calls[1..])
  }

  /** One expected record, annotated against all calls. */
  function Annotate(truth: Dict, calls: seq<Dict>): Result<Dict> {
    MatchFrom(Initialized(truth), calls)
  }

  function Annotator(calls: seq<Dict>): Dict -> Result<Dict> {
    (d: Dict) => Annotate(d, calls)
  }

  /** All expected records annotated, in order, or the exception of the first that fails. */
  function AnnotateAll(ds: seq<Dict>, calls: seq<Dict>): Result<seq<Dict>> {
    MapAll(ds, Annotator(calls))
  }

  /**
   * The report columns: the first record's keys as read, then `found_vaf` and
   * `detected`. A caller learns that the header is fixed by the first record
   * alone, before any annotation, whatever keys the later records hold.
   */
  function HeaderKeys(first: Dict): (keys: seq<string>)
    ensures |keys| == |first| + 2
    ensures keys[..|first|] == Keys(first) && keys[|first|..] == ["found_vaf", "detected"]
  {
    Keys(first) + ["found_vaf", "detected"]
  }

  /** `str(item[key])` for every column, or the KeyError of the first column the record lacks. */
  function RenderCells(item: Dict, keys: seq<string>): Result<seq<string>> {
    if keys == [] then Ok([])
    else
      var v :- Subscript(item, keys[0]);
      Prepend([ToStr(v)], RenderCells(item, keys[1..]))
  }

  /** One line of the report: the record's cells joined by tabs, then a newline. */
  function RowLine(item: Dict, keys: seq<string>): Result<string> {
    var cells :- RenderCells(item, keys);
    Ok(Join(cells, '\t') + "\n")
  }

  function RowRenderer(keys: seq<string>): Dict -> Result<string> {
    (d: Dict) => RowLine(d, keys)
  }

  /** The lines, one after another. */
  function Concat(lines: seq<string>): string {
    if lines == [] then "" else Concat(lines[..|lines| - 1]) + lines[|lines| - 1]
  }

  lemma ConcatSnoc(lines: seq<string>, line: string)
    ensures Concat(lines + [line]) == Concat(lines) + line
  {
    assert (lines + [line])[..|lines|] == lines;
  }

  /** The report: the header line, then one line per record. */
  function ReportText(rows: seq<Dict>, keys: seq<string>): Result<string> {
    var lines :- MapAll(rows, RowRenderer(keys));
    Ok(Join(keys, '\t') + "\n" + Concat(lines))
  }

  /**
   * What a run produces for the expected records `tsv` and the calls: an
   * empty record list fails at `tsv_data[0]`; otherwise the records are
   * annotated, the report is rendered with the header taken from the first
   * record before annotation, and the plot path is derived from the report path.
   * Drawing the plot is not part of this model, so `Ok` here means the report
   * was built, not that the plot call returns.
   */
  function PresenceOutcome(tsv: seq<Dict>, calls: seq<Dict>, outputCsv: string): (r: Result<Output>)
    ensures tsv == [] ==> r == Err(IndexError)
    ensures r.Ok? ==> AnnotateAll(tsv, calls).Ok? && r.value.plotPath == ImagePath(outputCsv)
  {
    if tsv == [] then Err(IndexError)
    else
      var rows :- AnnotateAll(tsv, calls);
      var report :- ReportText(rows, HeaderKeys(tsv[0]));
      Ok(Output(report, ImagePath(outputCsv)))
  }

  /**
   * The matcher: annotates the records of `tsvData` in place, then renders
   * the report. When it succeeds, the array holds the annotated records.
   */
  method CheckVariantsPresence(tsvData: array<Dict>, vcfData: seq<Dict>, outputCsv: string)
    returns (r: Result<Output>)
    modifies tsvData
    ensures r == PresenceOutcome(old(tsvData[..]), vcfData, outputCsv)
    ensures r.Ok? ==> AnnotateAll(old(tsvData[..]), vcfData) == Ok(tsvData[..])
  {
    if tsvData.Length == 0 {
      return Err(IndexError);
    }
    var headerKeys := HeaderKeys(tsvData[0]);
    var results := AnnotateInPlace(tsvData, vcfData);
    if results.Err? {
      return Err(results.error);
    }
    var report := WriteReport(results.value, headerKeys);
    if report.Err? {
      return Err(report.error);
    }
    return Ok(Output(report.value, ImagePath(outputCsv)));
  }

  /** Lines 59-72: every record annotated in place, in order; the results are the same records. */
  method AnnotateInPlace(tsvData: array<Dict>, vcfData: seq<Dict>) returns (r: Result<seq<Dict>>)
    modifies tsvData
    ensures r == AnnotateAll(old(tsvData[..]), vcfData)
    ensures r.Ok? ==> tsvData[..] == r.value
  {
    ghost var original := tsvData[..];
    var i := 0;
    while i < tsvData.Length
      invariant 0 <= i <= tsvData.Length
      invariant forall k :: i <= k < tsvData.Length ==> tsvData[k] == original[k]
      invariant forall k :: 0 <= k < i ==> Annotate(original[k], vcfData) == Ok(tsvData[k])
    {
      var a := AnnotateRecord(tsvData, i, vcfData);
      if a.Err? {
        AnnotateAllFirstFailure(original, i, vcfData);
        return Err(a.error);
      }
      i := i + 1;
    }
    AnnotateAllPointwise(original, vcfData, tsvData[..]);
    return Ok(tsvData[..]);
  }

  /** Records each annotated to the matching result are annotated, all together, to those results. */
  lemma AnnotateAllPointwise(ds: seq<Dict>, calls: seq<Dict>, rs: seq<Dict>)
    requires |rs| == |ds| && forall k :: 0 <= k < |ds| ==> Annotate(ds[k], calls) == Ok(rs[k])
    ensures AnnotateAll(ds, calls) == Ok(rs)
  {
    MapAllPointwise(ds, Annotator(calls), rs);
  }

  /** The first record whose annotation fails fails them all, with its exception. */
  lemma AnnotateAllFirstFailure(ds: seq<Dict>, i: nat, calls: seq<Dict>)
    requires i < |ds| && (forall k :: 0 <= k < i ==> Annotate(ds[k], calls).Ok?) && Annotate(ds[i], calls).Err?
    ensures AnnotateAll(ds, calls) == Err(Annotate(ds[i], calls).error)
  {
    MapAllFirstFailure(ds, i, Annotator(calls));
  }

  /**
   * Lines 60-70 for the record at index `i`: the record is reset to "not
   * detected", then updated from the first matching call. On success the
   * record holds its annotation; no other record changes in any case.
   */
  method AnnotateRecord(tsvData: array<Dict>, i: nat, vcfData: seq<Dict>) returns (r: Result<Dict>)
    requires i < tsvData.Length
    modifies tsvData
    ensures r == Annotate(old(tsvData[i]), vcfData)
    ensures r.Ok? ==> tsvData[i] == r.value
    ensures forall k :: 0 <= k < tsvData.Length && k != i ==> tsvData[k] == old(tsvData[k])
  {
    ghost var truth := tsvData[i];
    tsvData[i] := Put(tsvData[i], "detected", Bool(false));
    tsvData[i] := Put(tsvData[i], "found_vaf", NotFound);
    var j := 0;
    assert vcfData[j..] == vcfData;
    while j < |vcfData|
      invariant 0 <= j <= |vcfData|
      invariant forall k :: 0 <= k < tsvData.Length && k != i ==> tsvData[k] == old(tsvData[k])
      invariant tsvData[i] == Initialized(truth)
      invariant Annotate(truth, vcfData) == MatchFrom(Initialized(truth), vcfData[j..])
    {
      assert vcfData[j..][1..] == vcfData[j + 1..];
      var m := KeyMatch(tsvData[i], vcfData[j]);
      if m.Err? {
        return Err(m.error);
      }
      if m.value {
        tsvData[i] := Put(tsvData[i], "detected", Bool(true));
        var v := Subscript(vcfData[j], "vaf");
        if v.Err? {
          return Err(v.error);
        }
        tsvData[i] := Put(tsvData[i], "found_vaf", v.value);
        return Ok(tsvData[i]);
      }
      j := j + 1;
    }
    return Ok(tsvData[i]);
  }

  /** Lines 74-79: the header line, then one line per record, built up in order. */
  method WriteReport(rows: seq<Dict>, headerKeys: seq<string>) returns (r: Result<string>)
    ensures r == ReportText(rows, headerKeys)
  {
    var header := Join(headerKeys, '\t') + "\n";
    var text := header;
    ghost var lines: seq<string> := [];
    var k := 0;
    while k < |rows|
      invariant 0 <= k <= |rows| && |lines| == k
      invariant forall j :: 0 <= j < k ==> RowLine(rows[j], headerKeys) == Ok(lines[j])
      invariant text == header + Concat(lines)
    {
      var cells := RenderCells(rows[k], headerKeys);
      if cells.Err? {
        RowsFirstFailure(rows, k, headerKeys);
        return Err(cells.error);
      }
      var line := Join(cells.value, '\t') + "\n";
      ConcatSnoc(lines, line);
      text := text + line;
      lines := lines + [line];
      k := k + 1;
    }
    RowsPointwise(rows, headerKeys, lines);
    return Ok(text);
  }

  /** Records each rendered to the matching line make the report of those lines. */
  lemma RowsPointwise(rows: seq<Dict>, keys: seq<string>, lines: seq<string>)
    requires |lines| == |rows| && forall j :: 0 <= j < |rows| ==> RowLine(rows[j], keys) == Ok(lines[j])
    ensures ReportText(rows, keys) == Ok(Join(keys, '\t') + "\n" + Concat(lines))
  {
    MapAllPointwise(rows, RowRenderer(keys), lines);
  }

  /** The first record that lacks a column fails the report with its KeyError. */
  lemma RowsFirstFailure(rows: seq<Dict>, k: nat, keys: seq<string>)
    requires k < |rows| && (forall j :: 0 <= j < k ==> RowLine(rows[j], keys).Ok?) && RenderCells(rows[k], keys).Err?
    ensures ReportText(rows, keys) == Err(RenderCells(rows[k], keys).error)
  {
    MapAllFirstFailure(rows, k, RowRenderer(keys));
  }

  // ------------------------------------------------------------ records as read

  /** A call at the same site as the expected variant: equal chromosome, position, ref and alt. */
  predicate SameSite(t: TruthVariant, c: CallVariant) {
    t.chr == c.chr && t.position == c.pos && t.ref == c.ref && t.alt == c.alt
  }

  /** Some call is at the expected variant's site. */
  predicate HasSite(t: TruthVariant, calls: seq<CallVariant>) {
    exists j :: 0 <= j < |calls| && SameSite(t, calls[j])
  }

  /** `calls[j]` is the first call at the expected variant's site. */
  predicate FirstSite(t: TruthVariant, calls: seq<CallVariant>, j: int) {
    0 <= j < |calls| && SameSite(t, calls[j]) && forall i :: 0 <= i < j ==> !SameSite(t, calls[i])
  }

  /** The `vaf` of the first call at the site, or the placeholder when there is none. */
  function FoundValue(t: TruthVariant, calls: seq<CallVariant>): Value {
    if calls == [] then NotFound
    else if SameSite(t, calls[0]) then VafValue(calls[0].vaf)
    else FoundValue(t, calls[1..])
  }

  /** The calls as the dicts the call reader stores. */
  function CallDicts(calls: seq<CallVariant>): (ds: seq<Dict>)
    ensures |ds| == |calls|
  {
    seq(|calls|, i requires 0 <= i < |calls| => CallDict(calls[i]))
  }

  /** The expected variants as the dicts the table reader stores. */
  function TruthDicts(ts: seq<TruthVariant>): (ds: seq<Dict>)
    ensures |ds| == |ts|
  {
    seq(|ts|, i requires 0 <= i < |ts| => TruthDict(ts[i]))
  }

  /** An expected variant's dict after annotation: its seven fields, then `detected` and `found_vaf`. */
  function AnnotatedTruth(t: TruthVariant, found: Value, detected: bool): Dict {
    TruthDict(t) + [Field("detected", Bool(detected)), Field("found_vaf", found)]
  }

  /** The annotated dict is the table's dict with the two fields assigned, as lines 61-62 or 68-69 assign them. */
  lemma AnnotatedTruthPuts(t: TruthVariant, found: Value, detected: bool)
    ensures AnnotatedTruth(t, found, detected) == Put(Put(TruthDict(t), "detected", Bool(detected)), "found_vaf", found)
  {
    var d := TruthDict(t);
    var a, b := Field("detected", Bool(detected)), Field("found_vaf", found);
    TruthDictKeys(t);
    DetectedIsNew(d, "detected");
    PutNew(d, "detected", Bool(detected));
    var d1 := d + [a];
    KeysSnoc(d, a);
    FoundVafIsNew(Keys(d1), "found_vaf");
    PutNew(d1, "found_vaf", found);
    assert d1 + [b] == d + [a, b];
  }

  /** The required keys do not include `detected` ... */
  lemma DetectedIsNew(d: Dict, k: string)
    requires Keys(d) == RequiredFields && k == "detected"
    ensures k !in Keys(d)
  {
  }

  /** ... nor `found_vaf`, even with `detected` added. */
  lemma FoundVafIsNew(ks: seq<string>, k: string)
    requires ks == RequiredFields + ["detected"] && k == "found_vaf"
    ensures k !in ks
  {
  }

  lemma AnnotatedTruthKeys(t: TruthVariant, found: Value, detected: bool)
    ensures Keys(AnnotatedTruth(t, found, detected)) == RequiredFields + ["detected", "found_vaf"]
    ensures UniqueKeys(AnnotatedTruth(t, found, detected))
  {
    var d := TruthDict(t);
    var d1 := Put(d, "detected", Bool(detected));
    TruthDictKeys(t);
    AnnotatedTruthPuts(t, found, detected);
    PutKeys(d, "detected", Bool(detected));
    PutKeys(d1, "found_vaf", found);
    assert Keys(d1) == RequiredFields + ["detected"];
  }

  /** Lines 61-62 on a record read from the table append the two new fields. */
  lemma InitializedTruth(t: TruthVariant)
    ensures Initialized(TruthDict(t)) == AnnotatedTruth(t, NotFound, false)
  {
    AnnotatedTruthPuts(t, NotFound, false);
  }

  /** Lines 68-69 on an initialized record set the two new fields. */
  lemma FoundTruth(t: TruthVariant, v: Value)
    ensures Found(AnnotatedTruth(t, NotFound, false), v) == AnnotatedTruth(t, v, true)
  {
    var d := AnnotatedTruth(t, NotFound, false);
    AnnotatedTruthKeys(t, NotFound, false);
    PutAt(d, 7, "detected", Bool(true));
    var d1 := d[7 := Field("detected", Bool(true))];
    assert d1 == AnnotatedTruth(t, NotFound, true);
    AnnotatedTruthKeys(t, NotFound, true);
    PutAt(d1, 8, "found_vaf", v);
  }

  /** The match test on a record read from the table and a call read from the call file is `SameSite`. */
  lemma KeyMatchTruth(t: TruthVariant, found: Value, detected: bool, c: CallVariant)
    ensures KeyMatch(AnnotatedTruth(t, found, detected), CallDict(c)) == Ok(SameSite(t, c))
  {
    var d := AnnotatedTruth(t, found, detected);
    var e := CallDict(c);
    AnnotatedTruthKeys(t, found, detected);
    assert d[0].key == "chr" && d[1].key == "position" && d[2].key == "ref" && d[3].key == "alt";
    GetAt(d, 0);
    GetAt(d, 1);
    GetAt(d, 2);
    GetAt(d, 3);
    GetAt(e, 0);
    GetAt(e, 1);
    GetAt(e, 2);
    GetAt(e, 3);
  }

  lemma {:induction false} MatchTruth(t: TruthVariant, calls: seq<CallVariant>)
    ensures MatchFrom(AnnotatedTruth(t, NotFound, false), CallDicts(calls))
            == Ok(AnnotatedTruth(t, FoundValue(t, calls), HasSite(t, calls)))
  {
    var d := AnnotatedTruth(t, NotFound, false);
    var ds := CallDicts(calls);
    if calls != [] {
      var c := calls[0];
      assert ds[0] == CallDict(c);
      KeyMatchTruth(t, NotFound, false, c);
      if SameSite(t, c) {
        assert Subscript(CallDict(c), "vaf") == Ok(VafValue(c.vaf)) by {
          GetAt(CallDict(c), 4);
        }
        FoundTruth(t, VafValue(c.vaf));
        assert HasSite(t, calls) by {
          assert SameSite(t, calls[0]);
        }
      } else {
        assert ds[1..] == CallDicts(calls[1..]);
        MatchTruth(t, calls[1..]);
        assert HasSite(t, calls) == HasSite(t, calls[1..]) by {
          assert forall j :: 1 <= j < |calls| ==> calls[j] == calls[1..][j - 1];
        }
      }
    }
  }

  /**
   * A record read from the table, matched against calls read from the call
   * file, ends with its seven fields unchanged, then `detected`, true exactly
   * when some call is at its site, then `found_vaf`.
   */
  lemma AnnotateTruth(t: TruthVariant, calls: seq<CallVariant>)
    ensures Annotate(TruthDict(t), CallDicts(calls)) == Ok(AnnotatedTruth(t, FoundValue(t, calls), HasSite(t, calls)))
  {
    InitializedTruth(t);
    MatchTruth(t, calls);
  }

  /**
   * The found value is the `vaf` of the first call at the site, and the
   * placeholder "." exactly when no call is at the site.
   */
  lemma {:induction false} FoundValueFirst(t: TruthVariant, calls: seq<CallVariant>)
    ensures HasSite(t, calls) <==> exists j :: FirstSite(t, calls, j)
    ensures forall j :: FirstSite(t, calls, j) ==> FoundValue(t, calls) == VafValue(calls[j].vaf)
    ensures !HasSite(t, calls) ==> FoundValue(t, calls) == NotFound
  {
    if calls != [] {
      var tail := calls[1..];
      FoundValueFirst(t, tail);
      assert forall j :: 1 <= j < |calls| ==> calls[j] == tail[j - 1];
      if SameSite(t, calls[0]) {
        assert FirstSite(t, calls, 0);
        assert forall j :: FirstSite(t, calls, j) ==> j == 0;
      } else {
        forall j | FirstSite(t, calls, j) ensures j > 0 && FirstSite(t, tail, j - 1) {
          assert j != 0;
          assert forall i :: 0 <= i < j - 1 ==> tail[i] == calls[i + 1];
        }
        if HasSite(t, calls) {
          var j :| 0 <= j < |calls| && SameSite(t, calls[j]);
          assert SameSite(t, tail[j - 1]);
          var k: nat :| FirstSite(t, tail, k);
          assert forall i :: 1 <= i < k + 1 ==> calls[i] == tail[i - 1];
          assert FirstSite(t, calls, k + 1);
        } else {
          assert !HasSite(t, tail);
        }
      }
    }
  }

  // ------------------------------------------------------------ the scan, call by call

  /** The record matches none of the first `j` calls, and none of those comparisons fails. */
  predicate MissesBefore(d: Dict, calls: seq<Dict>, j: int)
    requires 0 <= j <= |calls|
  {
    forall i :: 0 <= i < j ==> KeyMatch(d, calls[i]) == Ok(false)
  }

  /** When no call matches, the record keeps its initial annotation. */
  lemma {:induction false} MatchFromNone(d: Dict, calls: seq<Dict>)
    requires MissesBefore(d, calls, |calls|)
    ensures MatchFrom(d, calls) == Ok(d)
  {
    if calls != [] {
      assert KeyMatch(d, calls[0]) == Ok(false);
      assert MissesBefore(d, calls[1..], |calls| - 1) by {
        assert forall i :: 0 <= i < |calls| - 1 ==> calls[1..][i] == calls[i + 1];
      }
      MatchFromNone(d, calls[1..]);
    }
  }

  /**
   * The first call that matches decides the annotation: its `vaf` is taken,
   * or the KeyError for `vaf` is raised when it has none; later calls are
   * never looked at.
   */
  lemma {:induction false} MatchFromFirst(d: Dict, calls: seq<Dict>, j: nat)
    requires j < |calls| && MissesBefore(d, calls, j) && KeyMatch(d, calls[j]) == Ok(true)
    ensures Subscript(calls[j], "vaf").Ok? ==> MatchFrom(d, calls) == Ok(Found(d, Subscript(calls[j], "vaf").value))
    ensures Subscript(calls[j], "vaf").Err? ==> MatchFrom(d, calls) == Err(KeyError("vaf"))
  {
    if j > 0 {
      assert KeyMatch(d, calls[0]) == Ok(false);
      assert calls[1..][j - 1] == calls[j];
      assert MissesBefore(d, calls[1..], j - 1) by {
        assert forall i :: 0 <= i < j - 1 ==> calls[1..][i] == calls[i + 1];
      }
      MatchFromFirst(d, calls[1..], j - 1);
    }
  }

  /** A comparison that fails before any match raises its KeyError out of the scan. */
  lemma {:induction false} MatchFromError(d: Dict, calls: seq<Dict>, j: nat)
    requires j < |calls| && MissesBefore(d, calls, j) && KeyMatch(d, calls[j]).Err?
    ensures MatchFrom(d, calls) == Err(KeyMatch(d, calls[j]).error)
  {
    if j > 0 {
      assert KeyMatch(d, calls[0]) == Ok(false);
      assert calls[1..][j - 1] == calls[j];
      assert MissesBefore(d, calls[1..], j - 1) by {
        assert forall i :: 0 <= i < j - 1 ==> calls[1..][i] == calls[i + 1];
      }
      MatchFromError(d, calls[1..], j - 1);
    }
  }

  /** A successful scan leaves the record as it was, or with a match's two fields set. */
  lemma {:induction false} MatchFromShape(d: Dict, calls: seq<Dict>)
    requires MatchFrom(d, calls).Ok?
    ensures MatchFrom(d, calls).value == d || exists v :: MatchFrom(d, calls).value == Found(d, v)
  {
    if calls != [] && KeyMatch(d, calls[0]) == Ok(false) {
      MatchFromShape(d, calls[1..]);
    }
  }

  /**
   * A successful annotation keeps every field of the record other than
   * `detected` and `found_vaf` with its value, keeps the keys in their
   * order, and adds those two at the end when the record lacked them.
   */
  lemma AnnotateKeepsFields(truth: Dict, calls: seq<Dict>)
    requires Annotate(truth, calls).Ok?
    ensures forall k :: k != "detected" && k != "found_vaf" ==> Get(Annotate(truth, calls).value, k) == Get(truth, k)
    ensures Keys(Annotate(truth, calls).value) == Keys(Initialized(truth))
    ensures "detected" in Keys(Annotate(truth, calls).value) && "found_vaf" in Keys(Annotate(truth, calls).value)
  {
    var d0 := Put(truth, "detected", Bool(false));
    var d := Initialized(truth);
    PutGet(truth, "detected", Bool(false));
    PutGet(d0, "found_vaf", NotFound);
    PutKeys(truth, "detected", Bool(false));
    PutKeys(d0, "found_vaf", NotFound);
    assert "detected" in Keys(d) && "found_vaf" in Keys(d);
    MatchFromShape(d, calls);
    var a := Annotate(truth, calls).value;
    if a != d {
      var v :| a == Found(d, v);
      var d1 := Put(d, "detected", Bool(true));
      PutGet(d, "detected", Bool(true));
      PutGet(d1, "found_vaf", v);
      PutKeys(d, "detected", Bool(true));
      PutKeys(d1, "found_vaf", v);
    }
  }

  /** Annotation succeeds for all records exactly when it succeeds for each, and keeps their number and order. */
  lemma AnnotateAllEach(ds: seq<Dict>, calls: seq<Dict>)
    ensures AnnotateAll(ds, calls).Ok? <==> forall k :: 0 <= k < |ds| ==> Annotate(ds[k], calls).Ok?
    ensures AnnotateAll(ds, calls).Ok? ==>
              |AnnotateAll(ds, calls).value| == |ds|
              && forall k :: 0 <= k < |ds| ==> Annotate(ds[k], calls) == Ok(AnnotateAll(ds, calls).value[k])
  {
    MapAllEach(ds, Annotator(calls));
  }

  // ------------------------------------------------------------ the report of records as read

  /**
   * The report's columns for records read from the table: always the seven
   * required names in their fixed order, whatever the order of the table's
   * own header, then `found_vaf` and `detected`.
   */
  const ReportColumns: seq<string> := RequiredFields + ["found_vaf", "detected"]

  /**
   * The values of an annotated record in report column order: the seven
   * fields as read, then `found_vaf`, then `detected`.
   */
  function ReportValues(t: TruthVariant, found: Value, detected: bool): seq<Value> {
    [Str(t.chr), Int(t.position), Str(t.ref), Str(t.alt), Str(t.gene), Str(t.hgvsp), Float(t.vaf),
     found, Bool(detected)]
  }

  /** `str` of each value. */
  function StrAll(vs: seq<Value>): (cells: seq<string>)
    ensures |cells| == |vs|
  {
    seq(|vs|, i requires 0 <= i < |vs| => ToStr(vs[i]))
  }

  /** The cells of an annotated record's report line. */
  function ReportRow(t: TruthVariant, found: Value, detected: bool): seq<string> {
    StrAll(ReportValues(t, found, detected))
  }

  /** The records as annotated against the calls. */
  function AnnotatedTruths(ts: seq<TruthVariant>, calls: seq<CallVariant>): (ds: seq<Dict>)
    ensures |ds| == |ts|
  {
    seq(|ts|, i requires 0 <= i < |ts| => AnnotatedTruth(ts[i], FoundValue(ts[i], calls), HasSite(ts[i], calls)))
  }

  /** One report line per record, in the order of the records. */
  function ReportLines(ts: seq<TruthVariant>, calls: seq<CallVariant>): (ls: seq<string>)
    ensures |ls| == |ts|
  {
    seq(|ts|, i requires 0 <= i < |ts| =>
      Join(ReportRow(ts[i], FoundValue(ts[i], calls), HasSite(ts[i], calls)), '\t') + "\n")
  }

  /**
   * A line renders exactly when the record has every column, and then holds
   * `str` of each column's value, in column order.
   */
  lemma {:induction false} RenderCellsEach(item: Dict, keys: seq<string>)
    ensures RenderCells(item, keys).Ok? <==> forall i :: 0 <= i < |keys| ==> Get(item, keys[i]).Some?
    ensures RenderCells(item, keys).Ok? ==>
              |RenderCells(item, keys).value| == |keys|
              && forall i :: 0 <= i < |keys| ==> RenderCells(item, keys).value[i] == ToStr(Get(item, keys[i]).value)
  {
    if keys != [] {
      var rest := keys[1..];
      RenderCellsEach(item, rest);
      assert forall i :: 1 <= i < |keys| ==> keys[i] == rest[i - 1];
    }
  }

  /** Every report column of an annotated record is present and renders as its `ReportRow` cell. */
  lemma RowCellsTruth(t: TruthVariant, found: Value, detected: bool)
    ensures forall i :: 0 <= i < |ReportColumns| ==>
              Get(AnnotatedTruth(t, found, detected), ReportColumns[i]).Some?
              && ToStr(Get(AnnotatedTruth(t, found, detected), ReportColumns[i]).value) == ReportRow(t, found, detected)[i]
  {
    forall i | 0 <= i < |ReportColumns|
      ensures Get(AnnotatedTruth(t, found, detected), ReportColumns[i]).Some?
      ensures ToStr(Get(AnnotatedTruth(t, found, detected), ReportColumns[i]).value) == ReportRow(t, found, detected)[i]
    {
      RowCellTruth(t, found, detected, i);
    }
  }

  /** Where report column `i` sits in an annotated record: `detected` and `found_vaf` swap places. */
  function FieldIndex(i: nat): nat {
    if i == 7 then 8 else if i == 8 then 7 else i
  }

  lemma RowCellTruth(t: TruthVariant, found: Value, detected: bool, i: nat)
    requires i < |ReportColumns|
    ensures Get(AnnotatedTruth(t, found, detected), ReportColumns[i]).Some?
    ensures ToStr(Get(AnnotatedTruth(t, found, detected), ReportColumns[i]).value) == ReportRow(t, found, detected)[i]
  {
    var d := AnnotatedTruth(t, found, detected);
    AnnotatedTruthKeys(t, found, detected);
    assert ReportColumns[i] == Keys(d)[FieldIndex(i)];
    GetAt(d, FieldIndex(i));
    CellOfField(t, found, detected, i);
  }

  lemma CellOfField(t: TruthVariant, found: Value, detected: bool, i: nat)
    requires i < 9
    ensures ToStr(AnnotatedTruth(t, found, detected)[FieldIndex(i)].value) == ReportRow(t, found, detected)[i]
  {
    FieldOfColumn(t, found, detected, i);
  }

  lemma FieldOfColumn(t: TruthVariant, found: Value, detected: bool, i: nat)
    requires i < 9
    ensures AnnotatedTruth(t, found, detected)[FieldIndex(i)].value == ReportValues(t, found, detected)[i]
  {
    AnnotatedTruthValues(t, found, detected);
  }

  lemma AnnotatedTruthValues(t: TruthVariant, found: Value, detected: bool)
    ensures var d := AnnotatedTruth(t, found, detected);
            |d| == 9 && d[0].value == Str(t.chr) && d[1].value == Int(t.position) && d[2].value == Str(t.ref)
            && d[3].value == Str(t.alt) && d[4].value == Str(t.gene) && d[5].value == Str(t.hgvsp)
            && d[6].value == Float(t.vaf) && d[7].value == Bool(detected) && d[8].value == found
  {
  }

  /** An annotated record's report line holds its `ReportRow` cells. */
  lemma RowLineTruth(t: TruthVariant, found: Value, detected: bool)
    ensures RowLine(AnnotatedTruth(t, found, detected), ReportColumns) == Ok(Join(ReportRow(t, found, detected), '\t') + "\n")
  {
    var d := AnnotatedTruth(t, found, detected);
    RowCellsTruth(t, found, detected);
    RenderCellsEach(d, ReportColumns);
    assert RenderCells(d, ReportColumns).value == ReportRow(t, found, detected);
  }

  /**
   * For expected variants read from the table and calls read from the call
   * file, with at least one variant, the report is built and the plot path
   * derived: the report has the fixed column header, then, per variant in
   * order, its seven fields, the `vaf` of the first call at its site ("."
   * when there is none) and whether there is one; the plot goes next to the
   * report. Drawing the plot itself is not part of this model.
   */
  lemma ReportOfTruthRecords(ts: seq<TruthVariant>, calls: seq<CallVariant>, outputCsv: string)
    requires ts != []
    ensures PresenceOutcome(TruthDicts(ts), CallDicts(calls), outputCsv)
            == Ok(Output(Join(ReportColumns, '\t') + "\n" + Concat(ReportLines(ts, calls)), ImagePath(outputCsv)))
  {
    var ds := TruthDicts(ts);
    var rows := AnnotatedTruths(ts, calls);
    forall k | 0 <= k < |ds| ensures Annotator(CallDicts(calls))(ds[k]) == Ok(rows[k]) {
      AnnotateTruth(ts[k], calls);
    }
    MapAllPointwise(ds, Annotator(CallDicts(calls)), rows);
    forall k | 0 <= k < |rows| ensures RowRenderer(ReportColumns)(rows[k]) == Ok(ReportLines(ts, calls)[k]) {
      RowLineTruth(ts[k], FoundValue(ts[k], calls), HasSite(ts[k], calls));
    }
    MapAllPointwise(rows, RowRenderer(ReportColumns), ReportLines(ts, calls));
    TruthDictKeys(ts[0]);
    assert HeaderKeys(ds[0]) == ReportColumns;
  }
}
