/** The text `GlobalStats` writes: the per-run time-series file and the
    header and rows of the grouped cross-run file. */
module Report {
  import opened Wrappers
  import opened Text
  import opened FixedPoint
  import opened Config
  import opened Analysis

  // ---------------------------------------------------------------------
  // Small facts about the stride loop `for (i = 0; i <= N; i += R)`.

  lemma MulMono(a: nat, b: nat, c: nat)
    requires a <= b
    ensures a * c <= b * c
  {
  }

  /** Step k*R is still inside the run exactly when k <= N / R. */
  lemma StrideBound(k: nat, r: nat, n: nat)
    requires r > 0
    ensures k * r <= n <==> k <= n / r
  {
    var q := n / r;
    if k <= q {
      MulMono(k, q, r);
    } else {
      MulMono(q + 1, k, r);
    }
  }

  /** A larger factor is larger by at least one multiple of r. */
  lemma MulStrict(a: nat, b: nat, r: nat)
    ensures a < b ==> a * r + r <= b * r
  {
    if a < b {
      MulMono(a + 1, b, r);
    }
  }

  /** Step k*R falls in bucket k. */
  lemma StrideBucket(k: nat, r: nat)
    requires r > 0
    ensures k * r / r == k
  {
    var q, m := k * r / r, k * r % r;
    assert k * r == q * r + m && 0 <= m < r;
    MulStrict(q, k, r);
    MulStrict(k, q, r);
  }

  // ---------------------------------------------------------------------
  // Result columns.

  /** Every unit's buffer, after `postProcess`, holds `buckets` results, as
      `setNumTimeSteps(buckets)` asked. */
  predicate ResultsSized<T>(cells: seq<seq<T>>, count: nat, buckets: nat)
  {
    |cells| == count && forall u :: 0 <= u < count ==> |cells[u]| == buckets
  }

  /** The text of one unit's buffer, entry by entry, in fixed point with two
      decimals. */
  function FmtRow(row: seq<int>): (texts: seq<string>)
    ensures |texts| == |row|
  {
    if |row| == 0 then [] else FmtRow(row[..|row| - 1]) + [Fmt(row[|row| - 1])]
  }

  lemma {:induction false} FmtRowAt(row: seq<int>, k: nat)
    requires k < |row|
    ensures FmtRow(row)[k] == Fmt(row[k])
  {
    if k < |row| - 1 {
      FmtRowAt(row[..|row| - 1], k);
    }
  }

  /** The text each result is written as: `cells[u][k]` is bucket k of
      unit u in fixed point with two decimals. */
  function Cells(results: seq<seq<int>>): (cells: seq<seq<string>>)
    ensures |cells| == |results|
    ensures forall u :: 0 <= u < |results| ==> |cells[u]| == |results[u]|
  {
    if |results| == 0 then [] else Cells(results[..|results| - 1]) + [FmtRow(results[|results| - 1])]
  }

  lemma {:induction false} CellsAt(results: seq<seq<int>>, u: nat, k: nat)
    requires u < |results| && k < |results[u]|
    ensures Cells(results)[u][k] == Fmt(results[u][k])
  {
    if u < |results| - 1 {
      CellsAt(results[..|results| - 1], u, k);
    } else {
      FmtRowAt(results[u], k);
    }
  }

  predicate HasBucket<T>(cells: seq<seq<T>>, k: nat)
  {
    forall u :: 0 <= u < |cells| ==> k < |cells[u]|
  }

  lemma SizedHasBucket<T>(cells: seq<seq<T>>, count: nat, buckets: nat, k: nat)
    requires ResultsSized(cells, count, buckets) && k < buckets
    ensures HasBucket(cells, k)
  {
  }

  lemma CellsHasBucket(results: seq<seq<int>>, k: nat)
    requires HasBucket(results, k)
    ensures HasBucket(Cells(results), k)
  {
  }

  /** Formatting keeps every buffer's size. */
  lemma CellsSized(results: seq<seq<int>>, count: nat, buckets: nat)
    requires ResultsSized(results, count, buckets)
    ensures ResultsSized(Cells(results), count, buckets)
  {
  }

  /** Names of the write-enabled units, in registration order. */
  function WrittenNames(units: seq<AnalysisUnit>): seq<string>
  {
    if |units| == 0 then []
    else
      var last := units[|units| - 1];
      WrittenNames(units[..|units| - 1]) + (if last.writeResults then [last.name] else [])
  }

  /** Bucket k of the write-enabled units, formatted, in registration order. */
  function WrittenValues(units: seq<AnalysisUnit>, cells: seq<seq<string>>, k: nat): seq<string>
    requires |cells| == |units| && HasBucket(cells, k)
  {
    if |units| == 0 then []
    else
      var n := |units| - 1;
      WrittenValues(units[..n], cells[..n], k) + (if units[n].writeResults then [cells[n][k]] else [])
  }

  /** Bucket k of every unit, formatted, in registration order. */
  function AllValues(cells: seq<seq<string>>, k: nat): seq<string>
    requires HasBucket(cells, k)
  {
    if |cells| == 0 then [] else AllValues(cells[..|cells| - 1], k) + [cells[|cells| - 1][k]]
  }

  /** One more unit extends the value columns by its cell. */
  lemma AllValuesSnoc(cells: seq<seq<string>>, u: nat, k: nat)
    requires HasBucket(cells, k) && u < |cells|
    ensures HasBucket(cells[..u], k) && HasBucket(cells[..u + 1], k)
    ensures AllValues(cells[..u + 1], k) == AllValues(cells[..u], k) + [cells[u][k]]
  {
    assert cells[..u + 1][..u] == cells[..u];
  }

  /** One more unit extends the written columns by its cell exactly when it
      is write-enabled. */
  lemma WrittenValuesSnoc(units: seq<AnalysisUnit>, cells: seq<seq<string>>, u: nat, k: nat)
    requires |cells| == |units| && HasBucket(cells, k) && u < |units|
    ensures HasBucket(cells[..u], k) && HasBucket(cells[..u + 1], k)
    ensures units[u].writeResults ==>
              WrittenValues(units[..u + 1], cells[..u + 1], k) == WrittenValues(units[..u], cells[..u], k) + [cells[u][k]]
    ensures !units[u].writeResults ==>
              WrittenValues(units[..u + 1], cells[..u + 1], k) == WrittenValues(units[..u], cells[..u], k)
  {
    assert units[..u + 1][..u] == units[..u];
    assert cells[..u + 1][..u] == cells[..u];
  }

  /** Positions of the write-enabled units, in registration order. */
  function WrittenPositions(units: seq<AnalysisUnit>): seq<nat>
  {
    if |units| == 0 then []
    else WrittenPositions(units[..|units| - 1]) + (if units[|units| - 1].writeResults then [|units| - 1] else [])
  }

  /** The written positions are increasing and are exactly the positions of
      the write-enabled units. */
  lemma {:induction false} WrittenPositionsExact(units: seq<AnalysisUnit>)
    ensures forall j :: 0 <= j < |WrittenPositions(units)| ==> WrittenPositions(units)[j] < |units|
    ensures forall i, j :: 0 <= i < j < |WrittenPositions(units)| ==> WrittenPositions(units)[i] < WrittenPositions(units)[j]
    ensures forall u :: 0 <= u < |units| ==> (units[u].writeResults <==> u in WrittenPositions(units))
  {
    if |units| > 0 {
      var pre := units[..|units| - 1];
      WrittenPositionsExact(pre);
      assert forall u :: 0 <= u < |pre| ==> pre[u] == units[u];
    }
  }

  /** Column j of the header and column j of every row belong to the same
      unit: the j-th write-enabled one. */
  lemma {:induction false} ColumnsAligned(units: seq<AnalysisUnit>, cells: seq<seq<string>>, k: nat)
    requires |cells| == |units| && HasBucket(cells, k)
    ensures |WrittenNames(units)| == |WrittenPositions(units)| == |WrittenValues(units, cells, k)|
    ensures forall j :: 0 <= j < |WrittenPositions(units)| ==>
              WrittenPositions(units)[j] < |units| &&
              WrittenNames(units)[j] == units[WrittenPositions(units)[j]].name &&
              WrittenValues(units, cells, k)[j] == cells[WrittenPositions(units)[j]][k]
  {
    WrittenPositionsExact(units);
    NamesAtPositions(units);
    ValuesAtPositions(units, cells, k);
  }

  lemma {:induction false} NamesAtPositions(units: seq<AnalysisUnit>)
    ensures |WrittenNames(units)| == |WrittenPositions(units)|
    ensures forall j :: 0 <= j < |WrittenPositions(units)| ==>
              WrittenPositions(units)[j] < |units| && WrittenNames(units)[j] == units[WrittenPositions(units)[j]].name
  {
    if |units| > 0 {
      var n := |units| - 1;
      var pre := units[..n];
      NamesAtPositions(pre);
      var ps, ns := WrittenPositions(pre), WrittenNames(pre);
      if units[n].writeResults {
        assert WrittenPositions(units) == ps + [n];
        assert WrittenNames(units) == ns + [units[n].name];
      } else {
        assert WrittenPositions(units) == ps;
        assert WrittenNames(units) == ns;
      }
      forall j | 0 <= j < |ps|
        ensures units[ps[j]] == pre[ps[j]]
      {
      }
    }
  }

  lemma {:induction false} ValuesAtPositions(units: seq<AnalysisUnit>, cells: seq<seq<string>>, k: nat)
    requires |cells| == |units| && HasBucket(cells, k)
    ensures |WrittenValues(units, cells, k)| == |WrittenPositions(units)|
    ensures forall j :: 0 <= j < |WrittenPositions(units)| ==>
              WrittenPositions(units)[j] < |units| &&
              WrittenValues(units, cells, k)[j] == cells[WrittenPositions(units)[j]][k]
  {
    if |units| > 0 {
      var n := |units| - 1;
      var pre, rpre := units[..n], cells[..n];
      assert HasBucket(rpre, k);
      ValuesAtPositions(pre, rpre, k);
      var ps, vs := WrittenPositions(pre), WrittenValues(pre, rpre, k);
      if units[n].writeResults {
        assert WrittenPositions(units) == ps + [n];
        assert WrittenValues(units, cells, k) == vs + [cells[n][k]];
      } else {
        assert WrittenPositions(units) == ps;
        assert WrittenValues(units, cells, k) == vs;
      }
      forall j | 0 <= j < |ps|
        ensures cells[ps[j]] == rpre[ps[j]]
      {
      }
    }
  }

  /** The grouped row's result columns are one per unit, in order. */
  lemma {:induction false} AllValuesAt(cells: seq<seq<string>>, k: nat)
    requires HasBucket(cells, k)
    ensures |AllValues(cells, k)| == |cells|
    ensures forall u :: 0 <= u < |cells| ==> AllValues(cells, k)[u] == cells[u][k]
  {
    if |cells| > 0 {
      var n := |cells| - 1;
      var pre := cells[..n];
      assert HasBucket(pre, k);
      AllValuesAt(pre, k);
      assert AllValues(cells, k) == AllValues(pre, k) + [cells[n][k]];
      forall u | 0 <= u < |cells|
        ensures AllValues(cells, k)[u] == cells[u][k]
      {
        if u < n {
          assert pre[u] == cells[u];
        }
      }
    }
  }

  /** As many written columns as units exactly when every unit writes. */
  lemma {:induction false} WrittenNamesCount(units: seq<AnalysisUnit>)
    ensures |WrittenNames(units)| <= |units|
    ensures |WrittenNames(units)| == |units| <==> forall u :: 0 <= u < |units| ==> units[u].writeResults
  {
    if |units| > 0 {
      var pre := units[..|units| - 1];
      WrittenNamesCount(pre);
      assert forall u :: 0 <= u < |pre| ==> pre[u] == units[u];
    }
  }

  // ---------------------------------------------------------------------
  // The per-run file.

  function RunHeaderFields(units: seq<AnalysisUnit>): seq<string>
  {
    ["timeStep"] + WrittenNames(units)
  }

  /** The row for simulation step i: the step, then bucket i / R of each
      write-enabled unit. */
  function RunRowFields(units: seq<AnalysisUnit>, cells: seq<seq<string>>, i: nat, r: nat): seq<string>
    requires r > 0 && |cells| == |units| && HasBucket(cells, i / r)
  {
    [NatToString(i)] + WrittenValues(units, cells, i / r)
  }

  /** The line for output bucket k: step k*R, then bucket k of each
      write-enabled unit. */
  function RowLine(units: seq<AnalysisUnit>, cells: seq<seq<string>>, rec: SimRecord, k: nat, sep: string): string
    requires rec.finalResolution > 0 && ResultsSized(cells, |units|, Buckets(rec)) && k < Buckets(rec)
  {
    Line([NatToString(k * rec.finalResolution)] + WrittenValues(units, cells, k), sep)
  }

  /** The rows of the first `count` output buckets, bucket by bucket. */
  function RunRows(units: seq<AnalysisUnit>, cells: seq<seq<string>>, rec: SimRecord, count: nat, sep: string): seq<string>
    requires rec.finalResolution > 0 && ResultsSized(cells, |units|, Buckets(rec)) && count <= Buckets(rec)
  {
    seq(count, k requires 0 <= k < count => RowLine(units, cells, rec, k, sep))
  }

  /** The whole per-run file: the header line, then one line per output step. */
  function RunFile(units: seq<AnalysisUnit>, cells: seq<seq<string>>, rec: SimRecord, sep: string): seq<string>
    requires rec.finalResolution > 0 && ResultsSized(cells, |units|, Buckets(rec))
  {
    [Line(RunHeaderFields(units), sep)] + RunRows(units, cells, rec, Buckets(rec), sep)
  }

  /** The stride loop's next step is the next multiple of R. */
  lemma NextStride(k: nat, r: nat)
    ensures (k + 1) * r == k * r + r
  {
  }

  /** Step k*R is inside the run exactly when k is a bucket, and it falls
      in bucket k. */
  lemma StrideInside(rec: SimRecord, k: nat)
    requires rec.finalResolution > 0
    ensures k * rec.finalResolution <= rec.numSteps <==> k < Buckets(rec)
    ensures k * rec.finalResolution / rec.finalResolution == k
  {
    StrideBound(k, rec.finalResolution, rec.numSteps);
    StrideBucket(k, rec.finalResolution);
  }

  /** One turn of the stride loop: the row it writes at step k*R, which lies
      in the run, is the row of bucket k. */
  lemma RunRowsStep(units: seq<AnalysisUnit>, cells: seq<seq<string>>, rec: SimRecord, k: nat, sep: string,
                    before: seq<string>, row: string)
    requires rec.finalResolution > 0 && ResultsSized(cells, |units|, Buckets(rec)) && k < Buckets(rec)
    requires k * rec.finalResolution / rec.finalResolution == k
    requires row == Line(RunRowFields(units, cells, k * rec.finalResolution, rec.finalResolution), sep)
    ensures before + RunRows(units, cells, rec, k, sep) + [row] == before + RunRows(units, cells, rec, k + 1, sep)
  {
    assert row == RowLine(units, cells, rec, k, sep);
    assert RunRows(units, cells, rec, k, sep) + [row] == RunRows(units, cells, rec, k + 1, sep);
  }

  /** The per-run file has a header and exactly N / R + 1 rows, row k being
      the line of step k*R and bucket k. */
  lemma RunFileShape(units: seq<AnalysisUnit>, cells: seq<seq<string>>, rec: SimRecord, sep: string)
    requires rec.finalResolution > 0 && ResultsSized(cells, |units|, Buckets(rec))
    ensures |RunFile(units, cells, rec, sep)| == rec.numSteps / rec.finalResolution + 2
    ensures RunFile(units, cells, rec, sep)[0] == Line(RunHeaderFields(units), sep)
    ensures forall k :: 0 <= k < Buckets(rec) ==>
              RunFile(units, cells, rec, sep)[k + 1] == RowLine(units, cells, rec, k, sep)
  {
  }

  /** Every row of the per-run file has as many fields as its header: the
      step, then one field per write-enabled unit, column j of bucket k
      belonging to the header's j-th unit. */
  lemma RunRowAligned(units: seq<AnalysisUnit>, cells: seq<seq<string>>, rec: SimRecord, k: nat)
    requires rec.finalResolution > 0 && ResultsSized(cells, |units|, Buckets(rec)) && k < Buckets(rec)
    ensures |[NatToString(k * rec.finalResolution)] + WrittenValues(units, cells, k)| == |RunHeaderFields(units)|
  {
    ColumnsAligned(units, cells, k);
  }

  // ---------------------------------------------------------------------
  // The grouped file.

  /** Column label of a parameter path: its first element, joined with `_`
      to its second when there is one; later elements are never used. */
  function Label(p: ParamPath): string
  {
    if |p| == 0 then "" else if |p| == 1 then p[0] else p[0] + "_" + p[1]
  }

  lemma LabelExamples()
    ensures Label(["density", "agent", "params"]) == "density_agent"
    ensures Label(["count"]) == "count"
    ensures Label([]) == ""
  {
  }

  function Labels(ps: seq<ParamPath>): seq<string>
  {
    if |ps| == 0 then [] else Labels(ps[..|ps| - 1]) + [Label(ps[|ps| - 1])]
  }

  lemma {:induction false} LabelsAt(ps: seq<ParamPath>)
    ensures |Labels(ps)| == |ps|
    ensures forall i :: 0 <= i < |ps| ==> Labels(ps)[i] == Label(ps[i])
  {
    if |ps| > 0 {
      LabelsAt(ps[..|ps| - 1]);
    }
  }

  /** The grouped header: "run", one label per path, then the names of the
      write-enabled units. */
  function GroupHeaderFields(ps: seq<ParamPath>, units: seq<AnalysisUnit>): seq<string>
  {
    ["run"] + Labels(ps) + WrittenNames(units)
  }

  /** Where the run's configuration document is read from. */
  function ConfigPath(inputDir: string, fileName: string): string
  {
    inputDir + "/" + StripExtension(fileName) + "/config.xml"
  }

  /** The parameter values `writeParams` appends: none when the document does
      not load, `None` when resolving a path faults. */
  function ParamValues(ps: seq<ParamPath>, inputDir: string, fileName: string, configs: map<string, Document>): Option<seq<string>>
  {
    var path := ConfigPath(inputDir, fileName);
    if path !in configs then Some([]) else ResolveAll(configs[path], ps)
  }

  /** Fields of the grouped row of a run: its file name, the parameter values,
      then the final bucket of EVERY unit, write-enabled or not. */
  function GroupRowFields(fileName: string, values: seq<string>, cells: seq<seq<string>>, last: nat): seq<string>
    requires HasBucket(cells, last)
  {
    [fileName] + values + AllValues(cells, last)
  }

  /** The line `apply` appends to the grouped file, `None` where it faults. */
  function GroupRow(ps: seq<ParamPath>, inputDir: string, outputFile: string, configs: map<string, Document>,
                    cells: seq<seq<string>>, rec: SimRecord, sep: string): Option<string>
    requires rec.finalResolution > 0 && HasBucket(cells, Buckets(rec) - 1)
  {
    var fileName := Basename(outputFile);
    match ParamValues(ps, inputDir, fileName, configs)
    case None => None
    case Some(vs) => Some(Line(GroupRowFields(fileName, vs, cells, Buckets(rec) - 1), sep))
  }

  /** Where `writeParams` faults, `apply` writes no grouped row. */
  lemma GroupRowFault(ps: seq<ParamPath>, inputDir: string, outputFile: string, configs: map<string, Document>,
                      cells: seq<seq<string>>, rec: SimRecord, sep: string)
    requires rec.finalResolution > 0 && HasBucket(cells, Buckets(rec) - 1)
    requires ParamValues(ps, inputDir, Basename(outputFile), configs) == None
    ensures GroupRow(ps, inputDir, outputFile, configs, cells, rec, sep) == None
  {
  }

  /** Otherwise the grouped row is assembled as `apply` writes it: the base
      name and a separator, then the text `writeParams` returns, then the
      final cells. */
  lemma GroupRowAssembled(ps: seq<ParamPath>, inputDir: string, outputFile: string, configs: map<string, Document>,
                          cells: seq<seq<string>>, rec: SimRecord, sep: string, written: string, finals: string)
    requires rec.finalResolution > 0 && HasBucket(cells, Buckets(rec) - 1)
    requires ParamValues(ps, inputDir, Basename(outputFile), configs).Some?
    requires written == Line(ParamValues(ps, inputDir, Basename(outputFile), configs).value, sep)
    requires finals == Line(AllValues(cells, Buckets(rec) - 1), sep)
    ensures GroupRow(ps, inputDir, outputFile, configs, cells, rec, sep) ==
              Some(Basename(outputFile) + sep + written + finals)
  {
    var fileName := Basename(outputFile);
    var vs := ParamValues(ps, inputDir, fileName, configs).value;
    var last := AllValues(cells, Buckets(rec) - 1);
    assert GroupRowFields(fileName, vs, cells, Buckets(rec) - 1) == [fileName] + vs + last;
    LineParts(fileName, vs, last, sep);
  }

  /** With a loaded configuration `doc` (the run's `ParamValues` are then
      `ResolveAll(doc, ps)`), the grouped row holds the run's base name, then
      the value of each path in order, then every unit's final result; it has
      as many fields as the grouped header exactly when every unit is
      write-enabled. */
  lemma GroupRowResolved(doc: Document, ps: seq<ParamPath>, vs: seq<string>, fileName: string,
                         units: seq<AnalysisUnit>, cells: seq<seq<string>>, last: nat)
    requires ResolveAll(doc, ps) == Some(vs)
    requires |cells| == |units| && HasBucket(cells, last)
    ensures |GroupRowFields(fileName, vs, cells, last)| == 1 + |ps| + |units|
    ensures GroupRowFields(fileName, vs, cells, last)[0] == fileName
    ensures forall i :: 0 <= i < |ps| ==> ResolvePath(doc, ps[i]) == Some(GroupRowFields(fileName, vs, cells, last)[1 + i])
    ensures forall u :: 0 <= u < |units| ==>
              GroupRowFields(fileName, vs, cells, last)[1 + |ps| + u] == cells[u][last]
    ensures |GroupRowFields(fileName, vs, cells, last)| == |GroupHeaderFields(ps, units)| <==>
              forall u :: 0 <= u < |units| ==> units[u].writeResults
  {
    ParamColumns(doc, ps, vs, fileName, cells, last);
    FinalColumns(vs, fileName, cells, last);
    LabelsAt(ps);
    WrittenNamesCount(units);
  }

  /** The parameter columns of a grouped row are the resolved paths, in order. */
  lemma ParamColumns(doc: Document, ps: seq<ParamPath>, vs: seq<string>, fileName: string,
                     cells: seq<seq<string>>, last: nat)
    requires ResolveAll(doc, ps) == Some(vs) && HasBucket(cells, last)
    ensures |vs| == |ps|
    ensures forall i :: 0 <= i < |ps| ==> ResolvePath(doc, ps[i]) == Some(GroupRowFields(fileName, vs, cells, last)[1 + i])
  {
    ResolveAllPerPath(doc, ps);
    var finals := AllValues(cells, last);
    assert GroupRowFields(fileName, vs, cells, last) == [fileName] + vs + finals;
    FieldsAt(fileName, vs, finals);
  }

  /** The result columns of a grouped row: one per unit, in order. */
  lemma FinalColumns(vs: seq<string>, fileName: string, cells: seq<seq<string>>, last: nat)
    requires HasBucket(cells, last)
    ensures |GroupRowFields(fileName, vs, cells, last)| == 1 + |vs| + |cells|
    ensures GroupRowFields(fileName, vs, cells, last)[0] == fileName
    ensures forall u :: 0 <= u < |cells| ==> GroupRowFields(fileName, vs, cells, last)[1 + |vs| + u] == cells[u][last]
  {
    AllValuesAt(cells, last);
    var finals := AllValues(cells, last);
    assert GroupRowFields(fileName, vs, cells, last) == [fileName] + vs + finals;
    FieldsAt(fileName, vs, finals);
  }

  /** Where each part of a row `[first] + middle + rest` sits. */
  lemma FieldsAt(first: string, middle: seq<string>, rest: seq<string>)
    ensures |[first] + middle + rest| == 1 + |middle| + |rest|
    ensures ([first] + middle + rest)[0] == first
    ensures forall i :: 0 <= i < |middle| ==> ([first] + middle + rest)[1 + i] == middle[i]
    ensures forall u :: 0 <= u < |rest| ==> ([first] + middle + rest)[1 + |middle| + u] == rest[u]
  {
  }

  /** Without a loaded configuration the row carries no parameter columns, so
      it falls short of the header by one field per path. */
  lemma GroupRowUnloaded(ps: seq<ParamPath>, inputDir: string, fileName: string, configs: map<string, Document>,
                         units: seq<AnalysisUnit>, cells: seq<seq<string>>, last: nat)
    requires ConfigPath(inputDir, fileName) !in configs
    requires |cells| == |units| && HasBucket(cells, last)
    requires forall u :: 0 <= u < |units| ==> units[u].writeResults
    ensures ParamValues(ps, inputDir, fileName, configs) == Some([])
    ensures |GroupHeaderFields(ps, units)| - |GroupRowFields(fileName, [], cells, last)| == |ps|
  {
    AllValuesAt(cells, last);
    LabelsAt(ps);
    WrittenNamesCount(units);
  }
}
