/** The files `GlobalStats` writes, as a map from path to lines. */
module Files {

  /** The lines of a file; a file that does not exist reads as empty. */
  function FileLines(files: map<string, seq<string>>, path: string): seq<string>
  {
    if path in files then files[path] else []
  }

  /** The file system seen through `std::ofstream`. */
  class FileStore {
    var files: map<string, seq<string>>

    /** Opening without a mode truncates, then the lines are written. */
    method Overwrite(path: string, lines: seq<string>)
      modifies this
      ensures files == old(files)[path := lines]
    {
      files := files[path := lines];
    }

    /** Opening with `std::ios_base::app` creates a missing file. */
    method OpenForAppend(path: string)
      modifies this
      ensures files == old(files)[path := FileLines(old(files), path)]
    {
      files := files[path := FileLines(files, path)];
    }

    /** One line written at the end of an existing or new file. */
    method AppendLine(path: string, line: string)
      modifies this
      ensures files == old(files)[path := FileLines(old(files), path) + [line]]
    {
      files := files[path := FileLines(files, path) + [line]];
    }
  }
}

/** `PostProcess::GlobalStats`: a registry of analysis units that it drives
    over a simulation record and whose results it writes out. */
module Engine {
  import opened Wrappers
  import opened Text
  import opened FixedPoint
  import opened Config
  import opened Analysis
  import opened Report
  import opened Files

  /** How a call of `apply` ends: normally, or in the undefined behaviour
      `writeParams` reaches on a path it cannot resolve. */
  datatype Status = Done | Fault

  class GlobalStats {
    /** The field separator, fixed at construction (`Output(separator)`). */
    const separator: string
    var analysisOwnership: bool
    var analysisList: seq<AnalysisUnit>
    /** `_params`: `None` is the null pointer. */
    var params: Option<seq<ParamPath>>
    var groupFile: string
    var inputDir: string

    constructor (separator: string)
      ensures this.separator == separator
      ensures analysisOwnership && analysisList == [] && params == None
      ensures groupFile == "" && inputDir == ""
    {
      this.separator := separator;
      analysisOwnership := true;
      analysisList := [];
      params := None;
      groupFile := "";
      inputDir := "";
    }

    function Name(): string
    {
      "Global Stats"
    }

    method SetAnalysisOwnership(analysisOwnership: bool)
      modifies this`analysisOwnership
      ensures this.analysisOwnership == analysisOwnership
    {
      this.analysisOwnership := analysisOwnership;
    }

    /** Registers one more unit at the end of the list. */
    method AddAnalysis(analysis: AnalysisUnit)
      modifies this`analysisList
      ensures analysisList == old(analysisList) + [analysis]
    {
      analysisList := analysisList + [analysis];
    }

    /** The destructor. With ownership it takes the units off the list one by
        one, front first, destroying each, and then destroys the parameter
        list if there is one; without ownership it touches nothing. Returns
        the units destroyed, in order, and whether the parameter list was. */
    method Destroy() returns (destroyed: seq<AnalysisUnit>, paramsDestroyed: bool)
      modifies this`analysisList
      ensures !analysisOwnership ==> destroyed == [] && !paramsDestroyed && analysisList == old(analysisList)
      ensures analysisOwnership ==> destroyed == old(analysisList) && analysisList == [] && paramsDestroyed == params.Some?
    {
      destroyed, paramsDestroyed := [], false;
      if !analysisOwnership {
        return;
      }
      while |analysisList| > 0
        invariant destroyed + analysisList == old(analysisList)
        decreases |analysisList|
      {
        var analysis := analysisList[0];
        analysisList := analysisList[1..];
        destroyed := destroyed + [analysis];
      }
      paramsDestroyed := params.Some?;
    }

    /** The names of the write-enabled units, each followed by the separator. */
    method WrittenNamesText() returns (s: string)
      ensures s == Line(WrittenNames(analysisList), separator)
    {
      s := "";
      var u := 0;
      while u < |analysisList|
        invariant 0 <= u <= |analysisList|
        invariant s == Line(WrittenNames(analysisList[..u]), separator)
      {
        var analysis := analysisList[u];
        assert analysisList[..u + 1][..u] == analysisList[..u];
        assert WrittenNames(analysisList[..u + 1]) ==
                 WrittenNames(analysisList[..u]) + (if analysis.writeResults then [analysis.name] else []);
        if analysis.writeResults {
          LineSnoc(WrittenNames(analysisList[..u]), analysis.name, separator);
          s := s + analysis.name + separator;
        } else {
          assert WrittenNames(analysisList[..u + 1]) == WrittenNames(analysisList[..u]);
        }
        u := u + 1;
      }
      assert analysisList[..u] == analysisList;
    }

    /** The per-run row for step `i`. */
    method RowText(i: nat, resolution: nat, results: seq<seq<int>>) returns (s: string)
      requires resolution > 0 && |results| == |analysisList| && HasBucket(results, i / resolution)
      ensures s == Line(RunRowFields(analysisList, Cells(results), i, resolution), separator)
    {
      var k := i / resolution;
      CellsHasBucket(results, k);
      ghost var cells := Cells(results);
      var step := NatToString(i) + separator;
      var values := "";
      var u := 0;
      while u < |analysisList|
        invariant 0 <= u <= |analysisList|
        invariant HasBucket(cells[..u], k)
        invariant values == Line(WrittenValues(analysisList[..u], cells[..u], k), separator)
      {
        var analysis := analysisList[u];
        WrittenValuesSnoc(analysisList, cells, u, k);
        if analysis.writeResults {
          var text := FormatCell(results, u, k);
          LineSnoc(WrittenValues(analysisList[..u], cells[..u], k), text, separator);
          values := values + text + separator;
        }
        u := u + 1;
      }
      assert analysisList[..u] == analysisList && cells[..u] == cells;
      LineConcat([NatToString(i)], WrittenValues(analysisList, cells, k), separator);
      LineSingle(NatToString(i), separator);
      s := step + values;
    }

    /** `out << results[k]` under fixed notation with two decimals. */
    static method FormatCell(results: seq<seq<int>>, u: nat, k: nat) returns (text: string)
      requires u < |results| && k < |results[u]|
      ensures text == Cells(results)[u][k]
    {
      CellsAt(results, u, k);
      text := Fmt(results[u][k]);
    }

    /** Bucket `k` of every registered unit, each followed by the separator. */
    method FinalText(results: seq<seq<int>>, k: nat) returns (s: string)
      requires |results| == |analysisList| && HasBucket(results, k)
      ensures s == Line(AllValues(Cells(results), k), separator)
    {
      CellsHasBucket(results, k);
      ghost var cells := Cells(results);
      s := "";
      var u := 0;
      while u < |analysisList|
        invariant 0 <= u <= |analysisList|
        invariant HasBucket(cells[..u], k)
        invariant s == Line(AllValues(cells[..u], k), separator)
      {
        AllValuesSnoc(cells, u, k);
        var text := FormatCell(results, u, k);
        LineSnoc(AllValues(cells[..u], k), text, separator);
        s := s + text + separator;
        u := u + 1;
      }
      assert cells[..u] == cells;
    }

    /** The whole computation stage of `apply`: for each unit in order, size
        its buffer, pre-process it, feed it every selected agent, post-process
        it. Returns the calls made. */
    method ComputePasses(rec: SimRecord, agentType: string) returns (trace: seq<Event>)
      requires rec.finalResolution > 0
      ensures trace == Passes(|analysisList|, Buckets(rec), SelectAgents(rec, agentType))
    {
      var n := 1 + rec.numSteps / rec.finalResolution;
      ghost var agents := SelectAgents(rec, agentType);
      trace := [];
      var u := 0;
      while u < |analysisList|
        invariant 0 <= u <= |analysisList|
        invariant trace == Passes(u, n, agents)
      {
        var calls := AgentCalls(u, rec, agentType);
        trace := trace + [SetNumTimeSteps(u, n), PreProcess(u)] + calls + [PostProcess(u)];
        u := u + 1;
      }
    }

    /** The `compute` calls unit `u` receives: every agent of every type for
        the filter "all", otherwise the agents of the named type. */
    static method AgentCalls(u: nat, rec: SimRecord, agentType: string) returns (calls: seq<Event>)
      ensures calls == Computes(u, SelectAgents(rec, agentType))
    {
      calls := [];
      if agentType == "all" {
        var t := 0;
        while t < |rec.types|
          invariant 0 <= t <= |rec.types|
          invariant calls == Computes(u, AllAgents(rec.types[..t]))
        {
          var agentRecords := rec.types[t].agents;
          ghost var before := AllAgents(rec.types[..t]);
          assert rec.types[..t + 1][..t] == rec.types[..t];
          var a := 0;
          while a < |agentRecords|
            invariant 0 <= a <= |agentRecords|
            invariant calls == Computes(u, before + agentRecords[..a])
          {
            assert before + agentRecords[..a + 1] == (before + agentRecords[..a]) + [agentRecords[a]];
            ComputesSnoc(u, before + agentRecords[..a], agentRecords[a]);
            calls := calls + [ComputeAgent(u, agentRecords[a])];
            a := a + 1;
          }
          assert agentRecords[..a] == agentRecords;
          t := t + 1;
        }
        assert rec.types[..t] == rec.types;
      } else {
        var agentRecords := AgentsOf(rec.types, agentType);
        var a := 0;
        while a < |agentRecords|
          invariant 0 <= a <= |agentRecords|
          invariant calls == Computes(u, agentRecords[..a])
        {
          assert agentRecords[..a + 1] == agentRecords[..a] + [agentRecords[a]];
          ComputesSnoc(u, agentRecords[..a], agentRecords[a]);
          calls := calls + [ComputeAgent(u, agentRecords[a])];
          a := a + 1;
        }
        assert agentRecords[..a] == agentRecords;
      }
    }

    /** `writeParams`: the text of the resolved parameter values, each followed
        by the separator; empty when the run's configuration does not load,
        `None` on a path that faults. */
    method WriteParams(fileName: string, configs: map<string, Document>) returns (r: Option<string>)
      requires params.Some?
      ensures r.Some? <==> ParamValues(params.value, inputDir, fileName, configs).Some?
      ensures r.Some? ==> r.value == Line(ParamValues(params.value, inputDir, fileName, configs).value, separator)
    {
      var configFile := inputDir + "/" + StripExtension(fileName) + "/config.xml";
      if configFile !in configs {
        return Some("");
      }
      var doc := configs[configFile];
      var ps := params.value;
      var text := "";
      var idx := 0;
      while idx < |ps|
        invariant 0 <= idx <= |ps|
        invariant ResolveAll(doc, ps[..idx]).Some?
        invariant text == Line(ResolveAll(doc, ps[..idx]).value, separator)
      {
        ghost var vs := ResolveAll(doc, ps[..idx]).value;
        var value := ReadParam(doc, ps[idx]);
        if value.None? {
          ResolveAllStops(doc, ps, idx);
          return None;
        }
        ResolveAllSnoc(doc, ps, idx, vs, value.value);
        LineSnoc(vs, value.value, separator);
        text := text + value.value + separator;
        idx := idx + 1;
      }
      assert ps[..idx] == ps;
      r := Some(text);
    }

    /** One path of `writeParams`: from a null cursor, look up p[|p|-1]
        down to p[1], each lookup among the children of the cursor or, when
        the cursor is null, of the document; then read attribute p[0].
        `None` where the source faults. */
    static method ReadParam(doc: Document, paramsList: ParamPath) returns (value: Option<string>)
      ensures value == ResolvePath(doc, paramsList)
    {
      if |paramsList| == 0 {
        return None;
      }
      var element: Option<Elem> := None;
      // lookups run from the last path element down to the second
      var itL := |paramsList| - 1;
      var i := 0;
      while i < |paramsList| - 1
        invariant 0 <= i <= |paramsList| - 1 && itL == |paramsList| - 1 - i
        invariant element == Walk(doc, LookupOrder(paramsList)[..i])
      {
        WalkSnoc(doc, LookupOrder(paramsList), i);
        if element.None? {
          element := FirstChildElement(doc.children, paramsList[itL]);
        } else {
          element := FirstChildElement(element.value.children, paramsList[itL]);
        }
        itL := itL - 1;
        i := i + 1;
      }
      assert LookupOrder(paramsList)[..i] == LookupOrder(paramsList);
      if element.None? {
        return None;
      }
      var attributeName := paramsList[0];
      if attributeName !in element.value.attrs {
        return None;
      }
      value := Some(element.value.attrs[attributeName]);
    }

    /** A grouped-header label: the first path element, then `_` and the
        second one if there is one, stopping after two entries. */
    static method ParamLabel(paramsList: ParamPath) returns (columnLabel: string)
      ensures columnLabel == Label(paramsList)
    {
      columnLabel := "";
      var itL := 0;
      var numEntries := 0;
      while itL < |paramsList|
        invariant 0 <= itL <= 1 && itL <= |paramsList| && numEntries == itL
        invariant columnLabel == if itL == 0 then "" else paramsList[0] + (if itL < |paramsList| then "_" else "")
      {
        columnLabel := columnLabel + paramsList[itL];
        numEntries := numEntries + 1;
        if numEntries >= 2 {
          break;
        }
        itL := itL + 1;
        if itL < |paramsList| {
          columnLabel := columnLabel + "_";
        }
      }
    }

    /** `setParams`: stores the paths, the grouped file and the input
        directory, and (re)writes the grouped file with its header alone. */
    method SetParams(ps: seq<ParamPath>, groupFile: string, inputDir: string, fs: FileStore)
      modifies this`params, this`groupFile, this`inputDir, fs
      ensures params == Some(ps) && this.groupFile == groupFile && this.inputDir == inputDir
      ensures analysisList == old(analysisList) && analysisOwnership == old(analysisOwnership)
      ensures fs.files == old(fs.files)[groupFile := [Line(GroupHeaderFields(ps, analysisList), separator)]]
    {
      var header := "run" + separator;
      LineSingle("run", separator);
      var i := 0;
      while i < |ps|
        invariant 0 <= i <= |ps|
        invariant header == Line(["run"] + Labels(ps[..i]), separator)
        invariant fs.files == old(fs.files)
      {
        var columnLabel := ParamLabel(ps[i]);
        assert ps[..i + 1][..i] == ps[..i];
        assert ["run"] + Labels(ps[..i + 1]) == (["run"] + Labels(ps[..i])) + [columnLabel];
        LineSnoc(["run"] + Labels(ps[..i]), columnLabel, separator);
        header := header + columnLabel + separator;
        i := i + 1;
      }
      assert ps[..i] == ps;
      var names := WrittenNamesText();
      LineConcat(["run"] + Labels(ps), WrittenNames(analysisList), separator);
      header := header + names;
      params := Some(ps);
      this.inputDir := inputDir;
      this.groupFile := groupFile;
      fs.Overwrite(groupFile, [header]);
    }

    /** The per-run file: the header, then the stride loop over the steps
        `0, R, 2R, ... <= N`, one row each. */
    method RunFileLines(rec: SimRecord, results: seq<seq<int>>) returns (lines: seq<string>)
      requires rec.finalResolution > 0
      requires ResultsSized(results, |analysisList|, Buckets(rec))
      ensures lines == RunFile(analysisList, Cells(results), rec, separator)
    {
      var resolution := rec.finalResolution;
      var names := WrittenNamesText();
      var header := "timeStep" + separator + names;
      assert header == Line(RunHeaderFields(analysisList), separator) by {
        LineSingle("timeStep", separator);
        LineConcat(["timeStep"], WrittenNames(analysisList), separator);
      }
      lines := [header];
      CellsSized(results, |analysisList|, Buckets(rec));
      ghost var cells := Cells(results);
      var i := 0;
      ghost var k := 0;
      while i <= rec.numSteps
        invariant i == k * resolution && k <= Buckets(rec)
        invariant lines == [header] + RunRows(analysisList, cells, rec, k, separator)
        decreases rec.numSteps + 1 - i
      {
        StrideInside(rec, k);
        SizedHasBucket(results, |analysisList|, Buckets(rec), k);
        var row := RowText(i, resolution, results);
        RunRowsStep(analysisList, cells, rec, k, separator, [header], row);
        NextStride(k, resolution);
        lines := lines + [row];
        i := i + resolution;
        k := k + 1;
      }
      StrideInside(rec, k);
    }

    /** The grouped row of a run: its base name, the parameter values, the
        final bucket of every unit; `None` where `writeParams` faults. */
    method GroupLine(rec: SimRecord, outputFile: string, results: seq<seq<int>>, configs: map<string, Document>)
      returns (row: Option<string>)
      requires params.Some? && rec.finalResolution > 0
      requires ResultsSized(results, |analysisList|, Buckets(rec))
      ensures row == GroupRow(params.value, inputDir, outputFile, configs, Cells(results), rec, separator)
    {
      var last := rec.numSteps / rec.finalResolution;
      SizedHasBucket(results, |analysisList|, Buckets(rec), last);
      CellsSized(results, |analysisList|, Buckets(rec));
      SizedHasBucket(Cells(results), |analysisList|, Buckets(rec), Buckets(rec) - 1);
      var fileName := Basename(outputFile);
      var line := fileName + separator;
      var written := WriteParams(fileName, configs);
      if written.None? {
        GroupRowFault(params.value, inputDir, outputFile, configs, Cells(results), rec, separator);
        return None;
      }
      var finals := FinalText(results, last);
      GroupRowAssembled(params.value, inputDir, outputFile, configs, Cells(results), rec, separator,
                        written.value, finals);
      row := Some(line + written.value + finals);
    }

    /** `apply`: drives every unit over the record, writes the per-run file
        and, when parameters are set, appends the run's row to the grouped
        file. `results[u]` is what unit u's `getResult` reports once it has
        been post-processed. */
    method Apply(rec: SimRecord, outputFile: string, agentType: string, results: seq<seq<int>>,
                 configs: map<string, Document>, fs: FileStore)
      returns (trace: seq<Event>, status: Status)
      requires rec.finalResolution > 0
      requires ResultsSized(results, |analysisList|, Buckets(rec))
      modifies fs
      ensures trace == Passes(|analysisList|, Buckets(rec), SelectAgents(rec, agentType))
      ensures var afterRun := old(fs.files)[outputFile := RunFile(analysisList, Cells(results), rec, separator)];
              if params.None? then status == Done && fs.files == afterRun
              else
                var groupOpened := afterRun[groupFile := FileLines(afterRun, groupFile)];
                match GroupRow(params.value, inputDir, outputFile, configs, Cells(results), rec, separator)
                case None => status == Fault && fs.files == groupOpened
                case Some(row) => status == Done && fs.files == groupOpened[groupFile := groupOpened[groupFile] + [row]]
    {
      trace := ComputePasses(rec, agentType);
      var lines := RunFileLines(rec, results);
      fs.Overwrite(outputFile, lines);
      status := Done;
      if params.Some? {
        fs.OpenForAppend(groupFile);
        var row := GroupLine(rec, outputFile, results, configs);
        if row.None? {
          status := Fault;
          return;
        }
        fs.AppendLine(groupFile, row.value);
      }
    }
  }
}
