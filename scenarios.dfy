/** Worked examples of the model on small concrete inputs. */
module Scenarios {
  import opened Text
  import opened FixedPoint
  import opened Analysis
  import opened Report
  import opened Engine

  lemma LineOfThree(a: string, b: string, c: string, sep: string)
    ensures Line([a, b, c], sep) == a + sep + b + sep + c + sep
  {
    LineSingle(a, sep);
    LineSnoc([a], b, sep);
    assert [a] + [b] == [a, b];
    LineSnoc([a, b], c, sep);
    assert [a, b] + [c] == [a, b, c];
  }

  const exampleUnits: seq<AnalysisUnit> := [AnalysisUnit("pop", true), AnalysisUnit("avgAge", true)]
  const exampleResults: seq<seq<int>> := [[1000, 2000, 3000], [150, 200, 250]]
  const exampleRecord: SimRecord := SimRecord(10, 5, [])

  lemma ExampleFormatting()
    ensures NatToString(0) == "0" && NatToString(5) == "5" && NatToString(10) == "10"
    ensures Fmt(1000) == "10.00" && Fmt(2000) == "20.00" && Fmt(3000) == "30.00"
    ensures Fmt(150) == "1.50" && Fmt(200) == "2.00" && Fmt(250) == "2.50"
  {
  }

  lemma ExampleColumns(k: nat)
    requires k < 3
    ensures WrittenNames(exampleUnits) == ["pop", "avgAge"]
    ensures WrittenValues(exampleUnits, Cells(exampleResults), k) == [Fmt(exampleResults[0][k]), Fmt(exampleResults[1][k])]
  {
    var units, cells := exampleUnits, Cells(exampleResults);
    CellsAt(exampleResults, 0, k);
    CellsAt(exampleResults, 1, k);
    assert units[..1] == [units[0]] && units[..1][..0] == [];
    assert cells[..1] == [cells[0]] && cells[..1][..0] == [];
    assert WrittenValues(units[..1], cells[..1], k) == [cells[0][k]];
  }

  lemma ExampleRow(k: nat)
    requires k < 3
    ensures RowLine(exampleUnits, Cells(exampleResults), exampleRecord, k, ",") ==
              NatToString(k * 5) + "," + Fmt(exampleResults[0][k]) + "," + Fmt(exampleResults[1][k]) + ","
  {
    ExampleColumns(k);
    var fields := [NatToString(k * 5)] + WrittenValues(exampleUnits, Cells(exampleResults), k);
    assert fields == [NatToString(k * 5), Fmt(exampleResults[0][k]), Fmt(exampleResults[1][k])];
    LineOfThree(NatToString(k * 5), Fmt(exampleResults[0][k]), Fmt(exampleResults[1][k]), ",");
  }

  lemma ExampleRow0()
    ensures RowLine(exampleUnits, Cells(exampleResults), exampleRecord, 0, ",") == "0,10.00,1.50,"
  {
    ExampleRow(0);
    ExampleFormatting();
    assert 0 * 5 == 0 && exampleResults[0][0] == 1000 && exampleResults[1][0] == 150;
    assert "0" + "," + "10.00" + "," + "1.50" + "," == "0,10.00,1.50,";
  }

  lemma ExampleRow1()
    ensures RowLine(exampleUnits, Cells(exampleResults), exampleRecord, 1, ",") == "5,20.00,2.00,"
  {
    ExampleRow(1);
    ExampleFormatting();
    assert 1 * 5 == 5 && exampleResults[0][1] == 2000 && exampleResults[1][1] == 200;
    assert "5" + "," + "20.00" + "," + "2.00" + "," == "5,20.00,2.00,";
  }

  lemma ExampleRow2()
    ensures RowLine(exampleUnits, Cells(exampleResults), exampleRecord, 2, ",") == "10,30.00,2.50,"
  {
    ExampleRow(2);
    ExampleFormatting();
    assert 2 * 5 == 10 && exampleResults[0][2] == 3000 && exampleResults[1][2] == 250;
    assert "10" + "," + "30.00" + "," + "2.50" + "," == "10,30.00,2.50,";
  }

  lemma ExampleHeader()
    ensures Line(RunHeaderFields(exampleUnits), ",") == "timeStep,pop,avgAge,"
  {
    ExampleColumns(0);
    assert RunHeaderFields(exampleUnits) == ["timeStep", "pop", "avgAge"];
    LineOfThree("timeStep", "pop", "avgAge", ",");
  }

  /** Ten steps at resolution five, two write-enabled units: three rows for
      steps 0, 5 and 10, each field followed by the separator. */
  lemma RunFileExample()
    ensures var f := RunFile(exampleUnits, Cells(exampleResults), exampleRecord, ",");
            |f| == 4 && f[0] == "timeStep,pop,avgAge," && f[1] == "0,10.00,1.50,"
            && f[2] == "5,20.00,2.00," && f[3] == "10,30.00,2.50,"
  {
    RunFileShape(exampleUnits, Cells(exampleResults), exampleRecord, ",");
    ExampleHeader();
    ExampleRow0();
    ExampleRow1();
    ExampleRow2();
  }

  /** Without ownership the destructor destroys nothing it was given. */
  method BorrowedUnitsSurvive()
  {
    var stats := new GlobalStats(",");
    stats.SetAnalysisOwnership(false);
    stats.AddAnalysis(AnalysisUnit("pop", true));
    stats.AddAnalysis(AnalysisUnit("avgAge", true));
    var destroyed, paramsDestroyed := stats.Destroy();
    assert destroyed == [] && !paramsDestroyed;
    assert stats.analysisList == [AnalysisUnit("pop", true), AnalysisUnit("avgAge", true)];
  }
}
