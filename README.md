# GlobalStats: a verified model of pandora's grouped post-processing statistics

`PostProcess::GlobalStats` is the post-processing stage of the pandora
agent-based simulation framework that aggregates analysis results over a run.
It holds a list of analysis units. In `apply` it drives each unit over a
simulation record and writes two outputs: a per-run CSV-like file with a
`timeStep` column and one column per write-enabled unit, sampled every
`finalResolution` steps; and, when parameter paths have been set, one row per
run appended to a grouped file. The grouped row carries the run's file name,
the values of the configured parameters read from the run's `config.xml`, and
the final result of every unit.

The model is in Dafny, one module per concern:

- `Text` (text.dfy): the separator-terminated line format (`Line`), decimal
  notation of naturals, `find_last_of`, and the base-name and
  extension-stripping used for file names.
- `FixedPoint` (fixed.dfy): the `std::setprecision(2) << std::fixed`
  rendering of a result, modelled on integer hundredths, with its parser.
- `Config` (config.dfy): the configuration document as element trees, and
  the path walk `writeParams` performs with TinyXML's `FirstChildElement`,
  cursor reset included.
- `Analysis` (analysis.dfy):
  - the simulation record, agent groups and analysis units as values;
  - the calls `apply` makes on the units, recorded as a trace of events;
  - the agent selection by type filter.
- `Report` (report.dfy): the reference definitions of the per-run file and
  the grouped header and row, with the lemmas about their shape.
- `Files` and `Engine` (global_stats.dfy):
  - a `FileStore` class for the files written;
  - the `GlobalStats` class, with the fields of the C++ object and one method
    per member function, each loop kept as a `while` loop with its invariants
    and each method proved equal to the reference definitions.
- `Scenarios` (scenarios.dfy): worked examples on concrete inputs.

The grouped header labels each parameter column by its path's first element,
joined by `_` to the second one when there is one (`density_agent` for the
path `density, agent, params`): the name of the field and, if it exists,
the name of its parent, as `setParams` writes it
(pandora/analysis/GlobalStats.cxx:215-236).

## Model

| member | source | states |
|---|---|---|
| Engine.GlobalStats.constructor | pandora/analysis/GlobalStats.cxx:32-34 | the separator is stored, ownership is on, the unit list is empty, no parameters are set |
| Engine.GlobalStats.SetAnalysisOwnership | pandora/analysis/GlobalStats.cxx:57-60 | only the ownership flag changes, to the value given |
| Engine.GlobalStats.AddAnalysis | pandora/analysis/GlobalStats.cxx:198-201 | the unit is appended at the end of the list and nothing else changes |
| Engine.GlobalStats.Destroy | pandora/analysis/GlobalStats.cxx:36-55 | without ownership nothing is destroyed and the list is kept; with ownership every unit is destroyed exactly once, front first, the list ends empty, and the parameter list is destroyed exactly when one is set |
| Engine.GlobalStats.Apply | pandora/analysis/GlobalStats.cxx:62-155 | the calls on the units are one full pass per unit in list order; the run file is overwritten with the reference file; with parameters set, the grouped file is opened for append (created if missing) and gets exactly one more line, the reference grouped row, or the call faults and no row is added |
| Engine.GlobalStats.ComputePasses | pandora/analysis/GlobalStats.cxx:87-119 | for each unit in order: setNumTimeSteps(1 + N/R), preProcess, one computeAgent per selected agent in order, postProcess |
| Engine.GlobalStats.AgentCalls | pandora/analysis/GlobalStats.cxx:95-114 | filter "all" feeds every agent of every type, type after type; any other filter feeds the agents of that type only |
| Engine.GlobalStats.RunFileLines | pandora/analysis/GlobalStats.cxx:76-133 | the per-run file is the header line followed by one row for each step 0, R, 2R, ... up to N |
| Engine.GlobalStats.WrittenNamesText | pandora/analysis/GlobalStats.cxx:78-84 | the names of the write-enabled units, in list order, each followed by the separator |
| Engine.GlobalStats.RowText | pandora/analysis/GlobalStats.cxx:123-132 | the row of step i is the step number and then bucket i/R of each write-enabled unit, in list order, each field followed by the separator |
| Engine.GlobalStats.FormatCell | pandora/analysis/GlobalStats.cxx:129 | a written cell is the two-decimal fixed-point text of that unit's result for that bucket |
| Engine.GlobalStats.FinalText | pandora/analysis/GlobalStats.cxx:148-151 | the final bucket of every unit, write-enabled or not, in list order, each followed by the separator |
| Engine.GlobalStats.GroupLine | pandora/analysis/GlobalStats.cxx:141-152 | the grouped row is the run's base name, the parameter text and the final cells; none where writeParams faults |
| Engine.GlobalStats.WriteParams | pandora/analysis/GlobalStats.cxx:157-195 | succeeds exactly when the reference parameter values exist (none when the configuration does not load); its text is those values, each followed by the separator |
| Engine.GlobalStats.ReadParam | pandora/analysis/GlobalStats.cxx:172-192 | one path read as the source walks it, from a null cursor, equals the reference resolution |
| Engine.GlobalStats.ParamLabel | pandora/analysis/GlobalStats.cxx:218-237 | the header label of a path is its first element, then `_` and its second element when it has one |
| Engine.GlobalStats.SetParams | pandora/analysis/GlobalStats.cxx:203-251 | the paths, grouped file and input directory are stored, the units and ownership are kept, and the grouped file is truncated to the single header line "run", the labels, then the written unit names |
| Files.FileStore.Overwrite | pandora/analysis/GlobalStats.cxx:209-210 | opening without a mode replaces that file's lines and leaves every other file unchanged |
| Files.FileStore.OpenForAppend | pandora/analysis/GlobalStats.cxx:138-140 | opening for append keeps an existing file's lines and creates a missing file empty |
| Files.FileStore.AppendLine | pandora/analysis/GlobalStats.cxx:152 | a line is added at the end of that file and no other file changes |
| Analysis.BucketsCover | pandora/analysis/GlobalStats.cxx:90-121 | the buffer size 1 + N/R covers the stride loop: the last sampled step is at most N and one more stride would pass N |
| Analysis.AllAgentsMembers | pandora/analysis/GlobalStats.cxx:95-106 | with the filter "all" an agent is visited if and only if some type holds it |
| Analysis.AgentsOfNamed | pandora/analysis/GlobalStats.cxx:107-114 | a named filter visits exactly the agents of that type |
| Analysis.AgentsOfAbsent | pandora/analysis/GlobalStats.cxx:107-114 | a named filter that no type carries visits no agent |
| Analysis.PassesAt | pandora/analysis/GlobalStats.cxx:87-119 | the trace has count*(agents+3) calls, and the call at offset j of unit u's pass is setNumTimeSteps, preProcess, computeAgent of agent j-2, or postProcess, by position |
| Analysis.PassesOrdered | pandora/analysis/GlobalStats.cxx:87-119 | the unit positions along the trace never decrease and are all valid: no unit is called before the previous unit is finished |
| Text.LineConcat | pandora/analysis/GlobalStats.cxx:76-85 | the line of two concatenated field lists is the concatenation of their lines |
| Text.NatToStringRoundTrip | pandora/analysis/GlobalStats.cxx:124 | the decimal step number is all digits and reads back as the step |
| Text.NatToStringDigits | pandora/analysis/GlobalStats.cxx:124 | the step number is a non-empty run of digits without a leading zero |
| Text.LastIndexOfIsLast | pandora/analysis/GlobalStats.cxx:142 | the position found holds the character and no later position does; -1 means it does not occur |
| Text.BasenameIsLastComponent | pandora/analysis/GlobalStats.cxx:142-143 | the file name is the suffix of the output path after its last '/', has no '/', and is the whole path when there is no '/' |
| Text.StripExtensionIsStem | pandora/analysis/GlobalStats.cxx:160-161 | the stem is the prefix before the last '.', contains what precedes it, and is the whole name when there is no '.' |
| FixedPoint.FmtShape | pandora/analysis/GlobalStats.cxx:129 | a result prints as digits, a point and exactly two decimals, with a leading minus exactly for a negative value |
| FixedPoint.FmtRoundTrip | pandora/analysis/GlobalStats.cxx:129 | every printed result reads back as the value it was printed from |
| Config.FirstNamedIsFirst | pandora/analysis/GlobalStats.cxx:181-185 | the index found names the tag and no earlier child does |
| Config.FirstChildElementFinds | pandora/analysis/GlobalStats.cxx:181-185 | the child found has the tag; null means no child has it |
| Config.ResolveNeedsTwoElements | pandora/analysis/GlobalStats.cxx:177-191 | a path of fewer than two elements faults: it performs no lookup and dereferences the null element (or underflows the bound when empty) |
| Config.WalkContinues | pandora/analysis/GlobalStats.cxx:177-188 | once the cursor reaches an element, the remaining lookups follow the plain descent from it when that descent succeeds |
| Config.WalkAgreesWithDescend | pandora/analysis/GlobalStats.cxx:177-188 | when every enclosing element exists, the backwards walk reaches the element the outer-to-inner descent reaches |
| Config.ResolveCanonical | pandora/analysis/GlobalStats.cxx:172-192 | a path whose elements all exist resolves to attribute p[0] of element p[1] inside p[2] ... inside the last |
| Config.ResolveRestartsAfterMissing | pandora/analysis/GlobalStats.cxx:179-186 | a lookup that finds nothing leaves the cursor null, so the next lookup restarts from the document: a path through a missing element can still resolve |
| Config.ResolveAllPerPath | pandora/analysis/GlobalStats.cxx:172-193 | the resolved list holds one value per path, each the value of that path alone, and fails exactly when one path fails |
| Config.ResolveAllStops | pandora/analysis/GlobalStats.cxx:172-193 | a single faulting path makes the whole parameter list fault |
| Report.CellsAt | pandora/analysis/GlobalStats.cxx:129 | the cell of unit u and bucket k is the fixed-point text of that unit's result k |
| Report.ColumnsAligned | pandora/analysis/GlobalStats.cxx:78-131 | the header and every row have one column per write-enabled unit, and column j of both belongs to the same unit |
| Report.WrittenPositionsExact | pandora/analysis/GlobalStats.cxx:80-127 | the written columns are increasing positions, and they are exactly the positions of the write-enabled units |
| Report.WrittenNamesCount | pandora/analysis/GlobalStats.cxx:78-84 | there are as many written columns as units if and only if every unit writes |
| Report.RunFileShape | pandora/analysis/GlobalStats.cxx:76-133 | the per-run file has the header and then exactly N/R + 1 rows, row k being the stride step k*R with bucket k |
| Report.RunRowAligned | pandora/analysis/GlobalStats.cxx:76-133 | every per-run row has as many fields as the header |
| Report.AllValuesAt | pandora/analysis/GlobalStats.cxx:148-151 | the grouped row's result columns are one per unit, in list order |
| Report.LabelsAt | pandora/analysis/GlobalStats.cxx:216-238 | one header label per path, in path order |
| Report.LabelExamples | pandora/analysis/GlobalStats.cxx:216-238 | a three-element path is labelled by its first two elements, a one-element path by itself, an empty path by nothing |
| Report.GroupRowFault | pandora/analysis/GlobalStats.cxx:146 | where writeParams faults there is no grouped row |
| Report.GroupRowAssembled | pandora/analysis/GlobalStats.cxx:141-152 | otherwise the row is the base name and separator, then the parameter text, then the final cells |
| Report.GroupRowResolved | pandora/analysis/GlobalStats.cxx:141-193 | with a loaded configuration the row holds the base name, each path's value in path order, and every unit's final result; it matches the header's width if and only if every unit writes |
| Report.GroupRowUnloaded | pandora/analysis/GlobalStats.cxx:163-167 | when the configuration does not load, the row carries no parameter columns and falls short of the header by one field per path when every unit writes |
| Scenarios.RunFileExample | pandora/analysis/GlobalStats.cxx:76-133 | ten steps at resolution five with two written units give the header and the rows for steps 0, 5 and 10 with two-decimal values |

## Left out

- Console output: the progress messages on standard output are not modelled.
- Stream state: opening, writing and closing a file are taken to succeed; I/O errors and the stream error flags are not modelled.
- Engine.GlobalStats.Apply: requires a positive `finalResolution`. At R = 0 the source divides by zero at pandora/analysis/GlobalStats.cxx:90 when a unit is registered; with no unit registered nothing divides, but the stride loop at line 121 never advances and writes `0` and the separator as a row forever. Neither behaviour is modelled.
- Analysis.AgentsOf: the record lookup for a type it does not hold is not part of this model; such a type is assumed to have no agents, which is what Analysis.AgentsOfAbsent builds on.
- XML parsing: TinyXML's parser is not modelled. The configuration documents are an input map from path to parsed document, and a path missing from it is a document that does not load.
- Analysis internals: what `setNumTimeSteps`, `preProcess`, `computeAgent`, `postProcess` and `getResult` do inside a unit is not modelled. The calls are recorded as a trace, and the results after post-processing are an input, one buffer per unit of 1 + N/R entries.
- Simulation record internals: the record is reduced to its step count, its resolution and its agent groups in iteration order. The named-type lookup takes the first group of that name, and the types of a record are distinct.
- FixedPoint.Fmt: results are integer hundredths. Binary floating point, its rounding to two decimals and the printing of negative zero are not modelled.
- Text.Basename: does not model the 32-bit truncation of `find_last_of`'s result, which differs from the model only for names of 4 GiB or more.
- Text.StripExtension: does not model the same 32-bit truncation, for the same reason.
- Engine.GlobalStats.RunFileLines: does not model the overflow of the `int` step counter when N + R exceeds the largest `int`.
- Engine.GlobalStats.WriteParams: undefined behaviour is modelled as a fault in which no grouped row is written and `apply` returns `Fault`. This covers an empty path (the `size() - 1` underflow), a null final element and a missing attribute (streaming a null `char*`). What a real process does then is not modelled.
- Engine.GlobalStats.SetParams: takes the path list by value. It does not model the aliasing of the caller's `Params` pointer, a null pointer passed in, or a caller's later changes to that list.
- Engine.GlobalStats.Destroy: reports which units and which parameter list are freed. It does not model memory, double deletion or a unit registered twice.
- Engine.GlobalStats.Name: `getName` is the constant function returning "Global Stats". It carries no contract, since it states nothing beyond that value.
- The base class `Output` and the other post-processing classes are not part of this model. Only the separator taken from `Output` is modelled.
