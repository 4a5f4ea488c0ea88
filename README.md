# Cellpose-SAM GPU node test: verified model of the prober and the aggregator

This project models the deterministic bookkeeping of the GPU node test
tooling in Dafny and proves properties of it. It has two scripts:

- `test_gpu_node.py`, the per-node prober. It runs four checks: PyTorch/CUDA
  availability, the cellpose import and its version, Cellpose-SAM model
  loading, and a dummy inference. It then assembles one result record
  (`node`, `hostname`, `status`, `tests`, `errors`) and exits 0 or 1.
- `summarize_results.py`, the aggregator. It chooses the result files, reads
  them, splits the records into successes and failures by exact status
  string, groups the failed records' errors into an insertion-ordered
  dictionary, and writes a text report.

What the foreign libraries report is an input of the model. Each torch,
cellpose, model-construction and `model.eval` call becomes a "probe"
datatype, and so does the `pip show` output. A probe either carries what the
library returned or says that it raised (with the message and the
traceback). From a probe, each check is a function that gives the check's
result entry and its error list. Where the source loops, the loop is also
written as a method, and each method is proved equal to its function.

Files:

- `outcomes.dfy`: `Option` and `Result`.
- `text.dfy`: the Python string operations the scripts use: `str.strip()`
  with Python's `isspace` set, `split`, `join`, `startswith`, `endswith`,
  `split(c, 1)[1]`, `"=" * 80`, and decimal rendering of counts.
- `ordering.dfy`: code-point string order and a sort that stands for
  `sorted`. `sorted` at summarize_results.py:26 orders `Path` objects,
  which compare part by part. All globbed paths lie in one directory, so
  they compare as their last parts, the entry names. The model therefore
  sorts the names and then joins each to the directory.
  `Summary.PathsKeepOrder` proves that joining to one directory keeps the
  order.
- `records.dfy`: the result record shared by both scripts.
- `prober.dfy`: `test_gpu_node.py`.
- `categories.dfy`: the `error_categories` nested loop of the aggregator.
  The nested loop is written as an outer method over the failed records
  and an inner method over one record's errors, each with its own loop
  invariant.
- `summary.dfy`: the rest of the aggregator's `main`. The predicate
  `HasDevices` (a record whose pytorch entry carries a `devices` list) is a
  helper; `Summary.ProbedDevicesListed` states what it means for records
  the prober writes. Both node listings are one function, `Entries`,
  applied to the entry of a successful or of a failed node.

The report is modelled as a sequence of lines. The file text is each line
followed by a newline. The `datetime.now()` reading is the report's
`generated` parameter. A result file that can be read is modelled as an
entry of a map from path to record. A path missing from that map is a file
whose `open` or `json.load` raises, and it ends the run with that path as
the error.

What the code does in the cases where the failure handling matters:

- Without CUDA, the prober still runs the cellpose check and model loading.
  Inference runs whenever model loading returned a model.
- The prober exits 1 whenever `errors` is non-empty.
- The aggregator stops at the first result file it cannot open or parse, and
  writes no report.
- The aggregator reads the `--input-files` list or, without it, the sorted
  `*_result.json` entries of `--input-dir`.
- The aggregator opens the report file and writes it directly.

## Model

| member | source | states |
|---|---|---|
| Text.Strip | test_gpu_node.py:91 | `strip()` leaves a slice of its input that neither starts nor ends with whitespace, with only whitespace outside it |
| Text.StripIdempotent | test_gpu_node.py:91 | stripping twice is the same as stripping once |
| Text.StartsWithMeaning | test_gpu_node.py:90 | `startswith(prefix)` holds exactly when the line is the prefix followed by some text |
| Text.EndsWithMeaning | summarize_results.py:26 | a name ends with the suffix exactly when it is some text followed by that suffix |
| Text.Split | test_gpu_node.py:89 | `split('\n')` gives at least one piece and no piece contains the separator |
| Text.JoinSplit | test_gpu_node.py:89 | joining the pieces of `split` with the separator gives back the text |
| Text.SplitJoin | test_gpu_node.py:89 | splitting the join of pieces that lack the separator gives back those pieces |
| Text.JoinEnds | summarize_results.py:81 | `", ".join(nodes)` is empty for no nodes, and otherwise starts with the first node and ends with the last |
| Text.AfterFirst | test_gpu_node.py:91 | `split(c, 1)[1]` is the text after the first `c`, with no `c` before it |
| Text.AfterFirstOfPrefix | test_gpu_node.py:91 | on a line that starts with `Version:`, `split(':', 1)[1]` is the text after that prefix |
| Text.Repeat | summarize_results.py:34 | `c * n` has length `n` and every character is `c` |
| Text.NatToString | summarize_results.py:37 | the decimal rendering is one or more digits, with a leading zero only for 0 |
| Text.CountReadsBack | summarize_results.py:37-45 | a count written between fixed text reads back as that count from the text in between |
| Text.NatToStringRoundTrip | summarize_results.py:37 | the decimal digits of a count read back as that count |
| Text.NatToStringInjective | summarize_results.py:44-45 | different counts render as different strings |
| Ordering.Sort | summarize_results.py:26 | `sorted` gives an ordered permutation of its input |
| Ordering.LessEqReflexive | summarize_results.py:26 | the string order `sorted` uses puts every string at or before itself |
| Ordering.LessEqTotal | summarize_results.py:26 | any two strings are ordered one way or the other |
| Ordering.LessEqTransitive | summarize_results.py:26 | the order is transitive |
| Ordering.LessEqAntisymmetric | summarize_results.py:26 | two strings each at or before the other are equal |
| Ordering.LessEqCommonPrefix | summarize_results.py:26 | strings with a common prefix compare as what follows it |
| Ordering.SortedUnique | summarize_results.py:26 | two ordered permutations of the same names are equal, so the order files are read in is fixed |
| Prober.EnvOr | test_gpu_node.py:28-30 | `os.environ.get(key, "N/A")` gives the variable's value when it is set and "N/A" otherwise |
| Prober.TestEnvironment | test_gpu_node.py:23-31 | the interpreter path and version as given; each of SLURM_JOB_ID, SLURM_NODELIST and CUDA_VISIBLE_DEVICES is the variable's value when it is set and "N/A" when it is not |
| Prober.PytorchCheck | test_gpu_node.py:34-69 | raised: the error entry and one "PyTorch error: " error; no CUDA: device count 0, no `devices`, exactly the error "CUDA not available despite GPU partition"; CUDA: one device per index 0..n-1 in index order, no errors |
| Prober.DeviceInfo | test_gpu_node.py:53-58 | a device entry has its index, name and rounded memory, and its compute capability splits at the '.' into the major and minor version numerals |
| Prober.TestPytorch | test_gpu_node.py:50-59 | the device-appending loop builds exactly that outcome |
| Prober.FirstLineWith | test_gpu_node.py:89-92 | the index found is the first line that starts with the prefix; no index means no line does |
| Prober.PipVersionFirstLine | test_gpu_node.py:88-92 | the version is "unknown" when no line starts with "Version:", otherwise the stripped text after the first ':' of the first such line |
| Prober.PipVersion | test_gpu_node.py:88-92 | the version has no surrounding whitespace and no line break |
| Prober.ParsePipVersion | test_gpu_node.py:88-92 | the loop with its early `break` gives exactly that version |
| Prober.CellposeCheck | test_gpu_node.py:72-104 | errors are empty exactly when nothing raised; `__version__` is used when present, otherwise the `pip show` version; a raise gives the error entry and one "Cellpose import error: " error |
| Prober.TestCellpose | test_gpu_node.py:79-100 | the imperative check gives exactly that outcome |
| Prober.CpuFallbackWarning | test_gpu_node.py:138-142 | a warning with the fixed text, given exactly when `model.device == 'cpu'` holds and CUDA is available |
| Prober.ModelLoadingCheck | test_gpu_node.py:107-150 | raised: no model, the error entry and exactly one "Model loading error: " error. Loaded: a model on that device; an entry with `success` true, the device, the GPU flag, the network and parameter devices when present, and the warning set by the CPU-fallback rule; an error list that is empty or exactly the warning |
| Prober.Labels | test_gpu_node.py:165 | `np.unique(masks)` holds every pixel's label and no other value |
| Prober.LabelsBound | test_gpu_node.py:165 | there are no more distinct labels than pixels |
| Prober.MaskCount | test_gpu_node.py:165 | the mask count is at least -1 and below the pixel count, and it is -1 exactly for an empty array |
| Prober.MaskCountMeaning | test_gpu_node.py:165 | with background label 0 present, the mask count is the number of distinct non-zero labels |
| Prober.MaskCountWithoutBackground | test_gpu_node.py:165 | without a 0 label the count is one less than the number of distinct labels |
| Prober.InferenceCheck | test_gpu_node.py:153-179 | a successful run records `success` true, the mask count and the shape, and adds no error; a raise adds exactly one "Inference error: " error |
| Prober.ProbeNode | test_gpu_node.py:188-246 | `tests` has exactly the five check names as keys and holds each check's entry under its name; inference is the skip entry unless a model was loaded; `errors` is the pytorch, cellpose, model-loading and (if run) inference errors in that order; status is SUCCESS exactly when `errors` is empty and FAILED otherwise; the exit code is 0 exactly on SUCCESS and 1 otherwise |
| Prober.HealthyNodeHasNoErrors | test_gpu_node.py:205-229 | CUDA available, cellpose imported, a model whose device does not compare equal to 'cpu' and a finished inference give no error at all |
| Prober.CudaUnavailableFails | test_gpu_node.py:61-63 | without CUDA the first error is the CUDA error, so the node fails whatever the later checks find |
| ErrorCategories.RecordOccurrences | summarize_results.py:74-77 | one occurrence per error of a record, in list order, each with the record's node |
| ErrorCategories.OccurrencesLength | summarize_results.py:73-74 | the nested loops visit exactly as many occurrences as there are errors |
| ErrorCategories.OccurrencesMembers | summarize_results.py:73-74 | an error is visited exactly when some record lists it |
| ErrorCategories.OccurrencesSnoc | summarize_results.py:73-74 | visiting record `i` adds its errors, in list order, after those of the records before it |
| ErrorCategories.Add | summarize_results.py:75-77 | one step keeps the dictionary well formed, and the node becomes the last entry of its error's list |
| ErrorCategories.GroupAll | summarize_results.py:72-77 | the dictionary has at most one key per occurrence visited |
| ErrorCategories.GroupAllValid | summarize_results.py:75-76 | dictionary keys stay distinct and are exactly its domain |
| ErrorCategories.GroupAllContents | summarize_results.py:72-77 | the keys are exactly the errors that occur; each key's list is the nodes that reported it, once per occurrence, in encounter order |
| ErrorCategories.GroupAllOrder | summarize_results.py:75-79 | keys are listed in order of first occurrence |
| ErrorCategories.GroupAllTotal | summarize_results.py:79-81 | the list lengths add up to the number of occurrences |
| ErrorCategories.AppendNode | summarize_results.py:75-77 | one inner-loop step: a new error opens a list after all existing keys, a known one gets the node appended |
| ErrorCategories.AddRecordErrors | summarize_results.py:74-77 | the inner loop over one record's errors adds that record's occurrences in order |
| ErrorCategories.BuildErrorCategories | summarize_results.py:72-77 | the nested loops build the grouping of all occurrences of the given records |
| Summary.MatchingEntries | summarize_results.py:26 | the entries the glob keeps are those ending in "_result.json", each as many times as it is listed |
| Summary.JoinPath | summarize_results.py:26 | a joined path is the directory, a '/', then the name |
| Summary.Paths | summarize_results.py:26 | one path per name, in the order of the names |
| Summary.PathsKeepOrder | summarize_results.py:26 | paths under one directory are sorted exactly when their names are |
| Summary.SelectInputFiles | summarize_results.py:23-26 | a given `--input-files` list is read as is, in its order |
| Summary.GlobFilesAreResults | summarize_results.py:26 | without that list, every file read is `input_dir/name` for a directory entry `name` ending in "_result.json" |
| Summary.GlobSelection | summarize_results.py:26 | without that list, the files read are the matching entries in sorted order |
| Summary.LoadResults | summarize_results.py:28-30 | reading succeeds exactly when every file is readable, giving the records in file order; otherwise it stops at the first unreadable file |
| Summary.RecordsOf | summarize_results.py:28-30 | one record per file, in file order, each being what that file holds |
| Summary.WithStatus | summarize_results.py:41-42 | the filter keeps exactly the records with the given status, in input order, each as many times as it occurs |
| Summary.Successes | summarize_results.py:41 | a record is a success exactly when it was read and its status is "SUCCESS" |
| Summary.Failures | summarize_results.py:42 | a record is a failure exactly when it was read and its status is "FAILED" |
| Summary.PartitionCounts | summarize_results.py:37-42 | successes, failures and the records of any other status add up to the total, so successes plus failures never exceed it |
| Summary.GroupsDisjoint | summarize_results.py:41-42 | no record is in both groups, and a record of any other status is in neither |
| Summary.Breakdown | summarize_results.py:72-77 | there are no more error categories than errors across the failed records |
| Summary.FailedListing | summarize_results.py:73-74 | some failed record lists an error exactly when some record read has status "FAILED" and lists it |
| Summary.BreakdownFromFailures | summarize_results.py:72-77 | an error is a breakdown key exactly when some FAILED record lists it, so errors of successful records never appear |
| Summary.BreakdownShape | summarize_results.py:72-81 | over the failed records: keys by first occurrence, each list one entry per occurrence in encounter order, and the lengths add up to the failed records' error count |
| Summary.TotalLine | summarize_results.py:37 | the number after "Total nodes tested: " reads back as the total given |
| Summary.SuccessCountLine | summarize_results.py:44 | the number between the success mark and " nodes" reads back as the count given |
| Summary.FailureCountLine | summarize_results.py:45 | the number between the failure mark and " nodes" reads back as the count given |
| Summary.HeaderLines | summarize_results.py:34-38 | two rules around the title "CELLPOSE-SAM GPU TEST SUMMARY", the timestamp as given, and a total that reads back as the number of records |
| Summary.CountLines | summarize_results.py:44-45 | the success and failure counts written read back as the two numbers given |
| Summary.NodeLine | summarize_results.py:52 | a node line starts with the mark and the node name and ends with the hostname in brackets, and its length leaves room for nothing else; the same line, with the other mark, is written at summarize_results.py:63 |
| Summary.GpuLine | summarize_results.py:55 | a GPU line starts with the device name after the indent and ends with its memory in brackets, with nothing else between |
| Summary.GpuLines | summarize_results.py:54-55 | one "GPU:" line per device, in order |
| Summary.DeviceLines | summarize_results.py:53-55 | no GPU lines without a `devices` list in the pytorch entry, otherwise one per device, in order |
| Summary.ProbedDevicesListed | summarize_results.py:53-55 | on a record whose pytorch entry the prober wrote, `HasDevices` holds exactly when CUDA was available, and then there is one GPU line per recorded device, in index order |
| Summary.SuccessEntry | summarize_results.py:52-55 | a successful node's entry is its line followed by its GPU lines |
| Summary.EntriesLength | summarize_results.py:51-66 | when every entry has at least `m` lines, the listing has at least `m` lines per node |
| Summary.EntryPlaced | summarize_results.py:51-66 | node `i`'s entry appears whole in the listing, right after the entries of the nodes before it |
| Summary.EntriesInOrder | summarize_results.py:51-66 | node `i`'s entry ends where or before the entry of any later node begins, so nodes are listed in their order |
| Summary.SuccessEntries | summarize_results.py:51-55 | the listing of successful nodes has at least one line per node |
| Summary.SuccessEntriesListNodes | summarize_results.py:51-55 | every successful node's line and each of its GPU lines are in the listing |
| Summary.ErrorLine | summarize_results.py:65 | an error line is the error text, verbatim, after a fixed indent |
| Summary.ErrorLines | summarize_results.py:64-65 | one "ERROR:" line per error, in order |
| Summary.FailureEntry | summarize_results.py:63-66 | a failed node's line, then one line per error in order, then a blank line |
| Summary.FailureEntries | summarize_results.py:62-66 | the listing of failed nodes has at least two lines per node and ends with a blank line |
| Summary.FailureEntriesListNodes | summarize_results.py:62-66 | every failed node's line and the line of each of its errors are in the listing |
| Summary.SuccessSection | summarize_results.py:48-56 | empty exactly when there is no success; otherwise the heading, a rule, at least one line per node and a closing blank line |
| Summary.SuccessSectionListsNodes | summarize_results.py:48-56 | the success section lists every successful node with each of its GPU lines |
| Summary.FailureSection | summarize_results.py:59-66 | empty exactly when there is no failure; otherwise the heading, a rule, at least two lines per node, ending in a blank line |
| Summary.FailureSectionListsNodes | summarize_results.py:59-66 | the failure section lists every failed node with each of its error lines |
| Summary.AffectedLine | summarize_results.py:81 | the number in brackets reads back as how many nodes follow, and the line ends with their names joined by ", " |
| Summary.CategoryEntry | summarize_results.py:80-81 | one error takes a blank line, the error itself, then its affected-nodes line |
| Summary.CategoryLines | summarize_results.py:79-81 | the breakdown body has three lines per key |
| Summary.CategoryLinesShape | summarize_results.py:79-81 | each key takes three lines in key order: a blank line, the error, then the node count and the node names joined by ", " |
| Summary.BreakdownSection | summarize_results.py:69-81 | a blank line, the heading and a rule, then three lines per key |
| Summary.FooterLines | summarize_results.py:83 | a blank line, then a rule of 80 '=' |
| Summary.ReportPrefix | summarize_results.py:34-45 | the banner and the counts take exactly nine lines, opening with the rule and the title |
| Summary.ReportRest | summarize_results.py:59-83 | the rest starts with the failure heading when there are failures and with a blank line otherwise, and ends with the closing rule |
| Summary.Report | summarize_results.py:33-83 | the report opens with a rule of '=' and the title, closes with a rule of '=', and has at least fourteen lines |
| Summary.ReportCounts | summarize_results.py:34-45 | the report states the title, the timestamp, the number of records read, the number of successes and the number of failures |
| Summary.ReportListsNodes | summarize_results.py:41-66 | the report names every record read: a successful one with its GPU lines, a failed one with the line of each of its errors |
| Summary.SectionsConditional | summarize_results.py:48-59 | "SUCCESSFUL NODES:" is written exactly when there is a success, and "FAILED NODES:" exactly when there is a failure, right after the success section |
| Summary.WriteGpuLines | summarize_results.py:54-55 | one "GPU:" line per device, in order |
| Summary.WriteSuccessEntries | summarize_results.py:51-55 | the loop over the successful nodes writes exactly their entries |
| Summary.WriteSuccessSection | summarize_results.py:48-56 | the success-section loop writes exactly the success section |
| Summary.WriteErrorLines | summarize_results.py:64-65 | one "ERROR:" line per error, in order |
| Summary.WriteFailureEntries | summarize_results.py:62-66 | the loop over the failed nodes writes exactly their entries |
| Summary.WriteFailureSection | summarize_results.py:59-66 | the failure section is written exactly: heading, rule and the failed nodes' entries |
| Summary.WriteBreakdown | summarize_results.py:69-81 | the breakdown loop writes the heading and every key's lines in dictionary order |
| Summary.Summarize | summarize_results.py:14-83 | the run succeeds exactly when every selected file is readable and then writes the report of the records read; otherwise it fails on the first unreadable selected file |

## Left out

- The torch, cellpose and numpy calls: CUDA queries, model construction and `model.eval`. They are foreign libraries, so what they return is a probe input.
- The random dummy image. It only feeds `model.eval`, whose result is an input.
- The `pip show` subprocess and its timeout. Only the parse of its stdout is modelled.
- `memory_gb`: the float division and rounding are not modelled. The rounded value is an opaque string.
- `socket.gethostname`, `sys.executable`, `sys.version`, `os.environ`, argparse, console printing, file writes and JSON (de)serialisation. These are I/O. Their values are inputs or fields of the record.
- The `datetime.now()` reading. It is a parameter of the report.
- Rereading the summary file and echoing it to the console. This is I/O, and it repeats the report.
- Prober.ProbeNode: `tests` is a map, so the insertion order of its keys in the JSON output is not modelled.
- Prober.ModelLoadingCheck: the result of `model.device == 'cpu'` is torch's answer when a `torch.device` is compared with a `str`, so it is a probe input (`deviceIsCpu`), separate from the `str(model.device)` text. The model does not decide whether torch ever answers true. If it never does, the CPU-fallback warning never fires.
- Prober.ModelLoadingCheck: a raise anywhere inside a check's `try` discards the partly built result, so one "raised" probe stands for every raising call of that check. `next(parameters())` raising is the parameter device being absent.
- Prober.MaskCountMeaning: the mask array is taken flattened, as a sequence of labels.
- Summary.SelectInputFiles: `Path` normalisation of the given names (dropping "./" and repeated slashes) is not modelled. Paths are joined as `dir + "/" + name`.
- Summary.LoadResults: a record that parses but lacks a key the aggregator reads (a `KeyError`) is not modelled. Every readable file yields a well-formed record.
- Summary.SuccessSectionListsNodes: states that each successful node's lines are in the section, not where; their positions and order are stated for the listing itself by `Summary.EntryPlaced` and `Summary.EntriesInOrder`.
- Summary.FailureSectionListsNodes: states that each failed node's lines are in the section, not where; positions and order are stated for the listing as above.
- Summary.ReportListsNodes: states that the lines are in the report, not where.
- The workflow launcher and the cluster scheduler. They are not part of these scripts.
