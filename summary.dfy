/** The aggregator: choose the result files, read them, split the records
    by status, group the failed records' errors and render the summary
    report as a sequence of lines. */
module Summary {
  import opened Outcomes
  import opened Text
  import opened Ordering
  import opened Records
  import opened ErrorCategories
  import Prober

  const ResultSuffix := "_result.json"
  const RuleWidth := 80
  const Check := "\U{2713}"
  const Cross := "\U{2717}"
  const Title := "CELLPOSE-SAM GPU TEST SUMMARY"
  const SuccessHeading := "SUCCESSFUL NODES:"
  const FailureHeading := "FAILED NODES:"
  const BreakdownHeading := "DETAILED ERROR BREAKDOWN:"
  const TotalPrefix := "Total nodes tested: "
  const SuccessPrefix := Check + " SUCCESS: "
  const FailurePrefix := Cross + " FAILED:  "
  const NodesSuffix := " nodes"
  const GpuIndent := "      GPU: "
  const ErrorIndent := "      ERROR: "
  const AffectedPrefix := "  Affected nodes ("

  // ---------------------------------------------------------------- input files

  /** The directory entries `glob("*_result.json")` matches, in listing order. */
  function MatchingEntries(entries: seq<string>): (r: seq<string>)
    ensures forall x :: multiset(r)[x] == if EndsWith(x, ResultSuffix) then multiset(entries)[x] else 0
  {
    if entries == [] then []
    else
      assert entries == [entries[0]] + entries[1..];
      (if EndsWith(entries[0], ResultSuffix) then [entries[0]] else []) + MatchingEntries(entries[1..])
  }

  /** `Path(dir) / name` as a string. */
  function JoinPath(dir: string, name: string): (path: string)
    ensures StartsWith(path, dir + "/") && path[|dir| + 1..] == name
  {
    assert (dir + "/" + name)[..|dir| + 1] == dir + "/";
    dir + "/" + name
  }

  function Paths(dir: string, names: seq<string>): (paths: seq<string>)
    ensures |paths| == |names|
    ensures forall i :: 0 <= i < |names| ==> paths[i] == JoinPath(dir, names[i])
  {
    seq(|names|, i requires 0 <= i < |names| => JoinPath(dir, names[i]))
  }

  /** The files `main` reads: the `--input-files` list when one is given,
      otherwise the matching entries of the input directory, sorted. */
  function SelectInputFiles(inputFiles: Option<seq<string>>, inputDir: string, entries: seq<string>)
    : (files: seq<string>)
    ensures inputFiles.Some? && inputFiles.value != [] ==> files == inputFiles.value
  {
    if inputFiles.Some? && inputFiles.value != [] then inputFiles.value
    else Paths(inputDir, Sort(MatchingEntries(entries)))
  }

  /** In directory mode every file read is `inputDir/name` for a directory
      entry `name` that ends in "_result.json". */
  lemma GlobFilesAreResults(inputDir: string, entries: seq<string>, i: nat)
    requires i < |SelectInputFiles(None, inputDir, entries)|
    ensures var f := SelectInputFiles(None, inputDir, entries)[i];
      var name := f[|inputDir| + 1..];
      && |inputDir| + 1 <= |f|
      && f[..|inputDir| + 1] == inputDir + "/"
      && name in entries
      && EndsWith(name, ResultSuffix)
      && EndsWith(f, ResultSuffix)
  {
    var names := Sort(MatchingEntries(entries));
    var f := JoinPath(inputDir, names[i]);
    assert f == (inputDir + "/") + names[i];
    assert f[|inputDir| + 1..] == names[i];
    assert names[i] in multiset(MatchingEntries(entries));
  }

  /** Paths under one directory are ordered as their names are, so
      sorting the paths and sorting the names agree. */
  lemma PathsKeepOrder(dir: string, names: seq<string>)
    ensures Sorted(Paths(dir, names)) <==> Sorted(names)
  {
    var prefix := dir + "/";
    forall i, j | 0 <= i < |names| && 0 <= j < |names|
      ensures LessEq(Paths(dir, names)[i], Paths(dir, names)[j]) <==> LessEq(names[i], names[j])
    {
      assert Paths(dir, names)[i] == prefix + names[i];
      assert Paths(dir, names)[j] == prefix + names[j];
      LessEqCommonPrefix(prefix, names[i], names[j]);
    }
  }

  /** In directory mode the files are the matching entries in sorted order:
      any ordered arrangement of exactly the matching entries is what is read. */
  lemma {:induction false} GlobSelection(inputDir: string, entries: seq<string>, names: seq<string>)
    requires Sorted(names) && multiset(names) == multiset(MatchingEntries(entries))
    ensures SelectInputFiles(None, inputDir, entries) == Paths(inputDir, names)
  {
    SortedUnique(Sort(MatchingEntries(entries)), names);
  }

  // ---------------------------------------------------------------- loading

  /** The records read from `files`, when every file can be read. */
  function RecordsOf(files: seq<string>, store: map<string, TestResult>): (rs: seq<TestResult>)
    requires forall f :: f in files ==> f in store
    ensures |rs| == |files| && forall i :: 0 <= i < |files| ==> rs[i] == store[files[i]]
  {
    seq(|files|, i requires 0 <= i < |files| => store[files[i]])
  }

  /** The reading loop: `store` holds what `json.load` gives for each
      readable file. The first file it lacks stops the run, as `open` or
      `json.load` raising does. */
  method LoadResults(files: seq<string>, store: map<string, TestResult>)
    returns (loaded: Result<seq<TestResult>, string>)
    ensures loaded.Success? <==> forall f :: f in files ==> f in store
    ensures loaded.Success? ==> loaded.value == RecordsOf(files, store)
    ensures loaded.Failure? ==>
      exists i :: 0 <= i < |files| && files[i] == loaded.error && files[i] !in store
                  && forall j :: 0 <= j < i ==> files[j] in store
  {
    var results: seq<TestResult> := [];
    var i := 0;
    while i < |files|
      invariant 0 <= i <= |files|
      invariant forall j :: 0 <= j < i ==> files[j] in store
      invariant |results| == i && forall j :: 0 <= j < i ==> results[j] == store[files[j]]
    {
      if files[i] !in store {
        return Failure(files[i]);
      }
      results := results + [store[files[i]]];
      i := i + 1;
    }
    loaded := Success(results);
  }

  // ---------------------------------------------------------------- partition

  /** `a` is `b` with some elements left out, order kept. */
  predicate IsSubsequence(a: seq<TestResult>, b: seq<TestResult>) {
    if a == [] then true
    else if b == [] then false
    else if a[0] == b[0] then IsSubsequence(a[1..], b[1..])
    else IsSubsequence(a, b[1..])
  }

  /** `[r for r in rs if r['status'] == status]`. */
  function WithStatus(rs: seq<TestResult>, status: string): (r: seq<TestResult>)
    ensures forall i :: 0 <= i < |r| ==> r[i].status == status
    ensures forall x :: multiset(r)[x] == if x.status == status then multiset(rs)[x] else 0
    ensures IsSubsequence(r, rs)
  {
    if rs == [] then []
    else
      var rest := WithStatus(rs[1..], status);
      assert rs == [rs[0]] + rs[1..];
      if rs[0].status == status then
        assert ([rs[0]] + rest)[1..] == rest;
        [rs[0]] + rest
      else
        rest
  }

  /** `successes`: a record is listed exactly when it was read and its
      status is "SUCCESS". */
  function Successes(rs: seq<TestResult>): (r: seq<TestResult>)
    ensures forall x :: x in r <==> x in rs && x.status == SuccessStatus
  {
    var r := WithStatus(rs, SuccessStatus);
    assert forall x :: x in r <==> x in multiset(r);
    r
  }

  /** `failures`: a record is listed exactly when it was read and its
      status is "FAILED". */
  function Failures(rs: seq<TestResult>): (r: seq<TestResult>)
    ensures forall x :: x in r <==> x in rs && x.status == FailedStatus
  {
    var r := WithStatus(rs, FailedStatus);
    assert forall x :: x in r <==> x in multiset(r);
    r
  }

  /** The records whose status is neither "SUCCESS" nor "FAILED". */
  function Unclassified(rs: seq<TestResult>): (r: seq<TestResult>)
    ensures forall i :: 0 <= i < |r| ==> r[i].status != SuccessStatus && r[i].status != FailedStatus
  {
    if rs == [] then []
    else
      (if rs[0].status != SuccessStatus && rs[0].status != FailedStatus then [rs[0]] else [])
      + Unclassified(rs[1..])
  }

  /** Every record is counted in the total, at most one group holds it, and
      the groups with the unclassified records make up the whole list. */
  lemma {:induction false} PartitionCounts(rs: seq<TestResult>)
    ensures |Successes(rs)| + |Failures(rs)| + |Unclassified(rs)| == |rs|
    ensures |Successes(rs)| + |Failures(rs)| <= |rs|
  {
    if rs != [] {
      PartitionCounts(rs[1..]);
    }
  }

  /** No record is both a success and a failure, and a record with any other
      status is in neither group. */
  lemma GroupsDisjoint(rs: seq<TestResult>, x: TestResult)
    ensures !(x in Successes(rs) && x in Failures(rs))
    ensures x.status != SuccessStatus && x.status != FailedStatus ==>
      x !in Successes(rs) && x !in Failures(rs)
  {
    if x in Successes(rs) {
      var i :| 0 <= i < |Successes(rs)| && Successes(rs)[i] == x;
    }
    if x in Failures(rs) {
      var i :| 0 <= i < |Failures(rs)| && Failures(rs)[i] == x;
    }
  }

  // ---------------------------------------------------------------- breakdown

  /** `error_categories` as the aggregator builds it. */
  function Breakdown(rs: seq<TestResult>): (g: Groups)
    ensures |g.keys| <= ErrorCount(Failures(rs))
  {
    OccurrencesLength(Failures(rs));
    GroupAll(Occurrences(Failures(rs)))
  }

  /** An error is a breakdown key exactly when some FAILED record lists it:
      errors of successful records (or of unclassified ones) never appear. */
  lemma BreakdownFromFailures(rs: seq<TestResult>, e: string)
    ensures e in Breakdown(rs).nodes <==>
      exists i :: 0 <= i < |rs| && rs[i].status == FailedStatus && e in rs[i].errors
  {
    var fs := Failures(rs);
    var occ := Occurrences(fs);
    assert Breakdown(rs) == GroupAll(occ);
    KeyOccurs(occ, e);
    OccurrencesMembers(fs, e);
    assert e in Breakdown(rs).nodes <==> exists i :: 0 <= i < |fs| && e in fs[i].errors;
    FailedListing(rs, e);
  }

  /** A dictionary key is an error that occurs. */
  lemma KeyOccurs(occ: seq<Occurrence>, e: string)
    ensures e in GroupAll(occ).nodes <==> exists k :: 0 <= k < |occ| && occ[k].error == e
  {
    GroupAllContents(occ);
  }

  /** Some failed record lists `e` exactly when some record read has status
      "FAILED" and lists `e`. */
  lemma FailedListing(rs: seq<TestResult>, e: string)
    ensures (exists i :: 0 <= i < |Failures(rs)| && e in Failures(rs)[i].errors) <==>
      exists i :: 0 <= i < |rs| && rs[i].status == FailedStatus && e in rs[i].errors
  {
    var fs := Failures(rs);
    if exists i :: 0 <= i < |fs| && e in fs[i].errors {
      var i :| 0 <= i < |fs| && e in fs[i].errors;
      assert fs[i] in fs;
      var j :| 0 <= j < |rs| && rs[j] == fs[i];
      assert rs[j].status == FailedStatus;
    }
    if exists i :: 0 <= i < |rs| && rs[i].status == FailedStatus && e in rs[i].errors {
      var i :| 0 <= i < |rs| && rs[i].status == FailedStatus && e in rs[i].errors;
      assert rs[i] in fs;
      var j :| 0 <= j < |fs| && fs[j] == rs[i];
    }
  }

  /** Each key's list is the nodes of the failed records' occurrences of that
      error, keys come in order of first occurrence, and the list lengths add
      up to the number of errors across failed records. */
  lemma BreakdownShape(rs: seq<TestResult>)
    ensures var occ := Occurrences(Failures(rs));
      && Valid(Breakdown(rs))
      && OrderedByFirst(occ, Breakdown(rs).keys)
      && (forall e :: e in Breakdown(rs).nodes ==> Breakdown(rs).nodes[e] == NodesReporting(occ, e))
      && TotalListed(Breakdown(rs).keys, Breakdown(rs).nodes) == ErrorCount(Failures(rs))
  {
    var occ := Occurrences(Failures(rs));
    GroupAllValid(occ);
    GroupAllOrder(occ);
    GroupAllContents(occ);
    GroupAllTotal(occ);
    OccurrencesLength(Failures(rs));
  }

  // ---------------------------------------------------------------- report

  function Rule(c: char): string {
    Repeat(c, RuleWidth)
  }

  /** The number after "Total nodes tested: " reads back as `total`. */
  function TotalLine(total: nat): (line: string)
    ensures CountBetween(line, TotalPrefix, total, "")
  {
    CountReadsBack(TotalPrefix, total, "");
    assert TotalPrefix + NatToString(total) + "" == TotalPrefix + NatToString(total);
    TotalPrefix + NatToString(total)
  }

  /** The number between the success mark and " nodes" reads back as
      `successes`. */
  function SuccessCountLine(successes: nat): (line: string)
    ensures CountBetween(line, SuccessPrefix, successes, NodesSuffix)
  {
    CountReadsBack(SuccessPrefix, successes, NodesSuffix);
    SuccessPrefix + NatToString(successes) + NodesSuffix
  }

  /** The number between the failure mark and " nodes" reads back as
      `failures`. */
  function FailureCountLine(failures: nat): (line: string)
    ensures CountBetween(line, FailurePrefix, failures, NodesSuffix)
  {
    CountReadsBack(FailurePrefix, failures, NodesSuffix);
    FailurePrefix + NatToString(failures) + NodesSuffix
  }

  /** The banner between two rules; `generated` is the
      `datetime.now().isoformat()` reading, and the total written reads
      back as the number of records. */
  function HeaderLines(total: nat, generated: string): (lines: seq<string>)
    ensures |lines| == 6 && lines[0] == Rule('=') && lines[4] == Rule('=') && lines[5] == ""
    ensures lines[1] == Title
    ensures lines[2] == "Generated: " + generated
    ensures StartsWith(lines[3], TotalPrefix) && Denotes(lines[3][|TotalPrefix|..], total)
  {
    CountReadsBack(TotalPrefix, total, "");
    assert TotalPrefix + NatToString(total) + "" == TotalLine(total);
    [Rule('='), Title, "Generated: " + generated, TotalLine(total), Rule('='), ""]
  }

  /** The two count lines: the numbers written read back as the sizes of
      the two groups. */
  function CountLines(successes: nat, failures: nat): (lines: seq<string>)
    ensures |lines| == 3 && lines[2] == ""
    ensures var l := lines[0];
      && StartsWith(l, SuccessPrefix) && EndsWith(l, NodesSuffix)
      && |SuccessPrefix| + |NodesSuffix| <= |l|
      && Denotes(l[|SuccessPrefix|..|l| - |NodesSuffix|], successes)
    ensures var l := lines[1];
      && StartsWith(l, FailurePrefix) && EndsWith(l, NodesSuffix)
      && |FailurePrefix| + |NodesSuffix| <= |l|
      && Denotes(l[|FailurePrefix|..|l| - |NodesSuffix|], failures)
  {
    CountReadsBack(SuccessPrefix, successes, NodesSuffix);
    CountReadsBack(FailurePrefix, failures, NodesSuffix);
    [SuccessCountLine(successes), FailureCountLine(failures), ""]
  }

  /** A device's line: its name after the indent, its memory in brackets
      at the end. */
  function GpuLine(d: Device): (line: string)
    ensures StartsWith(line, GpuIndent + d.name)
    ensures EndsWith(line, " (" + d.memoryGb + "GB)")
    ensures |line| == |GpuIndent| + |d.name| + 2 + |d.memoryGb| + 3
  {
    GpuIndent + d.name + " (" + d.memoryGb + "GB)"
  }

  /** One "GPU:" line per device, in order. */
  function GpuLines(devices: seq<Device>): (lines: seq<string>)
    ensures |lines| == |devices|
    ensures forall i :: 0 <= i < |devices| ==> lines[i] == GpuLine(devices[i])
  {
    if devices == [] then []
    else GpuLines(devices[..|devices| - 1]) + [GpuLine(devices[|devices| - 1])]
  }

  /** Whether a successful node's record lists GPUs: a pytorch entry that
      carries `devices`. */
  predicate HasDevices(r: TestResult) {
    "pytorch" in r.tests && r.tests["pytorch"].PytorchInfo? && r.tests["pytorch"].devices.Some?
  }

  /** A successful node's GPU lines: none without a devices list, else one
      per device in order. */
  function DeviceLines(r: TestResult): (lines: seq<string>)
    ensures !HasDevices(r) ==> lines == []
    ensures HasDevices(r) ==> var devices := r.tests["pytorch"].devices.value;
      && |lines| == |devices|
      && forall i :: 0 <= i < |devices| ==> lines[i] == GpuLine(devices[i])
  {
    if HasDevices(r) then GpuLines(r.tests["pytorch"].devices.value) else []
  }

  /** On a record the prober wrote, GPUs are listed exactly when CUDA was
      available, one line per device the prober recorded, in index order. */
  lemma ProbedDevicesListed(r: TestResult, probe: Prober.TorchProbe)
    requires Prober.PytorchKey in r.tests
    requires r.tests[Prober.PytorchKey] == Prober.PytorchCheck(probe).result
    ensures HasDevices(r) <==> probe.TorchReport? && probe.cudaAvailable
    ensures HasDevices(r) ==>
      && |DeviceLines(r)| == |probe.gpus|
      && forall i :: 0 <= i < |probe.gpus| ==>
           DeviceLines(r)[i] == GpuLine(Prober.DeviceInfo(i, probe.gpus[i]))
  {
  }

  /** A node's line: the mark, then the node name, then the hostname in
      brackets at the end. */
  function NodeLine(mark: string, r: TestResult): (line: string)
    ensures StartsWith(line, "  " + mark + " " + r.node)
    ensures EndsWith(line, " (hostname: " + r.hostname + ")")
    ensures |line| == 2 + |mark| + 1 + |r.node| + 12 + |r.hostname| + 1
  {
    "  " + mark + " " + r.node + " (hostname: " + r.hostname + ")"
  }

  /** A successful node: its line, then its GPU lines. */
  function SuccessEntry(r: TestResult): (lines: seq<string>)
    ensures |lines| == 1 + |DeviceLines(r)|
    ensures lines[0] == NodeLine(Check, r) && lines[1..] == DeviceLines(r)
  {
    [NodeLine(Check, r)] + DeviceLines(r)
  }

  /** The entries of the records, one after the other, in record order. */
  function Entries(rs: seq<TestResult>, entry: TestResult -> seq<string>): seq<string> {
    if rs == [] then [] else Entries(rs[..|rs| - 1], entry) + entry(rs[|rs| - 1])
  }

  /** The successful nodes' entries, at least one line each. */
  function SuccessEntries(rs: seq<TestResult>): (lines: seq<string>)
    ensures |lines| >= |rs|
  {
    EntriesLength(rs, SuccessEntry, 1);
    Entries(rs, SuccessEntry)
  }

  /** An error's line: the error text, verbatim, after a fixed indent. */
  function ErrorLine(error: string): (line: string)
    ensures StartsWith(line, ErrorIndent) && line[|ErrorIndent|..] == error
  {
    ErrorIndent + error
  }

  /** One "ERROR:" line per error, in order. */
  function ErrorLines(errors: seq<string>): (lines: seq<string>)
    ensures |lines| == |errors|
    ensures forall i :: 0 <= i < |errors| ==> lines[i] == ErrorLine(errors[i])
  {
    if errors == [] then [] else ErrorLines(errors[..|errors| - 1]) + [ErrorLine(errors[|errors| - 1])]
  }

  /** A failed node: its line, one line per error in order, then a blank line. */
  function FailureEntry(r: TestResult): (lines: seq<string>)
    ensures |lines| == |r.errors| + 2 && lines[0] == NodeLine(Cross, r) && lines[|lines| - 1] == ""
    ensures forall i :: 0 <= i < |r.errors| ==> lines[i + 1] == ErrorLine(r.errors[i])
  {
    [NodeLine(Cross, r)] + ErrorLines(r.errors) + [""]
  }

  /** The failed nodes' entries, at least two lines each, ending in a blank
      line. */
  function FailureEntries(rs: seq<TestResult>): (lines: seq<string>)
    ensures |lines| >= 2 * |rs|
    ensures rs != [] ==> lines[|lines| - 1] == ""
  {
    EntriesLength(rs, FailureEntry, 2);
    Entries(rs, FailureEntry)
  }

  /** Written only when some node succeeded: the heading and a rule, at
      least one line per node, and a closing blank line. */
  function SuccessSection(successes: seq<TestResult>): (lines: seq<string>)
    ensures successes == [] <==> lines == []
    ensures successes != [] ==>
      && |lines| >= |successes| + 3
      && lines[0] == SuccessHeading && lines[1] == Rule('-') && lines[|lines| - 1] == ""
  {
    if successes == [] then [] else [SuccessHeading, Rule('-')] + SuccessEntries(successes) + [""]
  }

  /** Written only when some node failed: the heading and a rule, then at
      least two lines per node, ending in a blank line. */
  function FailureSection(failures: seq<TestResult>): (lines: seq<string>)
    ensures failures == [] <==> lines == []
    ensures failures != [] ==>
      && |lines| >= 2 * |failures| + 2
      && lines[0] == FailureHeading && lines[1] == Rule('-') && lines[|lines| - 1] == ""
  {
    if failures == [] then [] else [FailureHeading, Rule('-')] + FailureEntries(failures)
  }

  // Where each node's entry sits. The entries of `rs` are the entries of
  // `rs[..i]`, then the entry of `rs[i]`, then the entries of the rest; so
  // node `i`'s entry starts right after the entries of the nodes before it.

  /** When every entry has at least `m` lines, so many lines per record. */
  lemma {:induction false} EntriesLength(rs: seq<TestResult>, entry: TestResult -> seq<string>, m: nat)
    requires forall r :: m <= |entry(r)|
    ensures m * |rs| <= |Entries(rs, entry)|
  {
    if rs != [] {
      EntriesLength(rs[..|rs| - 1], entry, m);
    }
  }

  lemma EntriesSnoc(rs: seq<TestResult>, entry: TestResult -> seq<string>, i: nat)
    requires i < |rs|
    ensures Entries(rs[..i + 1], entry) == Entries(rs[..i], entry) + entry(rs[i])
  {
    assert rs[..i + 1][..i] == rs[..i];
  }

  lemma PrefixSlice<T>(a: seq<T>, b: seq<T>, k: nat, n: nat)
    requires k + n <= |a|
    ensures (a + b)[k..k + n] == a[k..k + n]
  {
  }

  /** Record `i`'s entry appears whole, right after the entries of the
      records before it. */
  lemma {:induction false} EntryPlaced(rs: seq<TestResult>, entry: TestResult -> seq<string>, i: nat)
    requires i < |rs|
    ensures var k := |Entries(rs[..i], entry)|;
      && k + |entry(rs[i])| <= |Entries(rs, entry)|
      && Entries(rs, entry)[k..k + |entry(rs[i])|] == entry(rs[i])
    decreases |rs|
  {
    var init := rs[..|rs| - 1];
    if i == |rs| - 1 {
      assert init == rs[..i];
    } else {
      EntryPlaced(init, entry, i);
      assert init[..i] == rs[..i] && init[i] == rs[i];
      PrefixSlice(Entries(init, entry), entry(rs[|rs| - 1]), |Entries(rs[..i], entry)|, |entry(rs[i])|);
    }
  }

  /** Entries keep the records' order: record `i`'s entry ends where or
      before record `j`'s begins. */
  lemma {:induction false} EntriesInOrder(rs: seq<TestResult>, entry: TestResult -> seq<string>, i: nat, j: nat)
    requires i < j <= |rs|
    ensures |Entries(rs[..i], entry)| + |entry(rs[i])| <= |Entries(rs[..j], entry)|
    decreases j
  {
    EntriesSnoc(rs, entry, i);
    if j > i + 1 {
      EntriesInOrder(rs, entry, i, j - 1);
      EntriesSnoc(rs, entry, j - 1);
    }
  }

  lemma SliceMembers<T>(whole: seq<T>, k: nat, n: nat)
    requires k + n <= |whole|
    ensures forall x :: x in whole[k..k + n] ==> x in whole
  {
    forall x | x in whole[k..k + n] ensures x in whole {
      var m :| 0 <= m < n && whole[k..k + n][m] == x;
      assert whole[k + m] == x;
    }
  }

  /** Every line of a record's entry is in the listing. */
  lemma EntryListed(rs: seq<TestResult>, entry: TestResult -> seq<string>, i: nat)
    requires i < |rs|
    ensures forall l :: l in entry(rs[i]) ==> l in Entries(rs, entry)
  {
    EntryPlaced(rs, entry, i);
    SliceMembers(Entries(rs, entry), |Entries(rs[..i], entry)|, |entry(rs[i])|);
  }

  /** Every successful node is listed, with each of its GPU lines. */
  lemma SuccessEntriesListNodes(rs: seq<TestResult>)
    ensures forall i :: 0 <= i < |rs| ==>
      && NodeLine(Check, rs[i]) in SuccessEntries(rs)
      && forall l :: l in DeviceLines(rs[i]) ==> l in SuccessEntries(rs)
  {
    forall i | 0 <= i < |rs|
      ensures NodeLine(Check, rs[i]) in SuccessEntries(rs)
      ensures forall l :: l in DeviceLines(rs[i]) ==> l in SuccessEntries(rs)
    {
      EntryListed(rs, SuccessEntry, i);
      var entry := SuccessEntry(rs[i]);
      assert entry[0] in entry;
      assert forall l :: l in entry[1..] ==> l in entry;
    }
  }

  /** Every failed node is listed, with each of its errors. */
  lemma FailureEntriesListNodes(rs: seq<TestResult>)
    ensures forall i :: 0 <= i < |rs| ==>
      && NodeLine(Cross, rs[i]) in FailureEntries(rs)
      && forall e :: e in rs[i].errors ==> ErrorLine(e) in FailureEntries(rs)
  {
    forall i | 0 <= i < |rs|
      ensures NodeLine(Cross, rs[i]) in FailureEntries(rs)
      ensures forall e :: e in rs[i].errors ==> ErrorLine(e) in FailureEntries(rs)
    {
      EntryListed(rs, FailureEntry, i);
      var entry := FailureEntry(rs[i]);
      assert entry[0] in entry;
      forall e | e in rs[i].errors ensures ErrorLine(e) in entry {
        var m :| 0 <= m < |rs[i].errors| && rs[i].errors[m] == e;
        assert entry[m + 1] == ErrorLine(e);
      }
    }
  }

  /** The success section lists every successful node, with its GPUs. */
  lemma SuccessSectionListsNodes(successes: seq<TestResult>)
    ensures forall i :: 0 <= i < |successes| ==>
      && NodeLine(Check, successes[i]) in SuccessSection(successes)
      && forall l :: l in DeviceLines(successes[i]) ==> l in SuccessSection(successes)
  {
    if successes != [] {
      SuccessEntriesListNodes(successes);
      assert SuccessSection(successes) == [SuccessHeading, Rule('-')] + SuccessEntries(successes) + [""];
    }
  }

  /** The failure section lists every failed node, with its errors. */
  lemma FailureSectionListsNodes(failures: seq<TestResult>)
    ensures forall i :: 0 <= i < |failures| ==>
      && NodeLine(Cross, failures[i]) in FailureSection(failures)
      && forall e :: e in failures[i].errors ==> ErrorLine(e) in FailureSection(failures)
  {
    if failures != [] {
      FailureEntriesListNodes(failures);
      assert FailureSection(failures) == [FailureHeading, Rule('-')] + FailureEntries(failures);
    }
  }

  /** The report names every record read: a successful one with its GPUs,
      a failed one with each of its errors. */
  lemma ReportListsNodes(results: seq<TestResult>, generated: string)
    ensures forall r :: r in results && r.status == SuccessStatus ==>
      && NodeLine(Check, r) in Report(results, generated)
      && forall l :: l in DeviceLines(r) ==> l in Report(results, generated)
    ensures forall r :: r in results && r.status == FailedStatus ==>
      && NodeLine(Cross, r) in Report(results, generated)
      && forall e :: e in r.errors ==> ErrorLine(e) in Report(results, generated)
  {
    var successes, failures := Successes(results), Failures(results);
    var report := Report(results, generated);
    assert report == ReportPrefix(results, generated) + SuccessSection(successes) + ReportRest(results);
    assert ReportRest(results) == FailureSection(failures) + BreakdownSection(Breakdown(results)) + FooterLines();
    SuccessSectionListsNodes(successes);
    FailureSectionListsNodes(failures);
    forall r | r in results && r.status == SuccessStatus
      ensures NodeLine(Check, r) in report && forall l :: l in DeviceLines(r) ==> l in report
    {
      assert r in successes;
      var i :| 0 <= i < |successes| && successes[i] == r;
    }
    forall r | r in results && r.status == FailedStatus
      ensures NodeLine(Cross, r) in report && forall e :: e in r.errors ==> ErrorLine(e) in report
    {
      assert r in failures;
      var i :| 0 <= i < |failures| && failures[i] == r;
    }
  }

  /** The line under an error: how many nodes reported it, then their names. */
  function AffectedLine(nodes: seq<string>): (line: string)
    ensures CountBetween(line, AffectedPrefix, |nodes|, "): " + Join(nodes, ", "))
  {
    CountReadsBack(AffectedPrefix, |nodes|, "): " + Join(nodes, ", "));
    assert AffectedPrefix + NatToString(|nodes|) + ("): " + Join(nodes, ", "))
        == AffectedPrefix + NatToString(|nodes|) + "): " + Join(nodes, ", ");
    AffectedPrefix + NatToString(|nodes|) + "): " + Join(nodes, ", ")
  }

  /** One error of the breakdown: a blank line, the error itself, then the
      nodes listed under it. */
  function CategoryEntry(key: string, nodes: map<string, seq<string>>): (lines: seq<string>)
    ensures |lines| == 3 && lines[0] == "" && lines[1] == key
    ensures key in nodes ==> lines[2] == AffectedLine(nodes[key])
    ensures key !in nodes ==> lines[2] == AffectedLine([])
  {
    ["", key, AffectedLine(if key in nodes then nodes[key] else [])]
  }

  function CategoryLines(keys: seq<string>, nodes: map<string, seq<string>>): (lines: seq<string>)
    ensures |lines| == 3 * |keys|
  {
    if keys == [] then []
    else CategoryLines(keys[..|keys| - 1], nodes) + CategoryEntry(keys[|keys| - 1], nodes)
  }

  /** Each key takes three lines, in key order: a blank line, the error
      itself, and the count and names of the nodes listed under it. */
  lemma {:induction false} CategoryLinesShape(keys: seq<string>, nodes: map<string, seq<string>>)
    requires forall k :: k in keys ==> k in nodes
    ensures |CategoryLines(keys, nodes)| == 3 * |keys|
    ensures forall i :: 0 <= i < |keys| ==>
      && CategoryLines(keys, nodes)[3 * i] == ""
      && CategoryLines(keys, nodes)[3 * i + 1] == keys[i]
      && CategoryLines(keys, nodes)[3 * i + 2] == AffectedLine(nodes[keys[i]])
  {
    if keys != [] {
      var init := keys[..|keys| - 1];
      var last := keys[|keys| - 1];
      CategoryLinesShape(init, nodes);
      forall i | 0 <= i < |init|
        ensures CategoryLines(keys, nodes)[3 * i] == ""
        ensures CategoryLines(keys, nodes)[3 * i + 1] == keys[i]
        ensures CategoryLines(keys, nodes)[3 * i + 2] == AffectedLine(nodes[keys[i]])
      {
        assert init[i] == keys[i];
      }
    }
  }

  /** The breakdown: a blank line, the heading and a rule, then three
      lines per key. */
  function BreakdownSection(g: Groups): (lines: seq<string>)
    ensures |lines| == 3 + 3 * |g.keys|
    ensures lines[0] == "" && lines[1] == BreakdownHeading && lines[2] == Rule('-')
  {
    ["", BreakdownHeading, Rule('-')] + CategoryLines(g.keys, g.nodes)
  }

  /** The closing blank line and rule of 80 '='. */
  function FooterLines(): (lines: seq<string>)
    ensures |lines| == 2 && lines[0] == ""
    ensures |lines[1]| == RuleWidth && forall i :: 0 <= i < RuleWidth ==> lines[1][i] == '='
  {
    ["", Rule('=')]
  }

  /** The summary file, line by line (the file's text is each line followed
      by a newline). */
  function Report(results: seq<TestResult>, generated: string): (lines: seq<string>)
    ensures |lines| >= 14
    ensures lines[0] == Rule('=') && lines[1] == Title && lines[|lines| - 1] == Rule('=')
  {
    ReportPrefix(results, generated) + SuccessSection(Successes(results)) + ReportRest(results)
  }

  /** The nine fixed lines at the top: the banner and the two counts. */
  function ReportPrefix(results: seq<TestResult>, generated: string): (lines: seq<string>)
    ensures |lines| == 9 && lines[0] == Rule('=') && lines[1] == Title
  {
    HeaderLines(|results|, generated) + CountLines(|Successes(results)|, |Failures(results)|)
  }

  /** Everything after the success section: the failure section, the error
      breakdown and the closing rule. */
  function ReportRest(results: seq<TestResult>): (rest: seq<string>)
    ensures |rest| >= 5 && rest[|rest| - 1] == Rule('=')
    ensures rest[0] == if Failures(results) == [] then "" else FailureHeading
  {
    FailureSection(Failures(results)) + BreakdownSection(Breakdown(results)) + FooterLines()
  }

  /** The total is the number of records read; the two counts are the sizes
      of the two groups. */
  lemma ReportCounts(results: seq<TestResult>, generated: string)
    ensures var lines := Report(results, generated);
      && |lines| > 9
      && lines[1] == Title
      && lines[2] == "Generated: " + generated
      && lines[3] == TotalLine(|results|)
      && lines[6] == SuccessCountLine(|Successes(results)|)
      && lines[7] == FailureCountLine(|Failures(results)|)
  {
    var prefix := ReportPrefix(results, generated);
    var lines := Report(results, generated);
    assert lines[1] == prefix[1] && lines[2] == prefix[2] && lines[3] == prefix[3] && lines[6] == prefix[6] && lines[7] == prefix[7];
    PrefixLines(results, generated);
  }

  lemma PrefixLines(results: seq<TestResult>, generated: string)
    ensures var prefix := ReportPrefix(results, generated);
      && prefix[1] == Title
      && prefix[2] == "Generated: " + generated
      && prefix[3] == TotalLine(|results|)
      && prefix[6] == SuccessCountLine(|Successes(results)|)
      && prefix[7] == FailureCountLine(|Failures(results)|)
  {
  }

  /** The success section comes right after the counts and exists only when
      some record succeeded; the failure section follows it and exists only
      when some record failed. */
  lemma SectionsConditional(results: seq<TestResult>, generated: string)
    ensures var lines := Report(results, generated);
      var s := |SuccessSection(Successes(results))|;
      && (s == 0 <==> Successes(results) == [])
      && 9 + s < |lines|
      && (lines[9] == SuccessHeading <==> |Successes(results)| > 0)
      && (lines[9 + s] == FailureHeading <==> |Failures(results)| > 0)
  {
    var prefix := ReportPrefix(results, generated);
    var section := SuccessSection(Successes(results));
    var rest := ReportRest(results);
    assert Report(results, generated) == prefix + section + rest;
    JoinedAt(prefix, section, rest);
  }

  /** Where the middle and the last part of a concatenation begin. */
  lemma JoinedAt(a: seq<string>, b: seq<string>, c: seq<string>)
    requires |c| > 0
    ensures (a + b + c)[|a| + |b|] == c[0]
    ensures |b| > 0 ==> (a + b + c)[|a|] == b[0]
  {
  }

  // ---------------------------------------------------------------- writing

  /** The `for dev in ...` loop of the success section. */
  method WriteGpuLines(devices: seq<Device>) returns (lines: seq<string>)
    ensures lines == GpuLines(devices)
  {
    lines := [];
    for i := 0 to |devices|
      invariant lines == GpuLines(devices[..i])
    {
      lines := lines + [GpuLine(devices[i])];
      assert devices[..i + 1][..i] == devices[..i];
    }
    assert devices[..|devices|] == devices;
  }

  lemma SuccessEntriesSnoc(rs: seq<TestResult>, i: nat)
    requires i < |rs|
    ensures SuccessEntries(rs[..i + 1]) == SuccessEntries(rs[..i]) + SuccessEntry(rs[i])
  {
    EntriesSnoc(rs, SuccessEntry, i);
  }

  /** The successful nodes, written one after the other. */
  method WriteSuccessEntries(successes: seq<TestResult>) returns (lines: seq<string>)
    ensures lines == SuccessEntries(successes)
  {
    lines := [];
    for i := 0 to |successes|
      invariant lines == SuccessEntries(successes[..i])
    {
      var r := successes[i];
      var entry := [NodeLine(Check, r)];
      if HasDevices(r) {
        var gpus := WriteGpuLines(r.tests["pytorch"].devices.value);
        entry := entry + gpus;
      }
      SuccessEntriesSnoc(successes, i);
      lines := lines + entry;
    }
    assert successes[..|successes|] == successes;
  }

  /** The success section: the heading and rule, the successful nodes, then
      a blank line. */
  method WriteSuccessSection(successes: seq<TestResult>) returns (lines: seq<string>)
    ensures lines == SuccessSection(successes)
  {
    lines := [];
    if successes != [] {
      var entries := WriteSuccessEntries(successes);
      lines := [SuccessHeading, Rule('-')] + entries + [""];
    }
  }

  /** The `for error in r['errors']` loop of the failure section. */
  method WriteErrorLines(errors: seq<string>) returns (lines: seq<string>)
    ensures lines == ErrorLines(errors)
  {
    lines := [];
    for i := 0 to |errors|
      invariant lines == ErrorLines(errors[..i])
    {
      lines := lines + [ErrorLine(errors[i])];
      assert errors[..i + 1][..i] == errors[..i];
    }
    assert errors[..|errors|] == errors;
  }

  lemma FailureEntriesSnoc(rs: seq<TestResult>, i: nat)
    requires i < |rs|
    ensures FailureEntries(rs[..i + 1]) == FailureEntries(rs[..i]) + FailureEntry(rs[i])
  {
    EntriesSnoc(rs, FailureEntry, i);
  }

  /** The failed nodes, written one after the other. */
  method WriteFailureEntries(failures: seq<TestResult>) returns (lines: seq<string>)
    ensures lines == FailureEntries(failures)
  {
    lines := [];
    for i := 0 to |failures|
      invariant lines == FailureEntries(failures[..i])
    {
      var r := failures[i];
      var errorLines := WriteErrorLines(r.errors);
      var entry := [NodeLine(Cross, r)] + errorLines + [""];
      FailureEntriesSnoc(failures, i);
      lines := lines + entry;
    }
    assert failures[..|failures|] == failures;
  }

  /** The failure section: the heading and rule, then the failed nodes. */
  method WriteFailureSection(failures: seq<TestResult>) returns (lines: seq<string>)
    ensures lines == FailureSection(failures)
  {
    lines := [];
    if failures != [] {
      var entries := WriteFailureEntries(failures);
      lines := [FailureHeading, Rule('-')] + entries;
    }
  }

  /** The breakdown, written key by key in the dictionary's order. */
  method WriteBreakdown(categories: Groups) returns (lines: seq<string>)
    ensures lines == BreakdownSection(categories)
  {
    var heading := ["", BreakdownHeading, Rule('-')];
    lines := heading;
    var keys := categories.keys;
    for i := 0 to |keys|
      invariant lines == heading + CategoryLines(keys[..i], categories.nodes)
    {
      lines := lines + CategoryEntry(keys[i], categories.nodes);
      assert keys[..i + 1][..i] == keys[..i];
    }
    assert keys[..|keys|] == keys;
  }

  // ---------------------------------------------------------------- main

  /** `main`: select the input files, read them all (the first unreadable
      one aborts the run), then render the report. */
  method Summarize(inputFiles: Option<seq<string>>, inputDir: string, entries: seq<string>,
                   store: map<string, TestResult>, generated: string)
    returns (outcome: Result<seq<string>, string>)
    ensures var files := SelectInputFiles(inputFiles, inputDir, entries);
      outcome.Success? <==> forall f :: f in files ==> f in store
    ensures var files := SelectInputFiles(inputFiles, inputDir, entries);
      outcome.Success? ==>
        (forall f :: f in files ==> f in store)
        && outcome.value == Report(RecordsOf(files, store), generated)
    ensures var files := SelectInputFiles(inputFiles, inputDir, entries);
      outcome.Failure? ==>
        exists i :: 0 <= i < |files| && files[i] == outcome.error && files[i] !in store
                    && forall j :: 0 <= j < i ==> files[j] in store
  {
    var files := SelectInputFiles(inputFiles, inputDir, entries);
    var loaded := LoadResults(files, store);
    if loaded.Failure? {
      return Failure(loaded.error);
    }
    var results := loaded.value;
    var successes := Successes(results);
    var failures := Failures(results);
    var categories := BuildErrorCategories(failures);
    var lines := ReportPrefix(results, generated);
    var successLines := WriteSuccessSection(successes);
    lines := lines + successLines;
    var failureLines := WriteFailureSection(failures);
    var breakdownLines := WriteBreakdown(categories);
    lines := lines + (failureLines + breakdownLines + FooterLines());
    outcome := Success(lines);
  }
}
