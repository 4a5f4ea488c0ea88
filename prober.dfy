/** The per-node prober: each check's outcome as a function of what the
    libraries report, and `main`'s assembly of the result record, status and
    exit code. */
module Prober {
  import opened Outcomes
  import opened Text
  import opened Records

  const CudaUnavailableError := "CUDA not available despite GPU partition"
  const CpuFallbackWarningText := "Model loaded on CPU despite CUDA being available!"
  const InferenceSkipMessage := "Model not loaded, skipping inference"
  const UnknownVersion := "unknown"
  const VersionPrefix := "Version:"
  const NotSet := "N/A"

  const EnvironmentKey := "environment"
  const PytorchKey := "pytorch"
  const CellposeKey := "cellpose"
  const ModelLoadingKey := "model_loading"
  const InferenceKey := "inference"

  /** The exact key set of `tests` once `main` is done. */
  const TestKeys: set<string> := {EnvironmentKey, PytorchKey, CellposeKey, ModelLoadingKey, InferenceKey}

  /** A check's return value: its result dictionary and its error strings. */
  datatype CheckOutcome = CheckOutcome(result: CheckResult, errors: seq<string>)

  // ---------------------------------------------------------------- environment

  /** What the process knows about itself: `socket.gethostname()`,
      `sys.executable`, `sys.version` and `os.environ`. */
  datatype Host = Host(hostname: string, pythonExecutable: string, pythonVersion: string,
                       environ: map<string, string>)

  /** `os.environ.get(key, "N/A")`. */
  function EnvOr(environ: map<string, string>, key: string): (v: string)
    ensures key in environ ==> v == environ[key]
    ensures key !in environ ==> v == NotSet
  {
    if key in environ then environ[key] else NotSet
  }

  /** `test_environment`: the interpreter details, and each scheduler
      variable's value when it is set and "N/A" when it is not. */
  function TestEnvironment(host: Host): (r: CheckResult)
    ensures r.EnvironmentInfo?
    ensures r.pythonExecutable == host.pythonExecutable && r.pythonVersion == host.pythonVersion
    ensures "SLURM_JOB_ID" in host.environ ==> r.slurmJobId == host.environ["SLURM_JOB_ID"]
    ensures "SLURM_JOB_ID" !in host.environ ==> r.slurmJobId == NotSet
    ensures "SLURM_NODELIST" in host.environ ==> r.slurmNodelist == host.environ["SLURM_NODELIST"]
    ensures "SLURM_NODELIST" !in host.environ ==> r.slurmNodelist == NotSet
    ensures "CUDA_VISIBLE_DEVICES" in host.environ ==>
      r.cudaVisibleDevices == host.environ["CUDA_VISIBLE_DEVICES"]
    ensures "CUDA_VISIBLE_DEVICES" !in host.environ ==> r.cudaVisibleDevices == NotSet
  {
    EnvironmentInfo(host.pythonExecutable, host.pythonVersion,
                    EnvOr(host.environ, "SLURM_JOB_ID"),
                    EnvOr(host.environ, "SLURM_NODELIST"),
                    EnvOr(host.environ, "CUDA_VISIBLE_DEVICES"))
  }

  // ---------------------------------------------------------------- pytorch

  /** What torch reports about one visible GPU. */
  datatype Gpu = Gpu(name: string, memoryGb: string, major: nat, minor: nat)

  /** What the torch calls of `test_pytorch` return, or that one of them raised.
      `gpus` stands for `device_count()` and the per-index queries. */
  datatype TorchProbe =
    | TorchRaised(message: string, traceback: string)
    | TorchReport(version: string, cudaCompiledVersion: Option<string>, cudaAvailable: bool,
                  gpus: seq<Gpu>)

  /** The `devices` entry for GPU number `i`. Its compute capability
      splits at the '.' into the major and the minor version. */
  function DeviceInfo(i: nat, g: Gpu): (d: Device)
    ensures d.index == i && d.name == g.name && d.memoryGb == g.memoryGb
    ensures Split(d.computeCapability, '.') == [NatToString(g.major), NatToString(g.minor)]
  {
    var major := NatToString(g.major);
    var minor := NatToString(g.minor);
    assert '.' !in major && '.' !in minor;
    assert Join([major, minor], ".") == major + "." + minor;
    SplitJoin([major, minor], '.');
    Device(i, g.name, g.memoryGb, major + "." + minor)
  }

  /** `test_pytorch`'s outcome. */
  function PytorchCheck(probe: TorchProbe): (out: CheckOutcome)
    ensures probe.TorchRaised? ==>
      out.result == Raised(probe.message, probe.traceback)
      && out.errors == ["PyTorch error: " + probe.message]
    ensures probe.TorchReport? ==>
      && out.result.PytorchInfo?
      && out.result.version == probe.version
      && out.result.cudaCompiledVersion == probe.cudaCompiledVersion
      && out.result.cudaAvailable == probe.cudaAvailable
    ensures probe.TorchReport? && !probe.cudaAvailable ==>
      out.result.deviceCount == 0 && out.result.devices.None?
      && out.errors == [CudaUnavailableError]
    ensures probe.TorchReport? && probe.cudaAvailable ==>
      && out.errors == []
      && out.result.deviceCount == |probe.gpus|
      && out.result.devices.Some?
      && |out.result.devices.value| == |probe.gpus|
      && forall i :: 0 <= i < |probe.gpus| ==>
           out.result.devices.value[i] == DeviceInfo(i, probe.gpus[i])
           && out.result.devices.value[i].index == i
  {
    match probe
    case TorchRaised(message, traceback) =>
      CheckOutcome(Raised(message, traceback), ["PyTorch error: " + message])
    case TorchReport(version, compiled, available, gpus) =>
      if available then
        var devices := seq(|gpus|, i requires 0 <= i < |gpus| => DeviceInfo(i, gpus[i]));
        CheckOutcome(PytorchInfo(version, compiled, true, |gpus|, Some(devices)), [])
      else
        CheckOutcome(PytorchInfo(version, compiled, false, 0, None), [CudaUnavailableError])
  }

  /** `test_pytorch`: the device list is filled one index at a time. */
  method TestPytorch(probe: TorchProbe) returns (out: CheckOutcome)
    ensures out == PytorchCheck(probe)
  {
    match probe
    case TorchRaised(message, traceback) =>
      out := CheckOutcome(Raised(message, traceback), ["PyTorch error: " + message]);
    case TorchReport(version, compiled, available, gpus) =>
      var deviceCount := if available then |gpus| else 0;
      var result := PytorchInfo(version, compiled, available, deviceCount, None);
      if available {
        var devices: seq<Device> := [];
        var i := 0;
        while i < deviceCount
          invariant 0 <= i <= deviceCount
          invariant |devices| == i
          invariant forall k :: 0 <= k < i ==> devices[k] == DeviceInfo(k, gpus[k])
        {
          devices := devices + [DeviceInfo(i, gpus[i])];
          i := i + 1;
        }
        assert devices == seq(|gpus|, k requires 0 <= k < |gpus| => DeviceInfo(k, gpus[k]));
        result := result.(devices := Some(devices));
        out := CheckOutcome(result, []);
      } else {
        out := CheckOutcome(result, [CudaUnavailableError]);
      }
  }

  // ---------------------------------------------------------------- cellpose

  /** Whether importing cellpose raised (or `pip show` did), whether it has
      `__version__`, or else what `pip show cellpose` printed. */
  datatype CellposeProbe =
    | CellposeRaised(message: string, traceback: string)
    | CellposeVersion(version: string)
    | PipShow(stdout: string)

  /** The index of the first line of `lines` starting with `prefix`. */
  function FirstLineWith(lines: seq<string>, prefix: string): (k: Option<nat>)
    ensures k.Some? ==>
      && k.value < |lines|
      && StartsWith(lines[k.value], prefix)
      && forall j :: 0 <= j < k.value ==> !StartsWith(lines[j], prefix)
    ensures k.None? ==> forall j :: 0 <= j < |lines| ==> !StartsWith(lines[j], prefix)
  {
    if lines == [] then None
    else if StartsWith(lines[0], prefix) then Some(0)
    else match FirstLineWith(lines[1..], prefix)
      case None => None
      case Some(j) => Some(j + 1)
  }

  /** The version `pip show` output gives: the stripped text after the first
      ':' of the first line starting with "Version:", or "unknown". */
  function PipVersion(stdout: string): (v: string)
    ensures v == [] || (!IsWhitespace(v[0]) && !IsWhitespace(v[|v| - 1]))
    ensures '\n' !in v
  {
    var lines := Split(stdout, '\n');
    match FirstLineWith(lines, VersionPrefix)
    case None => UnknownVersion
    case Some(k) =>
      VersionLine(lines[k]);
      StrippedVersionLine(lines[k]);
      Strip(AfterFirst(lines[k], ':'))
  }

  /** The version is "unknown" when no line starts with "Version:", and
      otherwise the stripped rest of the first line that does. */
  lemma PipVersionFirstLine(stdout: string)
    ensures var lines := Split(stdout, '\n');
      FirstLineWith(lines, VersionPrefix).None? ==> PipVersion(stdout) == UnknownVersion
    ensures var lines := Split(stdout, '\n');
      var first := FirstLineWith(lines, VersionPrefix);
      first.Some? ==> PipVersion(stdout) == Strip(lines[first.value][|VersionPrefix|..])
  {
    var lines := Split(stdout, '\n');
    var first := FirstLineWith(lines, VersionPrefix);
    if first.Some? {
      VersionLine(lines[first.value]);
    }
  }

  /** A line that starts with `prefix` after lines that do not is the first. */
  lemma FirstLineAt(lines: seq<string>, prefix: string, i: nat)
    requires i < |lines| && StartsWith(lines[i], prefix)
    requires forall j :: 0 <= j < i ==> !StartsWith(lines[j], prefix)
    ensures FirstLineWith(lines, prefix) == Some(i)
  {
  }

  /** On a "Version:" line, `split(':', 1)[1]` is the text after the prefix. */
  lemma VersionLine(line: string)
    requires StartsWith(line, VersionPrefix)
    ensures ':' in line && AfterFirst(line, ':') == line[|VersionPrefix|..]
  {
    assert VersionPrefix[|VersionPrefix| - 1] == ':';
    assert ':' !in VersionPrefix[..|VersionPrefix| - 1];
    AfterFirstOfPrefix(line, VersionPrefix, ':');
  }

  /** The version taken from one line of the output has no line break. */
  lemma StrippedVersionLine(line: string)
    requires StartsWith(line, VersionPrefix) && '\n' !in line
    ensures ':' in line && '\n' !in Strip(AfterFirst(line, ':'))
  {
    VersionLine(line);
    var rest := line[|VersionPrefix|..];
    assert forall k :: 0 <= k < |rest| ==> rest[k] == line[|VersionPrefix| + k];
    StripKeepsOut(rest, '\n');
  }

  /** The `pip show` scan of `test_cellpose`: a loop over the lines that
      stops at the first "Version:" line. */
  method ParsePipVersion(stdout: string) returns (version: string)
    ensures version == PipVersion(stdout)
  {
    version := UnknownVersion;
    var lines := Split(stdout, '\n');
    for i := 0 to |lines|
      invariant version == UnknownVersion
      invariant forall j :: 0 <= j < i ==> !StartsWith(lines[j], VersionPrefix)
    {
      if StartsWith(lines[i], VersionPrefix) {
        VersionLine(lines[i]);
        version := Strip(AfterFirst(lines[i], ':'));
        FirstLineAt(lines, VersionPrefix, i);
        PipVersionFirstLine(stdout);
        return;
      }
    }
  }

  /** `test_cellpose`'s outcome. */
  function CellposeCheck(probe: CellposeProbe): (out: CheckOutcome)
    ensures out.errors == [] <==> !probe.CellposeRaised?
    ensures probe.CellposeRaised? ==>
      out.result == Raised(probe.message, probe.traceback)
      && out.errors == ["Cellpose import error: " + probe.message]
    ensures probe.CellposeVersion? ==> out.result == CellposeInfo(probe.version, true)
    ensures probe.PipShow? ==> out.result == CellposeInfo(PipVersion(probe.stdout), true)
  {
    match probe
    case CellposeRaised(message, traceback) =>
      CheckOutcome(Raised(message, traceback), ["Cellpose import error: " + message])
    case CellposeVersion(version) => CheckOutcome(CellposeInfo(version, true), [])
    case PipShow(stdout) => CheckOutcome(CellposeInfo(PipVersion(stdout), true), [])
  }

  method TestCellpose(probe: CellposeProbe) returns (out: CheckOutcome)
    ensures out == CellposeCheck(probe)
  {
    match probe
    case CellposeRaised(message, traceback) =>
      out := CheckOutcome(Raised(message, traceback), ["Cellpose import error: " + message]);
    case CellposeVersion(version) =>
      out := CheckOutcome(CellposeInfo(version, true), []);
    case PipShow(stdout) =>
      var version := ParsePipVersion(stdout);
      out := CheckOutcome(CellposeInfo(version, true), []);
  }

  // ---------------------------------------------------------------- model loading

  /** What `model.net` offers: its `device` attribute, if any, and the
      device of its first parameter, if `next(parameters())` succeeds. */
  datatype Network = Network(device: Option<string>, firstParameterDevice: Option<string>)

  /** The constructed model as `test_model_loading` sees it, or that
      construction raised. `device` is `str(model.device)`; `deviceIsCpu` is
      what torch answers to `model.device == 'cpu'`; `cudaAvailable` is the
      second `torch.cuda.is_available()` call of that check. */
  datatype LoadProbe =
    | LoadRaised(message: string, traceback: string)
    | Loaded(device: string, deviceIsCpu: bool, gpuFlag: bool, net: Option<Network>,
             cudaAvailable: bool)

  /** The model handle passed on to inference. */
  datatype Model = Model(device: string)

  datatype LoadOutcome = LoadOutcome(model: Option<Model>, result: CheckResult, errors: seq<string>)

  /** The CPU-fallback rule: a warning exactly when the model's device
      compares equal to 'cpu' although CUDA is available. */
  function CpuFallbackWarning(deviceIsCpu: bool, cudaAvailable: bool): (w: Option<string>)
    ensures w.Some? <==> deviceIsCpu && cudaAvailable
    ensures w.Some? ==> w.value == CpuFallbackWarningText
  {
    if deviceIsCpu && cudaAvailable then Some(CpuFallbackWarningText) else None
  }

  /** `test_model_loading`'s outcome. */
  function ModelLoadingCheck(probe: LoadProbe): (out: LoadOutcome)
    ensures probe.LoadRaised? ==>
      && out.model.None?
      && out.result == Raised(probe.message, probe.traceback)
      && out.errors == ["Model loading error: " + probe.message]
    ensures probe.Loaded? ==>
      && out.model == Some(Model(probe.device))
      && out.result.ModelInfo? && out.result.success && out.result.device == probe.device
      && out.result.gpuFlag == probe.gpuFlag
      && out.result.networkDevice == (if probe.net.Some? then probe.net.value.device else None)
      && out.result.parameterDevice ==
           (if probe.net.Some? then probe.net.value.firstParameterDevice else None)
      && out.result.warning == CpuFallbackWarning(probe.deviceIsCpu, probe.cudaAvailable)
      && (out.errors == [] <==> !(probe.deviceIsCpu && probe.cudaAvailable))
      && (out.errors != [] ==> out.errors == [CpuFallbackWarningText])
  {
    match probe
    case LoadRaised(message, traceback) =>
      LoadOutcome(None, Raised(message, traceback), ["Model loading error: " + message])
    case Loaded(device, deviceIsCpu, gpuFlag, net, cudaAvailable) =>
      var networkDevice := if net.Some? then net.value.device else None;
      var parameterDevice := if net.Some? then net.value.firstParameterDevice else None;
      var warning := CpuFallbackWarning(deviceIsCpu, cudaAvailable);
      var result := ModelInfo(true, device, gpuFlag, networkDevice, parameterDevice, warning);
      LoadOutcome(Some(Model(device)), result, if warning.Some? then [warning.value] else [])
  }

  // ---------------------------------------------------------------- inference

  /** What `model.eval` returned on the dummy image (its label array,
      flattened, and `str(masks.shape)`), or that it raised. */
  datatype InferenceProbe =
    | InferenceRaised(message: string, traceback: string)
    | Segmented(labels: seq<int>, shape: string)

  /** The distinct labels of a mask array, as `np.unique` collects them:
      every pixel's label, and nothing else. */
  function Labels(labels: seq<int>): (r: set<int>)
    ensures forall i :: 0 <= i < |labels| ==> labels[i] in r
    ensures forall l :: l in r ==> exists i :: 0 <= i < |labels| && labels[i] == l
  {
    set l | l in labels
  }

  /** `len(np.unique(masks)) - 1`: at least -1, which it is exactly for an
      empty array, and below the number of pixels. */
  function MaskCount(labels: seq<int>): (m: int)
    ensures -1 <= m < |labels|
    ensures m == -1 <==> labels == []
  {
    LabelsBound(labels);
    assert labels != [] ==> labels[0] in Labels(labels);
    |Labels(labels)| - 1
  }

  lemma {:induction false} LabelsBound(labels: seq<int>)
    ensures |Labels(labels)| <= |labels|
  {
    if labels != [] {
      LabelsBound(labels[1..]);
      assert Labels(labels) == Labels(labels[1..]) + {labels[0]};
    }
  }

  /** With background label 0 present, the count is the number of distinct
      foreground labels. */
  lemma MaskCountMeaning(labels: seq<int>)
    requires 0 in labels
    ensures MaskCount(labels) == |Labels(labels) - {0}|
  {
    assert 0 in Labels(labels);
  }

  /** Without a 0 label the count is one less than the number of distinct
      labels found. */
  lemma MaskCountWithoutBackground(labels: seq<int>)
    requires 0 !in labels
    ensures MaskCount(labels) == |Labels(labels) - {0}| - 1
  {
    assert Labels(labels) - {0} == Labels(labels);
  }

  /** `test_inference`'s outcome. */
  function InferenceCheck(probe: InferenceProbe): (out: CheckOutcome)
    ensures probe.InferenceRaised? ==>
      out.result == Raised(probe.message, probe.traceback)
      && out.errors == ["Inference error: " + probe.message]
    ensures probe.Segmented? ==>
      out.errors == [] && out.result.InferenceInfo? && out.result.success
      && out.result.numMasksFound == |Labels(probe.labels)| - 1
      && out.result.outputShape == probe.shape
  {
    match probe
    case InferenceRaised(message, traceback) =>
      CheckOutcome(Raised(message, traceback), ["Inference error: " + message])
    case Segmented(labels, shape) =>
      CheckOutcome(InferenceInfo(true, MaskCount(labels), shape), [])
  }

  // ---------------------------------------------------------------- main

  /** What every check would find on this node. The inference probe is only
      consulted when a model was loaded. */
  datatype Probes = Probes(torch: TorchProbe, cellpose: CellposeProbe, loading: LoadProbe,
                           inference: InferenceProbe)

  /** `main`: run the checks in order, store each result under its key,
      extend the error list with each check's errors, skip inference when no
      model came back, then set the status and choose the exit code. */
  method ProbeNode(node: string, host: Host, probes: Probes) returns (record: TestResult, exitCode: int)
    ensures record.node == node && record.hostname == host.hostname
    ensures record.tests == map[
      EnvironmentKey := TestEnvironment(host),
      PytorchKey := PytorchCheck(probes.torch).result,
      CellposeKey := CellposeCheck(probes.cellpose).result,
      ModelLoadingKey := ModelLoadingCheck(probes.loading).result,
      InferenceKey := if ModelLoadingCheck(probes.loading).model.Some?
                      then InferenceCheck(probes.inference).result
                      else ErrorOnly(InferenceSkipMessage)]
    ensures record.tests.Keys == TestKeys
    ensures record.errors ==
      PytorchCheck(probes.torch).errors
      + CellposeCheck(probes.cellpose).errors
      + ModelLoadingCheck(probes.loading).errors
      + (if ModelLoadingCheck(probes.loading).model.Some?
         then InferenceCheck(probes.inference).errors else [])
    ensures record.status == SuccessStatus <==> record.errors == []
    ensures record.status == FailedStatus <==> record.errors != []
    ensures exitCode == 0 <==> record.status == SuccessStatus
    ensures exitCode == 1 <==> record.status != SuccessStatus
  {
    record := TestResult(node, host.hostname, UnknownStatus, map[], []);

    record := record.(tests := record.tests[EnvironmentKey := TestEnvironment(host)]);

    var pytorch := TestPytorch(probes.torch);
    record := record.(tests := record.tests[PytorchKey := pytorch.result]);
    record := record.(errors := record.errors + pytorch.errors);

    var cellpose := TestCellpose(probes.cellpose);
    record := record.(tests := record.tests[CellposeKey := cellpose.result]);
    record := record.(errors := record.errors + cellpose.errors);

    var loading := ModelLoadingCheck(probes.loading);
    record := record.(tests := record.tests[ModelLoadingKey := loading.result]);
    record := record.(errors := record.errors + loading.errors);

    if loading.model != None {
      var inference := InferenceCheck(probes.inference);
      record := record.(tests := record.tests[InferenceKey := inference.result]);
      record := record.(errors := record.errors + inference.errors);
    } else {
      record := record.(tests := record.tests[InferenceKey := ErrorOnly(InferenceSkipMessage)]);
    }

    if |record.errors| == 0 {
      record := record.(status := SuccessStatus);
    } else {
      record := record.(status := FailedStatus);
    }

    exitCode := if record.status == SuccessStatus then 0 else 1;
    KeysOfTests(record.tests, TestEnvironment(host), pytorch.result, cellpose.result, loading.result,
                record.tests[InferenceKey]);
  }

  /** A `tests` dictionary with one entry stored under each check name. */
  lemma KeysOfTests(tests: map<string, CheckResult>, environment: CheckResult, pytorch: CheckResult,
                    cellpose: CheckResult, loading: CheckResult, inference: CheckResult)
    requires tests == map[EnvironmentKey := environment, PytorchKey := pytorch,
                          CellposeKey := cellpose, ModelLoadingKey := loading,
                          InferenceKey := inference]
    ensures tests.Keys == TestKeys
  {
  }

  /** A node whose accelerator, library, model and inference all work, with
      the model on the GPU, yields no errors from any check. */
  lemma HealthyNodeHasNoErrors(probes: Probes)
    requires probes.torch.TorchReport? && probes.torch.cudaAvailable
    requires !probes.cellpose.CellposeRaised?
    requires probes.loading.Loaded? && !probes.loading.deviceIsCpu
    requires probes.inference.Segmented?
    ensures ModelLoadingCheck(probes.loading).model.Some?
    ensures PytorchCheck(probes.torch).errors + CellposeCheck(probes.cellpose).errors
            + ModelLoadingCheck(probes.loading).errors
            + InferenceCheck(probes.inference).errors == []
  {
  }

  /** Without CUDA the pytorch check alone already contributes an error, so
      the node fails whatever the later checks find. */
  lemma CudaUnavailableFails(probes: Probes)
    requires probes.torch.TorchReport? && !probes.torch.cudaAvailable
    ensures var errors := PytorchCheck(probes.torch).errors
                          + CellposeCheck(probes.cellpose).errors
                          + ModelLoadingCheck(probes.loading).errors;
      errors != [] && errors[0] == CudaUnavailableError
  {
  }
}
