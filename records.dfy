/** The per-node result record: what the prober serialises to JSON and
    what the aggregator reads back. */
module Records {
  import opened Outcomes

  const SuccessStatus := "SUCCESS"
  const FailedStatus := "FAILED"
  const UnknownStatus := "unknown"

  /** One entry of `tests.pytorch.devices`. `memoryGb` is the already
      rounded float, kept as the text Python prints for it. */
  datatype Device = Device(index: nat, name: string, memoryGb: string, computeCapability: string)

  /** The value stored under one key of `tests`. Each constructor is one
      dictionary shape the prober writes. */
  datatype CheckResult =
    | EnvironmentInfo(pythonExecutable: string, pythonVersion: string, slurmJobId: string,
                      slurmNodelist: string, cudaVisibleDevices: string)
    | PytorchInfo(version: string, cudaCompiledVersion: Option<string>, cudaAvailable: bool,
                  deviceCount: nat, devices: Option<seq<Device>>)
    | CellposeInfo(version: string, imported: bool)
    | ModelInfo(success: bool, device: string, gpuFlag: bool, networkDevice: Option<string>,
                parameterDevice: Option<string>, warning: Option<string>)
    | InferenceInfo(success: bool, numMasksFound: int, outputShape: string)
      /** `{"error": ..., "traceback": ...}` written when a check raised. */
    | Raised(error: string, traceback: string)
      /** `{"error": ...}` alone, written when inference is skipped. */
    | ErrorOnly(error: string)

  /** The top-level record: `node`, `hostname`, `status`, `tests`, `errors`. */
  datatype TestResult = TestResult(node: string, hostname: string, status: string,
                                   tests: map<string, CheckResult>, errors: seq<string>)
}
