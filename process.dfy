/** The records the process view works on. */
module Process {
  /** One entry of a raw enumeration of the operating system's process table: what the
      view reads from the process-information library for each process. */
  datatype RawProcess = RawProcess(pid: nat, name: string, cpu: real, memory: nat)

  /** `ProcessInfo`: a raw entry tagged with the classifier's verdict. */
  datatype ProcessInfo = ProcessInfo(pid: nat, name: string, cpuUsage: real, memory: nat, isGame: bool)
}
