/** What a parsed PMT carries (src/pmt.h:121-151): program descriptors, elementary streams and the
    list of CA entries collected from both. */
module PmtData {
  import opened Bytes

  /** A pid, or 8192 for "all pids". */
  type Pid = p: nat | p <= 8192

  datatype Descriptor = Descriptor(kind: byte, len: byte, data: Data)

  datatype StreamPid = StreamPid(kind: byte, pid: Pid, isAudio: bool, isVideo: bool, descriptors: seq<Descriptor>)
  {
    predicate IsAv() { isAudio || isVideo }
  }

  datatype CaEntry = CaEntry(id: nat, pid: Pid, privateData: Data)

  datatype PmtContent = PmtContent(descriptors: seq<Descriptor>, streams: seq<StreamPid>, cas: seq<CaEntry>)
}
