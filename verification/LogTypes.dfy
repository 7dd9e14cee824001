/** Log events and the context they carry (types/loginfo.go, types/logctx.go).
    Times are integers, 0 being Go's zero time. */
module LogTypes {
  import opened Options

  /** The part of LogCtx that merging and displaying use. */
  datatype LogCtx = LogCtx(
    filePath: string,
    fileType: string,
    ownIPs: seq<string>,
    ownHashes: seq<string>,
    ownNames: seq<string>,
    version: string,
    conflicts: seq<string>)
  {
    /** Fills this context from the one of the log before it. */
    function Inherit(before: LogCtx): LogCtx {
      this.(ownHashes := before.ownHashes + ownHashes,
            ownNames := before.ownNames + ownNames,
            ownIPs := before.ownIPs + ownIPs,
            version := if version == "" then before.version else version,
            conflicts := before.conflicts + conflicts)
    }
  }

  /** An event: its date, if its line had one; its message, if it has a displayer. */
  datatype LogInfo = LogInfo(
    date: Option<int>,
    message: Option<string>,
    regexUsed: string,
    logCtx: LogCtx,
    repetitionCount: nat)
}
