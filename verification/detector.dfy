/** `main` (src/main.rs:69-106) without its printing: scan for the
    `CEF_FILES` signatures, then summarise. */
module Detector {
  import opened Wrappers
  import opened PathIndex
  import opened Aggregator
  import opened Summary

  /** The installations found, how many there are and their total size. */
  datatype Report = Report(installations: Registry, count: nat, totalSize: nat)

  /** The whole run: a `locate` panic ends it, otherwise the registry and
      its summary. */
  method Detect(search: string -> seq<string>, stat: string -> Metadata, du: (nat, string) -> nat)
    returns (r: Result<Report, LocateError>)
    ensures match ScanSpec(CefFiles, search, stat, du)
            case Failure(e) => r == Failure(e)
            case Success(reg) => r == Success(Report(reg, |reg.Keys|, TotalSize(reg)))
  {
    var scanned, _ := Scan(CefFiles, search, stat, du);
    match scanned
    case Failure(e) =>
      r := Failure(e);
    case Success(registry) =>
      var count, total := Summarize(registry);
      r := Success(Report(registry, count, total));
  }
}
