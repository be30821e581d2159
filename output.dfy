/** Where `stlog/output.py` writes a log file: `_get_log_file_path`. */
module Output {
  import opened Text
  import opened PyValue

  /** `os.path.join(a, b)` on POSIX: an absolute `b` replaces `a`; otherwise
      one `/` separates them unless `a` is empty or already ends with one. */
  function PathJoin(a: string, b: string): (r: string)
    ensures StartsWith(b, "/") ==> r == b
    ensures !StartsWith(b, "/") ==> StartsWith(r, a)
    ensures |r| >= |b| && r[|r| - |b|..] == b
    ensures a != "" || b != "" ==> r != ""
  {
    if StartsWith(b, "/") then b
    else if a == "" || a[|a| - 1] == '/' then a + b
    else a + "/" + b
  }

  /** A truthy optional string: given, and not empty. */
  predicate Given(o: Option<string>) {
    o.Some? && o.value != ""
  }

  /** `_get_log_file_path`. `detectedProgramName` is what
      `get_program_name()` answers (the base name of the running script). */
  function GetLogFilePath(logfile: Option<string>, logdir: Option<string>, programName: Option<string>,
                          detectedProgramName: string, logfileSuffix: string): (r: Result<string>)
    ensures r.Err? <==> !Given(logfile) && !Given(logdir)
    ensures r.Err? ==> r.error == ValueError
    ensures r.Ok? ==> r.value != ""
    ensures !Given(logdir) && Given(logfile) ==> r == Ok(logfile.value)
    ensures Given(logdir) && Given(logfile) ==> r == Ok(PathJoin(logdir.value, logfile.value))
    ensures Given(logdir) && !Given(logfile) ==>
              r == Ok(PathJoin(logdir.value, if Given(programName) then programName.value else detectedProgramName)
                      + logfileSuffix)
  {
    var first := if !Given(logdir) then logfile else Nothing;
    var second := if !Given(first) && Given(logfile) && Given(logdir)
                  then Some(PathJoin(logdir.value, logfile.value)) else first;
    var third := if !Given(second) && Given(logdir)
                 then Some(PathJoin(logdir.value, if Given(programName) then programName.value else detectedProgramName)
                           + logfileSuffix)
                 else second;
    if !Given(third) then Err(ValueError) else Ok(third.value)
  }
}
