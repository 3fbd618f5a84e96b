/** The collaborators of the core problem type whose code is not part of
    this model. Each is an arbitrary function; those that can fail return
    an `Option`, with `None` standing for the exception they raise. */
module Environment {
  import opened Wrappers

  /** One line of `addr2line` output: function name, source file, source line. */
  datatype SourceLocation = SourceLocation(funcName: string, sourceFile: string, line: int)

  datatype Externals = Externals(
    /** `hash_list`: the hash of a list of strings */
    hashList: seq<string> -> string,
    /** `"{0}".format(name.encode("ascii", "ignore"))` */
    renderAscii: string -> string,
    /** `os.path.abspath` */
    absPath: string -> string,
    /** `get_libname` */
    libname: string -> string,
    /** `get_base_address`; `None` when it raises `FafError` */
    baseAddress: string -> Option<int>,
    /** `addr2line(binary, address, debug_dir)`, innermost entry first;
        `None` when it raises */
    addr2line: (string, int, string) -> Option<seq<SourceLocation>>,
    /** `demangle` */
    demangle: string -> string)

  /** `os.path.join(a, b)` on POSIX: an absolute `b` replaces `a`, and a
      separator is added unless `a` is empty or already ends with one. */
  function PathJoin(a: string, b: string): (r: string)
    ensures |b| > 0 && b[0] == '/' ==> r == b
    ensures (|b| == 0 || b[0] != '/') ==>
              |r| >= |a| + |b| && r[..|a|] == a && r[|r| - |b|..] == b && |r| <= |a| + |b| + 1
  {
    if |b| > 0 && b[0] == '/' then b
    else if |a| == 0 || a[|a| - 1] == '/' then a + b
    else a + "/" + b
  }
}
