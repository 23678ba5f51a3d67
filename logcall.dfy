/**
 * The `LOG_CALL` tracer: an object built on entry to a function prints an indented entry
 * line and deepens the shared nesting level; its destruction on exit undoes the nesting and
 * prints the matching exit line.
 */
module LogCalls {
  import CText

  /** The file part of a path: everything after the last '/', or the whole path. */
  function BaseName(path: string): (b: string)
    ensures '/' !in b
    ensures |b| <= |path| && path[|path| - |b|..] == b
    ensures '/' !in path ==> b == path
    ensures '/' in path ==> path[|path| - |b| - 1] == '/'
  {
    if path == [] then []
    else if path[|path| - 1] == '/' then []
    else
      var init := path[..|path| - 1];
      var b := BaseName(init);
      assert path == init + [path[|path| - 1]];
      assert '/' in init ==> '/' in path;
      b + [path[|path| - 1]]
  }

  /** `file.substr(0, file.length() - 4)`: the last four characters go (the source's extension);
      for a shorter name the unsigned subtraction wraps around and the whole name is kept. */
  function DropExtension(name: string): string
  {
    if |name| >= 4 then name[..|name| - 4] else name
  }

  function Indent(depth: nat): (s: string)
    ensures |s| == 2 * depth && forall i :: 0 <= i < |s| ==> s[i] == ' '
  {
    if depth == 0 then "" else "  " + Indent(depth - 1)
  }

  function EntryLine(depth: nat, funcname: string, file: string, line: int): string
  {
    "\t" + Indent(depth) + funcname + " [" + file + " : " + CText.Dec(line) + "]\n"
  }

  function ExitLine(depth: nat, funcname: string): string
  {
    "\t" + Indent(depth) + "~" + funcname + "\n"
  }

  /** The process-wide state the tracer shares: its static depth and what it has printed. */
  class Trace {
    var depth: int
    var output: seq<string>

    constructor()
      ensures depth == 0 && output == []
    {
      depth := 0;
      output := [];
    }
  }

  /** One `LOG_CALL` object. */
  class LogCall {
    const func: string
    const file: string

    constructor(trace: Trace, funcname: string, filepath: string, line: int)
      requires trace.depth >= 0
      modifies trace
      ensures func == funcname
      ensures file == DropExtension(BaseName(filepath))
      ensures trace.output == old(trace.output) + [EntryLine(old(trace.depth), funcname, file, line)]
      ensures trace.depth == old(trace.depth) + 1
    {
      var f := DropExtension(BaseName(filepath));
      var entry := EntryLine(trace.depth, funcname, f, line);
      func := funcname;
      file := f;
      new;
      trace.output := trace.output + [entry];
      trace.depth := trace.depth + 1;
    }

    /** The destructor. */
    method Destroy(trace: Trace)
      requires trace.depth >= 1
      modifies trace
      ensures trace.depth == old(trace.depth) - 1
      ensures trace.output == old(trace.output) + [ExitLine(trace.depth, func)]
    {
      trace.depth := trace.depth - 1;
      trace.output := trace.output + [ExitLine(trace.depth, func)];
    }
  }

  /** A traced call whose body does no tracing of its own: it leaves the depth as it found it,
      and its two lines are indented alike. */
  method TracedCall(trace: Trace, funcname: string, filepath: string, line: int)
      returns (entry: string, exit: string)
    requires trace.depth >= 0
    modifies trace
    ensures trace.depth == old(trace.depth)
    ensures trace.output == old(trace.output) + [entry, exit]
    ensures |entry| > 2 * trace.depth && |exit| > 2 * trace.depth
    ensures entry[..1 + 2 * trace.depth] == exit[..1 + 2 * trace.depth] == "\t" + Indent(trace.depth)
    ensures entry == EntryLine(trace.depth, funcname, DropExtension(BaseName(filepath)), line)
    ensures exit == ExitLine(trace.depth, funcname)
  {
    var lc := new LogCall(trace, funcname, filepath, line);
    lc.Destroy(trace);
    entry := EntryLine(trace.depth, funcname, lc.file, line);
    exit := ExitLine(trace.depth, funcname);
    IndentShared(trace.depth, funcname, lc.file, line);
  }

  /** Entry and exit lines at one depth start with the same tab and indent. */
  lemma IndentShared(depth: nat, funcname: string, file: string, line: int)
    ensures |EntryLine(depth, funcname, file, line)| >= 1 + 2 * depth
    ensures |ExitLine(depth, funcname)| >= 1 + 2 * depth
    ensures EntryLine(depth, funcname, file, line)[..1 + 2 * depth] == "\t" + Indent(depth)
    ensures ExitLine(depth, funcname)[..1 + 2 * depth] == "\t" + Indent(depth)
  {
    var p := "\t" + Indent(depth);
    assert EntryLine(depth, funcname, file, line) == p + (funcname + " [" + file + " : " + CText.Dec(line) + "]\n");
    assert ExitLine(depth, funcname) == p + ("~" + funcname + "\n");
  }

  /** The stored name has no directory part, and the four-character suffix is all that goes. */
  lemma FileNameShape(filepath: string)
    ensures '/' !in DropExtension(BaseName(filepath))
    ensures |BaseName(filepath)| >= 4 ==>
              DropExtension(BaseName(filepath)) + BaseName(filepath)[|BaseName(filepath)| - 4..] == BaseName(filepath)
  {
    var b := BaseName(filepath);
    var d := DropExtension(b);
    if |b| >= 4 {
      assert d == b[..|b| - 4];
      forall i | 0 <= i < |d| ensures d[i] != '/' { assert d[i] == b[i]; }
      assert b == d + b[|b| - 4..];
    }
  }

  /** Joining a directory and a file name with '/' and taking the base name gives the file name back. */
  lemma {:induction false} BaseNameOfJoin(dir: string, name: string)
    requires '/' !in name
    ensures BaseName(dir + "/" + name) == name
  {
    var path := dir + "/" + name;
    if name == [] {
      assert path[|path| - 1] == '/';
    } else {
      var init := name[..|name| - 1];
      assert '/' !in init by { assert forall c :: c in init ==> c in name; }
      BaseNameOfJoin(dir, init);
      assert path[..|path| - 1] == dir + "/" + init;
      assert path[|path| - 1] == name[|name| - 1];
      assert init + [name[|name| - 1]] == name;
    }
  }
}
