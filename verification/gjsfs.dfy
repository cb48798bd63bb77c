/** The compile-on-read file system of gjsfs/main.go. Opening `x.js` opens
    `x.go` in the wrapped file system instead and hands out a file that runs
    the gopherjs compiler the first time it is read. The wrapped file system
    and the compiler are parameters: the outcome of each of their calls is
    supplied from outside. Strings stand for Go's byte strings, one character
    per byte. */
module Gjsfs {
  import opened Results

  newtype byte = x: int | 0 <= x < 256

  // ---------------------------------------------------------------------
  // Names
  // ---------------------------------------------------------------------

  /** Go's `path.Ext`: the suffix starting at the last `.` of the final
      `/`-separated element, or "" when that element has no `.`. */
  function Ext(p: string): (e: string)
    ensures |e| <= |p| && e == p[|p| - |e|..]
    ensures e != [] ==> e[0] == '.' && forall k :: 1 <= k < |e| ==> e[k] != '.' && e[k] != '/'
    ensures e == [] ==> forall k :: 0 <= k < |p| && p[k] == '.' ==> '/' in p[k + 1..]
    decreases |p|
  {
    if p == [] || p[|p| - 1] == '/' then ""
    else if p[|p| - 1] == '.' then "."
    else
      var e := Ext(p[..|p| - 1]);
      if e == "" then "" else e + [p[|p| - 1]]
  }

  predicate EndsWith(p: string, suffix: string)
  {
    |suffix| <= |p| && p[|p| - |suffix|..] == suffix
  }

  /** One step of `Ext` on a name whose last byte is neither `/` nor `.`. */
  lemma ExtStep(p: string, c: char)
    requires c != '/' && c != '.'
    ensures Ext(p + [c]) == (if Ext(p) == "" then "" else Ext(p) + [c])
  {
    assert (p + [c])[..|p|] == p;
  }

  /** A name ending in `.` has the extension ".". */
  lemma ExtDot(p: string)
    requires p != [] && p[|p| - 1] == '.'
    ensures Ext(p) == "."
  {
  }

  lemma ExtOfJsName(p: string)
    requires EndsWith(p, ".js")
    ensures Ext(p) == ".js"
  {
    var stem := p[..|p| - 2];
    ExtDot(stem);
    ExtStep(stem, 'j');
    ExtStep(stem + ['j'], 's');
    assert p == stem + ['j'] + ['s'];
  }

  /** A name has the extension `.js` exactly when it ends in `.js`. */
  lemma ExtJs(p: string)
    ensures Ext(p) == ".js" <==> EndsWith(p, ".js")
  {
    if EndsWith(p, ".js") {
      ExtOfJsName(p);
    }
    if Ext(p) == ".js" {
      assert p[|p| - 3..] == Ext(p);
    }
  }

  /** The name `Open` asks the wrapped file system for: `x.js` becomes
      `x.go`, any other name is kept. */
  function OpenedName(name: string): (n: string)
    ensures |n| == |name|
    ensures Ext(name) != ".js" ==> n == name
    ensures Ext(name) == ".js" ==> n[..|n| - 2] == name[..|name| - 2] && n[|n| - 2..] == "go"
  {
    if Ext(name) != ".js" then name else name[..|name| - 2] + "go"
  }

  /** `rewriteInfo.Name`: the underlying name with its last two bytes
      replaced by "js". Shorter names make the slice expression panic. */
  function Name(underlying: string): (n: string)
    requires |underlying| >= 2
    ensures |n| == |underlying|
    ensures n[..|n| - 2] == underlying[..|underlying| - 2] && n[|n| - 2..] == "js"
  {
    underlying[..|underlying| - 2] + "js"
  }

  /** `Name` undoes the renaming `Open` does. */
  lemma NameInvertsOpen(name: string)
    requires Ext(name) == ".js"
    ensures Name(OpenedName(name)) == name
  {
  }

  // ---------------------------------------------------------------------
  // Opening
  // ---------------------------------------------------------------------

  datatype FsError = FsError(msg: string)

  /** A file opened by the wrapped file system. */
  datatype Handle = Handle(id: nat)

  /** What `Stat` on such a file reports. */
  datatype Info = Info(name: string, isDir: bool)

  /** The wrapped `http.FileSystem`: the outcome of opening each name, and
      of `Stat` on each file it opens. */
  datatype Fs = Fs(open: string -> Result<Handle, FsError>, stat: Handle -> Result<Info, FsError>)

  /** Why a build failed. */
  datatype BuildError = BuildError(msg: string)

  /** A compiling file: the underlying `.go` file and, once a build has
      succeeded, the compiled bytes (`f.r`) and their count (`f.size`). */
  datatype File = File(under: Handle, reader: Option<seq<byte>>, size: int)

  /** What `Open` returns: the wrapped file system's file itself, or a
      compiling file around it. */
  datatype Opened = Raw(h: Handle) | Compiling(f: File)

  function Underlying(o: Opened): Handle
  {
    match o
    case Raw(h) => h
    case Compiling(f) => f.under
  }

  /** `fileSystem.Open`. */
  function Open(fs: Fs, name: string): (r: Result<Opened, FsError>)
    ensures fs.open(OpenedName(name)).Failure? ==> r == Failure(fs.open(OpenedName(name)).error)
    ensures fs.open(OpenedName(name)).Success? ==> r.Success? && Underlying(r.value) == fs.open(OpenedName(name)).value
    ensures r.Success? && r.value.Compiling? <==>
      && Ext(name) == ".js"
      && fs.open(OpenedName(name)).Success?
      && fs.stat(fs.open(OpenedName(name)).value).Success?
      && !fs.stat(fs.open(OpenedName(name)).value).value.isDir
    ensures r.Success? && r.value.Compiling? ==> r.value.f == File(r.value.f.under, None, 0)
  {
    if Ext(name) != ".js" then
      match fs.open(name)
      case Failure(e) => Failure(e)
      case Success(h) => Success(Raw(h))
    else
      var goName := name[..|name| - 2] + "go";
      match fs.open(goName)
      case Failure(e) => Failure(e)
      case Success(h) =>
        match fs.stat(h)
        case Failure(_) => Success(Raw(h))
        case Success(info) => if info.isDir then Success(Raw(h)) else Success(Compiling(File(h, None, 0)))
  }

  /** Opening `x.js` reaches the same underlying file as opening `x.go`
      directly, which is passed through without compiling. */
  lemma OpenJsServesGoFile(fs: Fs, name: string)
    requires Ext(name) == ".js"
    ensures Open(fs, OpenedName(name)) == (match fs.open(OpenedName(name))
                                           case Failure(e) => Failure(e)
                                           case Success(h) => Success(Raw(h)))
    ensures Open(fs, name).Success? <==> Open(fs, OpenedName(name)).Success?
    ensures Open(fs, name).Success? ==> Underlying(Open(fs, name).value) == Underlying(Open(fs, OpenedName(name)).value)
  {
    var n := OpenedName(name);
    ExtJs(name);
    ExtJs(n);
    assert n[|n| - 1] == 'o';
    assert OpenedName(n) == n;
  }

  // ---------------------------------------------------------------------
  // Compiling once
  // ---------------------------------------------------------------------

  /** The outcome of one `gopherjslib.Build` call. */
  datatype Build = Built(js: seq<byte>) | BuildFailed(err: BuildError)

  /** `file.compile`: does nothing once a build has succeeded; otherwise
      runs the build, keeping its output on success and leaving the file as
      it was on failure. */
  function Compile(f: File, build: Build): (r: (File, Outcome<BuildError>))
    ensures f.reader.Some? ==> r == (f, Pass)
    ensures f.reader.None? && build.BuildFailed? ==> r == (f, Fail(build.err))
    ensures f.reader.None? && build.Built? ==>
      r.1 == Pass && r.0 == File(f.under, Some(build.js), |build.js|)
  {
    if f.reader.Some? then (f, Pass)
    else match build
      case BuildFailed(err) => (f, Fail(err))
      case Built(js) => (f.(reader := Some(js), size := |js|), Pass)
  }

  /** The guard `file.Read` and `file.Seek` start with: compile if nothing
      is compiled yet, and hand the call to a reader over the compiled
      bytes, or return the build error. */
  function Ready(f: File, build: Build): (r: (File, Result<seq<byte>, BuildError>))
    ensures r.1.Success? <==> r.0.reader.Some?
    ensures r.1.Success? ==> r.1.value == r.0.reader.value
    ensures f.reader.Some? ==> r == (f, Success(f.reader.value))
    ensures f.reader.None? && build.Built? ==> r == (File(f.under, Some(build.js), |build.js|), Success(build.js))
    ensures f.reader.None? && build.BuildFailed? ==> r == (f, Failure(build.err))
    ensures r.1.Failure? ==> r.0 == f && build == BuildFailed(r.1.error)
  {
    if f.reader.None? then
      var (f', err) := Compile(f, build);
      if err.Fail? then (f', Failure(err.error)) else (f', Success(f'.reader.value))
    else (f, Success(f.reader.value))
  }

  /** A file read (or seeked) once per build outcome in `builds`. */
  function Reads(f: File, builds: seq<Build>): (r: seq<Result<seq<byte>, BuildError>>)
    ensures |r| == |builds|
    ensures forall i :: 0 <= i < |r| && r[i].Failure? ==> builds[i] == BuildFailed(r[i].error)
    ensures forall i :: 0 <= i < |r| && r[i].Success? ==> f.reader.Some? || exists j :: 0 <= j <= i && builds[j].Built?
    decreases |builds|
  {
    if builds == [] then []
    else
      var (f', res) := Ready(f, builds[0]);
      [res] + Reads(f', builds[1..])
  }

  /** How many of those calls ran a build that succeeded. */
  function SuccessfulBuilds(f: File, builds: seq<Build>): nat
    decreases |builds|
  {
    if builds == [] then 0
    else (if f.reader.None? && builds[0].Built? then 1 else 0) + SuccessfulBuilds(Ready(f, builds[0]).0, builds[1..])
  }

  /** A file is built successfully at most once, and never once it has been. */
  lemma {:induction false} AtMostOneBuild(f: File, builds: seq<Build>)
    ensures SuccessfulBuilds(f, builds) <= (if f.reader.None? then 1 else 0)
    decreases |builds|
  {
    if builds != [] {
      AtMostOneBuild(Ready(f, builds[0]).0, builds[1..]);
    }
  }

  /** Once compiled, every later call is served from the same compiled buffer. */
  lemma {:induction false} CompiledIsStable(f: File, builds: seq<Build>)
    requires f.reader.Some?
    ensures forall i :: 0 <= i < |builds| ==> Reads(f, builds)[i] == Success(f.reader.value)
    decreases |builds|
  {
    if builds != [] {
      CompiledIsStable(f, builds[1..]);
    }
  }

  /** A failed build is retried by the next read: failures leave the file
      uncompiled, and the first successful build is what every later read
      sees. */
  lemma {:induction false} FirstSuccessWins(f: File, builds: seq<Build>, k: nat)
    requires f.reader.None?
    requires k < |builds| && builds[k].Built?
    requires forall i :: 0 <= i < k ==> builds[i].BuildFailed?
    ensures forall i :: 0 <= i < k ==> Reads(f, builds)[i] == Failure(builds[i].err)
    ensures forall i :: k <= i < |builds| ==> Reads(f, builds)[i] == Success(builds[k].js)
    decreases k
  {
    if k == 0 {
      var f' := Ready(f, builds[0]).0;
      assert f'.reader == Some(builds[0].js);
      CompiledIsStable(f', builds[1..]);
    } else {
      assert Ready(f, builds[0]) == (f, Failure(builds[0].err));
      FirstSuccessWins(f, builds[1..], k - 1);
    }
  }
}
