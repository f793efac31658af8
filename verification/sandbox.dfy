/**
 The script sandbox page: saving the editor's text under a plain file name
 inside the sandbox directory, and launching a saved script with the
 sandbox's own virtual-environment interpreter.

 Paths are strings joined the POSIX way; the file system is the set of
 paths that exist plus the contents of saved files. The user's home
 directory, the platform, and whether a write succeeds are parameters.
 */
module Sandbox {
  import opened Wrappers
  import opened PyText

  /** `os.path.join(a, b)` on POSIX: an absolute `b` replaces `a`; otherwise a
      separator is put between them unless `a` is empty or already ends in one. */
  function PathJoin(a: string, b: string): (p: string)
    ensures StartsWith(b, "/") ==> p == b
    ensures !StartsWith(b, "/") ==> StartsWith(p, a) && |p| - |b| >= |a| && p[|p| - |b|..] == b
  {
    if |b| > 0 && b[0] == '/' then b
    else if a == "" || a[|a| - 1] == '/' then
      assert (a + b)[..|a|] == a && (a + b)[|a|..] == b;
      a + b
    else
      assert (a + "/" + b)[..|a|] == a && (a + "/" + b)[|a| + 1..] == b;
      a + "/" + b
  }

  /** The home directory as `expanduser` uses it: its trailing '/' removed. */
  function TrimTrailingSlashes(home: string): (h: string)
    ensures |h| <= |home| && h == home[..|h|]
    ensures h == [] || h[|h| - 1] != '/'
    ensures forall k :: |h| <= k < |home| ==> home[k] == '/'
    decreases |home|
  {
    if home != [] && home[|home| - 1] == '/' then TrimTrailingSlashes(home[..|home| - 1]) else home
  }

  /** `os.path.expanduser("~/" + name)` with `home` as HOME: the home without
      its trailing '/', one separator, then the name. */
  function ExpandHome(home: string, name: string): (p: string)
    ensures |p| > |name| && p[|p| - |name|..] == name && p[|p| - |name| - 1] == '/'
    ensures StartsWith(p, TrimTrailingSlashes(home))
  {
    var h := TrimTrailingSlashes(home);
    var p := h + ['/'] + name;
    assert p[..|h|] == h && p[|h| + 1..] == name;
    p
  }

  /** For a home that does not end in '/', expanding is joining. */
  lemma ExpandHomeJoin(home: string, name: string)
    requires home != [] && home[|home| - 1] != '/'
    requires !StartsWith(name, "/")
    ensures ExpandHome(home, name) == PathJoin(home, name)
  {
  }

  /** `SANDBOX_DIR`: the directory under the user's home. */
  function SandboxDir(home: string): string {
    ExpandHome(home, "pipboy_sandbox")
  }

  /** `VENV_PATH`, the same on every platform. */
  function VenvDir(home: string): string {
    PathJoin(SandboxDir(home), "sandbox-venv")
  }

  /** `VENV_PYTHON`: where the interpreter lives inside the environment. */
  function VenvPython(home: string, windows: bool): string {
    Interpreter(VenvDir(home), windows)
  }

  /** The interpreter of the environment in `venv` on the given platform. */
  function Interpreter(venv: string, windows: bool): string {
    if windows then PathJoin(PathJoin(venv, "Scripts"), "python.exe")
    else PathJoin(PathJoin(venv, "bin"), "python")
  }

  /** Joining a relative name onto a directory that does not end in a
      separator puts exactly one separator between them. */
  lemma JoinPlain(a: string, b: string)
    requires |a| > 0 && a[|a| - 1] != '/' && |b| > 0 && b[0] != '/'
    ensures PathJoin(a, b) == a + "/" + b
    ensures PathJoin(a, b)[|PathJoin(a, b)| - 1] == b[|b| - 1]
  {
  }

  /** The sandbox directory is never empty and ends in its own name. */
  lemma SandboxDirEnd(home: string)
    ensures |SandboxDir(home)| > 0 && SandboxDir(home)[|SandboxDir(home)| - 1] == 'x'
  {
    var sandbox := SandboxDir(home);
    assert sandbox[|sandbox| - |"pipboy_sandbox"|..] == "pipboy_sandbox";
  }

  /** The environment is the `sandbox-venv` directory inside the sandbox. */
  lemma VenvDirLayout(home: string)
    ensures VenvDir(home) == SandboxDir(home) + "/sandbox-venv"
    ensures VenvDir(home)[|VenvDir(home)| - 1] == 'v'
  {
    SandboxDirEnd(home);
    JoinPlain(SandboxDir(home), "sandbox-venv");
  }

  /** Two relative names joined in turn onto such a directory. */
  lemma JoinTwice(d: string, x: string, y: string)
    requires |d| > 0 && d[|d| - 1] != '/'
    requires |x| > 0 && x[0] != '/' && x[|x| - 1] != '/' && |y| > 0 && y[0] != '/'
    ensures PathJoin(PathJoin(d, x), y) == d + "/" + x + "/" + y
  {
    JoinPlain(d, x);
    JoinPlain(d + "/" + x, y);
  }

  /** In an environment directory not ending in a separator, Windows keeps
      the interpreter under `Scripts` as `python.exe`, the others under `bin`
      as `python`. */
  lemma InterpreterLayout(venv: string, windows: bool)
    requires |venv| > 0 && venv[|venv| - 1] != '/'
    ensures windows ==> Interpreter(venv, windows) == venv + "/" + "Scripts" + "/" + "python.exe"
    ensures !windows ==> Interpreter(venv, windows) == venv + "/" + "bin" + "/" + "python"
  {
    if windows {
      JoinTwice(venv, "Scripts", "python.exe");
    } else {
      JoinTwice(venv, "bin", "python");
    }
  }

  /** The sandbox's interpreter is `sandbox-venv/Scripts/python.exe` on
      Windows and `sandbox-venv/bin/python` elsewhere. */
  lemma VenvPythonLayout(home: string, windows: bool)
    ensures windows ==> VenvPython(home, windows) == SandboxDir(home) + "/" + "sandbox-venv" + "/" + "Scripts" + "/" + "python.exe"
    ensures !windows ==> VenvPython(home, windows) == SandboxDir(home) + "/" + "sandbox-venv" + "/" + "bin" + "/" + "python"
  {
    VenvDirLayout(home);
    InterpreterLayout(VenvDir(home), windows);
  }

  /** What `save_script` accepts: a non-empty name with no separator of
      either platform. */
  predicate ValidFilename(name: string) {
    name != "" && '/' !in name && '\\' !in name
  }

  /** The sandbox directory as the page sees it: the paths that exist and the
      text of each saved script. */
  datatype Disk = Disk(exists_: set<string>, files: map<string, string>)

  datatype SaveOutcome =
    | InvalidFilename
    | Saved(path: string, disk: Disk)
    | SaveError(path: string)

  /** `save_script`: the stripped name is checked, then the editor's text is
      written to the sandbox directory under that name; `writeOk` says
      whether the write went through. */
  function SaveScript(home: string, entry: string, content: string, disk: Disk, writeOk: bool): (o: SaveOutcome)
    ensures o.InvalidFilename? <==> !ValidFilename(Strip(entry))
    ensures o.Saved? <==> ValidFilename(Strip(entry)) && writeOk
    ensures o.Saved? ==> o.path in o.disk.exists_ && o.path in o.disk.files && o.disk.files[o.path] == content
    ensures o.Saved? ==> o.disk.exists_ == disk.exists_ + {o.path}
    ensures o.Saved? ==> forall q :: q in disk.files && q != o.path ==> q in o.disk.files && o.disk.files[q] == disk.files[q]
  {
    var name := Strip(entry);
    if !ValidFilename(name) then InvalidFilename
    else
      var path := PathJoin(SandboxDir(home), name);
      if !writeOk then SaveError(path)
      else Saved(path, Disk(disk.exists_ + {path}, disk.files[path := content]))
  }

  /** A saved script always lands directly inside the sandbox directory,
      under exactly the stripped name. */
  lemma SavedInSandbox(home: string, entry: string, content: string, disk: Disk, writeOk: bool)
    ensures var o := SaveScript(home, entry, content, disk, writeOk);
            o.Saved? ==> o.path == SandboxDir(home) + "/" + Strip(entry) && '/' !in o.path[|SandboxDir(home)| + 1..]
  {
    var name := Strip(entry);
    var dir := SandboxDir(home);
    if ValidFilename(name) {
      SandboxDirEnd(home);
      assert name[0] != '/';
      assert (dir + "/" + name)[|dir| + 1..] == name;
    }
  }

  datatype RunOutcome =
    | FileNotFound(name: string)
    | EnvironmentNotReady
    | Launched(argv: seq<string>, cwd: string)

  /** `run_script`: the script and the interpreter must both exist; nothing
      else about the name is checked. */
  function RunScript(home: string, windows: bool, entry: string, disk: Disk): (o: RunOutcome)
    ensures o.Launched? <==> PathJoin(SandboxDir(home), Strip(entry)) in disk.exists_ && VenvPython(home, windows) in disk.exists_
    ensures o.Launched? ==> o.argv == [VenvPython(home, windows), PathJoin(SandboxDir(home), Strip(entry))] && o.cwd == SandboxDir(home)
    ensures o.FileNotFound? ==> o.name == Strip(entry)
  {
    var name := Strip(entry);
    var path := PathJoin(SandboxDir(home), name);
    if path !in disk.exists_ then FileNotFound(name)
    else if VenvPython(home, windows) !in disk.exists_ then EnvironmentNotReady
    else Launched([VenvPython(home, windows), path], SandboxDir(home))
  }

  /** Saving and then running under the same name launches the saved file
      once the interpreter exists. */
  lemma SaveThenRun(home: string, windows: bool, entry: string, content: string, disk: Disk)
    requires SaveScript(home, entry, content, disk, true).Saved?
    requires VenvPython(home, windows) in disk.exists_
    ensures var saved := SaveScript(home, entry, content, disk, true);
            RunScript(home, windows, entry, saved.disk) == Launched([VenvPython(home, windows), saved.path], SandboxDir(home))
  {
  }

  /** Running does not repeat the save's name check: a name that is an
      absolute path, which saving refuses, is launched from where it is,
      outside the sandbox. */
  lemma RunLeavesSandbox(home: string, windows: bool, entry: string, disk: Disk)
    requires StartsWith(Strip(entry), "/")
    requires Strip(entry) in disk.exists_ && VenvPython(home, windows) in disk.exists_
    ensures RunScript(home, windows, entry, disk) == Launched([VenvPython(home, windows), Strip(entry)], SandboxDir(home))
    ensures SaveScript(home, entry, "", disk, true) == InvalidFilename
  {
    var name := Strip(entry);
    assert name[0] == '/';
    assert !ValidFilename(name);
    assert PathJoin(SandboxDir(home), name) == name;
  }
}
