/** `execute_code` (main_new.py:89-115, main.py:41-53): the install argument derived from the
    package line, the two execution strategies, and the loop that downloads the artifacts. */
module Executor {
  import opened Types
  import opened PyStr

  /** The line the prompt asks the model to write in the package block. */
  const PipInstall := "pip install "

  /** `packages[12:]`: the number of characters dropped before installing. */
  const PrefixLength := 12

  /** `if packages: code_pkgs = packages[12:]`: the argument handed to the installer, or None
      when nothing is installed. */
  function InstallArgument(packages: Option<string>): Option<string>
  {
    match packages
    case None => None
    case Some(line) => if line == [] then None else Some(SliceFrom(line, PrefixLength))
  }

  /** An install happens exactly for a non-empty package line (Python truthiness: None and ""
      both skip it), and its argument is what follows the first 12 characters of the line. */
  lemma InstallArgumentIsSuffix(packages: Option<string>)
    ensures InstallArgument(packages).Some? <==> packages.Some? && packages.value != []
    ensures InstallArgument(packages).Some? ==>
      var line, arg := packages.value, InstallArgument(packages).value;
      && |arg| == (if |line| <= PrefixLength then 0 else |line| - PrefixLength)
      && line == line[..|line| - |arg|] + arg
  {
  }

  /** The dropped prefix is exactly "pip install ": a line in the requested format installs
      the names written after it. */
  lemma InstallArgumentOfPipLine(names: string)
    ensures InstallArgument(Some(PipInstall + names)) == Some(names)
  {
    assert |PipInstall| == PrefixLength;
    assert (PipInstall + names)[PrefixLength..] == names;
  }

  /** A line that does not follow the format still triggers an install, with whatever
      remains after 12 characters: "requests" installs the empty argument. */
  lemma ShortLineInstallsEmptyArgument(line: string)
    requires 0 < |line| <= PrefixLength
    ensures InstallArgument(Some(line)) == Some([])
  {
  }

  /** What the hosted sandbox reports for one run: output, errors and the produced files. */
  datatype RemoteRun = RemoteRun(stdout: string, stderr: string, produced: seq<ArtifactRef>)

  /** The hosted sandbox as seen by `execute_code`: `run(n, install, code)` is what the n-th
      execution of the session reports after installing `install` (when present) and running
      `code`; `download(n, ref)` fetches one file the n-th execution produced, from the
      sandbox session that execution opened. */
  datatype RemoteSandbox = RemoteSandbox(
    run: (nat, Option<string>, string) -> RemoteRun,
    download: (nat, ArtifactRef) -> Bytes)

  /** The strategy `EXECUTE_LOCALLY == "True"` selects, with the local strategy's `temp.txt`
      contents after the n-th run, and the hosted sandbox. */
  datatype Backend = Backend(
    executeLocally: bool,
    localLog: (nat, Option<string>, string) -> string,
    remote: RemoteSandbox)

  /** The downloaded contents of the files the n-th execution produced, in the order the
      sandbox listed them. */
  function Downloads(produced: seq<ArtifactRef>, download: (nat, ArtifactRef) -> Bytes, n: nat): seq<Bytes>
  {
    if produced == [] then []
    else Downloads(produced[..|produced| - 1], download, n) + [download(n, produced[|produced| - 1])]
  }

  /** One download per produced file, each that file's content. */
  lemma {:induction false} DownloadsAt(produced: seq<ArtifactRef>, download: (nat, ArtifactRef) -> Bytes, n: nat)
    ensures |Downloads(produced, download, n)| == |produced|
    ensures forall i :: 0 <= i < |produced| ==> Downloads(produced, download, n)[i] == download(n, produced[i])
  {
    if produced != [] {
      DownloadsAt(produced[..|produced| - 1], download, n);
    }
  }

  /** Downloads that do not depend on the session give the same contents in every session. */
  lemma {:induction false} DownloadsSameSession(produced: seq<ArtifactRef>, download: (nat, ArtifactRef) -> Bytes,
                                                n: nat, m: nat)
    requires forall ref :: download(n, ref) == download(m, ref)
    ensures Downloads(produced, download, n) == Downloads(produced, download, m)
  {
    if produced != [] {
      DownloadsSameSession(produced[..|produced| - 1], download, n, m);
    }
  }

  /** The result the hosted sandbox strategy returns for the n-th execution. */
  function RemoteExecution(sandbox: RemoteSandbox, n: nat, code: string, packages: Option<string>): Execution
  {
    var run := sandbox.run(n, InstallArgument(packages), code);
    Execution(run.stdout, run.stderr, Downloads(run.produced, sandbox.download, n))
  }

  /** The result `execute_code` returns for the n-th execution under the selected strategy. */
  function Executed(backend: Backend, n: nat, code: string, packages: Option<string>): Execution
  {
    if backend.executeLocally then
      Execution(backend.localLog(n, InstallArgument(packages), code), "", [])
    else
      RemoteExecution(backend.remote, n, code, packages)
  }

  /** `for artifact in artifacts_temp: artifacts.append(artifact.download())`. */
  method CollectArtifacts(produced: seq<ArtifactRef>, download: (nat, ArtifactRef) -> Bytes, n: nat)
    returns (artifacts: seq<Bytes>)
    ensures artifacts == Downloads(produced, download, n)
    ensures |artifacts| == |produced|
    ensures forall i :: 0 <= i < |produced| ==> artifacts[i] == download(n, produced[i])
  {
    artifacts := [];
    for i := 0 to |produced|
      invariant artifacts == Downloads(produced[..i], download, n)
    {
      var file := download(n, produced[i]);
      assert produced[..i + 1][..i] == produced[..i];
      artifacts := artifacts + [file];
    }
    assert produced[..|produced|] == produced;
    DownloadsAt(produced, download, n);
  }

  /** The hosted sandbox branch: install when there is a package line, run, download every
      produced file in order. */
  method RemoteExecute(sandbox: RemoteSandbox, n: nat, code: string, packages: Option<string>)
    returns (e: Execution)
    ensures e == RemoteExecution(sandbox, n, code, packages)
    ensures |e.artifacts| == |sandbox.run(n, InstallArgument(packages), code).produced|
  {
    var install := InstallArgument(packages);
    var run := sandbox.run(n, install, code);
    var artifacts := CollectArtifacts(run.produced, sandbox.download, n);
    e := Execution(run.stdout, run.stderr, artifacts);
  }

  /** `execute_code`: the local strategy reports the combined log as output, no errors and no
      artifacts; the hosted strategy reports what the sandbox returned. */
  method ExecuteCode(backend: Backend, n: nat, code: string, packages: Option<string>)
    returns (e: Execution)
    ensures e == Executed(backend, n, code, packages)
    ensures backend.executeLocally ==> e.stderr == [] && e.artifacts == []
    ensures !backend.executeLocally ==> e == RemoteExecution(backend.remote, n, code, packages)
  {
    if backend.executeLocally {
      var install := InstallArgument(packages);
      var output := backend.localLog(n, install, code);
      e := Execution(output, "", []);
    } else {
      e := RemoteExecute(backend.remote, n, code, packages);
    }
  }
}
