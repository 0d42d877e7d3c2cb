/** Locating the language server binary: the global package manager, its global
    `node_modules`, the platform folder name and the command line that starts the
    server. The set of programs on the `PATH`, the output of the package manager's
    root command, the platform names and the files that exist are parameters. */
module Platform {
  import opened Wrappers
  import opened Text

  /** Why locating or starting the server fails (the `RuntimeError` and
      `FileNotFoundError` raised along the way). */
  datatype Failure =
    | NoPackageManager
    | NodeModulesFailed(pm: string)
    | Unsupported
    | BinaryNotFound(path: string)

  // --------------------------------------------------------------- package manager

  /** The package managers `detect_package_manager` tries, in order of preference. */
  const PackageManagers: seq<string> := ["pnpm", "yarn", "npm"]

  /** The index of the first of `cands[from..]` that is available. */
  function FirstFrom(cands: seq<string>, available: set<string>, from: nat): (r: Option<nat>)
    requires from <= |cands|
    ensures r.Some? ==> from <= r.value < |cands| && cands[r.value] in available
    ensures r.Some? ==> forall j :: from <= j < r.value ==> cands[j] !in available
    ensures r.None? ==> forall j :: from <= j < |cands| ==> cands[j] !in available
    decreases |cands| - from
  {
    if from == |cands| then None
    else if cands[from] in available then Some(from)
    else FirstFrom(cands, available, from + 1)
  }

  /** The package manager `detect_package_manager` picks, if any. */
  function Preferred(available: set<string>): Option<string> {
    match FirstFrom(PackageManagers, available, 0)
    case None => None
    case Some(i) => Some(PackageManagers[i])
  }

  /** `detect_package_manager`: the first of pnpm, yarn and npm that `shutil.which`
      finds, or an error when there is none. */
  method DetectPackageManager(available: set<string>) returns (r: Result<string, Failure>)
    ensures r.Ok? <==> exists pm :: pm in PackageManagers && pm in available
    ensures r.Ok? ==> r.value in available && r.value in PackageManagers
    ensures r.Ok? ==> forall j :: 0 <= j < |PackageManagers| && PackageManagers[j] == r.value ==>
                        forall k :: 0 <= k < j ==> PackageManagers[k] !in available
    ensures r.Err? ==> r.error == NoPackageManager
    ensures r == match Preferred(available) case None => Err(NoPackageManager) case Some(pm) => Ok(pm)
  {
    var i := 0;
    while i < |PackageManagers|
      invariant 0 <= i <= |PackageManagers|
      invariant forall k :: 0 <= k < i ==> PackageManagers[k] !in available
      invariant FirstFrom(PackageManagers, available, i) == FirstFrom(PackageManagers, available, 0)
    {
      if PackageManagers[i] in available {
        return Ok(PackageManagers[i]);
      }
      i := i + 1;
    }
    assert forall pm :: pm in PackageManagers ==> pm !in available by {
      forall pm | pm in PackageManagers
        ensures pm !in available
      {
        var k :| 0 <= k < |PackageManagers| && PackageManagers[k] == pm;
      }
    }
    return Err(NoPackageManager);
  }

  // ------------------------------------------------------------------ paths

  /** `os.path.join(a, b)` on POSIX: an absolute `b` replaces `a`; otherwise a separator
      is added unless `a` is empty or already ends with one. */
  function PosixJoin(a: string, b: string): (r: string)
    ensures StartsWith(b, "/") ==> r == b
    ensures !StartsWith(b, "/") && (a == [] || EndsWith(a, "/")) ==> r == a + b
    ensures !StartsWith(b, "/") && a != [] && !EndsWith(a, "/") ==> r == a + "/" + b
  {
    if StartsWith(b, "/") then b
    else if a == [] || EndsWith(a, "/") then a + b
    else a + "/" + b
  }

  /** The command `get_global_node_modules` runs for a package manager. */
  function RootCommand(pm: string): (cmd: seq<string>)
    ensures |cmd| == 3 && cmd[0] == pm
    ensures pm == "yarn" <==> cmd[1..] == ["global", "dir"]
    ensures pm != "yarn" <==> cmd[1..] == ["root", "-g"]
  {
    if pm == "pnpm" then [pm, "root", "-g"]
    else if pm == "yarn" then [pm, "global", "dir"]
    else [pm, "root", "-g"]
  }

  /** `get_global_node_modules`: the stripped output of `RootCommand(pm)`, with
      `node_modules` joined on for yarn. `roots` maps a package manager to what its
      root command prints; a missing entry is a command that fails. */
  function GlobalNodeModules(pm: string, roots: map<string, string>): (r: Result<string, Failure>)
    ensures pm !in roots <==> r == Err(NodeModulesFailed(pm))
    ensures pm in roots && pm != "yarn" ==> r == Ok(Strip(roots[pm]))
    ensures pm in roots && pm == "yarn" ==> r == Ok(PosixJoin(Strip(roots[pm]), "node_modules"))
  {
    if pm !in roots then Err(NodeModulesFailed(pm))
    else
      var out := Strip(roots[pm]);
      if pm == "yarn" then Ok(PosixJoin(out, "node_modules")) else Ok(out)
  }

  // ------------------------------------------------------------- architecture

  /** `sys_map.get(platform.system())`. */
  function SystemName(system: string): (r: Option<string>)
    ensures r.Some? <==> system in {"Darwin", "Linux", "Windows"}
    ensures system == "Darwin" ==> r == Some("darwin")
    ensures system == "Linux" ==> r == Some("linux")
    ensures system == "Windows" ==> r == Some("win32")
  {
    if system == "Darwin" then Some("darwin")
    else if system == "Linux" then Some("linux")
    else if system == "Windows" then Some("win32")
    else None
  }

  /** `arch_map.get(platform.machine(), platform.machine())`. */
  function ArchName(machine: string): (r: string)
    ensures machine in {"x86_64", "AMD64"} ==> r == "x64"
    ensures machine !in {"x86_64", "AMD64"} ==> r == machine
  {
    if machine == "x86_64" then "x64"
    else if machine == "arm64" then "arm64"
    else if machine == "AMD64" then "x64"
    else machine
  }

  /** `get_architecture`: `"<os>-<arch>"`, or an error for an unknown operating system
      or an empty machine name. */
  function GetArchitecture(system: string, machine: string): (r: Result<string, Failure>)
    ensures r.Ok? <==> SystemName(system).Some? && machine != ""
    ensures r.Err? ==> r.error == Unsupported
    ensures r.Ok? ==> r.value == SystemName(system).value + "-" + ArchName(machine)
  {
    var sysName := SystemName(system);
    var arch := ArchName(machine);
    if sysName.None? || arch == "" then Err(Unsupported)
    else Ok(sysName.value + "-" + arch)
  }

  /** `s.partition(sep)` without the separator: the text before the first `sep` and the
      text after it (all of `s` and nothing when there is none). Unlike `split`, later
      separators stay in the second part, as in a machine name with a `-`. */
  function SplitFirst(s: string, sep: char): (string, string)
    decreases |s|
  {
    if s == [] then ([], [])
    else if s[0] == sep then ([], s[1..])
    else
      var (a, b) := SplitFirst(s[1..], sep);
      ([s[0]] + a, b)
  }

  lemma {:induction false} SplitFirstJoined(a: string, sep: char, b: string)
    requires sep !in a
    ensures SplitFirst(a + [sep] + b, sep) == (a, b)
    decreases |a|
  {
    if a == [] {
      assert a + [sep] + b == [sep] + b;
    } else {
      assert (a + [sep] + b)[1..] == a[1..] + [sep] + b;
      SplitFirstJoined(a[1..], sep, b);
      assert [a[0]] + a[1..] == a;
    }
  }

  /** The folder name gives back the operating system and the architecture: no two
      platforms share a folder. */
  lemma FolderNameParses(system: string, machine: string)
    requires GetArchitecture(system, machine).Ok?
    ensures SplitFirst(GetArchitecture(system, machine).value, '-')
      == (SystemName(system).value, ArchName(machine))
  {
    var sysName := SystemName(system).value;
    assert '-' !in sysName;
    assert GetArchitecture(system, machine).value == sysName + ['-'] + ArchName(machine);
    SplitFirstJoined(sysName, '-', ArchName(machine));
  }

  lemma FolderNameInjective(s1: string, m1: string, s2: string, m2: string)
    requires GetArchitecture(s1, m1).Ok? && GetArchitecture(s1, m1) == GetArchitecture(s2, m2)
    ensures SystemName(s1) == SystemName(s2) && ArchName(m1) == ArchName(m2)
  {
    FolderNameParses(s1, m1);
    FolderNameParses(s2, m2);
  }

  // ------------------------------------------------------------ the binary

  /** `<node_modules>/@github/copilot-language-server/native/<arch>/copilot-language-server`. */
  function LspPath(nodeModules: string, arch: string): string {
    PosixJoin(PosixJoin(PosixJoin(PosixJoin(PosixJoin(nodeModules, "@github"), "copilot-language-server"),
      "native"), arch), "copilot-language-server")
  }

  /** Joining a relative name onto a path that does not end with a separator puts one
      separator between them. */
  lemma JoinBelow(a: string, b: string)
    requires a != [] && a[|a| - 1] != '/' && b != [] && b[0] != '/'
    ensures PosixJoin(a, b) == a + "/" + b
  {
    assert b[..1] == [b[0]];
    assert a[|a| - 1..] == [a[|a| - 1]];
  }

  /** For a non-empty root and a folder name that neither starts nor ends with a
      separator, the binary sits at the documented place below the root. */
  lemma LspPathLayout(nodeModules: string, arch: string)
    requires nodeModules != [] && nodeModules[|nodeModules| - 1] != '/'
    requires arch != [] && arch[0] != '/' && arch[|arch| - 1] != '/'
    ensures LspPath(nodeModules, arch)
      == nodeModules + "/" + "@github" + "/" + "copilot-language-server" + "/" + "native" + "/" + arch
         + "/" + "copilot-language-server"
  {
    JoinBelow(nodeModules, "@github");
    var p1 := nodeModules + "/" + "@github";
    JoinBelow(p1, "copilot-language-server");
    var p2 := p1 + "/" + "copilot-language-server";
    JoinBelow(p2, "native");
    var p3 := p2 + "/" + "native";
    JoinBelow(p3, arch);
    var p4 := p3 + "/" + arch;
    assert p4[|p4| - 1] == arch[|arch| - 1];
    JoinBelow(p4, "copilot-language-server");
  }

  /** `get_copilot_lsp_path`: package manager, then `node_modules`, then the folder
      name, then the file check; the first failure is the one reported. */
  function GetCopilotLspPath(available: set<string>, roots: map<string, string>, system: string,
                             machine: string, files: set<string>): (r: Result<string, Failure>)
    ensures Preferred(available).None? ==> r == Err(NoPackageManager)
    ensures (Preferred(available).Some? && GlobalNodeModules(Preferred(available).value, roots).Err?)
      ==> r == Err(NodeModulesFailed(Preferred(available).value))
    ensures (Preferred(available).Some? && GlobalNodeModules(Preferred(available).value, roots).Ok?
             && GetArchitecture(system, machine).Err?)
      ==> r == Err(Unsupported)
    ensures r.Ok? ==>
      && r.value in files
      && r.value == LspPath(GlobalNodeModules(Preferred(available).value, roots).value,
                            GetArchitecture(system, machine).value)
    ensures r.Ok? <==>
      && Preferred(available).Some?
      && GlobalNodeModules(Preferred(available).value, roots).Ok?
      && GetArchitecture(system, machine).Ok?
      && LspPath(GlobalNodeModules(Preferred(available).value, roots).value,
                 GetArchitecture(system, machine).value) in files
    ensures r.Err? && r.error.BinaryNotFound? ==>
      && Preferred(available).Some?
      && GlobalNodeModules(Preferred(available).value, roots).Ok?
      && GetArchitecture(system, machine).Ok?
      && r.error.path == LspPath(GlobalNodeModules(Preferred(available).value, roots).value,
                                 GetArchitecture(system, machine).value)
      && r.error.path !in files
  {
    match Preferred(available)
    case None => Err(NoPackageManager)
    case Some(pm) =>
      match GlobalNodeModules(pm, roots)
      case Err(e) => Err(e)
      case Ok(nodeModules) =>
        match GetArchitecture(system, machine)
        case Err(e) => Err(e)
        case Ok(arch) =>
          var path := LspPath(nodeModules, arch);
          if path in files then Ok(path) else Err(BinaryNotFound(path))
  }

  /** The arguments `run_copilot_lsp` starts the server with: the binary, `--stdio`,
      then the extra arguments (`None` and an empty list add nothing). */
  function RunArgs(available: set<string>, roots: map<string, string>, system: string,
                   machine: string, files: set<string>, extra: seq<string>): (r: Result<seq<string>, Failure>)
    ensures r.Err? <==> GetCopilotLspPath(available, roots, system, machine, files).Err?
    ensures r.Ok? ==> |r.value| == |extra| + 2 && r.value[1] == "--stdio" && r.value[2..] == extra
    ensures r.Ok? ==> r.value[0] == GetCopilotLspPath(available, roots, system, machine, files).value
  {
    match GetCopilotLspPath(available, roots, system, machine, files)
    case Err(e) => Err(e)
    case Ok(path) => Ok([path, "--stdio"] + extra)
  }
}
