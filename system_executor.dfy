/**
 * SystemExecutor: the privileged operations a session delegates to the OS.
 * Modelled in full: the settings-namespace dispatch (case-insensitive
 * `system`, `secure`, `global`), the settings tables it writes, and the
 * timeout and output-formatting rules of `executeShell`. The package,
 * permission and process calls are recorded in a log of delegated requests.
 */
module SystemExecution {
  import opened Results
  import opened Jvm
  import opened KotlinText

  datatype Namespace = System | Secure | Global

  function NameOf(ns: Namespace): string {
    match ns
    case System => "system"
    case Secure => "secure"
    case Global => "global"
  }

  /** `when (namespace.lowercase())` over the three namespace names. */
  function ParseNamespace(name: string): Option<Namespace> {
    var lower := Lowercase(name);
    if lower == "system" then Some(System)
    else if lower == "secure" then Some(Secure)
    else if lower == "global" then Some(Global)
    else None
  }

  predicate EqualsIgnoreCase(a: string, b: string) {
    |a| == |b| && forall i :: 0 <= i < |a| ==> LowerChar(a[i]) == LowerChar(b[i])
  }

  lemma LowercaseEquals(name: string, ns: Namespace)
    ensures Lowercase(name) == NameOf(ns) <==> EqualsIgnoreCase(name, NameOf(ns))
  {
    var n := NameOf(ns);
    assert forall i :: 0 <= i < |n| ==> LowerChar(n[i]) == n[i];
    if EqualsIgnoreCase(name, n) {
      assert forall i :: 0 <= i < |n| ==> Lowercase(name)[i] == n[i];
    }
  }

  /**
   * A namespace name is accepted exactly when it spells `system`, `secure`
   * or `global` in any mix of upper and lower case, and it then names that
   * namespace.
   */
  lemma ParseNamespaceIgnoresCase(name: string, ns: Namespace)
    ensures ParseNamespace(name) == Some(ns) <==> EqualsIgnoreCase(name, NameOf(ns))
    ensures ParseNamespace(name).None? <==>
      (!EqualsIgnoreCase(name, "system") && !EqualsIgnoreCase(name, "secure") && !EqualsIgnoreCase(name, "global"))
  {
    LowercaseEquals(name, System);
    LowercaseEquals(name, Secure);
    LowercaseEquals(name, Global);
    LowercaseEquals(name, ns);
  }

  /** The three tables of the Settings provider, key to value. */
  datatype SettingsTables = SettingsTables(
    system: map<string, string>,
    secure: map<string, string>,
    global: map<string, string>)
  {
    function Table(ns: Namespace): map<string, string> {
      match ns
      case System => system
      case Secure => secure
      case Global => global
    }

    /** `Settings.<ns>.getString`: null (None) when the key is absent. */
    function Get(ns: Namespace, key: string): Option<string> {
      if key in Table(ns) then Some(Table(ns)[key]) else None
    }

    /** `Settings.<ns>.putString`. */
    function Put(ns: Namespace, key: string, value: string): (t: SettingsTables)
      ensures t.Table(ns) == Table(ns)[key := value]
      ensures forall other :: other != ns ==> t.Table(other) == Table(other)
    {
      match ns
      case System => this.(system := system[key := value])
      case Secure => this.(secure := secure[key := value])
      case Global => this.(global := global[key := value])
    }
  }

  const SHELL_TIMEOUT_SEC: nat := 30

  /** What the spawned `sh -c` process does: when it exits, its exit value and what it wrote. */
  datatype ShellRun = ShellRun(exitsAfterMs: nat, exitValue: int32, stdout: string, stderr: string)

  /** A request handed on to the OS. */
  datatype SystemCall =
    | InstallPackage(apkPath: string)
    | UninstallPackage(packageName: string)
    | GrantRuntimePermission(packageName: string, permission: string)
    | RevokeRuntimePermission(packageName: string, permission: string)
    | ForceStopPackage(packageName: string)
    | SpawnShell(command: string)
    | DestroyForcibly(command: string)

  /**
   * The shell-output rule: a failing command that wrote to stderr gives
   * `"ERROR (exit N): " + stderr + "\n" + stdout`; every other command gives
   * stdout followed by stderr.
   */
  function FormatShellOutput(exitValue: int32, output: string, error: string): string {
    if error != "" && exitValue != 0 then
      "ERROR (exit " + IntToString(exitValue) + "): " + error + "\n" + output
    else
      output + error
  }

  class SystemExecutor {
    /** The device's settings tables, as the Settings provider holds them. */
    var settings: SettingsTables
    /** The requests this executor has handed to the OS, oldest first. */
    var calls: seq<SystemCall>
    /** The APK paths that exist on the file system. */
    const apkFiles: set<string>
    /** The package of the top running task, or "" when there is none. */
    const topPackage: string

    constructor (settings: SettingsTables, apkFiles: set<string>, topPackage: string)
      ensures this.settings == settings && this.calls == []
      ensures this.apkFiles == apkFiles && this.topPackage == topPackage
    {
      this.settings := settings;
      this.calls := [];
      this.apkFiles := apkFiles;
      this.topPackage := topPackage;
    }

    /** `setSystemSetting`: an unknown namespace fails and changes no table. */
    method SetSystemSetting(namespace: string, key: string, value: string) returns (r: Outcome)
      modifies this
      ensures calls == old(calls)
      ensures r.Fail? <==> ParseNamespace(namespace).None?
      ensures r.Fail? ==> r.error == UnknownNamespace && settings == old(settings)
      ensures r.Pass? ==> settings == old(settings).Put(ParseNamespace(namespace).value, key, value)
    {
      match ParseNamespace(namespace)
      case Some(ns) =>
        settings := settings.Put(ns, key, value);
        r := Pass;
      case None =>
        r := Fail(UnknownNamespace);
    }

    /** `getSystemSetting`: an unknown namespace fails; an absent key reads as null. */
    function GetSystemSetting(namespace: string, key: string): Result<Option<string>>
      reads this
    {
      match ParseNamespace(namespace)
      case Some(ns) => Ok(settings.Get(ns, key))
      case None => Err(UnknownNamespace)
    }

    /**
     * `executeShell`: spawns `sh -c command` and waits up to 30 seconds. A
     * process still running then is destroyed forcibly and the call fails
     * with no output; otherwise the output follows `FormatShellOutput`.
     */
    method ExecuteShell(command: string, run: ShellRun) returns (r: Result<string>)
      modifies this
      ensures settings == old(settings)
      ensures r.Err? <==> run.exitsAfterMs > SHELL_TIMEOUT_SEC * 1000
      ensures r.Err? ==> r.error == ShellTimeout && calls == old(calls) + [SpawnShell(command), DestroyForcibly(command)]
      ensures r.Ok? ==> r.value == FormatShellOutput(run.exitValue, run.stdout, run.stderr)
      ensures r.Ok? ==> calls == old(calls) + [SpawnShell(command)]
    {
      calls := calls + [SpawnShell(command)];
      var completed := run.exitsAfterMs <= SHELL_TIMEOUT_SEC * 1000;
      if !completed {
        calls := calls + [DestroyForcibly(command)];
        return Err(ShellTimeout);
      }
      r := Ok(FormatShellOutput(run.exitValue, run.stdout, run.stderr));
    }

    /** `installApk`: fails when the file does not exist, otherwise hands the install to the OS. */
    method InstallApk(apkPath: string) returns (r: Result<bool>)
      modifies this
      ensures settings == old(settings)
      ensures apkPath !in apkFiles ==> r == Err(ApkNotFound) && calls == old(calls)
      ensures apkPath in apkFiles ==> r == Ok(true) && calls == old(calls) + [InstallPackage(apkPath)]
    {
      if apkPath !in apkFiles {
        return Err(ApkNotFound);
      }
      calls := calls + [InstallPackage(apkPath)];
      r := Ok(true);
    }

    method UninstallApp(packageName: string) returns (r: bool)
      modifies this
      ensures settings == old(settings) && r
      ensures calls == old(calls) + [UninstallPackage(packageName)]
    {
      calls := calls + [UninstallPackage(packageName)];
      r := true;
    }

    method GrantPermission(packageName: string, permission: string)
      modifies this
      ensures settings == old(settings)
      ensures calls == old(calls) + [GrantRuntimePermission(packageName, permission)]
    {
      calls := calls + [GrantRuntimePermission(packageName, permission)];
    }

    method RevokePermission(packageName: string, permission: string)
      modifies this
      ensures settings == old(settings)
      ensures calls == old(calls) + [RevokeRuntimePermission(packageName, permission)]
    {
      calls := calls + [RevokeRuntimePermission(packageName, permission)];
    }

    method ForceStopApp(packageName: string)
      modifies this
      ensures settings == old(settings)
      ensures calls == old(calls) + [ForceStopPackage(packageName)]
    {
      calls := calls + [ForceStopPackage(packageName)];
    }

    /** `getCurrentForegroundApp`: the top task's package; the display is not consulted. */
    function GetCurrentForegroundApp(displayId: int32): string
      reads this
    {
      topPackage
    }
  }

  /** Reading a setting right after writing it, through any spelling of the same namespace, gives the value written. */
  lemma GetAfterSet(t: SettingsTables, namespace: string, spelling: string, key: string, value: string)
    requires ParseNamespace(namespace).Some?
    requires EqualsIgnoreCase(spelling, namespace)
    ensures ParseNamespace(spelling) == ParseNamespace(namespace)
    ensures t.Put(ParseNamespace(namespace).value, key, value).Get(ParseNamespace(spelling).value, key) == Some(value)
  {
    var ns := ParseNamespace(namespace).value;
    ParseNamespaceIgnoresCase(namespace, ns);
    ParseNamespaceIgnoresCase(spelling, ns);
  }

  /** A write touches one key of one table: the other two tables and the other keys are as they were. */
  lemma SetTouchesOneEntry(t: SettingsTables, ns: Namespace, key: string, value: string, other: Namespace, otherKey: string)
    requires other != ns || otherKey != key
    ensures t.Put(ns, key, value).Get(other, otherKey) == t.Get(other, otherKey)
  {
  }

  /** The executor's get after its set, on the object: the value comes back from the same namespace. */
  method SetThenGet(e: SystemExecutor, namespace: string, key: string, value: string) returns (read: Result<Option<string>>)
    modifies e
    ensures read.Err? <==> ParseNamespace(namespace).None?
    ensures read.Ok? ==> read.value == Some(value)
  {
    var r := e.SetSystemSetting(namespace, key, value);
    read := e.GetSystemSetting(namespace, key);
  }
}
