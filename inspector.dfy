/**
 * The Inspector: the diagnostic report on the engine and its log file, the
 * system-information summary, the guards of the diagnostic panel and the
 * "Diagnóstico" link prepended to the plugin's action links. Filesystem facts,
 * PHP and WordPress versions, the current user's capability and the nonce
 * check are inputs.
 */
module Inspector {
  import opened Php
  import opened ForgeRegistry
  import opened Logging
  import opened Heart

  const Check := "\U{2705}"
  const Cross := "\U{274C}"
  const Warning := "\U{26A0}\U{FE0F}"
  const Package := "\U{1F4E6}"

  const LogSystemKey := "Log System"
  const LogStatusKey := "Log Status"
  const NoPath := Warning + " Ruta no definida"
  const Writable := Check + " Escribible"
  const NoPermission := Cross + " Sin permisos"
  const ReadyToCreate := Check + " Listo para crear"
  const ProtectedDir := Cross + " Carpeta protegida"
  const SecurityFailed := "Seguridad fallida"

  // ---------------------------------------------------------------------
  // Static calls on Engine
  // ---------------------------------------------------------------------

  /** The static methods Engine declares. */
  const EngineStatics: set<string> := {"boot", "get_instance", "activate", "deactivate", "uninstall"}
  /** The accessor Engine declares for its instance. */
  const DeclaredAccessor := "get_instance"
  /** The accessor the Inspector calls. */
  const CalledAccessor := "instance"

  /** What PHP throws for a static call of a method the class does not declare. */
  function UndefinedMethodMessage(name: string): string {
    "Call to undefined method Poeticsoft\\Heart\\Engine::" + name + "()"
  }

  /** `Engine::{$name}()` for the instance accessor or for a name Engine does
      not declare: the latter is an \Error, which no `catch (\Exception)` stops. */
  function EngineStatic(p: Process, name: string): (r: Result<Engine>)
    requires name == DeclaredAccessor || name !in EngineStatics
    reads p
    ensures name != DeclaredAccessor ==> r == Throw(Error(UndefinedMethodMessage(name)))
  {
    if name == DeclaredAccessor then p.GetInstance() else Throw(Error(UndefinedMethodMessage(name)))
  }

  /** `Engine::instance()` fails even on a booted engine, where
      `Engine::get_instance()` returns it. */
  lemma CalledAccessorIsUndefined(p: Process)
    ensures CalledAccessor !in EngineStatics
    ensures EngineStatic(p, CalledAccessor).Throw? && EngineStatic(p, CalledAccessor).thrown.Error?
    ensures p.instance != null ==> EngineStatic(p, DeclaredAccessor) == Ok(p.instance)
  {
  }

  // ---------------------------------------------------------------------
  // PHP arrays with string keys
  // ---------------------------------------------------------------------

  predicate HasKey(a: seq<(string, string)>, k: string) {
    exists i :: 0 <= i < |a| && a[i].0 == k
  }

  ghost predicate DistinctKeys(a: seq<(string, string)>) {
    forall i, j :: 0 <= i < j < |a| ==> a[i].0 != a[j].0
  }

  /** `$a[$k] = $v`: a new key goes last; an existing key keeps its place and
      takes the new value; every other entry stays as it was. */
  function Assign(a: seq<(string, string)>, k: string, v: string): seq<(string, string)> {
    if HasKey(a, k) then seq(|a|, i requires 0 <= i < |a| => if a[i].0 == k then (k, v) else a[i])
    else a + [(k, v)]
  }

  /** Assignment keeps the keys distinct and leaves `k` holding `v`: a new key
      goes last, an existing key keeps its place, and every other entry stays. */
  lemma AssignKeeps(a: seq<(string, string)>, k: string, v: string)
    requires DistinctKeys(a)
    ensures DistinctKeys(Assign(a, k, v))
    ensures exists i :: 0 <= i < |Assign(a, k, v)| && Assign(a, k, v)[i] == (k, v)
    ensures HasKey(a, k) ==> |Assign(a, k, v)| == |a|
    ensures HasKey(a, k) ==>
              forall i :: 0 <= i < |a| ==> Assign(a, k, v)[i] == (if a[i].0 == k then (k, v) else a[i])
    ensures !HasKey(a, k) ==> Assign(a, k, v) == a + [(k, v)]
  {
    var r := Assign(a, k, v);
    if HasKey(a, k) {
      var i :| 0 <= i < |a| && a[i].0 == k;
      assert r[i] == (k, v);
    } else {
      assert r[|a|] == (k, v);
    }
  }

  // ---------------------------------------------------------------------
  // The diagnostic report
  // ---------------------------------------------------------------------

  /** The filesystem facts about the engine's log file: `file_exists($logfile)`,
      `is_writable($logfile)`, `is_writable(dirname($logfile))`. */
  datatype LogFacts = LogFacts(fileExists: bool, fileWritable: bool, dirWritable: bool)

  /** `phpversion()` and the global `$wp_version`. */
  datatype Host = Host(phpVersion: string, wpVersion: string)

  /** The "Forges" entry: the package icon and the number of registered forges. */
  function ForgesLabel(n: nat): string {
    Package + " " + DecimalString(n)
  }

  /** The "Forges" entry can be read back into the number it reports. */
  lemma ForgesLabelReadsBack(n: nat)
    ensures var s := ForgesLabel(n);
            |s| > 2 && s[..2] == Package + " " && IsDigits(s[2..]) && DecimalValue(s[2..]) == n
  {
    var s := ForgesLabel(n);
    assert s[2..] == DecimalString(n);
    DecimalRoundTrip(n);
  }

  /** The status of a log file at a non-empty path. */
  function LogStatus(f: LogFacts): string {
    if f.fileExists then (if f.fileWritable then Writable else NoPermission)
    else (if f.dirWritable then ReadyToCreate else ProtectedDir)
  }

  /** The log entry of the report for the log file path `logfile`. */
  function LogEntry(logfile: string, f: LogFacts): (string, string) {
    if Empty(logfile) then (LogSystemKey, NoPath) else (LogStatusKey, LogStatus(f))
  }

  /** The decision table of the log status. */
  lemma LogStatusTable(f: LogFacts)
    ensures f.fileExists && f.fileWritable ==> LogStatus(f) == Writable
    ensures f.fileExists && !f.fileWritable ==> LogStatus(f) == NoPermission
    ensures !f.fileExists && f.dirWritable ==> LogStatus(f) == ReadyToCreate
    ensures !f.fileExists && !f.dirWritable ==> LogStatus(f) == ProtectedDir
  {
  }

  /** The status names the case: equal statuses mean the same answer to
      "does the file exist", and the same answer to the one permission that
      then matters. */
  lemma LogStatusDetermines(f: LogFacts, g: LogFacts)
    requires LogStatus(f) == LogStatus(g)
    ensures f.fileExists == g.fileExists
    ensures f.fileExists ==> f.fileWritable == g.fileWritable
    ensures !f.fileExists ==> f.dirWritable == g.dirWritable
  {
    assert Writable != NoPermission && Writable != ReadyToCreate && Writable != ProtectedDir;
    assert NoPermission != ReadyToCreate && NoPermission != ProtectedDir && ReadyToCreate != ProtectedDir;
  }

  /** The report says the log is usable (a check mark) exactly when the file
      can be written: it exists and is writable, or it is absent and its
      directory is writable. */
  lemma LogStatusReady(f: LogFacts)
    ensures LogStatus(f)[..1] == Check <==> (if f.fileExists then f.fileWritable else f.dirWritable)
  {
    assert Writable[..1] == Check && ReadyToCreate[..1] == Check;
    assert NoPermission[..1] == Cross && ProtectedDir[..1] == Cross && Check != Cross;
  }

  /** Whenever the report calls the log usable, `log` takes the file route
      given the same facts. */
  lemma ReadyMeansFileRoute(f: LogFacts, env: LogEnv)
    requires env.debug && env.fileExists == f.fileExists && env.fileWritable == f.fileWritable && env.dirWritable == f.dirWritable
    requires LogStatus(f)[..1] == Check
    ensures RouteOf(env) == ToFile
  {
    LogStatusReady(f);
  }

  /** The converse fails: an existing read-only file in a writable directory is
      reported without permissions, yet `log` still routes its lines to that
      file rather than to the fallback channel. */
  lemma ReadOnlyFileStillRoutedToFile(now: string)
    ensures var f := LogFacts(true, false, true);
            LogStatus(f) == NoPermission && RouteOf(LogEnv(true, now, true, true, false, false)) == ToFile
  {
  }

  /** The report `run_diagnostic` returns for engine `e`, in key order. */
  function Report(e: Engine, f: LogFacts, host: Host): seq<(string, string)>
    reads e
  {
    [("Engine", Check), ("Singleton", Check), ("Forges", ForgesLabel(Count(e.forges))),
     LogEntry(e.logfile, f), ("PHP", host.phpVersion), ("WordPress", host.wpVersion)]
  }

  /** The report has the six keys in order, exactly one of "Log System" and
      "Log Status" among them, "Log System" exactly when the path is empty. */
  lemma ReportKeys(e: Engine, f: LogFacts, host: Host)
    ensures var r := Report(e, f, host);
            |r| == 6 && r[0].0 == "Engine" && r[1].0 == "Singleton" && r[2].0 == "Forges" &&
            r[4].0 == "PHP" && r[5].0 == "WordPress" &&
            (HasKey(r, LogSystemKey) <==> Empty(e.logfile)) &&
            (HasKey(r, LogStatusKey) <==> !Empty(e.logfile)) &&
            DistinctKeys(r)
  {
    var r := Report(e, f, host);
    if HasKey(r, LogSystemKey) {
      var i :| 0 <= i < |r| && r[i].0 == LogSystemKey;
      assert i == 3;
    }
    if HasKey(r, LogStatusKey) {
      var i :| 0 <= i < |r| && r[i].0 == LogStatusKey;
      assert i == 3;
    }
    if Empty(e.logfile) { assert r[3].0 == LogSystemKey; } else { assert r[3].0 == LogStatusKey; }
  }

  /** On a booted engine the log path is never empty, so the report always
      carries "Log Status" and the "Ruta no definida" branch is never taken. */
  lemma BootedEngineHasLogStatus(e: Engine, f: LogFacts, host: Host)
    requires e.Valid()
    ensures Report(e, f, host)[3] == (LogStatusKey, LogStatus(f))
  {
    LogPathNotEmpty(e.logfile);
  }

  /** The "Forges" entry reports the number of registered forges. */
  lemma ReportCountsForges(e: Engine, f: LogFacts, host: Host)
    requires e.Valid()
    ensures var s := Report(e, f, host)[2].1;
            s == ForgesLabel(|e.forges.entries|) && DecimalValue(s[2..]) == |e.forges.entries|
  {
    CountIsNumberOfEntries(e.forges);
    ForgesLabelReadsBack(Count(e.forges));
  }

  /** `run_diagnostic()` with the instance fetched by `Engine::{$accessor}()`. */
  method Diagnose(p: Process, accessor: string, f: LogFacts, host: Host) returns (r: Result<seq<(string, string)>>)
    requires accessor == DeclaredAccessor || accessor !in EngineStatics
    ensures EngineStatic(p, accessor).Throw? ==> r == Throw(EngineStatic(p, accessor).thrown)
    ensures EngineStatic(p, accessor).Ok? ==> p.instance != null && r == Ok(Report(p.instance, f, host))
  {
    var got := EngineStatic(p, accessor);
    if got.Throw? {
      return Throw(got.thrown);
    }
    var engine := got.value;
    // class_exists: the class is loaded, the call above having resolved it.
    var again := EngineStatic(p, accessor);
    var results := Collect(if again == Ok(engine) then Check else Cross, Count(engine.forges), engine.logfile, f, host);
    r := Ok(results);
  }

  /** The assignments of `run_diagnostic`, in order, into an initially empty
      array; every key is new when it is assigned, so each lands at the end. */
  method Collect(singleton: string, forges: nat, logfile: string, f: LogFacts, host: Host) returns (results: seq<(string, string)>)
    ensures results == [("Engine", Check), ("Singleton", singleton), ("Forges", ForgesLabel(forges)),
                        LogEntry(logfile, f), ("PHP", host.phpVersion), ("WordPress", host.wpVersion)]
  {
    results := [];
    results := Assign(results, "Engine", Check);
    Appends(results, "Singleton", singleton);
    results := Assign(results, "Singleton", singleton);
    Appends(results, "Forges", ForgesLabel(forges));
    results := Assign(results, "Forges", ForgesLabel(forges));
    assert results == [("Engine", Check), ("Singleton", singleton), ("Forges", ForgesLabel(forges))];
    var key, value;
    if Empty(logfile) {
      key, value := LogSystemKey, NoPath;
    } else if f.fileExists {
      key, value := LogStatusKey, if f.fileWritable then Writable else NoPermission;
    } else {
      key, value := LogStatusKey, if f.dirWritable then ReadyToCreate else ProtectedDir;
    }
    assert (key, value) == LogEntry(logfile, f);
    Appends(results, key, value);
    results := Assign(results, key, value);
    assert results == [("Engine", Check), ("Singleton", singleton), ("Forges", ForgesLabel(forges)), (key, value)];
    Appends(results, "PHP", host.phpVersion);
    results := Assign(results, "PHP", host.phpVersion);
    Appends(results, "WordPress", host.wpVersion);
    results := Assign(results, "WordPress", host.wpVersion);
  }

  /** Assigning a key whose first letter no entry's key starts with appends it. */
  lemma Appends(a: seq<(string, string)>, k: string, v: string)
    requires |k| > 0 && forall i :: 0 <= i < |a| ==> |a[i].0| > 0 && a[i].0[0] != k[0]
    ensures Assign(a, k, v) == a + [(k, v)]
  {
    assert !HasKey(a, k);
  }

  /** `run_diagnostic()` as written: it calls `Engine::instance()`, so it always fails. */
  method RunDiagnosticAsWritten(p: Process, f: LogFacts, host: Host) returns (r: Result<seq<(string, string)>>)
    ensures r == Throw(Error(UndefinedMethodMessage(CalledAccessor)))
  {
    r := Diagnose(p, CalledAccessor, f, host);
  }

  /** `run_diagnostic()` with the instance fetched by `Engine::get_instance()`. */
  method RunDiagnostic(p: Process, f: LogFacts, host: Host) returns (r: Result<seq<(string, string)>>)
    ensures p.instance == null ==> r == Throw(Exception(NotBootedMessage))
    ensures p.instance != null ==> r == Ok(Report(p.instance, f, host))
  {
    r := Diagnose(p, DeclaredAccessor, f, host);
  }

  // ---------------------------------------------------------------------
  // System information
  // ---------------------------------------------------------------------

  datatype SystemInfo = SystemInfo(phpVersion: string, wordpressVersion: string, pluginVersion: string, modulesCount: nat)

  /** `get_system_info()` with the instance fetched by `Engine::{$accessor}()`. */
  function SystemInfoVia(p: Process, accessor: string, host: Host): (r: Result<SystemInfo>)
    requires accessor == DeclaredAccessor || accessor !in EngineStatics
    reads p, p.instance
    ensures EngineStatic(p, accessor).Throw? ==> r == Throw(EngineStatic(p, accessor).thrown)
  {
    match EngineStatic(p, accessor)
    case Throw(t) => Throw(t)
    case Ok(e) => Ok(SystemInfo(host.phpVersion, host.wpVersion, e.version, Count(e.forges)))
  }

  /** `get_system_info()` as written: it calls `Engine::instance()`, so it always fails. */
  function SystemInfoAsWritten(p: Process, host: Host): (r: Result<SystemInfo>)
    reads p, p.instance
    ensures r == Throw(Error(UndefinedMethodMessage(CalledAccessor)))
  {
    SystemInfoVia(p, CalledAccessor, host)
  }

  /** `get_system_info()` with `Engine::get_instance()`: the plugin version and
      the number of registered forges of the booted engine. */
  function GetSystemInfo(p: Process, host: Host): (r: Result<SystemInfo>)
    requires p.Valid()
    reads p, p.instance
    ensures r.Ok? <==> p.instance != null
    ensures r.Throw? ==> r.thrown == Exception(NotBootedMessage)
    ensures r.Ok? ==> r.value.pluginVersion == Version && r.value.modulesCount == |p.instance.forges.entries|
    ensures r.Ok? ==> r.value.phpVersion == host.phpVersion && r.value.wordpressVersion == host.wpVersion
  {
    if p.instance != null then CountIsNumberOfEntries(p.instance.forges); SystemInfoVia(p, DeclaredAccessor, host)
    else SystemInfoVia(p, DeclaredAccessor, host)
  }

  /** The summary agrees with the report on the number of forges. */
  lemma SystemInfoAgreesWithReport(p: Process, f: LogFacts, host: Host)
    requires p.Valid() && p.instance != null
    ensures ForgesLabel(GetSystemInfo(p, host).value.modulesCount) == Report(p.instance, f, host)[2].1
  {
    CountIsNumberOfEntries(p.instance.forges);
  }

  // ---------------------------------------------------------------------
  // The diagnostic panel
  // ---------------------------------------------------------------------

  /** WordPress `sanitize_key`: lower-cases ASCII letters and keeps only
      lower-case letters, digits, '_' and '-'. */
  function SanitizeKey(s: string): (k: string)
    ensures |k| <= |s|
    ensures forall i :: 0 <= i < |k| ==> KeyChar(k[i])
    decreases |s|
  {
    if s == [] then []
    else
      var c := Lower(s[|s| - 1]);
      SanitizeKey(s[..|s| - 1]) + (if KeyChar(c) then [c] else [])
  }

  function Lower(c: char): char {
    if 'A' <= c <= 'Z' then (c as int + 32) as char else c
  }

  predicate KeyChar(c: char) {
    ('a' <= c <= 'z') || ('0' <= c <= '9') || c == '_' || c == '-'
  }

  /** `sanitize_key` works character by character. */
  lemma {:induction false} SanitizeKeyAppend(s: string, t: string)
    ensures SanitizeKey(s + t) == SanitizeKey(s) + SanitizeKey(t)
    decreases |t|
  {
    if t == [] {
      assert s + t == s;
    } else {
      var c := Lower(t[|t| - 1]);
      var last: string := if KeyChar(c) then [c] else [];
      SanitizeKeyAppend(s, t[..|t| - 1]);
      assert (s + t)[..|s + t| - 1] == s + t[..|t| - 1];
      assert (s + t)[|s + t| - 1] == t[|t| - 1];
      assert SanitizeKey(s + t) == SanitizeKey(s + t[..|t| - 1]) + last;
      assert SanitizeKey(t) == SanitizeKey(t[..|t| - 1]) + last;
    }
  }

  /** A key already made of key characters is left as it is. */
  lemma {:induction false} SanitizeKeyFixes(s: string)
    requires forall i :: 0 <= i < |s| ==> KeyChar(s[i])
    ensures SanitizeKey(s) == s
    decreases |s|
  {
    if s != [] {
      var init := s[..|s| - 1];
      SanitizeKeyFixes(init);
      assert Lower(s[|s| - 1]) == s[|s| - 1];
      assert init + [s[|s| - 1]] == s;
    }
  }

  /** A sanitized key sanitizes to itself. */
  lemma SanitizeKeyIdempotent(s: string)
    ensures SanitizeKey(SanitizeKey(s)) == SanitizeKey(s)
  {
    SanitizeKeyFixes(SanitizeKey(s));
  }

  /** `(isset($_GET['test_forge']) ? sanitize_key($_GET['test_forge']) : '') === '1'`. */
  predicate TestMode(testForge: Option<string>) {
    (if testForge.Some? then SanitizeKey(testForge.value) else "") == "1"
  }

  /** Test mode needs the parameter, and "1" turns it on; so do " 1" and "1!",
      whose other characters `sanitize_key` drops, but not "01" or "true". */
  lemma TestModeExamples()
    ensures !TestMode(None) && TestMode(Some("1")) && TestMode(Some(" 1")) && TestMode(Some("1!"))
    ensures !TestMode(Some("01")) && !TestMode(Some("true"))
  {
    SanitizeKeyAppend(" ", "1");
    SanitizeKeyAppend("1", "!");
    assert " " + "1" == " 1" && "1" + "!" == "1!";
    SanitizeKeyFixes("01");
    SanitizeKeyFixes("true");
  }

  /** The request facts `render_diagnostic_panel` consults: `current_user_can('manage_options')`,
      `$_GET['test_forge']`, `$_GET['_wpnonce']`, and what `wp_verify_nonce`
      says of that nonce. */
  datatype Request = Request(canManage: bool, testForge: Option<string>, nonce: Option<string>, nonceValid: bool)

  /** What the panel does: nothing, `wp_die` with a message, the report, or
      an exception out of `run_diagnostic`. */
  datatype Panel = Hidden | Denied(message: string) | Shown(report: seq<(string, string)>) | Failed(thrown: Throwable)

  /** `render_diagnostic_panel()`, without its HTML. */
  method RenderDiagnosticPanel(p: Process, req: Request, f: LogFacts, host: Host) returns (panel: Panel)
    ensures !req.canManage ==> panel == Hidden
    ensures req.canManage && !TestMode(req.testForge) ==> panel == Hidden
    ensures req.canManage && TestMode(req.testForge) && !(req.nonce.Some? && req.nonceValid) ==>
              panel == Denied(SecurityFailed)
    ensures panel.Shown? || panel.Failed? ==>
              req.canManage && TestMode(req.testForge) && req.nonce.Some? && req.nonceValid
    ensures panel.Shown? <==>
              req.canManage && TestMode(req.testForge) && req.nonce.Some? && req.nonceValid && p.instance != null
    ensures panel.Shown? ==> panel.report == Report(p.instance, f, host)
    ensures panel.Failed? ==> panel.thrown == Exception(NotBootedMessage)
  {
    if !req.canManage {
      return Hidden;
    }
    var isTestMode := (if req.testForge.Some? then SanitizeKey(req.testForge.value) else "") == "1";
    if !isTestMode {
      return Hidden;
    }
    if req.nonce.None? || !req.nonceValid {
      return Denied(SecurityFailed);
    }
    var report := RunDiagnostic(p, f, host);
    if report.Throw? {
      return Failed(report.thrown);
    }
    panel := Shown(report.value);
  }

  // ---------------------------------------------------------------------
  // The action link
  // ---------------------------------------------------------------------

  /** A PHP array key: an integer, or a string that is not a decimal integer. */
  datatype Key = Index(n: int) | Name(s: string)

  /** `sprintf('<a href="%s" style="font-weight:bold; color:#722ed1;">%s</a>', $url, $caption)`. */
  function ActionLink(url: string, caption: string): (link: string)
    ensures |link| == |url| + |caption| + 56
    ensures link[..9 + |url|] == "<a href=\"" + url
    ensures link[|link| - 4 - |caption|..] == caption + "</a>"
  {
    "<a href=\"" + url + "\" style=\"font-weight:bold; color:#722ed1;\">" + caption + "</a>"
  }

  /** The number of integer keys among the first `k` links. */
  function IndicesBefore(links: seq<(Key, string)>, k: nat): nat
    requires k <= |links|
  {
    if k == 0 then 0 else IndicesBefore(links, k - 1) + (if links[k - 1].0.Index? then 1 else 0)
  }

  /** `add_action_link($links)`: `array_unshift($links, $link)`, which puts the
      link first under key 0, renumbers the integer keys 1, 2, ... in order and
      keeps the string keys. `url` is the nonce URL of the diagnostic page and
      `caption` the translated "Diagnóstico", both already escaped. */
  method AddActionLink(links: seq<(Key, string)>, url: string, caption: string) returns (out: seq<(Key, string)>)
    ensures |out| == |links| + 1
    ensures out[0] == (Index(0), ActionLink(url, caption))
    ensures forall k :: 0 <= k < |links| ==> out[k + 1].1 == links[k].1
    ensures forall k :: 0 <= k < |links| && links[k].0.Name? ==> out[k + 1].0 == links[k].0
    ensures forall k :: 0 <= k < |links| && links[k].0.Index? ==> out[k + 1].0 == Index(1 + IndicesBefore(links, k))
  {
    out := [(Index(0), ActionLink(url, caption))];
    var next := 1;
    var i := 0;
    while i < |links|
      invariant 0 <= i <= |links| && |out| == i + 1 && next == 1 + IndicesBefore(links, i)
      invariant out[0] == (Index(0), ActionLink(url, caption))
      invariant forall k :: 0 <= k < i ==> out[k + 1].1 == links[k].1
      invariant forall k :: 0 <= k < i && links[k].0.Name? ==> out[k + 1].0 == links[k].0
      invariant forall k :: 0 <= k < i && links[k].0.Index? ==> out[k + 1].0 == Index(1 + IndicesBefore(links, k))
    {
      if links[i].0.Index? {
        out := out + [(Index(next), links[i].1)];
        next := next + 1;
      } else {
        out := out + [links[i]];
      }
      i := i + 1;
    }
  }

  /** In a list (integer keys only) every link is counted. */
  lemma {:induction false} AllIndicesBefore(links: seq<(Key, string)>, k: nat)
    requires k <= |links| && forall i :: 0 <= i < |links| ==> links[i].0.Index?
    ensures IndicesBefore(links, k) == k
  {
    if k > 0 {
      AllIndicesBefore(links, k - 1);
    }
  }

  /** For a plain list of links, `add_action_link` returns the list with the
      new link first: keys 0, 1, 2, ... and the old links in their order. */
  method AddActionLinkToList(links: seq<(Key, string)>, url: string, caption: string) returns (out: seq<(Key, string)>)
    requires forall i :: 0 <= i < |links| ==> links[i].0.Index?
    ensures |out| == |links| + 1
    ensures forall k :: 0 <= k < |out| ==> out[k].0 == Index(k)
    ensures out[0].1 == ActionLink(url, caption) && forall k :: 0 <= k < |links| ==> out[k + 1].1 == links[k].1
  {
    out := AddActionLink(links, url, caption);
    forall k | 0 <= k < |links| ensures IndicesBefore(links, k) == k {
      AllIndicesBefore(links, k);
    }
    forall k | 0 < k < |out| ensures out[k].0 == Index(k) {
      var j := k - 1;
      assert out[j + 1].0 == Index(1 + IndicesBefore(links, j));
    }
  }
}
