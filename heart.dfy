/**
 * The Engine of the Heart plugin: the single process-wide coordinator that
 * holds the forge registry, runs the startup protocol, logs, and hands out the
 * security token. PHP's static `Engine::$instance` slot, and what the static
 * `uninstall` does to the outside world, live in `Process`.
 */
module Heart {
  import opened Php
  import opened Forges
  import opened ForgeRegistry
  import opened Startup
  import opened Logging

  const Version := "1.0.0"
  /** Appended to WP_CONTENT_DIR to give the log file path. */
  const LogFileName := "/poeticsoft-heart-debug.log"
  const AlreadyBootedMessage := "Engine ya fue inicializado."
  const NotBootedMessage := "Engine no ha sido inicializado. Llama a Engine::boot() primero."
  const RegisterHook := "poeticsoft_heart_register"
  const BootedHook := "poeticsoft_heart_booted"
  const UninstallHook := "poeticsoft_heart_uninstall"
  const ErrorLevel := "ERROR"

  predicate IsLogPath(p: string) {
    |p| >= |LogFileName| && p[|p| - |LogFileName|..] == LogFileName
  }

  /** The log file path is never one PHP's `empty()` accepts. */
  lemma LogPathNotEmpty(p: string)
    requires IsLogPath(p)
    ensures !Empty(p)
  {
  }

  class Engine {
    const version: string
    const pluginfile: string
    const path: string
    const url: string
    const basename: string
    const logfile: string

    /** `$forges`, a PHP array and hence a value. */
    var forges: Registry
    /** `$token`, null until first requested. */
    var token: Option<string>
    /** The lines this engine appended to its log file. */
    var logFile: seq<string>
    /** The lines this engine sent to PHP's generic error channel. */
    var errorChannel: seq<string>

    /** How many times `wp_create_nonce` was called for the token. */
    ghost var tokenCreations: nat
    /** The ids whose forge `init` was called, in call order. */
    ghost var initialized: seq<string>
    /** The actions this engine fired with `do_action`, in order. */
    ghost var fired: seq<string>

    ghost predicate Valid()
      reads this
    {
      ForgeRegistry.Valid(forges) && version == Version && IsLogPath(logfile) &&
      tokenCreations == (if token.Some? then 1 else 0)
    }

    /** `new self($pluginfile)`; `dirPath`, `dirUrl` and `pluginBasename` are what
        `plugin_dir_path`, `plugin_dir_url` and `plugin_basename` return for it,
        and `contentDir` is WP_CONTENT_DIR. */
    constructor (pluginfile: string, dirPath: string, dirUrl: string, pluginBasename: string, contentDir: string)
      ensures Valid()
      ensures this.pluginfile == pluginfile && path == dirPath && url == dirUrl && basename == pluginBasename
      ensures logfile == contentDir + LogFileName
      ensures forges == NoForges && token == None
      ensures logFile == [] && errorChannel == [] && initialized == [] && fired == []
    {
      version := Version;
      this.pluginfile := pluginfile;
      path := dirPath;
      url := dirUrl;
      basename := pluginBasename;
      logfile := contentDir + LogFileName;
      forges := NoForges;
      token := None;
      logFile := [];
      errorChannel := [];
      tokenCreations := 0;
      initialized := [];
      fired := [];
    }

    /** `registrar_forge($id, $instancia)`. */
    method RegistrarForge(id: string, instancia: Forge) returns (r: Result<bool>)
      requires Valid()
      modifies this`forges
      ensures Valid()
      ensures Empty(id) ==> r == Throw(Exception(EmptyIdMessage)) && forges == old(forges)
      ensures !Empty(id) ==> r == Ok(true) && forges == Put(old(forges), id, instancia)
    {
      if Empty(id) {
        return Throw(Exception(EmptyIdMessage));
      }
      PutValid(forges, id, instancia);
      forges := Put(forges, id, instancia);
      r := Ok(true);
    }

    /** A run of `registrar_forge` calls, as made by the register hook's
        listeners or by a forge's `init`; the first exception ends the run. */
    method ApplyRegistrations(regs: seq<Registration>) returns (t: Option<Throwable>)
      requires Valid()
      modifies this`forges
      ensures Valid()
      ensures (forges, t) == RegisterAll(old(forges), regs)
    {
      var i := 0;
      while i < |regs|
        invariant 0 <= i <= |regs| && Valid()
        invariant RegisterAll(old(forges), regs) == RegisterAll(forges, regs[i..])
      {
        assert regs[i..][0] == regs[i] && regs[i..][1..] == regs[i + 1..];
        var r := RegistrarForge(regs[i].id, regs[i].forge);
        if r.Throw? {
          return Some(r.thrown);
        }
        i := i + 1;
      }
      t := None;
    }

    /** `$forge->init($this)`. */
    method RunForgeInit(forge: Forge) returns (e: Ending)
      requires Valid()
      modifies this`forges
      ensures Valid()
      ensures (forges, e) == RunForge(old(forges), forge)
    {
      var t := ApplyRegistrations(forge.script.registers);
      e := if t.Some? then Throws(t.value) else forge.script.ends;
    }

    /** `log($mensaje, $nivel = 'INFO', $forge = 'HEART')`. */
    method Log(env: LogEnv, mensaje: Message, nivel: string := DefaultLevel, forge: string := DefaultSource)
      returns (written: bool)
      modifies this`logFile, this`errorChannel
      ensures written <==> RouteOf(env) == ToFile && env.appendOk
      ensures logFile == old(logFile) + Written(env, nivel, forge, TextOf(mensaje))
      ensures errorChannel == old(errorChannel) + FallenBack(env, nivel, forge, TextOf(mensaje))
    {
      if !env.debug {
        return false;
      }
      var text := TextOf(mensaje);
      var entrada := Entry(env.now, nivel, forge, text);
      if env.dirWritable || (env.fileExists && env.fileWritable) {
        if env.appendOk {
          logFile := logFile + [entrada];
        }
        return env.appendOk;
      }
      errorChannel := errorChannel + [FallbackPrefix + entrada];
      written := false;
    }

    /** `init()`: fires the register hook, whose listeners make the registrations
        `hook`, then calls `init` on each forge registered at that point, in
        insertion order, logging each caught \Exception at ERROR, and finally
        fires the booted hook. An exception from a hook registration, or an
        \Error from a forge, leaves `init` uncaught. */
    method Init(hook: seq<Registration>, env: LogEnv) returns (c: Completion)
      requires Valid()
      modifies this
      ensures Valid()
      ensures token == old(token)
      ensures var (r1, t) := RegisterAll(old(forges), hook);
              t.Some? ==>
                c == Abrupt(t.value) && forges == r1 && fired == old(fired) + [RegisterHook] &&
                initialized == old(initialized) && logFile == old(logFile) && errorChannel == old(errorChannel)
      ensures var (r1, t) := RegisterAll(old(forges), hook);
              t.None? ==>
                ForgeRegistry.Valid(r1) &&
                var p := InitPass(r1);
                forges == p.registry &&
                Logged(env, p.visited, p.failures, Trace(initialized, logFile, errorChannel),
                       Trace(old(initialized), old(logFile), old(errorChannel))) &&
                c == (if p.fatal.Some? then Abrupt(p.fatal.value) else Normal) &&
                fired == old(fired) + [RegisterHook] + (if p.fatal.None? then [BootedHook] else [])
    {
      fired := fired + [RegisterHook];
      var t := ApplyRegistrations(hook);
      if t.Some? {
        c := Abrupt(t.value);
      } else {
        var fatal := InitForges(env);
        if fatal.Some? {
          c := Abrupt(fatal.value);
        } else {
          fired := fired + [BootedHook];
          c := Normal;
        }
      }
    }

    /** The `foreach` of `init` over the registry as it stands when the loop starts. */
    method InitForges(env: LogEnv) returns (fatal: Option<Throwable>)
      requires Valid()
      modifies this`forges, this`initialized, this`logFile, this`errorChannel
      ensures Valid()
      ensures var p := InitPass(old(forges));
              forges == p.registry && fatal == p.fatal &&
              Logged(env, p.visited, p.failures, Trace(initialized, logFile, errorChannel),
                     Trace(old(initialized), old(logFile), old(errorChannel)))
    {
      var snapshot := forges;
      ghost var start := Trace(initialized, logFile, errorChannel);
      ghost var visited: seq<string> := [];
      ghost var failures: seq<Failure> := [];
      MidwayAtStart(snapshot, env, start);
      var i := 0;
      while i < |snapshot.order|
        invariant 0 <= i <= |snapshot.order| && Valid()
        invariant Midway(snapshot, i, env, visited, failures, forges, Trace(initialized, logFile, errorChannel), start)
      {
        var e := InitStep(snapshot, i, env, visited, failures, start);
        if e.Throws? && e.thrown.Error? {
          return Some(e.thrown);
        }
        visited, failures := visited + [snapshot.order[i]], Caught(failures, snapshot.order[i], e);
        i := i + 1;
      }
      MidwayEnd(snapshot, env, visited, failures, forges, Trace(initialized, logFile, errorChannel), start);
      fatal := None;
    }

    /** One turn of the loop of `init`, at position `i` of `snapshot`. */
    method InitStep(snapshot: Registry, i: nat, env: LogEnv, ghost visited: seq<string>, ghost failures: seq<Failure>,
                    ghost start: Trace)
      returns (e: Ending)
      requires Valid() && i < |snapshot.order|
      requires Midway(snapshot, i, env, visited, failures, forges, Trace(initialized, logFile, errorChannel), start)
      modifies this`forges, this`initialized, this`logFile, this`errorChannel
      ensures Valid()
      ensures !(e.Throws? && e.thrown.Error?) ==>
                Midway(snapshot, i + 1, env, visited + [snapshot.order[i]], Caught(failures, snapshot.order[i], e),
                       forges, Trace(initialized, logFile, errorChannel), start)
      ensures e.Throws? && e.thrown.Error? ==>
                var p := InitPass(snapshot);
                forges == p.registry && p.fatal == Some(e.thrown) &&
                Logged(env, p.visited, p.failures, Trace(initialized, logFile, errorChannel), start)
    {
      var id := snapshot.order[i];
      ghost var before := forges;
      ghost var trace := Trace(initialized, logFile, errorChannel);
      e := InitForge(id, snapshot.entries[id], env);
      if e.Throws? && e.thrown.Error? {
        MidwayStop(snapshot, i, env, visited, failures, before, trace, start, forges, e);
      } else {
        MidwayStep(snapshot, i, env, visited, failures, before, trace, start, forges, e, Trace(initialized, logFile, errorChannel));
      }
    }

    /** One turn of the loop: `$forge->init($this)` inside the try, and the
        ERROR line of the catch when it throws an \Exception. */
    method InitForge(id: string, forge: Forge, env: LogEnv) returns (e: Ending)
      requires Valid()
      modifies this`forges, this`initialized, this`logFile, this`errorChannel
      ensures Valid()
      ensures (forges, e) == RunForge(old(forges), forge)
      ensures initialized == old(initialized) + [id]
      ensures e.Throws? && e.thrown.Exception? ==>
                var text := FailureText(Failure(id, e.thrown.message));
                logFile == old(logFile) + Written(env, ErrorLevel, DefaultSource, text) &&
                errorChannel == old(errorChannel) + FallenBack(env, ErrorLevel, DefaultSource, text)
      ensures !(e.Throws? && e.thrown.Exception?) ==> logFile == old(logFile) && errorChannel == old(errorChannel)
    {
      e := RunForgeInit(forge);
      initialized := initialized + [id];
      if e.Throws? && e.thrown.Exception? {
        var _ := Log(env, Text(FailureText(Failure(id, e.thrown.message))), ErrorLevel);
      }
    }

    /** `get_token()`: `created` is what `wp_create_nonce('poeticsoft_heart_token')`
        would return now; it is used only when no token is cached yet. */
    method GetToken(created: string) returns (t: string)
      requires Valid()
      modifies this`token, this`tokenCreations
      ensures Valid()
      ensures old(token).Some? ==> t == old(token).value && token == old(token) && tokenCreations == old(tokenCreations)
      ensures old(token).None? ==> t == created && token == Some(created) && tokenCreations == 1
    {
      if token.None? {
        token := Some(created);
        tokenCreations := tokenCreations + 1;
      }
      t := token.value;
    }

    /** `get_version()`: always "1.0.0". */
    function GetVersion(): (v: string)
      requires Valid()
      reads this
      ensures v == Version
    {
      version
    }

    /** `get_logfile()`: WP_CONTENT_DIR followed by the log file name, so never empty. */
    function GetLogfile(): (l: string)
      requires Valid()
      reads this
      ensures IsLogPath(l) && !Empty(l)
    {
      LogPathNotEmpty(logfile);
      logfile
    }

    /** `get_forges()`: the registry, well formed, with one entry per registered id. */
    function GetForges(): (r: Registry)
      requires Valid()
      reads this
      ensures ForgeRegistry.Valid(r) && Count(r) == |r.entries|
    {
      CountIsNumberOfEntries(forges);
      forges
    }

    /** `get_basename()`. */
    function GetBasename(): string
      reads this
    {
      basename
    }
  }

  /** The engine state the loop of `init` changes besides the registry. */
  datatype Trace = Trace(initialized: seq<string>, logFile: seq<string>, errorChannel: seq<string>)

  /** The ids initialised and the lines logged from trace `t0` to trace `t`,
      by a pass that has so far initialised `visited` and caught `failures`. */
  ghost predicate Logged(env: LogEnv, visited: seq<string>, failures: seq<Failure>, t: Trace, t0: Trace) {
    t.initialized == t0.initialized + visited &&
    t.logFile == t0.logFile + FileTrail(env, ErrorLevel, DefaultSource, FailureTexts(failures)) &&
    t.errorChannel == t0.errorChannel + FallbackTrail(env, ErrorLevel, DefaultSource, FailureTexts(failures))
  }

  /** Where the loop of `init` stands after position `i` of `snapshot`, with
      registry `r` and trace `t`, having started from trace `t0`: the rest of the
      pass from `r` completes the whole pass, and the ids initialised and the
      lines logged are those of the pass so far. */
  ghost predicate Midway(snapshot: Registry, i: nat, env: LogEnv, visited: seq<string>, failures: seq<Failure>,
                         r: Registry, t: Trace, t0: Trace)
  {
    ForgeRegistry.Valid(snapshot) && i <= |snapshot.order| &&
    Logged(env, visited, failures, t, t0) && Resumes(snapshot, i, r, visited, failures)
  }

  /** Logging one more turn of the loop. */
  lemma LoggedStep(env: LogEnv, visited: seq<string>, failures: seq<Failure>, t: Trace, t0: Trace,
                   id: string, e: Ending, t': Trace)
    requires Logged(env, visited, failures, t, t0)
    requires t'.initialized == t.initialized + [id]
    requires e.Throws? ==>
               var text := FailureText(Failure(id, e.thrown.message));
               t'.logFile == t.logFile + Written(env, ErrorLevel, DefaultSource, text) &&
               t'.errorChannel == t.errorChannel + FallenBack(env, ErrorLevel, DefaultSource, text)
    requires !e.Throws? ==> t'.logFile == t.logFile && t'.errorChannel == t.errorChannel
    ensures Logged(env, visited + [id], Caught(failures, id, e), t', t0)
  {
    assert t'.initialized == t0.initialized + (visited + [id]);
    if e.Throws? {
      var f := Failure(id, e.thrown.message);
      FailureTextsAppend(failures, f);
      TrailStep(env, FailureTexts(failures), FailureText(f), t0.logFile, t.logFile, t'.logFile,
                t0.errorChannel, t.errorChannel, t'.errorChannel);
    } else {
      assert Caught(failures, id, e) == failures;
    }
  }

  /** One more call of `log` extends both trails by its own lines. */
  lemma TrailStep(env: LogEnv, texts: seq<string>, text: string,
                  log0: seq<string>, log: seq<string>, log': seq<string>,
                  err0: seq<string>, err: seq<string>, err': seq<string>)
    requires log == log0 + FileTrail(env, ErrorLevel, DefaultSource, texts)
    requires log' == log + Written(env, ErrorLevel, DefaultSource, text)
    requires err == err0 + FallbackTrail(env, ErrorLevel, DefaultSource, texts)
    requires err' == err + FallenBack(env, ErrorLevel, DefaultSource, text)
    ensures log' == log0 + FileTrail(env, ErrorLevel, DefaultSource, texts + [text])
    ensures err' == err0 + FallbackTrail(env, ErrorLevel, DefaultSource, texts + [text])
  {
    TrailsAppend(env, ErrorLevel, DefaultSource, texts, text);
  }

  lemma MidwayAtStart(snapshot: Registry, env: LogEnv, t0: Trace)
    requires ForgeRegistry.Valid(snapshot)
    ensures Midway(snapshot, 0, env, [], [], snapshot, t0, t0)
  {
    ResumesAtStart(snapshot);
    assert t0.initialized + [] == t0.initialized && t0.logFile + [] == t0.logFile && t0.errorChannel + [] == t0.errorChannel;
  }

  /** A turn of the loop whose forge did not throw an \Error keeps the loop midway. */
  lemma MidwayStep(snapshot: Registry, i: nat, env: LogEnv, visited: seq<string>, failures: seq<Failure>,
                   r: Registry, t: Trace, t0: Trace, r': Registry, e: Ending, t': Trace)
    requires Midway(snapshot, i, env, visited, failures, r, t, t0) && i < |snapshot.order|
    requires (r', e) == RunForge(r, snapshot.entries[snapshot.order[i]]) && !(e.Throws? && e.thrown.Error?)
    requires t'.initialized == t.initialized + [snapshot.order[i]]
    requires e.Throws? ==>
               var text := FailureText(Failure(snapshot.order[i], e.thrown.message));
               t'.logFile == t.logFile + Written(env, ErrorLevel, DefaultSource, text) &&
               t'.errorChannel == t.errorChannel + FallenBack(env, ErrorLevel, DefaultSource, text)
    requires !e.Throws? ==> t'.logFile == t.logFile && t'.errorChannel == t.errorChannel
    ensures Midway(snapshot, i + 1, env, visited + [snapshot.order[i]], Caught(failures, snapshot.order[i], e), r', t', t0)
  {
    ResumesStep(snapshot, i, r, visited, failures, r', e);
    LoggedStep(env, visited, failures, t, t0, snapshot.order[i], e, t');
  }

  /** A turn of the loop whose forge threw an \Error ends the pass. */
  lemma MidwayStop(snapshot: Registry, i: nat, env: LogEnv, visited: seq<string>, failures: seq<Failure>,
                   r: Registry, t: Trace, t0: Trace, r': Registry, e: Ending)
    requires Midway(snapshot, i, env, visited, failures, r, t, t0) && i < |snapshot.order|
    requires (r', e) == RunForge(r, snapshot.entries[snapshot.order[i]]) && e.Throws? && e.thrown.Error?
    ensures var p := InitPass(snapshot);
            p == Pass(r', visited + [snapshot.order[i]], failures, Some(e.thrown)) &&
            Logged(env, p.visited, p.failures, Trace(t.initialized + [snapshot.order[i]], t.logFile, t.errorChannel), t0)
  {
    ResumesStop(snapshot, i, r, visited, failures, r', e);
  }

  /** The loop has gone through the whole snapshot: the pass is complete. */
  lemma MidwayEnd(snapshot: Registry, env: LogEnv, visited: seq<string>, failures: seq<Failure>,
                  r: Registry, t: Trace, t0: Trace)
    requires Midway(snapshot, |snapshot.order|, env, visited, failures, r, t, t0)
    ensures var p := InitPass(snapshot);
            p == Pass(r, visited, failures, None) && Logged(env, p.visited, p.failures, t, t0)
  {
    ResumesEnd(snapshot, r, visited, failures);
  }

  /** The `k`-th failure caught by the loop of `init` is logged as its own ERROR
      line from HEART, naming the forge: in the log file when the file route is
      open and writes succeed, prefixed on the error channel when the fallback
      route is taken. */
  lemma FailureLines(env: LogEnv, failures: seq<Failure>, k: nat)
    requires k < |failures|
    ensures RouteOf(env) == ToFile && env.appendOk ==>
              FileTrail(env, ErrorLevel, DefaultSource, FailureTexts(failures))[k] ==
              Entry(env.now, ErrorLevel, DefaultSource, FailureText(failures[k]))
    ensures RouteOf(env) == ToFallback ==>
              FallbackTrail(env, ErrorLevel, DefaultSource, FailureTexts(failures))[k] ==
              FallbackPrefix + Entry(env.now, ErrorLevel, DefaultSource, FailureText(failures[k]))
  {
    FailureTextsAt(failures, k);
    if RouteOf(env) == ToFile && env.appendOk {
      FileTrailAt(env, ErrorLevel, DefaultSource, FailureTexts(failures), k);
    }
    if RouteOf(env) == ToFallback {
      FallbackTrailAt(env, ErrorLevel, DefaultSource, FailureTexts(failures), k);
    }
  }

  /** What the static `uninstall` does outside the engine. */
  datatype Effect = Unlinked(file: string) | CacheFlushed | Fired(hook: string)

  /** The effects of `uninstall()`: `logfile` is what `get_instance()->get_logfile()`
      gave (None when `get_instance` threw, which `uninstall` swallows),
      `logExists` is `file_exists($logfile)`, and `backups` what `glob($logfile . '.*.bak')`
      returned (None for `false`). */
  function UninstallEffects(logfile: Option<string>, logExists: bool, backups: Option<seq<string>>): seq<Effect> {
    (if logfile.Some? && logExists
     then [Unlinked(logfile.value)] + (if backups.Some? then Unlinks(backups.value) else [])
     else [])
    + [CacheFlushed, Fired(UninstallHook)]
  }

  function Unlinks(files: seq<string>): seq<Effect> {
    seq(|files|, k requires 0 <= k < |files| => Unlinked(files[k]))
  }

  /** Whatever happens, `uninstall` ends by flushing the cache and firing the
      uninstall action. Without an engine, that is all it does. */
  lemma UninstallAlwaysFinishes(logfile: Option<string>, logExists: bool, backups: Option<seq<string>>)
    ensures var es := UninstallEffects(logfile, logExists, backups);
            |es| >= 2 && es[|es| - 2..] == [CacheFlushed, Fired(UninstallHook)]
    ensures logfile.None? ==> UninstallEffects(logfile, logExists, backups) == [CacheFlushed, Fired(UninstallHook)]
  {
  }

  /** Files are deleted only when the engine was booted and its log file existed,
      and then only the log file and the backups `glob` found. */
  lemma UninstallDeletesOnlyFound(logfile: Option<string>, logExists: bool, backups: Option<seq<string>>)
    ensures var es := UninstallEffects(logfile, logExists, backups);
            forall k :: 0 <= k < |es| && es[k].Unlinked? ==>
              logfile.Some? && logExists &&
              (es[k].file == logfile.value || (backups.Some? && es[k].file in backups.value))
  {
    var es := UninstallEffects(logfile, logExists, backups);
    forall k | 0 <= k < |es| && es[k].Unlinked?
      ensures logfile.Some? && logExists &&
              (es[k].file == logfile.value || (backups.Some? && es[k].file in backups.value))
    {
      if logfile.Some? && logExists && k > 0 && backups.Some? && k <= |backups.value| {
        assert es[k] == Unlinks(backups.value)[k - 1];
      }
    }
  }

  /** `b` matches the pattern `<log>.*.bak`: the log path, a dot, any run of
      characters without `/`, and ".bak". */
  predicate IsBackupOf(b: string, log: string) {
    |b| >= |log| + 5 && b[..|log| + 1] == log + "." && b[|b| - 4..] == ".bak" &&
    '/' !in b[|log| + 1..|b| - 4]
  }

  /** When `glob` returns what its pattern `<logfile>.*.bak` matches, every file
      uninstall deletes is the log file or one of its backups. */
  lemma UninstallDeletesOnlyLogs(logfile: Option<string>, logExists: bool, backups: Option<seq<string>>)
    requires logfile.Some? && backups.Some? ==>
               forall b :: b in backups.value ==> IsBackupOf(b, logfile.value)
    ensures var es := UninstallEffects(logfile, logExists, backups);
            forall k :: 0 <= k < |es| && es[k].Unlinked? ==>
              logfile.Some? && (es[k].file == logfile.value || IsBackupOf(es[k].file, logfile.value))
  {
    UninstallDeletesOnlyFound(logfile, logExists, backups);
  }

  /** A second uninstall, once the log file is gone, deletes nothing. */
  lemma UninstallAgain(logfile: Option<string>, backups: Option<seq<string>>)
    ensures UninstallEffects(logfile, false, backups) == [CacheFlushed, Fired(UninstallHook)]
  {
  }

  /** The PHP process: the static `Engine::$instance` slot and the outside
      effects of the static `uninstall`. */
  class Process {
    var instance: Engine?
    var effects: seq<Effect>

    ghost predicate Valid()
      reads this, instance
    {
      instance != null ==> instance.Valid()
    }

    constructor ()
      ensures Valid() && instance == null && effects == []
    {
      instance := null;
      effects := [];
    }

    /** `Engine::boot($pluginfile)`. */
    method Boot(pluginfile: string, dirPath: string, dirUrl: string, pluginBasename: string, contentDir: string)
      returns (r: Result<Engine>)
      requires Valid()
      modifies this`instance
      ensures Valid()
      ensures old(instance) != null ==> r == Throw(Exception(AlreadyBootedMessage)) && instance == old(instance)
      ensures old(instance) == null ==>
                r.Ok? && fresh(r.value) && instance == r.value &&
                r.value.pluginfile == pluginfile && r.value.logfile == contentDir + LogFileName &&
                r.value.forges == NoForges && r.value.token == None
    {
      if instance != null {
        return Throw(Exception(AlreadyBootedMessage));
      }
      var e := new Engine(pluginfile, dirPath, dirUrl, pluginBasename, contentDir);
      instance := e;
      r := Ok(e);
    }

    /** `Engine::get_instance()`. */
    function GetInstance(): (r: Result<Engine>)
      reads this
      ensures r.Ok? <==> instance != null
      ensures r.Ok? ==> r.value == instance
      ensures r.Throw? ==> r.thrown == Exception(NotBootedMessage)
    {
      if instance == null then Throw(Exception(NotBootedMessage)) else Ok(instance)
    }

    /** `Engine::activate()`: flushes the object cache. */
    method Activate()
      modifies this`effects
      ensures effects == old(effects) + [CacheFlushed]
    {
      effects := effects + [CacheFlushed];
    }

    /** `Engine::deactivate()`: flushes the object cache. */
    method Deactivate()
      modifies this`effects
      ensures effects == old(effects) + [CacheFlushed]
    {
      effects := effects + [CacheFlushed];
    }

    /** `Engine::uninstall()`; see `UninstallEffects` for the inputs. */
    method Uninstall(logExists: bool, backups: Option<seq<string>>)
      modifies this`effects
      ensures effects == old(effects) +
                UninstallEffects(if instance == null then None else Some(instance.logfile), logExists, backups)
    {
      var got := GetInstance();
      if got.Ok? && logExists {
        var logfile := got.value.logfile;
        effects := effects + [Unlinked(logfile)];
        if backups.Some? {
          var files := backups.value;
          var i := 0;
          while i < |files|
            invariant 0 <= i <= |files|
            invariant effects == old(effects) + [Unlinked(logfile)] + Unlinks(files[..i])
          {
            assert Unlinks(files[..i + 1]) == Unlinks(files[..i]) + [Unlinked(files[i])];
            effects := effects + [Unlinked(files[i])];
            i := i + 1;
          }
          assert files[..i] == files;
        }
      }
      effects := effects + [CacheFlushed, Fired(UninstallHook)];
    }
  }

  /** A second boot fails and leaves the first engine in place, which
      `get_instance` keeps returning. */
  method SingletonScenario(p: Process) returns (first: Result<Engine>, second: Result<Engine>)
    requires p.Valid() && p.instance == null
    modifies p`instance
    ensures first.Ok? && second == Throw(Exception(AlreadyBootedMessage))
    ensures p.GetInstance() == Ok(first.value)
  {
    first := p.Boot("/wp/plugins/heart/poeticsoft-heart.php", "/wp/plugins/heart/", "https://example.org/heart/",
                    "heart/poeticsoft-heart.php", "/wp/content");
    second := p.Boot("/other.php", "/", "https://example.org/", "other.php", "/wp/content");
  }
}
