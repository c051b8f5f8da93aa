# poeticsoft-heart: the Engine and the Inspector, in Dafny

Heart is the core of a family of WordPress plugins. Its `Engine` is a process-wide singleton. It keeps a registry of *forges* (modules implementing `ForgeInterface`) keyed by string id. It also:
- runs the startup protocol: a registration hook, then one `init` call per registered forge in insertion order, each `\Exception` caught and logged, then a booted hook;
- writes a debug log, with a fallback to PHP's error channel;
- hands out a lazily created security token;
- cleans up its log files on uninstall.

The `Inspector` builds a diagnostic report of the engine and of its log file, and a system-information summary. It also guards the diagnostic admin panel and prepends a "Diagnóstico" link to the plugin's action links.

The project is organised as follows.
- `php.dfy` (module `Php`) holds the PHP semantics the code relies on:
  - exceptions as values: `\Exception` versus `\Error`, which `catch (\Exception)` lets through;
  - `empty()` on strings;
  - the decimal text of an integer.
- `forges.dfy` (module `Forges`) holds the forge contract. A forge's `init` is given as data: the registrations it makes through the engine, in order, and how it ends (returns, throws an `\Exception`, throws an `\Error`).
- `registry.dfy` (module `ForgeRegistry`) holds the registry as an ordered PHP array: assigning to an existing key keeps its position. It also holds `registrar_forge` as a value, with its properties.
- `startup.dfy` (module `Startup`) holds the forge pass of `init` as a function of the registry snapshot the `foreach` iterates, with its properties.
- `logging.dfy` (module `Logging`) holds the pure part of `log`: the debug gate, the line format and its parse-back, and the choice between file and fallback.
- `heart.dfy` (module `Heart`) holds the stateful code:
  - the class `Engine`, whose methods update its registry, token, log file and error channel in place;
  - the class `Process`, for the static `Engine::$instance` slot and the outside effects of `uninstall`/`activate`/`deactivate`;
  - the loop of `init`, proved against `Startup.InitPass`.
- `inspector.dfy` (module `Inspector`) models:
  - `run_diagnostic`, built key by key into a PHP array;
  - `get_system_info`;
  - the guards of `render_diagnostic_panel`;
  - `add_action_link`, with PHP's `array_unshift` renumbering.

Facts from the environment are parameters:
- WP_DEBUG, `current_time` and the filesystem answers `is_writable`, `file_exists` and `glob`;
- the result of `error_log`;
- `wp_create_nonce`, `wp_verify_nonce` and `current_user_can`;
- `phpversion()` and `$wp_version`.

How `init` ends, as the code is written:
- `init` catches only `\Exception` (Engine.php:156-163). A forge whose `init` throws an `\Error` (a `TypeError`, for instance) leaves `init` at once: the remaining forges are not initialised and the booted hook is not fired.
- `do_action('poeticsoft_heart_register')` (Engine.php:152) is outside the `try`. An `InvalidArgumentException` thrown by a listener's `registrar_forge` leaves `init` before any forge runs.
- Otherwise `init` completes and fires the booted hook. `Heart.Engine.Init` states all three endings.
- The `foreach` iterates a copy of `$forges`. A forge registered during the pass is stored but not initialised in that pass (`Startup.LateRegistration`).

## Model

| member | source | states |
|---|---|---|
| Php.Empty | poeticsoft-heart/class/Heart/Engine.php:136 | definition: PHP `empty()` applied to a string, true for `""` and `"0"` |
| Php.EmptyExactly | poeticsoft-heart/class/Heart/Engine.php:136 | restates the definition of `Empty`: `empty()` on a string holds for `""` and `"0"` and for nothing else |
| Php.DecimalString | poeticsoft-heart/class/Heart/Inspector.php:31 | the text of a count is a non-empty digit string, with a leading `0` only for zero |
| Php.DecimalRoundTrip | poeticsoft-heart/class/Heart/Inspector.php:31 | reading the digits of a count back gives the count |
| Php.DecimalStringInjective | poeticsoft-heart/class/Heart/Inspector.php:31 | different counts print differently |
| ForgeRegistry.Count | poeticsoft-heart/class/Heart/Engine.php:233-236 | definition: `count()` of the registry, the length of its insertion order; related to the entries by `CountIsNumberOfEntries` |
| ForgeRegistry.Put | poeticsoft-heart/class/Heart/Engine.php:140 | definition: `$forges[$id] = $forge`, a new id appended to the order and an existing one left in place; its properties are `PutValid`, `PutStores`, `PutKeepsOrder` and `PutTwice` |
| ForgeRegistry.Register | poeticsoft-heart/class/Heart/Engine.php:134-142 | definition: `registrar_forge` as a value, the `InvalidArgumentException` for an empty id and `Put` otherwise; its property is `RegisterRejectsEmpty` |
| ForgeRegistry.NoForgesValid | poeticsoft-heart/class/Heart/Engine.php:23 | the registry starts empty and well formed |
| ForgeRegistry.PutValid | poeticsoft-heart/class/Heart/Engine.php:140 | `$forges[$id] = $forge` keeps every id once in the order, with order and keys agreeing |
| ForgeRegistry.PutStores | poeticsoft-heart/class/Heart/Engine.php:140 | after the assignment `id` holds the new forge, and every other id keeps its presence and its forge |
| ForgeRegistry.PutKeepsOrder | poeticsoft-heart/class/Heart/Engine.php:140 | existing ids keep their positions; a new id goes last and grows the count by one; an overwrite keeps order and count |
| ForgeRegistry.PutTwice | poeticsoft-heart/class/Heart/Engine.php:140 | registering an id twice keeps one entry, holding the second forge, at the first position |
| ForgeRegistry.CountIsNumberOfEntries | poeticsoft-heart/class/Heart/Engine.php:233-236 | `count($forges)` equals the number of registered ids |
| ForgeRegistry.RegisterRejectsEmpty | poeticsoft-heart/class/Heart/Engine.php:134-142 | `registrar_forge` throws exactly for `""` and `"0"`, the throw is an `\Exception`, and on success the id holds the forge |
| ForgeRegistry.RegisterAll | poeticsoft-heart/class/Heart/Engine.php:134-142 | a run of registrations can only throw the empty-id exception, and never moves the ids already registered |
| ForgeRegistry.RegisterAllThrows | poeticsoft-heart/class/Heart/Engine.php:136-137 | a run of registrations stops with an exception if and only if one of its ids is empty |
| ForgeRegistry.RegisterAllLastWins | poeticsoft-heart/class/Heart/Engine.php:140 | after a run without empty ids, an id's forge is the last one given for it |
| ForgeRegistry.KeptUnlessRegistered | poeticsoft-heart/class/Heart/Engine.php:140 | an id no registration mentions keeps its forge |
| ForgeRegistry.RegisterAllStores | poeticsoft-heart/class/Heart/Engine.php:140 | a registration that no earlier one in the run stopped leaves its id in the registry |
| ForgeRegistry.RegisterAllValid | poeticsoft-heart/class/Heart/Engine.php:134-142 | registrations keep the registry well formed |
| Startup.FailureText | poeticsoft-heart/class/Heart/Engine.php:162 | the logged failure text starts with "Error al inicializar Forge " followed by the forge id |
| Startup.FailureTexts | poeticsoft-heart/class/Heart/Engine.php:160-162 | one logged text per caught failure |
| Startup.FailureTextsAt | poeticsoft-heart/class/Heart/Engine.php:160-162 | the k-th logged text is the text of the k-th failure |
| Startup.FailureTextsAppend | poeticsoft-heart/class/Heart/Engine.php:160-162 | step lemma of `FailureTexts`, its defining equation restated: one more failure appends its own text |
| Startup.RunForge | poeticsoft-heart/class/Heart/ForgeInterface.php:22 | a forge's `init` never moves registered ids, and an `\Error` out of it is the forge's own ending, never a rejected registration |
| Startup.InitFromContinues | poeticsoft-heart/class/Heart/Engine.php:154-164 | step lemma of `InitFrom`, its defining equation restated: a forge that did not throw an `\Error` is recorded as visited, with its caught failure if any, and the pass goes on with the rest |
| Startup.InitFromStops | poeticsoft-heart/class/Heart/Engine.php:154-164 | step lemma of `InitFrom`, its defining equation restated: a forge that threw an `\Error` ends the pass, with that `\Error` as its outcome |
| Startup.InitFromVisitsPrefix | poeticsoft-heart/class/Heart/Engine.php:154-164 | the pass initialises a prefix of the ids in order; all of them unless it stopped; it stops only on an `\Error`, and only after visiting the failing forge |
| Startup.InitFromValid | poeticsoft-heart/class/Heart/Engine.php:154-164 | the pass keeps the registry well formed |
| Startup.InitFrom | poeticsoft-heart/class/Heart/Engine.php:154-164 | definition: the pass over a list of ids looked up in the snapshot, each forge's `init` run on the registry as it then stands, an `\Exception` recorded and passed over, an `\Error` ending the pass |
| Startup.InitPass | poeticsoft-heart/class/Heart/Engine.php:154-164 | definition: the pass over the whole registry in insertion order, starting from that registry |
| Startup.FailuresWereVisited | poeticsoft-heart/class/Heart/Engine.php:160-162 | every recorded failure names a forge the pass initialised |
| Startup.PassKeepsRegistered | poeticsoft-heart/class/Heart/Engine.php:154-164 | forges' own registrations never remove or move an id that was registered |
| Startup.ResumesAtStart | poeticsoft-heart/class/Heart/Engine.php:154 | step lemma of `Resumes`, its defining equation restated: before the first turn the whole pass lies ahead |
| Startup.ResumesStep | poeticsoft-heart/class/Heart/Engine.php:154-164 | a turn without `\Error` advances the loop by one position of the snapshot |
| Startup.ResumesStop | poeticsoft-heart/class/Heart/Engine.php:154-164 | a turn with an `\Error` gives the outcome of the whole pass |
| Startup.ResumesEnd | poeticsoft-heart/class/Heart/Engine.php:154-164 | a loop that went through the whole snapshot has completed the pass |
| Startup.NoErrorVisitsAll | poeticsoft-heart/class/Heart/Engine.php:154-164 | when no forge ends with an `\Error`, every forge is initialised, in order, whatever the others threw, and the pass completes |
| Startup.InitPassAtMostOnce | poeticsoft-heart/class/Heart/Engine.php:154-164 | whatever the forges throw, no forge is initialised twice, and the forges initialised are a prefix of the insertion order |
| Startup.InitPassOnceEach | poeticsoft-heart/class/Heart/Engine.php:154-164 | provided no forge's `init` ends with an `\Error`: each registered forge is initialised exactly once, in insertion order |
| Startup.IsolationExample | poeticsoft-heart/class/Heart/Engine.php:154-164 | with forges a, b, c where b throws an `\Exception`, all three run in order, b's failure is recorded and the pass completes |
| Startup.LateNotInitialised | poeticsoft-heart/class/Heart/Engine.php:154 | a forge whose id was not registered when the pass began is not initialised in that pass |
| Startup.PassStoresRegistrations | poeticsoft-heart/class/Heart/Engine.php:154-164 | a registration that a forge initialised in the pass makes, and that no earlier registration of that forge stopped, ends up in the registry the pass leaves |
| Startup.LateRegistration | poeticsoft-heart/class/Heart/Engine.php:154-164 | for every registry: what a forge initialised in the pass registers is stored, and a new id so registered is not initialised in that pass |
| Startup.LateRegistrationExample | poeticsoft-heart/class/Heart/Engine.php:154 | in one example, forge "a" registers "late" during the pass: "late" is stored after "a" and only "a" is initialised |
| Logging.Written | poeticsoft-heart/class/Heart/Engine.php:194-195 | definition: what one call appends to the log file, its entry when the file route is taken and `error_log` succeeds, nothing otherwise |
| Logging.FallenBack | poeticsoft-heart/class/Heart/Engine.php:198 | definition: what one call sends to the error channel, "HEART_LOG_FALLBACK: " and its entry on the fallback route, nothing otherwise |
| Logging.FileTrail | poeticsoft-heart/class/Heart/Engine.php:194-195 | successive calls append one file line each when the file route is open and the writes succeed, and none otherwise |
| Logging.FallbackTrail | poeticsoft-heart/class/Heart/Engine.php:198 | successive calls send one fallback line each when the fallback route is taken, and none otherwise |
| Logging.TrailsAppend | poeticsoft-heart/class/Heart/Engine.php:194-198 | step lemma of `FileTrail` and `FallbackTrail`, its defining equation restated: one more call extends each trail by that call's own lines |
| Logging.FileTrailAt | poeticsoft-heart/class/Heart/Engine.php:190-195 | the k-th file line is exactly the entry of the k-th call |
| Logging.FallbackTrailAt | poeticsoft-heart/class/Heart/Engine.php:190-198 | the k-th fallback line is "HEART_LOG_FALLBACK: " followed by the entry of the k-th call |
| Logging.Entry | poeticsoft-heart/class/Heart/Engine.php:192 | definition: the line `[fecha] [nivel] [forge]: text` followed by PHP_EOL; its properties are `EntryRoundTrip`, `ParseEntryInverse` and `EntryShape` |
| Logging.ParseEntry | poeticsoft-heart/class/Heart/Engine.php:192 | definition: an independent reading of a log line back into its four fields, the partner of `Entry` |
| Logging.EntryRoundTrip | poeticsoft-heart/class/Heart/Engine.php:190-192 | a log line `[fecha] [nivel] [forge]: text` + EOL parses back into its four fields when the first three hold no `]` |
| Logging.ParseEntryInverse | poeticsoft-heart/class/Heart/Engine.php:192 | every line the reading accepts is the entry of the fields it returns, whose first three hold no `]`: with `EntryRoundTrip`, format and reading are inverse |
| Logging.EntryShape | poeticsoft-heart/class/Heart/Engine.php:192 | a log line is 11 characters longer than its fields, opens with `[` and the date, and ends with the text and EOL |
| Heart.LogPathNotEmpty | poeticsoft-heart/class/Heart/Engine.php:116 | the log file path is never one `empty()` accepts |
| Heart.Engine.constructor | poeticsoft-heart/class/Heart/Engine.php:108-124 | version "1.0.0", the plugin paths, the log path under the content directory, an empty registry and no token |
| Heart.Engine.RegistrarForge | poeticsoft-heart/class/Heart/Engine.php:134-142 | an empty id throws the `InvalidArgumentException` and leaves the registry unchanged; any other id returns true and assigns the forge |
| Heart.Engine.ApplyRegistrations | poeticsoft-heart/class/Heart/Engine.php:152 | the hook's registrations applied in order, stopping at the first that throws, give `RegisterAll`'s registry and exception |
| Heart.Engine.RunForgeInit | poeticsoft-heart/class/Heart/Engine.php:158 | `$forge->init($this)` leaves the registry and the ending that `RunForge` describes |
| Heart.Engine.Log | poeticsoft-heart/class/Heart/Engine.php:184-200 | returns true exactly when the file route is open and `error_log` succeeds; appends the formatted line to the file or the prefixed line to the fallback channel, and nothing with debug off |
| Heart.Engine.Init | poeticsoft-heart/class/Heart/Engine.php:149-173 | fires the register hook; a registration that throws ends `init` with nothing initialised; otherwise the registry, the forges initialised, the lines logged and the outcome are those of the pass over the post-hook registry, and the booted hook fires only if no `\Error` stopped it; the token is untouched |
| Heart.Engine.InitForges | poeticsoft-heart/class/Heart/Engine.php:154-164 | the loop leaves the registry, the `\Error` if any, the ids initialised and the ERROR lines logged exactly as the pass over the snapshot prescribes |
| Heart.Engine.InitStep | poeticsoft-heart/class/Heart/Engine.php:154-164 | one turn of the loop keeps it in step with the pass, or, on an `\Error`, completes the pass's outcome |
| Heart.Engine.InitForge | poeticsoft-heart/class/Heart/Engine.php:156-163 | calls the forge's `init` once, records the id, and logs one ERROR line naming the forge exactly when it threw an `\Exception` |
| Heart.Engine.GetToken | poeticsoft-heart/class/Heart/Engine.php:248-256 | the first call stores and returns the created nonce; later calls return the cached token and create nothing |
| Heart.Engine.GetVersion | poeticsoft-heart/class/Heart/Engine.php:221-224 | the version is "1.0.0" |
| Heart.Engine.GetLogfile | poeticsoft-heart/class/Heart/Engine.php:227-230 | the log path ends in "/poeticsoft-heart-debug.log" and is never empty |
| Heart.Engine.GetForges | poeticsoft-heart/class/Heart/Engine.php:233-236 | the registry is well formed, with its count equal to its number of entries |
| Heart.FailureLines | poeticsoft-heart/class/Heart/Engine.php:160-162 | the k-th caught failure is the k-th ERROR line from HEART naming the forge: in the file, or prefixed on the fallback channel |
| Heart.UninstallEffects | poeticsoft-heart/class/Heart/Engine.php:274-296 | definition: the effects of `uninstall`: the log file and each globbed backup deleted when the engine was booted and the log file exists, then the cache flush and the uninstall action |
| Heart.UninstallAlwaysFinishes | poeticsoft-heart/class/Heart/Engine.php:276-296 | uninstall always ends with the cache flush and the uninstall action; without an engine that is all it does |
| Heart.UninstallDeletesOnlyFound | poeticsoft-heart/class/Heart/Engine.php:281-289 | files are deleted only if the engine was booted and its log file existed, and only the log file and the backups found |
| Heart.UninstallDeletesOnlyLogs | poeticsoft-heart/class/Heart/Engine.php:281-289 | when `glob` returns only names matching `<logfile>.*.bak`, every deleted file is the log file or such a backup |
| Heart.UninstallAgain | poeticsoft-heart/class/Heart/Engine.php:281 | once the log file is gone, uninstall deletes nothing |
| Heart.Process.constructor | poeticsoft-heart/class/Heart/Engine.php:19 | the instance slot starts empty |
| Heart.Process.Boot | poeticsoft-heart/class/Heart/Engine.php:80-88 | with an instance, throws "Engine ya fue inicializado." and keeps it; otherwise stores and returns a new engine |
| Heart.Process.GetInstance | poeticsoft-heart/class/Heart/Engine.php:96-102 | returns the stored instance exactly when there is one, and throws "Engine no ha sido inicializado..." otherwise |
| Heart.Process.Activate | poeticsoft-heart/class/Heart/Engine.php:259-262 | flushes the cache |
| Heart.Process.Deactivate | poeticsoft-heart/class/Heart/Engine.php:265-268 | flushes the cache |
| Heart.Process.Uninstall | poeticsoft-heart/class/Heart/Engine.php:274-296 | the effects are those of `UninstallEffects` for the stored instance's log path, or for no engine when none is stored |
| Heart.SingletonScenario | poeticsoft-heart/class/Heart/Engine.php:80-102 | a first boot succeeds, a second throws, and `get_instance` still returns the first engine |
| Inspector.EngineStatic | poeticsoft-heart/class/Heart/Inspector.php:25 | a static call of a method Engine does not declare throws an `\Error` "Call to undefined method" |
| Inspector.CalledAccessorIsUndefined | poeticsoft-heart/class/Heart/Inspector.php:25 | `Engine::instance()` fails with an `\Error` even on a booted engine, where `get_instance()` returns it |
| Inspector.AssignKeeps | poeticsoft-heart/class/Heart/Inspector.php:29-46 | assignment keeps keys distinct and leaves the key holding the value; an existing key keeps its position, the length stays and every other entry is unchanged; a new key is appended last |
| Inspector.ForgesLabel | poeticsoft-heart/class/Heart/Inspector.php:31 | definition: the "Forges" entry, the package icon, a space and the count in decimal; its property is `ForgesLabelReadsBack` |
| Inspector.ForgesLabelReadsBack | poeticsoft-heart/class/Heart/Inspector.php:31 | the "Forges" entry is the package icon, a space and digits that read back as the count |
| Inspector.LogStatus | poeticsoft-heart/class/Heart/Inspector.php:38-42 | definition: the status of a log file at a non-empty path; its properties are `LogStatusTable`, `LogStatusDetermines` and `LogStatusReady` |
| Inspector.LogEntry | poeticsoft-heart/class/Heart/Inspector.php:34-43 | definition: the log entry of the report, "Log System" with the warning for an empty path and "Log Status" with the status otherwise |
| Inspector.LogStatusTable | poeticsoft-heart/class/Heart/Inspector.php:38-42 | restates the definition of `LogStatus`: the four cases of the log-status decision table |
| Inspector.LogStatusDetermines | poeticsoft-heart/class/Heart/Inspector.php:38-42 | equal statuses mean equal answers to "file exists" and to the permission that then matters |
| Inspector.LogStatusReady | poeticsoft-heart/class/Heart/Inspector.php:38-42 | the status carries a check mark exactly when the file can be written |
| Inspector.ReadyMeansFileRoute | poeticsoft-heart/class/Heart/Inspector.php:38-42 | a status with a check mark means `log` takes the file route under the same facts |
| Inspector.ReadOnlyFileStillRoutedToFile | poeticsoft-heart/class/Heart/Inspector.php:39 | an existing read-only file in a writable directory is reported "Sin permisos", yet `log` routes to the file |
| Inspector.Report | poeticsoft-heart/class/Heart/Inspector.php:29-46 | definition: the six entries of `run_diagnostic` in key order, against which `Collect` and `Diagnose` are proved; its properties are `ReportKeys`, `ReportCountsForges` and `BootedEngineHasLogStatus` |
| Inspector.ReportKeys | poeticsoft-heart/class/Heart/Inspector.php:29-46 | the six keys in order, all distinct, with exactly one of "Log System" and "Log Status"; "Log System" exactly when the path is empty |
| Inspector.BootedEngineHasLogStatus | poeticsoft-heart/class/Heart/Inspector.php:34-43 | for a booted engine the path is never empty, so the report carries "Log Status" |
| Inspector.ReportCountsForges | poeticsoft-heart/class/Heart/Inspector.php:31 | the "Forges" entry reports the number of registered forges |
| Inspector.Diagnose | poeticsoft-heart/class/Heart/Inspector.php:21-49 | the diagnostic via a given accessor: the accessor's exception, or the report of the instance it returned |
| Inspector.Collect | poeticsoft-heart/class/Heart/Inspector.php:29-46 | the key-by-key assignments build the six-entry report in insertion order |
| Inspector.RunDiagnosticAsWritten | poeticsoft-heart/class/Heart/Inspector.php:21-49 | as written, always an `\Error` for the undefined `Engine::instance()` |
| Inspector.RunDiagnostic | poeticsoft-heart/class/Heart/Inspector.php:21-49 | with `get_instance`: the not-booted exception before boot, the report afterwards |
| Inspector.SystemInfoVia | poeticsoft-heart/class/Heart/Inspector.php:61-72 | the summary via a given accessor propagates the accessor's exception |
| Inspector.SystemInfoAsWritten | poeticsoft-heart/class/Heart/Inspector.php:64 | as written, always an `\Error` for the undefined `Engine::instance()` |
| Inspector.GetSystemInfo | poeticsoft-heart/class/Heart/Inspector.php:61-72 | with `get_instance`: a summary exactly when booted, holding the two host versions, plugin version "1.0.0" and the number of registered forges |
| Inspector.SystemInfoAgreesWithReport | poeticsoft-heart/class/Heart/Inspector.php:31 | the summary's module count and the report's "Forges" entry agree |
| Inspector.SanitizeKey | poeticsoft-heart/class/Heart/Inspector.php:86 | `sanitize_key` never lengthens a key and keeps only lower-case letters, digits, `_` and `-` |
| Inspector.SanitizeKeyAppend | poeticsoft-heart/class/Heart/Inspector.php:86 | `sanitize_key` works character by character |
| Inspector.SanitizeKeyFixes | poeticsoft-heart/class/Heart/Inspector.php:86 | a key of key characters only is left unchanged |
| Inspector.SanitizeKeyIdempotent | poeticsoft-heart/class/Heart/Inspector.php:86 | sanitizing twice is sanitizing once |
| Inspector.TestMode | poeticsoft-heart/class/Heart/Inspector.php:86 | definition: the test-mode condition, the sanitized `test_forge` parameter (or "" when absent) equal to "1" |
| Inspector.TestModeExamples | poeticsoft-heart/class/Heart/Inspector.php:86 | test mode needs the parameter: "1", " 1" and "1!" turn it on; "01" and "true" do not |
| Inspector.RenderDiagnosticPanel | poeticsoft-heart/class/Heart/Inspector.php:80-96 | hidden without `manage_options` or outside test mode; denied with "Seguridad fallida" without a valid nonce; the report only after both checks pass and only for a booted engine. The report comes from the corrected `RunDiagnostic`. As written (Inspector.php:96 calling :25), every request that passes both guards would instead end in the undefined-method `\Error` that `RunDiagnosticAsWritten` shows |
| Inspector.ActionLink | poeticsoft-heart/class/Heart/Inspector.php:140-144 | the anchor holds the URL after `href="` and ends with the caption and `</a>` |
| Inspector.AddActionLink | poeticsoft-heart/class/Heart/Inspector.php:137-148 | the link comes first under key 0; the old links follow in order with their values; string keys are kept; integer keys are renumbered from 1 |
| Inspector.AllIndicesBefore | poeticsoft-heart/class/Heart/Inspector.php:146 | in a plain list every earlier link has an integer key |
| Inspector.AddActionLinkToList | poeticsoft-heart/class/Heart/Inspector.php:137-148 | for a plain list the result is the new link followed by the old links, keyed 0, 1, 2, ... |

## Left out

- Logging.Entry: PHP_EOL is taken as "\n". On a host where it is "\r\n", the line ends in two characters, and `ParseEntry`, `EntryRoundTrip` and `EntryShape` do not describe it.

- WordPress hooks (`add_action`, `do_action`, `add_filter`) are external. The register hook is the sequence of registrations its listeners make. The register and booted broadcasts are recorded in `fired`, and the uninstall broadcast is recorded in `effects`. This leaves out listeners' other effects, and exceptions from other listeners.
- `load_plugin_textdomain` and translation (`__`, `esc_html__`, `esc_html_e`) are external; translated strings are the Spanish source strings.
- The filesystem is not modelled: `is_writable`, `file_exists`, `file_put_contents`, `chmod`, `error_log`, `unlink`, `glob`. Its answers are inputs, and the log file and the error channel are sequences of appended lines.
- `ensure_log_availability` (Engine.php:207-218) is not modelled; it only touches the filesystem.
- `current_time`, `wp_json_encode`, `plugin_dir_path`, `plugin_dir_url`, `plugin_basename`, WP_CONTENT_DIR, `phpversion()` and `$wp_version` are inputs. The timestamp is one value for all lines of one `init`.
- `wp_create_nonce`, `wp_verify_nonce`, `current_user_can`, `admin_url`, `wp_nonce_url`, `esc_url` and `wp_die` are inputs, or, for `wp_die`, the `Denied` outcome.
- The HTML of `render_diagnostic_panel` (Inspector.php:100-128) is UI, so the panel's outcome is the report it would show.
- `__clone` and `__wakeup` (Engine.php:60-71) are PHP object-model details.
- `Admin`, `Updater`, `class/functions.php`, `poeticsoft-heart.php` and `uninstall.php` are hook wiring and delegators, not part of this model.
- A forge's `get_name`, `get_version` and `get_description` are data fields with no logic.
- PHP's conversion of numeric-string array keys to integers is not modelled, so the registry's keys are strings. `add_action_link` does model integer and string keys, because `array_unshift` treats them differently.
- Heart.Engine.GetBasename: it returns the `basename` field, which the constructor sets to `plugin_basename($pluginfile)` and nothing changes afterwards. Its callers are `load_plugin_textdomain` (Engine.php:169) and the name of the action-links filter in Admin.php:34, both hook wiring outside this model, so it has no contract of its own.
- Heart.Engine.Init: a forge's `init` is modelled as registrations followed by an ending. A real forge receives `$this` (Engine.php:158) and may also call `log()` or `get_token()`. Then Init's `token == old(token)` does not hold, and neither does the claim of `Init`, `InitForges` and `Heart.FailureLines` that the log file and the error channel grow by exactly the ERROR lines, the k-th failure being the k-th line.
- Heart.Engine.Init: one `LogEnv` serves every `log` call of a pass. PHP re-evaluates `current_time`, `is_writable`, `file_exists` and the result of `error_log` on each call (Engine.php:191-195), so it can change route or write outcome midway, for instance after a failed write. The model does not capture that. Its per-failure line positions (`Heart.FailureLines`) hold only while route and write outcome stay the same.
- Engine's constructor registering `init` on the WordPress `init` hook (Engine.php:121), and the `Admin` controller it creates (Engine.php:119), are hook wiring; `Heart.Engine.Init` is called directly.

## Findings

| source | as written | input that shows it | evidently intended | confidence | as-written member | corrected member |
|---|---|---|---|---|---|---|
| poeticsoft-heart/class/Heart/Inspector.php:25 | `run_diagnostic` fetches the engine with `Engine::instance()`, a method Engine does not declare (it declares `get_instance`, Engine.php:96), so every call throws an `\Error` "Call to undefined method" | any call, even after `Engine::boot` | `Engine::get_instance()`, giving the six-entry report on a booted engine | high; not executed | Inspector.RunDiagnosticAsWritten | Inspector.RunDiagnostic |
| poeticsoft-heart/class/Heart/Inspector.php:64 | `get_system_info` calls the same undefined `Engine::instance()` and always throws an `\Error` | any call, even after `Engine::boot` | `Engine::get_instance()`, giving the versions and the forge count | high; not executed | Inspector.SystemInfoAsWritten | Inspector.GetSystemInfo |
