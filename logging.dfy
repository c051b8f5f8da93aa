/**
 * The pure part of `Engine::log`: the debug gate, the line format, and the
 * choice between the dedicated log file and PHP's error channel.
 */
module Logging {
  import opened Php

  /** PHP_EOL, taken as a single line feed. */
  const EOL := "\n"
  const DefaultLevel := "INFO"
  const DefaultSource := "HEART"
  const FallbackPrefix := "HEART_LOG_FALLBACK: "

  /** The `$mensaje` argument: a string, or any other value, which `log`
      serialises with `wp_json_encode(..., JSON_PRETTY_PRINT)`; `json` is that
      serialisation, supplied from outside. */
  datatype Message = Text(s: string) | Structured(json: string)

  function TextOf(m: Message): string {
    match m
    case Text(s) => s
    case Structured(json) => json
  }

  /** The facts `log` consults: WP_DEBUG, `current_time('Y-m-d H:i:s')`,
      `is_writable(dirname($logfile))`, `file_exists($logfile)`,
      `is_writable($logfile)`, and what `error_log(..., 3, $logfile)` returns. */
  datatype LogEnv = LogEnv(
    debug: bool,
    now: string,
    dirWritable: bool,
    fileExists: bool,
    fileWritable: bool,
    appendOk: bool)

  /** Where a call to `log` sends its line. */
  datatype Route = Silent | ToFile | ToFallback

  function RouteOf(env: LogEnv): Route {
    if !env.debug then Silent
    else if env.dirWritable || (env.fileExists && env.fileWritable) then ToFile
    else ToFallback
  }

  /** What one call of `log` appends to the log file: its line when the file
      route is taken and `error_log` succeeds, nothing otherwise. */
  function Written(env: LogEnv, nivel: string, forge: string, text: string): seq<string> {
    if RouteOf(env) == ToFile && env.appendOk then [Entry(env.now, nivel, forge, text)] else []
  }

  /** What one call of `log` sends to PHP's error channel. */
  function FallenBack(env: LogEnv, nivel: string, forge: string, text: string): seq<string> {
    if RouteOf(env) == ToFallback then [FallbackPrefix + Entry(env.now, nivel, forge, text)] else []
  }

  /** The log-file lines of successive calls of `log` with the same facts. */
  function FileTrail(env: LogEnv, nivel: string, forge: string, texts: seq<string>): (trail: seq<string>)
    ensures RouteOf(env) == ToFile && env.appendOk ==> |trail| == |texts|
    ensures !(RouteOf(env) == ToFile && env.appendOk) ==> trail == []
    decreases |texts|
  {
    if texts == [] then []
    else FileTrail(env, nivel, forge, texts[..|texts| - 1]) + Written(env, nivel, forge, texts[|texts| - 1])
  }

  /** The error-channel lines of successive calls of `log` with the same facts. */
  function FallbackTrail(env: LogEnv, nivel: string, forge: string, texts: seq<string>): (trail: seq<string>)
    ensures RouteOf(env) == ToFallback ==> |trail| == |texts|
    ensures RouteOf(env) != ToFallback ==> trail == []
    decreases |texts|
  {
    if texts == [] then []
    else FallbackTrail(env, nivel, forge, texts[..|texts| - 1]) + FallenBack(env, nivel, forge, texts[|texts| - 1])
  }

  lemma TrailsAppend(env: LogEnv, nivel: string, forge: string, texts: seq<string>, t: string)
    ensures FileTrail(env, nivel, forge, texts + [t]) == FileTrail(env, nivel, forge, texts) + Written(env, nivel, forge, t)
    ensures FallbackTrail(env, nivel, forge, texts + [t]) == FallbackTrail(env, nivel, forge, texts) + FallenBack(env, nivel, forge, t)
  {
    assert (texts + [t])[..|texts|] == texts;
  }

  /** With the file route open and writes succeeding, the `k`-th call appended
      exactly its own line. */
  lemma {:induction false} FileTrailAt(env: LogEnv, nivel: string, forge: string, texts: seq<string>, k: nat)
    requires RouteOf(env) == ToFile && env.appendOk && k < |texts|
    ensures FileTrail(env, nivel, forge, texts)[k] == Entry(env.now, nivel, forge, texts[k])
    decreases |texts|
  {
    var init := texts[..|texts| - 1];
    if k < |init| {
      FileTrailAt(env, nivel, forge, init, k);
      assert init[k] == texts[k];
    }
  }

  /** When the fallback route is taken, the `k`-th call sent exactly its own
      line, prefixed, to the error channel. */
  lemma {:induction false} FallbackTrailAt(env: LogEnv, nivel: string, forge: string, texts: seq<string>, k: nat)
    requires RouteOf(env) == ToFallback && k < |texts|
    ensures FallbackTrail(env, nivel, forge, texts)[k] == FallbackPrefix + Entry(env.now, nivel, forge, texts[k])
    decreases |texts|
  {
    var init := texts[..|texts| - 1];
    if k < |init| {
      FallbackTrailAt(env, nivel, forge, init, k);
      assert init[k] == texts[k];
    }
  }

  /** `"[{$fecha}] [{$nivel}] [{$forge}]: {$text}" . PHP_EOL` */
  function Entry(fecha: string, nivel: string, forge: string, text: string): string {
    "[" + fecha + "] [" + nivel + "] [" + forge + "]: " + text + EOL
  }

  /** The four fields of a log line. */
  datatype Line = Line(fecha: string, nivel: string, forge: string, text: string)

  /** The first position of `c` in `s`. */
  function Find(s: string, c: char): (k: Option<nat>)
    ensures k.Some? ==> k.value < |s| && s[k.value] == c && c !in s[..k.value]
    ensures k.None? ==> c !in s
  {
    if s == [] then None
    else if s[0] == c then Some(0)
    else match Find(s[1..], c)
      case None => None
      case Some(j) => assert s[..j + 1] == [s[0]] + s[1..][..j]; Some(j + 1)
  }

  /** Splits `"[" + a + "]" + rest` into `a` and `rest`, `a` free of ']'. */
  function Bracketed(s: string): Option<(string, string)> {
    if |s| == 0 || s[0] != '[' then None
    else match Find(s[1..], ']')
      case None => None
      case Some(k) => Some((s[1..][..k], s[1..][k + 1..]))
  }

  /** Reads a log line back into its fields. */
  function ParseEntry(line: string): Option<Line> {
    match Bracketed(line)
    case None => None
    case Some((fecha, r1)) =>
      if |r1| == 0 || r1[0] != ' ' then None
      else match Bracketed(r1[1..])
        case None => None
        case Some((nivel, r2)) =>
          if |r2| == 0 || r2[0] != ' ' then None
          else match Bracketed(r2[1..])
            case None => None
            case Some((forge, r3)) =>
              if |r3| < 3 || r3[..2] != ": " || r3[|r3| - 1..] != EOL then None
              else Some(Line(fecha, nivel, forge, r3[2..|r3| - 1]))
  }

  /** What `Bracketed` splits off was a bracketed field free of ']'. */
  lemma BracketedJoins(s: string)
    requires Bracketed(s).Some?
    ensures var (a, rest) := Bracketed(s).value;
            ']' !in a && s == "[" + a + "]" + rest
  {
    var k := Find(s[1..], ']').value;
    var t := s[1..];
    assert t == t[..k] + [']'] + t[k + 1..];
    assert s == [s[0]] + t;
  }

  /** Every line `ParseEntry` accepts is the entry of the fields it returns,
      whose first three hold no ']': together with `EntryRoundTrip`, the line
      format and its reading are inverse to each other. */
  lemma ParseEntryInverse(line: string)
    requires ParseEntry(line).Some?
    ensures var l := ParseEntry(line).value;
            ']' !in l.fecha && ']' !in l.nivel && ']' !in l.forge &&
            Entry(l.fecha, l.nivel, l.forge, l.text) == line
  {
    match Bracketed(line)
    case Some((fecha, r1)) =>
      BracketedJoins(line);
      match Bracketed(r1[1..])
      case Some((nivel, r2)) =>
        BracketedJoins(r1[1..]);
        match Bracketed(r2[1..])
        case Some((forge, r3)) =>
          BracketedJoins(r2[1..]);
          EntryJoins(line, fecha, r1, nivel, r2, forge, r3);
  }

  /** The pieces `ParseEntry` cuts a line into put back together give the line. */
  lemma EntryJoins(line: string, fecha: string, r1: string, nivel: string, r2: string, forge: string, r3: string)
    requires line == "[" + fecha + "]" + r1
    requires |r1| > 0 && r1[0] == ' ' && r1[1..] == "[" + nivel + "]" + r2
    requires |r2| > 0 && r2[0] == ' ' && r2[1..] == "[" + forge + "]" + r3
    requires |r3| >= 3 && r3[..2] == ": " && r3[|r3| - 1..] == EOL
    ensures line == Entry(fecha, nivel, forge, r3[2..|r3| - 1])
  {
    var text := r3[2..|r3| - 1];
    assert r3 == r3[..2] + text + r3[|r3| - 1..];
    assert r2 == [r2[0]] + r2[1..] && r1 == [r1[0]] + r1[1..];
  }

  lemma {:induction false} FindAfter(a: string, c: char, rest: string)
    requires c !in a
    ensures Find(a + [c] + rest, c) == Some(|a|)
    decreases |a|
  {
    if a != [] {
      assert (a + [c] + rest)[0] == a[0];
      assert (a + [c] + rest)[1..] == a[1..] + [c] + rest;
      FindAfter(a[1..], c, rest);
    }
  }

  lemma BracketedSplits(s: string, a: string, rest: string)
    requires ']' !in a && s == "[" + a + "]" + rest
    ensures Bracketed(s) == Some((a, rest))
  {
    var t := a + [']'] + rest;
    assert s[1..] == t;
    FindAfter(a, ']', rest);
    assert t[..|a|] == a && t[|a| + 1..] == rest;
  }

  /** The line format is unambiguous: as long as date, level and source hold no
      ']', every field of a written line can be read back. */
  lemma EntryRoundTrip(fecha: string, nivel: string, forge: string, text: string)
    requires ']' !in fecha && ']' !in nivel && ']' !in forge
    ensures ParseEntry(Entry(fecha, nivel, forge, text)) == Some(Line(fecha, nivel, forge, text))
  {
    var r3 := ": " + text + EOL;
    var r2 := " [" + forge + "]" + r3;
    var r1 := " [" + nivel + "]" + r2;
    var e := Entry(fecha, nivel, forge, text);
    EntryPieces(fecha, nivel, forge, text, r1, r2, r3);
    BracketedSplits(e, fecha, r1);
    BracketedSplits(r1[1..], nivel, r2);
    BracketedSplits(r2[1..], forge, r3);
    ParseEntrySteps(e, fecha, r1, nivel, r2, forge, r3);
  }

  lemma EntryPieces(fecha: string, nivel: string, forge: string, text: string, r1: string, r2: string, r3: string)
    requires r3 == ": " + text + EOL && r2 == " [" + forge + "]" + r3 && r1 == " [" + nivel + "]" + r2
    ensures Entry(fecha, nivel, forge, text) == "[" + fecha + "]" + r1
    ensures r1[0] == ' ' && r1[1..] == "[" + nivel + "]" + r2
    ensures r2[0] == ' ' && r2[1..] == "[" + forge + "]" + r3
    ensures |r3| >= 3 && r3[..2] == ": " && r3[|r3| - 1..] == EOL && r3[2..|r3| - 1] == text
  {
  }

  lemma ParseEntrySteps(line: string, fecha: string, r1: string, nivel: string, r2: string, forge: string, r3: string)
    requires Bracketed(line) == Some((fecha, r1))
    requires |r1| > 0 && r1[0] == ' ' && Bracketed(r1[1..]) == Some((nivel, r2))
    requires |r2| > 0 && r2[0] == ' ' && Bracketed(r2[1..]) == Some((forge, r3))
    requires |r3| >= 3 && r3[..2] == ": " && r3[|r3| - 1..] == EOL
    ensures ParseEntry(line) == Some(Line(fecha, nivel, forge, r3[2..|r3| - 1]))
  {
  }

  /** The date the line carries: the line opens with "[" and the date. */
  lemma EntryShape(fecha: string, nivel: string, forge: string, text: string)
    ensures var e := Entry(fecha, nivel, forge, text);
            |e| == |fecha| + |nivel| + |forge| + |text| + 11 &&
            e[..1 + |fecha|] == "[" + fecha && e[|e| - 1 - |text|..] == text + EOL
  {
  }
}
