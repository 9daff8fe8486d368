/** `BeetDebugPlugin`: which lifecycle logs are switched on, the marker
    resources that switch them, and the text of each log message. */
module BeetDebugPlugin {
  import opened Ecs

  datatype Plugin = Plugin(logOnRun: bool, logRunning: bool, logOnRunResult: bool, noStdout: bool)

  /** `Default`: log runs only, and never to stdout. */
  function Default(): (p: Plugin)
    ensures p.logOnRun && !p.logRunning && !p.logOnRunResult && p.noStdout
  {
    Plugin(true, false, false, true)
  }

  /** `with_result`: runs and results, still not to stdout. */
  function WithResult(): (p: Plugin)
    ensures p.logOnRun && !p.logRunning && p.logOnRunResult && p.noStdout
  {
    Plugin(true, false, true, true)
  }

  /** `with_all`: every log, still not to stdout. */
  function WithAll(): (p: Plugin)
    ensures p.logOnRun && p.logRunning && p.logOnRunResult && p.noStdout
  {
    Plugin(true, true, true, true)
  }

  /** The marker resources that gate the handlers. */
  datatype Marker = LogOnRunMarker | LogOnRunResultMarker | LogRunningMarker | LogToStdoutMarker

  /** The handlers `build` always registers; each runs only while its marker exists. */
  datatype Handler = LogOnRun | LogOnRunResult | LogToStdout | LogRunningSystem

  /** The markers a configuration initialises: one per set flag, and the
      stdout marker only when stdout is not disabled. */
  function Markers(p: Plugin): (m: set<Marker>)
    ensures LogOnRunMarker in m <==> p.logOnRun
    ensures LogOnRunResultMarker in m <==> p.logOnRunResult
    ensures LogRunningMarker in m <==> p.logRunning
    ensures LogToStdoutMarker in m <==> !p.noStdout
  {
    (if p.logOnRun then {LogOnRunMarker} else {})
      + (if p.logOnRunResult then {LogOnRunResultMarker} else {})
      + (if p.logRunning then {LogRunningMarker} else {})
      + (if !p.noStdout then {LogToStdoutMarker} else {})
  }

  /** None of the three constructors ever enables stdout; the default enables
      only the run log, `with_result` adds the result log, `with_all` every log. */
  lemma ConfigMarkers()
    ensures Markers(Default()) == {LogOnRunMarker}
    ensures Markers(WithResult()) == {LogOnRunMarker, LogOnRunResultMarker}
    ensures Markers(WithAll()) == {LogOnRunMarker, LogOnRunResultMarker, LogRunningMarker}
  {
    assert Markers(Default()) == {LogOnRunMarker};
  }

  /** The app being configured: its resources and its registered handlers. */
  class App {
    var resources: set<Marker>
    var handlers: seq<Handler>

    constructor ()
      ensures resources == {} && handlers == []
    {
      resources, handlers := {}, [];
    }

    /** `Plugin::build`. */
    method Build(p: Plugin)
      modifies this
      ensures handlers == old(handlers) + [LogOnRun, LogOnRunResult, LogToStdout, LogRunningSystem]
      ensures resources == old(resources) + Markers(p)
    {
      handlers := handlers + [LogOnRun, LogOnRunResult, LogToStdout, LogRunningSystem];
      if p.logOnRun {
        resources := resources + {LogOnRunMarker};
      }
      if p.logOnRunResult {
        resources := resources + {LogOnRunResultMarker};
      }
      if p.logRunning {
        resources := resources + {LogRunningMarker};
      }
      if !p.noStdout {
        resources := resources + {LogToStdoutMarker};
      }
    }
  }

  // ---- Messages ----

  /** `OnLogMessage::new_with_optional`: the prefix, a colon and a space, then
      the entity's name when it has one and its display text otherwise.
      `entityText` stands for Bevy's rendering of the entity. */
  function NewWithOptional(entityText: string, name: Option<string>, prefix: string): (msg: string)
    ensures |msg| >= |prefix| + 2 && msg[..|prefix| + 2] == prefix + ": "
    ensures msg[|prefix| + 2..] == if name.Some? then name.value else entityText
  {
    match name
    case Some(n) => prefix + ": " + n
    case None => prefix + ": " + entityText
  }

  /** `{:?}` of a run result. */
  function DebugText(r: RunResult): string
  {
    match r
    case Success => "Success"
    case Failure => "Failure"
  }

  /** `log_on_run`: one message for the running action, while its marker exists. */
  function OnRunMessages(resources: set<Marker>, entityText: string, name: Option<string>): seq<string>
  {
    if LogOnRunMarker in resources then [NewWithOptional(entityText, name, "OnRun")] else []
  }

  /** `log_on_run_result`: the result's debug text as the prefix. */
  function OnResultMessages(resources: set<Marker>, entityText: string, name: Option<string>, result: RunResult): seq<string>
  {
    if LogOnRunResultMarker in resources then [NewWithOptional(entityText, name, DebugText(result))] else []
  }

  /** `log_to_stdout`: every triggered message is printed while its marker exists. */
  function Printed(resources: set<Marker>, msgs: seq<string>): seq<string>
  {
    if LogToStdoutMarker in resources then msgs else []
  }

  /** A run or result message is logged exactly when the plugin created its
      marker, and reads "OnRun: <who>" or "Success: <who>" / "Failure: <who>",
      where <who> is the name when there is one; it reaches stdout exactly
      when stdout was not disabled. */
  lemma LogGating(p: Plugin, entityText: string, name: Option<string>, result: RunResult)
    ensures var who := if name.Some? then name.value else entityText;
      var run := OnRunMessages(Markers(p), entityText, name);
      var res := OnResultMessages(Markers(p), entityText, name, result);
      && (|run| == 1 <==> p.logOnRun) && (run == [] <==> !p.logOnRun)
      && (p.logOnRun ==> run[0] == "OnRun: " + who)
      && (|res| == 1 <==> p.logOnRunResult) && (res == [] <==> !p.logOnRunResult)
      && (p.logOnRunResult ==> res[0] == DebugText(result) + ": " + who)
      && Printed(Markers(p), run + res) == if p.noStdout then [] else run + res
  {
    var who := if name.Some? then name.value else entityText;
    if p.logOnRun {
      var m := NewWithOptional(entityText, name, "OnRun");
      assert m == m[..7] + m[7..];
    }
    if p.logOnRunResult {
      var pre := DebugText(result);
      var m := NewWithOptional(entityText, name, pre);
      assert m == m[..|pre| + 2] + m[|pre| + 2..];
    }
  }

  /** With the default configuration, a result is never logged and nothing
      reaches stdout, while a run is logged under the "OnRun" prefix. */
  lemma DefaultIsQuiet(entityText: string, name: Option<string>, result: RunResult)
    ensures OnResultMessages(Markers(Default()), entityText, name, result) == []
    ensures Printed(Markers(Default()), OnRunMessages(Markers(Default()), entityText, name)) == []
    ensures OnRunMessages(Markers(Default()), entityText, name) == [NewWithOptional(entityText, name, "OnRun")]
  {
    ConfigMarkers();
  }

  /** An entity carrying `Running`: its display text and its `Name`, if any. */
  datatype RunningEntity = RunningEntity(entityText: string, name: Option<string>)

  /** The "Running: ..." line for one running entity. */
  function RunningLine(r: RunningEntity): (line: string)
    ensures |line| >= 9 && line[..9] == "Running: "
    ensures line[9..] == if r.name.Some? then r.name.value else r.entityText
  {
    "Running: " + (if r.name.Some? then r.name.value else r.entityText)
  }

  /** `log_running`, once per frame: one line per running entity in query order. */
  function RunningLines(resources: set<Marker>, running: seq<RunningEntity>): (lines: seq<string>)
    ensures LogRunningMarker !in resources ==> lines == []
    ensures LogRunningMarker in resources ==>
      |lines| == |running| && forall i :: 0 <= i < |running| ==> lines[i] == RunningLine(running[i])
  {
    if LogRunningMarker in resources then seq(|running|, i requires 0 <= i < |running| => RunningLine(running[i])) else []
  }

  /** The `log_running` system's loop. */
  method LogRunning(resources: set<Marker>, running: seq<RunningEntity>) returns (lines: seq<string>)
    ensures lines == RunningLines(resources, running)
  {
    lines := [];
    if LogRunningMarker !in resources {
      return;
    }
    var i := 0;
    while i < |running|
      invariant 0 <= i <= |running|
      invariant |lines| == i && forall k :: 0 <= k < i ==> lines[k] == RunningLine(running[k])
    {
      var name := if running[i].name.Some? then running[i].name.value else running[i].entityText;
      lines := lines + ["Running: " + name];
      i := i + 1;
    }
  }
}
