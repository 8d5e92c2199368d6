/**
 * The scripted Fastboot device that records what a client sends: commands,
 * variable queries and downloads, with the replies and the device state they
 * lead to.
 */
module ScriptedDevice {
  import opened Common
  import opened TcpFraming
  import TraceCompare

  datatype Scenario = Scenario(
    arguments: seq<string>,
    terminalCommand: string,
    terminalOccurrences: nat,
    values: map<string, string>,
    sequences: map<string, seq<string>>,
    receivePayload: Option<seq<Byte>>,
    receiveChunks: seq<seq<Byte>>,
    informational: seq<(string, string)>,
    writesOutput: bool,
    outputEventPath: Option<string>,
    reconnectAfter: set<string>,
    digest: seq<Byte> -> string)

  datatype Event =
    | CliParse(arguments: seq<string>)
    | Getvar(name: string)
    | Command(text: string)
    | Data(fromHost: bool, size: nat, digest: string)
    | Note(note: string, message: string)
    | File(path: string, size: nat, digest: string)
    | Exit(code: int)

  datatype Artifact = Artifact(size: nat, digest: string)

  datatype Entry =
    | Named(name: string)
    | Stored(artifact: Artifact)
    | Partitions(partitions: map<string, Artifact>)
    | SuperUpdate(command: string, artifact: Artifact)
    | Names(names: seq<string>)

  datatype Reply = Line(kind: string, message: string) | Raw(bytes: seq<Byte>)

  datatype Outcome = Answer(reply: Option<Reply>) | Rejected

  datatype Recorder = Recorder(
    events: seq<Event>,
    expectedDataSize: Option<nat>,
    downloaded: Option<seq<Byte>>,
    downloadBuffer: seq<Byte>,
    pending: seq<Reply>,
    finished: bool,
    terminalSeen: nat,
    receiveIndex: nat,
    variableIndices: map<string, nat>,
    deviceState: map<string, Entry>)

  function Start(sc: Scenario): Recorder {
    Recorder([CliParse(sc.arguments)], None, None, [], [], false, 0, 0, map[], map["product" := Named("product_a")])
  }

  // ----- Text

  function Ascii(payload: seq<Byte>): Option<string> {
    if forall i :: 0 <= i < |payload| ==> payload[i] < 128 then
      Some(seq(|payload|, i requires 0 <= i < |payload| && payload[i] < 128 => payload[i] as char))
    else None
  }

  function HexNumber(text: string): Option<nat> {
    if text == "" then Some(0)
    else
      var high, low := HexNumber(text[..|text| - 1]), HexValue(text[|text| - 1] as int);
      if high.None? || low.None? then None else Some(high.value * 16 + low.value)
  }

  function Lower(text: string): string {
    seq(|text|, i requires 0 <= i < |text| =>
      if 'A' <= text[i] <= 'F' then (text[i] as int + 32) as char else text[i])
  }

  // ----- One message

  function Handled(sc: Scenario, s: Recorder, payload: seq<Byte>): (Recorder, Outcome) {
    if s.finished then (s, Rejected)
    else if s.expectedDataSize.Some? then ReceiveData(sc, s, payload)
    else
      var command := Ascii(payload);
      if command.None? then (s, Rejected)
      else if StartsWith(command.value, "getvar:") then AnswerVariable(sc, s, command.value)
      else RunCommand(sc, s.(events := s.events + [Command(command.value)]), command.value)
  }

  function ReceiveData(sc: Scenario, s: Recorder, payload: seq<Byte>): (Recorder, Outcome)
    requires s.expectedDataSize.Some?
  {
    var buffer := s.downloadBuffer + payload;
    if |buffer| > s.expectedDataSize.value then (s.(downloadBuffer := buffer), Rejected)
    else if |buffer| < s.expectedDataSize.value then (s.(downloadBuffer := buffer), Answer(None))
    else
      (s.(expectedDataSize := None, downloaded := Some(buffer), downloadBuffer := [],
          events := s.events + [Data(true, |buffer|, sc.digest(buffer)), Note("OKAY", "downloaded")],
          finished := sc.terminalCommand == "download"),
       Answer(Some(Line("OKAY", "downloaded"))))
  }

  const DEFAULT_VALUES: map<string, string> := map[
    "product" := "product_a", "max-download-size" := "0x00100000", "has-slot:system" := "no",
    "is-logical:system" := "no", "partition-type:system" := "raw", "is-userspace" := "no", "unlocked" := "yes"]

  /** The answer to a variable that was queried `asked` times before. */
  function VariableMessage(sc: Scenario, asked: nat, name: string): string {
    if Sequenced(sc, name) then sc.sequences[name][Min(asked, |sc.sequences[name]| - 1)]
    else if name in sc.values then sc.values[name]
    else if name in DEFAULT_VALUES then DEFAULT_VALUES[name]
    else ""
  }

  predicate Sequenced(sc: Scenario, name: string) {
    name in sc.sequences && sc.sequences[name] != []
  }

  function Count(queries: map<string, nat>, name: string): nat {
    if name in queries then queries[name] else 0
  }

  function AnswerVariable(sc: Scenario, s: Recorder, command: string): (Recorder, Outcome)
    requires StartsWith(command, "getvar:")
  {
    var name := command[|"getvar:"|..];
    var message := VariableMessage(sc, Count(s.variableIndices, name), name);
    var counted :=
      if Sequenced(sc, name) then s.(variableIndices := s.variableIndices[name := Count(s.variableIndices, name) + 1])
      else s;
    (Finish(sc, counted.(events := s.events + [Getvar(name), Note("OKAY", message)]), command),
     Answer(Some(Line("OKAY", message))))
  }

  /** Counts the terminal command and ends the scenario when it has come often enough. */
  function Finish(sc: Scenario, s: Recorder, command: string): Recorder {
    if command != sc.terminalCommand then s
    else s.(terminalSeen := s.terminalSeen + 1, finished := s.finished || s.terminalSeen + 1 >= sc.terminalOccurrences)
  }

  /** Records the answer OKAY `message`. */
  function Accept(sc: Scenario, s: Recorder, command: string, message: string): (Recorder, Outcome) {
    (Finish(sc, s.(events := s.events + [Note("OKAY", message)]), command), Answer(Some(Line("OKAY", message))))
  }

  function Set(s: Recorder, key: string, entry: Entry): Recorder {
    s.(deviceState := s.deviceState[key := entry])
  }

  function Downloaded(sc: Scenario, s: Recorder): Artifact
    requires s.downloaded.Some?
  {
    Artifact(|s.downloaded.value|, sc.digest(s.downloaded.value))
  }

  const SIMPLE_COMMANDS: set<string> := {
    "reboot", "reboot-bootloader", "reboot-recovery", "reboot-fastboot", "continue", "oem differential",
    "oem differential-info", "flashing get_unlock_ability", "flashing lock", "flashing unlock",
    "flashing lock_critical", "flashing unlock_critical", "create-logical-partition:differential:4096",
    "delete-logical-partition:differential", "resize-logical-partition:differential:8192", "gsi:wipe",
    "gsi:disable", "gsi:status", "snapshot-update:cancel", "snapshot-update:merge"}

  /** Commands that use the downloaded bytes. */
  predicate NeedsDownload(command: string) {
    || StartsWith(command, "flash:") || command == "signature" || command == "boot"
    || StartsWith(command, "update-super:") || command == "stage"
  }

  predicate Receives(sc: Scenario, command: string) {
    (sc.receivePayload.Some? || sc.receiveChunks != []) && (command == "upload" || StartsWith(command, "fetch:"))
  }

  /** A command whose event is already recorded. */
  function RunCommand(sc: Scenario, s: Recorder, command: string): (Recorder, Outcome) {
    if Receives(sc, command) then SendData(sc, s, command)
    else if StartsWith(command, "download:") then BeginDownload(s, command)
    else if NeedsDownload(command) then UseDownload(sc, s, command)
    else if StartsWith(command, "erase:") then
      Accept(sc, Set(s, "erased", Names([command[|"erase:"|..]])), command, "erased")
    else if StartsWith(command, "set_active:") then
      Accept(sc, Set(s, "activeSlot", Named(command[|"set_active:"|..])), command, "active")
    else if command in SIMPLE_COMMANDS then RunSimple(sc, s, command)
    else
      (s.(events := s.events + [Note("FAIL", "unsupported scripted command")], finished := true),
       Answer(Some(Line("FAIL", "unsupported scripted command"))))
  }

  function SendData(sc: Scenario, s: Recorder, command: string): (Recorder, Outcome)
    requires Receives(sc, command)
  {
    if sc.receiveChunks != [] && s.receiveIndex >= |sc.receiveChunks| then (s, Rejected)
    else
      var bytes := if sc.receiveChunks != [] then sc.receiveChunks[s.receiveIndex] else sc.receivePayload.value;
      var message := if command == "upload" then "uploaded" else "fetched";
      var s' := s.(
        receiveIndex := if sc.receiveChunks != [] then s.receiveIndex + 1 else s.receiveIndex,
        events := s.events + [Data(false, |bytes|, sc.digest(bytes)), Note("OKAY", message)],
        pending := [Raw(bytes), Line("OKAY", message)]);
      (Finish(sc, s', command), Answer(Some(Line("DATA", Hex8(|bytes|)))))
  }

  /** At least eight lower-case hexadecimal digits. */
  function Hex8(n: nat): string {
    var digits := Hex(n);
    if |digits| < 8 then seq(8 - |digits|, _ => '0') + digits else digits
  }

  function Hex(n: nat): string {
    var digit := HexDigit(n % 16) as char;
    if n < 16 then [digit] else Hex(n / 16) + [digit]
  }

  function BeginDownload(s: Recorder, command: string): (Recorder, Outcome)
    requires StartsWith(command, "download:")
  {
    var text := command[|"download:"|..];
    var size := HexNumber(text);
    if |text| != 8 || size.None? then (s, Rejected)
    else (s.(expectedDataSize := size, downloadBuffer := []), Answer(Some(Line("DATA", Lower(text)))))
  }

  function UseDownload(sc: Scenario, s: Recorder, command: string): (Recorder, Outcome)
    requires NeedsDownload(command)
  {
    if s.downloaded.None? then (s, Rejected)
    else
      var artifact := Downloaded(sc, s);
      if StartsWith(command, "flash:") then
        var before :=
          if "partitions" in s.deviceState && s.deviceState["partitions"].Partitions?
          then s.deviceState["partitions"].partitions else map[];
        Accept(sc, Set(s, "partitions", Partitions(before[command[|"flash:"|..] := artifact])), command, "flashed")
      else if command == "signature" then Accept(sc, Set(s, "signature", Stored(artifact)), command, "accepted")
      else if command == "boot" then Accept(sc, Set(s, "boot", Stored(artifact)), command, "booting")
      else if command == "stage" then Accept(sc, Set(s, "staged", Stored(artifact)), command, "staged")
      else Accept(sc, Set(s, "superUpdate", SuperUpdate(command, artifact)), command, "updated")
  }

  predicate Informational(kind: string) {
    kind == "INFO" || kind == "TEXT"
  }

  function Notes(informational: seq<(string, string)>): seq<Event> {
    seq(|informational|, i requires 0 <= i < |informational| => Note(informational[i].0, informational[i].1))
  }

  function Lines(informational: seq<(string, string)>): seq<Reply> {
    seq(|informational|, i requires 0 <= i < |informational| => Line(informational[i].0, informational[i].1))
  }

  /** How many informational responses come before the first one of an unknown kind. */
  function KnownPrefix(informational: seq<(string, string)>): (k: nat)
    ensures k <= |informational|
    ensures forall i :: 0 <= i < k ==> Informational(informational[i].0)
    ensures k < |informational| ==> !Informational(informational[k].0)
  {
    if informational == [] || !Informational(informational[0].0) then 0 else 1 + KnownPrefix(informational[1..])
  }

  function RunSimple(sc: Scenario, s: Recorder, command: string): (Recorder, Outcome) {
    var before :=
      if "commands" in s.deviceState && s.deviceState["commands"].Names? then s.deviceState["commands"].names else [];
    var known := KnownPrefix(sc.informational);
    var s1 := Set(s, "commands", Names(before + [command])).(events := s.events + Notes(sc.informational[..known]));
    if known < |sc.informational| then (s1, Rejected)
    else
      var accepted := Accept(sc, s1, command, "accepted");
      var lines := Lines(sc.informational);
      if lines == [] then accepted
      else (accepted.0.(pending := lines[1..] + [Line("OKAY", "accepted")]), Answer(Some(lines[0])))
  }

  // ----- The recorder object

  class WireRecorder {
    const scenario: Scenario
    var events: seq<Event>
    var expectedDataSize: Option<nat>
    var downloaded: Option<seq<Byte>>
    var downloadBuffer: seq<Byte>
    var pending: seq<Reply>
    var finished: bool
    var terminalSeen: nat
    var receiveIndex: nat
    var variableIndices: map<string, nat>
    var deviceState: map<string, Entry>

    function View(): Recorder
      reads this
    {
      Recorder(events, expectedDataSize, downloaded, downloadBuffer, pending, finished, terminalSeen, receiveIndex,
               variableIndices, deviceState)
    }

    constructor (scenario: Scenario)
      ensures this.scenario == scenario && View() == Start(scenario)
    {
      this.scenario := scenario;
      events, expectedDataSize, downloaded, downloadBuffer := [CliParse(scenario.arguments)], None, None, [];
      pending, finished, terminalSeen, receiveIndex := [], false, 0, 0;
      variableIndices, deviceState := map[], map["product" := Named("product_a")];
    }

    method FinishCommand(command: string)
      modifies this
      ensures View() == Finish(scenario, old(View()), command)
      ensures old(finished) ==> finished
    {
      if command == scenario.terminalCommand {
        terminalSeen := terminalSeen + 1;
        if terminalSeen >= scenario.terminalOccurrences { finished := true; }
      }
    }

    method AcceptCommand(command: string, message: string) returns (r: Outcome)
      modifies this
      ensures (View(), r) == Accept(scenario, old(View()), command, message)
    {
      events := events + [Note("OKAY", message)];
      FinishCommand(command);
      r := Answer(Some(Line("OKAY", message)));
    }

    method HandleData(payload: seq<Byte>) returns (r: Outcome)
      requires expectedDataSize.Some? && !finished
      modifies this
      ensures (View(), r) == ReceiveData(scenario, old(View()), payload)
    {
      var expected := expectedDataSize.value;
      downloadBuffer := downloadBuffer + payload;
      if |downloadBuffer| > expected { return Rejected; }
      if |downloadBuffer| < expected { return Answer(None); }
      expectedDataSize := None;
      var data := downloadBuffer;
      downloaded, downloadBuffer := Some(data), [];
      events := events + [Data(true, |data|, scenario.digest(data)), Note("OKAY", "downloaded")];
      if scenario.terminalCommand == "download" { finished := true; }
      r := Answer(Some(Line("OKAY", "downloaded")));
    }

    method HandleVariable(command: string) returns (r: Outcome)
      requires StartsWith(command, "getvar:")
      modifies this
      ensures (View(), r) == AnswerVariable(scenario, old(View()), command)
    {
      var name := command[|"getvar:"|..];
      var values: map<string, string> := map[
        "product" := "product_a", "max-download-size" := "0x00100000", "has-slot:system" := "no",
        "is-logical:system" := "no", "partition-type:system" := "raw", "is-userspace" := "no", "unlocked" := "yes"];
      assert values == DEFAULT_VALUES;
      values := values + scenario.values;
      var sequence := if name in scenario.sequences then scenario.sequences[name] else [];
      var message;
      if sequence != [] {
        var index := if name in variableIndices then variableIndices[name] else 0;
        message := sequence[if index < |sequence| - 1 then index else |sequence| - 1];
        variableIndices := variableIndices[name := index + 1];
      } else {
        message := if name in values then values[name] else "";
      }
      events := events + [Getvar(name), Note("OKAY", message)];
      FinishCommand(command);
      r := Answer(Some(Line("OKAY", message)));
    }

    method HandleReceive(command: string) returns (r: Outcome)
      requires Receives(scenario, command)
      modifies this
      ensures (View(), r) == SendData(scenario, old(View()), command)
    {
      var bytes: seq<Byte>;
      if scenario.receiveChunks != [] {
        if receiveIndex >= |scenario.receiveChunks| { return Rejected; }
        bytes := scenario.receiveChunks[receiveIndex];
        receiveIndex := receiveIndex + 1;
      } else {
        bytes := scenario.receivePayload.value;
      }
      var message := if command == "upload" then "uploaded" else "fetched";
      events := events + [Data(false, |bytes|, scenario.digest(bytes)), Note("OKAY", message)];
      pending := [Raw(bytes), Line("OKAY", message)];
      FinishCommand(command);
      r := Answer(Some(Line("DATA", Hex8(|bytes|))));
    }

    method Inform() returns (responses: Option<seq<Reply>>)
      modifies this
      ensures var known := KnownPrefix(scenario.informational);
              && View() == old(View()).(events := old(events) + Notes(scenario.informational[..known]))
              && responses == if known < |scenario.informational| then None else Some(Lines(scenario.informational))
    {
      var lines: seq<Reply> := [];
      ghost var all := scenario.informational;
      for i := 0 to |scenario.informational|
        invariant i <= KnownPrefix(all)
        invariant lines == Lines(all)[..i]
        invariant View() == old(View()).(events := old(events) + Notes(all[..i]))
      {
        var (kind, message) := scenario.informational[i];
        if kind != "INFO" && kind != "TEXT" { return None; }
        assert Notes(all[..i]) + [Note(kind, message)] == Notes(all[..i + 1]);
        events := events + [Note(kind, message)];
        lines := lines + [Line(kind, message)];
      }
      assert lines == Lines(all);
      responses := Some(lines);
    }

    method HandleSimple(command: string) returns (r: Outcome)
      modifies this
      ensures (View(), r) == RunSimple(scenario, old(View()), command)
    {
      var before :=
        if "commands" in deviceState && deviceState["commands"].Names? then deviceState["commands"].names else [];
      deviceState := deviceState["commands" := Names(before + [command])];
      var responses := Inform();
      if responses.None? { return Rejected; }
      r := AcceptCommand(command, "accepted");
      if responses.value != [] {
        pending := responses.value[1..] + [Line("OKAY", "accepted")];
        r := Answer(Some(responses.value[0]));
      }
    }

    method HandleDownloadUser(command: string) returns (r: Outcome)
      requires NeedsDownload(command)
      modifies this
      ensures (View(), r) == UseDownload(scenario, old(View()), command)
      ensures r.Answer? <==> old(downloaded).Some?
    {
      if downloaded.None? { return Rejected; }
      var artifact := Downloaded(scenario, View());
      if StartsWith(command, "flash:") {
        var before :=
          if "partitions" in deviceState && deviceState["partitions"].Partitions?
          then deviceState["partitions"].partitions else map[];
        deviceState := deviceState["partitions" := Partitions(before[command[|"flash:"|..] := artifact])];
        r := AcceptCommand(command, "flashed");
      } else if command == "signature" {
        deviceState := deviceState["signature" := Stored(artifact)];
        r := AcceptCommand(command, "accepted");
      } else if command == "boot" {
        deviceState := deviceState["boot" := Stored(artifact)];
        r := AcceptCommand(command, "booting");
      } else if command == "stage" {
        deviceState := deviceState["staged" := Stored(artifact)];
        r := AcceptCommand(command, "staged");
      } else {
        deviceState := deviceState["superUpdate" := SuperUpdate(command, artifact)];
        r := AcceptCommand(command, "updated");
      }
    }

    method HandleCommand(command: string) returns (r: Outcome)
      modifies this
      ensures (View(), r) == RunCommand(scenario, old(View()), command)
    {
      var simpleCommands: set<string> := {
        "reboot", "reboot-bootloader", "reboot-recovery", "reboot-fastboot", "continue", "oem differential",
        "oem differential-info", "flashing get_unlock_ability", "flashing lock", "flashing unlock",
        "flashing lock_critical", "flashing unlock_critical", "create-logical-partition:differential:4096",
        "delete-logical-partition:differential", "resize-logical-partition:differential:8192", "gsi:wipe",
        "gsi:disable", "gsi:status", "snapshot-update:cancel", "snapshot-update:merge"};
      assert simpleCommands == SIMPLE_COMMANDS;
      if (scenario.receivePayload.Some? || scenario.receiveChunks != []) &&
         (command == "upload" || StartsWith(command, "fetch:"))
      {
        r := HandleReceive(command);
      } else if StartsWith(command, "download:") {
        var text := command[|"download:"|..];
        var size := HexNumber(text);
        if |text| != 8 || size.None? { return Rejected; }
        expectedDataSize, downloadBuffer := size, [];
        r := Answer(Some(Line("DATA", Lower(text))));
      } else if StartsWith(command, "flash:") || command == "signature" || command == "boot" ||
                StartsWith(command, "update-super:") || command == "stage"
      {
        r := HandleDownloadUser(command);
      } else if StartsWith(command, "erase:") {
        deviceState := deviceState["erased" := Names([command[|"erase:"|..]])];
        r := AcceptCommand(command, "erased");
      } else if StartsWith(command, "set_active:") {
        deviceState := deviceState["activeSlot" := Named(command[|"set_active:"|..])];
        r := AcceptCommand(command, "active");
      } else if command in simpleCommands {
        r := HandleSimple(command);
      } else {
        events := events + [Note("FAIL", "unsupported scripted command")];
        finished := true;
        r := Answer(Some(Line("FAIL", "unsupported scripted command")));
      }
    }

    method Handle(payload: seq<Byte>) returns (r: Outcome)
      modifies this
      ensures (View(), r) == Handled(scenario, old(View()), payload)
    {
      if finished { return Rejected; }
      if expectedDataSize.Some? {
        r := HandleData(payload);
        return;
      }
      var command := Ascii(payload);
      if command.None? { return Rejected; }
      if StartsWith(command.value, "getvar:") {
        r := HandleVariable(command.value);
      } else {
        events := events + [Command(command.value)];
        r := HandleCommand(command.value);
      }
    }

    method TakePendingResponses() returns (responses: seq<Reply>)
      modifies this
      ensures responses == old(pending) && View() == old(View()).(pending := [])
    {
      responses := pending;
      pending := [];
    }

    /** Ends the recording; `output` is the file the client wrote, if any. */
    method Capture(exitCode: int, output: Option<seq<Byte>>) returns (ok: bool)
      modifies this
      ensures ok <==> Captured(scenario, old(View()), exitCode, output).Some?
      ensures View() == if ok then Captured(scenario, old(View()), exitCode, output).value else old(View())
    {
      if !finished { return false; }
      if scenario.writesOutput {
        if scenario.outputEventPath.None? || output.None? || output != scenario.receivePayload { return false; }
        var bytes := output.value;
        events := events + [File(scenario.outputEventPath.value, |bytes|, scenario.digest(bytes))];
      }
      events := events + [Exit(exitCode)];
      ok := true;
    }

    /**
     * Serves one connection, after its handshake, until the scenario is finished or the client has to reconnect.
     * The recording depends on the bytes of the stream only, not on how recv cuts them.
     */
    method ServeConnection(connection: Connection) returns (status: Status)
      modifies this, connection
      ensures (View(), status) == Session(scenario, old(View()), old(connection.stream))
    {
      var hello := connection.ReceiveExact(4);
      if hello.None? || hello.value != [0x46, 0x42, 0x30, 0x31] { return Broken; }
      while !finished
        invariant Served(scenario, View(), connection.stream) == Session(scenario, old(View()), old(connection.stream))
        decreases |connection.stream|
      {
        var request := connection.ReceiveFrame();
        if request.None? { return Broken; }
        var r := Handle(request.value);
        if r.Rejected? { return Broken; }
        var _ := TakePendingResponses();
        var text := Ascii(request.value);
        if (if text.Some? then text.value else "") in scenario.reconnectAfter {
          return if finished then Complete else Reconnecting;
        }
      }
      status := Complete;
    }

    /** Serves one accepted connection after the other; Broken when the client stops connecting too early. */
    method Serve(connections: seq<Connection>) returns (status: Status)
      requires forall i, j :: 0 <= i < j < |connections| ==> connections[i] != connections[j]
      modifies this, connections
      ensures (View(), status) == Sessions(scenario, old(View()), old(Streams(connections)))
    {
      ghost var all := Streams(connections);
      ghost var start := View();
      var i := 0;
      while !finished
        invariant 0 <= i <= |connections| && |all| == |connections|
        invariant forall k :: i <= k < |connections| ==> connections[k].stream == all[k]
        invariant Sessions(scenario, View(), all[i..]) == Sessions(scenario, start, all)
        decreases |connections| - i
      {
        if i == |connections| { return Broken; }
        status := ServeConnection(connections[i]);
        assert all[i..][0] == all[i] && all[i..][1..] == all[i + 1..];
        if status != Reconnecting { return; }
        i := i + 1;
      }
      status := Complete;
    }
  }

  function Streams(connections: seq<Connection>): seq<seq<Byte>>
    reads connections
  {
    seq(|connections|, i requires 0 <= i < |connections| reads connections => connections[i].stream)
  }

  function Captured(sc: Scenario, s: Recorder, exitCode: int, output: Option<seq<Byte>>): Option<Recorder> {
    if !s.finished then None
    else if !sc.writesOutput then Some(s.(events := s.events + [Exit(exitCode)]))
    else if sc.outputEventPath.None? || output.None? || output != sc.receivePayload then None
    else
      var file := File(sc.outputEventPath.value, |output.value|, sc.digest(output.value));
      Some(s.(events := s.events + [file] + [Exit(exitCode)]))
  }

  datatype Status = Complete | Reconnecting | Broken

  const HELLO: seq<Byte> := [0x46, 0x42, 0x30, 0x31]   // "FB01"

  /** Whether the client is expected to connect anew after this message. */
  predicate ReconnectsAfter(sc: Scenario, payload: seq<Byte>) {
    var text := Ascii(payload);
    (if text.None? then "" else text.value) in sc.reconnectAfter
  }

  /** The recording after the frames of a stream. */
  function Served(sc: Scenario, s: Recorder, stream: seq<Byte>): (Recorder, Status)
    decreases |stream|
  {
    if s.finished then (s, Complete)
    else
      var payload := FirstPayload(stream);
      if payload.None? then (s, Broken)
      else
        var h := Handled(sc, s, payload.value);
        if h.1.Rejected? then (h.0, Broken)
        else
          var s' := Clear(h.0);
          if ReconnectsAfter(sc, payload.value) then (s', if s'.finished then Complete else Reconnecting)
          else Served(sc, s', stream[8 + |payload.value|..])
  }

  /** The replies have been sent. */
  function Clear(s: Recorder): Recorder {
    s.(pending := [])
  }

  function Session(sc: Scenario, s: Recorder, stream: seq<Byte>): (Recorder, Status) {
    if |stream| < 4 || stream[..4] != HELLO then (s, Broken) else Served(sc, s, stream[4..])
  }

  function Sessions(sc: Scenario, s: Recorder, streams: seq<seq<Byte>>): (Recorder, Status)
    decreases |streams|
  {
    if s.finished then (s, Complete)
    else if streams == [] then (s, Broken)
    else
      var first := Session(sc, s, streams[0]);
      if first.1 == Reconnecting then Sessions(sc, first.0, streams[1..]) else first
  }

  // ----- Splitting a download into frames

  function Concat(frames: seq<seq<Byte>>): seq<Byte> {
    if frames == [] then [] else frames[0] + Concat(frames[1..])
  }

  /** Handling several payloads in a row; stops at a rejection. */
  function Feed(sc: Scenario, s: Recorder, payloads: seq<seq<Byte>>): (Recorder, seq<Outcome>)
    decreases |payloads|
  {
    if payloads == [] then (s, [])
    else
      var h := Handled(sc, s, payloads[0]);
      if h.1.Rejected? then (h.0, [Rejected])
      else
        var rest := Feed(sc, h.0, payloads[1..]);
        (rest.0, [h.1] + rest.1)
  }

  /**
   * A download cut into frames that is not followed by an empty frame leads to the same recorder and the same
   * reply as in one frame, and nothing is answered before the last frame.
   */
  lemma {:induction false} SplitDownload(sc: Scenario, s: Recorder, frames: seq<seq<Byte>>)
    requires !s.finished && s.expectedDataSize.Some? && frames != []
    requires |s.downloadBuffer| + |Concat(frames)| <= s.expectedDataSize.value
    requires SplitsWell(s, frames)
    ensures Feed(sc, s, frames).0 == Handled(sc, s, Concat(frames)).0
    ensures |Feed(sc, s, frames).1| == |frames|
    ensures Feed(sc, s, frames).1[|frames| - 1] == Handled(sc, s, Concat(frames)).1
    ensures forall i :: 0 <= i < |frames| - 1 ==> Feed(sc, s, frames).1[i] == Answer(None)
    ensures Accepted(sc, s, frames)
    decreases |frames|
  {
    var first, rest := frames[0], frames[1..];
    if rest == [] {
      assert Concat(frames) == first;
      assert Feed(sc, s, frames).1 == [Handled(sc, s, first).1];
    } else {
      LastIsPart(rest);
      assert rest[|rest| - 1] == frames[|frames| - 1];
      var s' := s.(downloadBuffer := s.downloadBuffer + first);
      assert Handled(sc, s, first) == (s', Answer(None));
      SplitDownload(sc, s', rest);
      assert s'.downloadBuffer + Concat(rest) == s.downloadBuffer + Concat(frames);
    }
  }

  const DOWNLOADED := Answer(Some(Line("OKAY", "downloaded")))

  /** The last thing the recorder says to a row of messages. */
  function LastReply(sc: Scenario, s: Recorder, payloads: seq<seq<Byte>>): Outcome
    requires payloads != []
    decreases |payloads|
  {
    var h := Handled(sc, s, payloads[0]);
    if h.1.Rejected? || |payloads| == 1 then h.1 else LastReply(sc, h.0, payloads[1..])
  }

  lemma {:induction false} LastReplyIsLast(sc: Scenario, s: Recorder, payloads: seq<seq<Byte>>)
    requires payloads != []
    ensures var replies := Feed(sc, s, payloads).1; replies != [] && replies[|replies| - 1] == LastReply(sc, s, payloads)
    decreases |payloads|
  {
    var h := Handled(sc, s, payloads[0]);
    if h.1.Answer? && |payloads| > 1 {
      LastReplyIsLast(sc, h.0, payloads[1..]);
    } else if h.1.Answer? {
      assert payloads[1..] == [];
    }
  }

  lemma EmptyCommandFails(sc: Scenario, s: Recorder)
    requires s.expectedDataSize.None?
    ensures Handled(sc, s, []).1
         == if s.finished then Rejected else Answer(Some(Line("FAIL", "unsupported scripted command")))
    ensures Handled(sc, s, []).0.finished && Handled(sc, s, []).0.expectedDataSize.None?
  {
    var none: seq<Byte> := [];
    assert Ascii(none).Some? && |Ascii(none).value| == 0;
    assert "" !in SIMPLE_COMMANDS;
  }

  /** Empty frames outside a download are refused or fail as commands. */
  lemma {:induction false} EmptyFramesFail(sc: Scenario, s: Recorder, frames: seq<seq<Byte>>)
    requires s.expectedDataSize.None? && frames != [] && Concat(frames) == []
    ensures LastReply(sc, s, frames) != DOWNLOADED
    decreases |frames|
  {
    assert frames[0] == [];
    EmptyCommandFails(sc, s);
    if |frames| > 1 && !s.finished {
      EmptyFramesFail(sc, Handled(sc, s, frames[0]).0, frames[1..]);
    }
  }

  lemma {:induction false} EmptyFramesAfterDownload(sc: Scenario, s: Recorder, frames: seq<seq<Byte>>)
    requires !s.finished && s.expectedDataSize.Some? && |frames| > 1 && frames[|frames| - 1] == []
    requires |s.downloadBuffer| + |Concat(frames)| == s.expectedDataSize.value
    ensures LastReply(sc, s, frames) != DOWNLOADED
    decreases |frames|
  {
    var first, rest := frames[0], frames[1..];
    var h := Handled(sc, s, first);
    assert rest[|rest| - 1] == frames[|frames| - 1];
    if |s.downloadBuffer| + |first| == s.expectedDataSize.value {
      EmptyFramesFail(sc, h.0, rest);
    } else {
      assert h == (s.(downloadBuffer := s.downloadBuffer + first), Answer(None));
      if |rest| == 1 { assert false; }
      EmptyFramesAfterDownload(sc, h.0, rest);
    }
  }

  /** Not a complete download with an empty frame behind it. */
  predicate SplitsWell(s: Recorder, frames: seq<seq<Byte>>)
    requires s.expectedDataSize.Some? && frames != []
  {
    || |s.downloadBuffer| + |Concat(frames)| < s.expectedDataSize.value
    || |frames| == 1 || frames[|frames| - 1] != []
  }

  /**
   * Exactly when it matters how a download is split: the frames lead to the recorder and the last reply of the
   * whole unless the download is complete, came in several frames, and the last of them is empty. Nothing is
   * answered before the last frame then.
   */
  lemma SplitMattersExactly(sc: Scenario, s: Recorder, frames: seq<seq<Byte>>)
    requires !s.finished && s.expectedDataSize.Some? && frames != []
    requires |s.downloadBuffer| + |Concat(frames)| <= s.expectedDataSize.value
    ensures var (state, replies), whole := Feed(sc, s, frames), Handled(sc, s, Concat(frames));
            && replies != []
            && (replies[|replies| - 1] == whole.1 <==> SplitsWell(s, frames))
            && (SplitsWell(s, frames) ==>
                  && state == whole.0 && |replies| == |frames|
                  && forall i :: 0 <= i < |replies| - 1 ==> replies[i] == Answer(None))
  {
    LastReplyIsLast(sc, s, frames);
    if SplitsWell(s, frames) {
      SplitDownload(sc, s, frames);
    } else {
      EmptyFramesAfterDownload(sc, s, frames);
    }
  }

  lemma {:induction false} LastIsPart(frames: seq<seq<Byte>>)
    requires frames != []
    ensures |frames[|frames| - 1]| <= |Concat(frames)|
  {
    if |frames| > 1 { LastIsPart(frames[1..]); }
  }

  // ----- Every recording

  predicate IsHostData(e: Event) {
    e.Data? && e.fromHost
  }

  ghost predicate HasDownload(events: seq<Event>) {
    exists i :: 0 <= i < |events| && IsHostData(events[i])
  }

  predicate UsesDownload(e: Event) {
    e.Command? && NeedsDownload(e.text)
  }

  /** Every command that uses a download comes after one. */
  ghost predicate DownloadsComeFirst(events: seq<Event>) {
    forall i :: 0 <= i < |events| && UsesDownload(events[i]) ==> HasDownload(events[..i])
  }

  /** Neither the start nor the end of a recording. */
  predicate Inner(e: Event) {
    match e
    case CliParse(_) => false
    case Exit(_) => false
    case Note(kind, _) => kind != "CLI_PARSE" && kind != "EXIT"
    case _ => true
  }

  ghost predicate Recording(s: Recorder) {
    && s.events != [] && s.events[0].CliParse? && (forall i :: 1 <= i < |s.events| ==> Inner(s.events[i]))
    && (s.downloaded.Some? <==> HasDownload(s.events))
    && DownloadsComeFirst(s.events)
  }

  /** What one handled message adds to a recording. */
  ghost predicate Adds(s: Recorder, s': Recorder, more: seq<Event>) {
    && s'.events == s.events + more
    && (forall i :: 0 <= i < |more| ==> Inner(more[i]))
    && (forall i :: 0 <= i < |more| && UsesDownload(more[i]) ==> s.downloaded.Some?)
    && (s'.downloaded.Some? <==> s.downloaded.Some? || HasDownload(more))
  }

  lemma AddsKeepsRecording(s: Recorder, s': Recorder, more: seq<Event>)
    requires Recording(s) && Adds(s, s', more)
    ensures Recording(s')
  {
    var n := |s.events|;
    forall i | 0 <= i < |s'.events| && UsesDownload(s'.events[i]) ensures HasDownload(s'.events[..i]) {
      if i < n {
        assert s'.events[..i] == s.events[..i];
        assert UsesDownload(s.events[i]);
      } else {
        assert s'.events[i] == more[i - n];
        var k :| 0 <= k < n && IsHostData(s.events[k]);
        assert IsHostData(s'.events[..i][k]);
      }
    }
    if s.downloaded.Some? {
      var k :| 0 <= k < n && IsHostData(s.events[k]);
      assert IsHostData(s'.events[k]);
    } else if HasDownload(more) {
      var k :| 0 <= k < |more| && IsHostData(more[k]);
      assert IsHostData(s'.events[n + k]);
    }
    if HasDownload(s'.events) {
      var k :| 0 <= k < |s'.events| && IsHostData(s'.events[k]);
      assert k < n ==> IsHostData(s.events[k]);
      assert k >= n ==> IsHostData(more[k - n]);
    }
  }

  /** The events after the command's own one are neither commands nor data from the host. */
  ghost predicate Follows(s: Recorder, s': Recorder, rest: seq<Event>) {
    && s'.events == s.events + rest && s'.downloaded == s.downloaded
    && forall i :: 0 <= i < |rest| ==> Inner(rest[i]) && !rest[i].Command? && !IsHostData(rest[i])
  }

  lemma AcceptFollows(sc: Scenario, s: Recorder, key: string, entry: Entry, command: string, message: string)
    ensures Follows(s, Accept(sc, Set(s, key, entry), command, message).0, [Note("OKAY", message)])
  {
  }

  lemma SimpleFollows(sc: Scenario, s: Recorder, command: string) returns (rest: seq<Event>)
    requires RunSimple(sc, s, command).1.Answer?
    ensures Follows(s, RunSimple(sc, s, command).0, rest)
  {
    var notes := Notes(sc.informational);
    assert sc.informational[..|sc.informational|] == sc.informational;
    rest := notes + [Note("OKAY", "accepted")];
    var s' := RunSimple(sc, s, command).0;
    assert s.events + notes + [Note("OKAY", "accepted")] == s.events + rest;
    forall i | 0 <= i < |notes| ensures Inner(notes[i]) {
      assert Informational(sc.informational[i].0);
    }
  }

  lemma DownloadUserFollows(sc: Scenario, s: Recorder, command: string) returns (rest: seq<Event>)
    requires NeedsDownload(command) && UseDownload(sc, s, command).1.Answer?
    ensures s.downloaded.Some? && Follows(s, UseDownload(sc, s, command).0, rest)
  {
    rest := [Note("OKAY", UseDownload(sc, s, command).1.reply.value.message)];
  }

  lemma ReceiveFollows(sc: Scenario, s: Recorder, command: string) returns (rest: seq<Event>)
    requires Receives(sc, command) && SendData(sc, s, command).1.Answer?
    ensures Follows(s, SendData(sc, s, command).0, rest)
    ensures !NeedsDownload(command)
  {
    NotBoth(command);
    rest := SendData(sc, s, command).0.events[|s.events|..];
  }

  lemma PlainFollows(sc: Scenario, s: Recorder, command: string) returns (rest: seq<Event>)
    requires !Receives(sc, command) && !StartsWith(command, "download:") && !NeedsDownload(command)
    requires RunCommand(sc, s, command).1.Answer?
    ensures Follows(s, RunCommand(sc, s, command).0, rest)
  {
    if StartsWith(command, "erase:") {
      AcceptFollows(sc, s, "erased", Names([command[|"erase:"|..]]), command, "erased");
      rest := [Note("OKAY", "erased")];
    } else if StartsWith(command, "set_active:") {
      AcceptFollows(sc, s, "activeSlot", Named(command[|"set_active:"|..]), command, "active");
      rest := [Note("OKAY", "active")];
    } else if command in SIMPLE_COMMANDS {
      rest := SimpleFollows(sc, s, command);
    } else {
      rest := [Note("FAIL", "unsupported scripted command")];
    }
  }

  lemma CommandFollows(sc: Scenario, s: Recorder, command: string) returns (rest: seq<Event>)
    requires RunCommand(sc, s, command).1.Answer?
    ensures Follows(s, RunCommand(sc, s, command).0, rest)
    ensures NeedsDownload(command) ==> s.downloaded.Some?
  {
    if Receives(sc, command) {
      rest := ReceiveFollows(sc, s, command);
    } else if StartsWith(command, "download:") {
      NotBoth(command);
      rest := [];
    } else if NeedsDownload(command) {
      rest := DownloadUserFollows(sc, s, command);
    } else {
      rest := PlainFollows(sc, s, command);
    }
  }

  /** The commands that send or announce data are not among those that use it. */
  lemma NotBoth(command: string)
    requires command == "upload" || StartsWith(command, "fetch:") || StartsWith(command, "download:")
    ensures !NeedsDownload(command)
  {
    assert command[0] == 'u' || command[0] == 'f' || command[0] == 'd';
    assert command[1] == 'p' || command[1] == 'e' || command[1] == 'o';
    assert command == "upload" || command[4] != "update-super:"[4];
  }

  lemma DataAdds(sc: Scenario, s: Recorder, payload: seq<Byte>) returns (more: seq<Event>)
    requires s.expectedDataSize.Some? && ReceiveData(sc, s, payload).1.Answer?
    ensures Adds(s, ReceiveData(sc, s, payload).0, more)
  {
    var s' := ReceiveData(sc, s, payload).0;
    if s'.expectedDataSize.Some? {
      more := [];
    } else {
      more := [s'.events[|s.events|], Note("OKAY", "downloaded")];
      assert IsHostData(more[0]);
    }
  }

  lemma VariableAdds(sc: Scenario, s: Recorder, command: string) returns (more: seq<Event>)
    requires StartsWith(command, "getvar:")
    ensures Adds(s, AnswerVariable(sc, s, command).0, more)
  {
    var name := command[|"getvar:"|..];
    more := [Getvar(name), Note("OKAY", VariableMessage(sc, Count(s.variableIndices, name), name))];
  }

  lemma CommandAdds(sc: Scenario, s: Recorder, command: string) returns (more: seq<Event>)
    requires RunCommand(sc, s.(events := s.events + [Command(command)]), command).1.Answer?
    ensures Adds(s, RunCommand(sc, s.(events := s.events + [Command(command)]), command).0, more)
  {
    var s1 := s.(events := s.events + [Command(command)]);
    var rest := CommandFollows(sc, s1, command);
    more := [Command(command)] + rest;
    assert s.events + [Command(command)] + rest == s.events + more;
  }

  lemma HandledAdds(sc: Scenario, s: Recorder, payload: seq<Byte>) returns (more: seq<Event>)
    requires Handled(sc, s, payload).1.Answer?
    ensures Adds(s, Handled(sc, s, payload).0, more)
  {
    if s.expectedDataSize.Some? {
      more := DataAdds(sc, s, payload);
    } else {
      var command := Ascii(payload).value;
      if StartsWith(command, "getvar:") {
        more := VariableAdds(sc, s, command);
      } else {
        more := CommandAdds(sc, s, command);
      }
    }
  }

  /** None of the messages is rejected. */
  predicate Accepted(sc: Scenario, s: Recorder, payloads: seq<seq<Byte>>)
    decreases |payloads|
  {
    payloads == [] ||
    (var h := Handled(sc, s, payloads[0]); h.1.Answer? && Accepted(sc, h.0, payloads[1..]))
  }

  lemma {:induction false} FeedKeepsRecording(sc: Scenario, s: Recorder, payloads: seq<seq<Byte>>)
    requires Recording(s) && Accepted(sc, s, payloads)
    ensures Recording(Feed(sc, s, payloads).0)
    decreases |payloads|
  {
    if payloads != [] {
      var h := Handled(sc, s, payloads[0]);
      var more := HandledAdds(sc, s, payloads[0]);
      AddsKeepsRecording(s, h.0, more);
      FeedKeepsRecording(sc, h.0, payloads[1..]);
    }
  }

  lemma StartRecords(sc: Scenario)
    ensures Recording(Start(sc))
  {
  }

  /** In every scenario flash, boot, signature, stage and update-super come only after a completed download. */
  lemma DownloadBeforeUse(sc: Scenario, payloads: seq<seq<Byte>>)
    requires Accepted(sc, Start(sc), payloads)
    ensures DownloadsComeFirst(Feed(sc, Start(sc), payloads).0.events)
  {
    StartRecords(sc);
    FeedKeepsRecording(sc, Start(sc), payloads);
  }

  // ----- Captures

  function Kind(e: Event): string {
    match e
    case CliParse(_) => "CLI_PARSE"
    case Getvar(_) => "GETVAR"
    case Command(_) => "COMMAND"
    case Data(_, _, _) => "DATA"
    case Note(kind, _) => kind
    case File(_, _, _) => "FILE"
    case Exit(_) => "EXIT"
  }

  function Kinds(events: seq<Event>): (r: seq<string>)
    ensures |r| == |events| && forall i :: 0 <= i < |r| ==> r[i] == Kind(events[i])
  {
    seq(|events|, i requires 0 <= i < |events| => Kind(events[i]))
  }

  lemma InnerKind(e: Event)
    requires Inner(e)
    ensures Kind(e) != "CLI_PARSE" && Kind(e) != "EXIT"
  {
  }

  lemma CaptureInOrder(sc: Scenario, s: Recorder, exitCode: int, output: Option<seq<Byte>>)
    requires Recording(s) && Captured(sc, s, exitCode, output).Some?
    ensures TraceCompare.InOrder(Kinds(Captured(sc, s, exitCode, output).value.events))
  {
    var events := Captured(sc, s, exitCode, output).value.events;
    var kinds := Kinds(events);
    assert events[|events| - 1] == Exit(exitCode);
    forall i | 1 <= i < |events| - 1 ensures kinds[i] != "CLI_PARSE" && kinds[i] != "EXIT" {
      assert i < |s.events| ==> events[i] == s.events[i];
      InnerKind(events[i]);
    }
  }

  /** The comparator accepts the event order of every capture of a scenario that went through. */
  lemma CapturesAreAccepted(sc: Scenario, payloads: seq<seq<Byte>>, exitCode: int, output: Option<seq<Byte>>)
    requires Accepted(sc, Start(sc), payloads)
    requires Captured(sc, Feed(sc, Start(sc), payloads).0, exitCode, output).Some?
    ensures TraceCompare.InOrder(Kinds(Captured(sc, Feed(sc, Start(sc), payloads).0, exitCode, output).value.events))
  {
    StartRecords(sc);
    FeedKeepsRecording(sc, Start(sc), payloads);
    CaptureInOrder(sc, Feed(sc, Start(sc), payloads).0, exitCode, output);
  }

  /** Capturing the same recorder twice leaves two EXIT events, which the comparator refuses. */
  lemma SecondCaptureIsRefused(sc: Scenario, s: Recorder, code: int, code': int, output: Option<seq<Byte>>)
    requires s.finished && Captured(sc, s, code, output).Some?
    ensures Captured(sc, Captured(sc, s, code, output).value, code', output).Some?
    ensures !TraceCompare.InOrder(Kinds(Captured(sc, Captured(sc, s, code, output).value, code', output).value.events))
  {
    var once := Captured(sc, s, code, output).value;
    var twice := Captured(sc, once, code', output).value;
    var early := |once.events| - 1;
    assert twice.events[early] == Exit(code);
    assert Kinds(twice.events)[early] == "EXIT";
  }
}
