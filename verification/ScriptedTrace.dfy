/**
 * What a recording of the scripted device says about the device, and what
 * the recordings of whole connections have in common.
 */
module ScriptedTrace {
  import opened Common
  import opened TcpFraming
  import opened ScriptedDevice
  import TraceCompare

  // ----- Reading a trace backwards

  function LastDownload(events: seq<Event>): Option<Artifact> {
    if events == [] then None
    else
      var before, e := events[..|events| - 1], events[|events| - 1];
      if IsHostData(e) then Some(Artifact(e.size, e.digest)) else LastDownload(before)
  }

  /** The entry of the device state a command is about. */
  function Subject(sc: Scenario, command: string): Option<string> {
    if Receives(sc, command) || StartsWith(command, "download:") then None
    else if StartsWith(command, "flash:") then Some("partitions")
    else if command == "signature" then Some("signature")
    else if command == "boot" then Some("boot")
    else if command == "stage" then Some("staged")
    else if StartsWith(command, "update-super:") then Some("superUpdate")
    else if StartsWith(command, "erase:") then Some("erased")
    else if StartsWith(command, "set_active:") then Some("activeSlot")
    else if command in SIMPLE_COMMANDS then Some("commands")
    else None
  }

  predicate IsAbout(sc: Scenario, e: Event, key: string) {
    e.Command? && Subject(sc, e.text) == Some(key)
  }

  /** What a command leaves in its entry, given the last download before it. */
  function Left(command: string, download: Option<Artifact>): Option<Entry> {
    if StartsWith(command, "erase:") then Some(Names([command[|"erase:"|..]]))
    else if StartsWith(command, "set_active:") then Some(Named(command[|"set_active:"|..]))
    else if download.None? then None
    else if StartsWith(command, "update-super:") then Some(SuperUpdate(command, download.value))
    else Some(Stored(download.value))
  }

  /** An entry that each command about it replaces is what the last such command left there. */
  function LastEntry(sc: Scenario, events: seq<Event>, key: string): Option<Entry> {
    if events == [] then if key == "product" then Some(Named("product_a")) else None
    else
      var before, e := events[..|events| - 1], events[|events| - 1];
      if IsAbout(sc, e, key) then Left(e.text, LastDownload(before)) else LastEntry(sc, before, key)
  }

  /** The image of a partition is the download before the last flash command for it. */
  function LastImage(events: seq<Event>, partition: string): Option<Artifact> {
    if events == [] then None
    else
      var before, e := events[..|events| - 1], events[|events| - 1];
      if e == Command("flash:" + partition) then LastDownload(before) else LastImage(before, partition)
  }

  function SimpleCommands(sc: Scenario, events: seq<Event>): seq<string> {
    if events == [] then []
    else
      var before, e := events[..|events| - 1], events[|events| - 1];
      SimpleCommands(sc, before) + if IsAbout(sc, e, "commands") then [e.text] else []
  }

  function Occurrences(events: seq<Event>, counted: Event -> bool): nat {
    if events == [] then 0
    else Occurrences(events[..|events| - 1], counted) + if counted(events[|events| - 1]) then 1 else 0
  }

  predicate IsDeviceData(e: Event) {
    e.Data? && !e.fromHost
  }

  function Queries(events: seq<Event>, name: string): nat {
    Occurrences(events, e => e == Getvar(name))
  }

  function Sent(events: seq<Event>): nat {
    Occurrences(events, IsDeviceData)
  }

  /** The terminal command, unless it is one that is never accepted as a whole. */
  predicate IsTerminal(sc: Scenario, e: Event) {
    || (e.Getvar? && "getvar:" + e.name == sc.terminalCommand)
    || (e.Command? && e.text == sc.terminalCommand && (Receives(sc, e.text) || Subject(sc, e.text).Some?))
  }

  function Terminals(sc: Scenario, events: seq<Event>): nat {
    Occurrences(events, e => IsTerminal(sc, e))
  }

  const FAILURE := Note("FAIL", "unsupported scripted command")

  /** The scenario is over: by its terminal command, by its download, or by a command the device does not know. */
  predicate Ended(sc: Scenario, events: seq<Event>) {
    || (Terminals(sc, events) > 0 && Terminals(sc, events) >= sc.terminalOccurrences)
    || (sc.terminalCommand == "download" && LastDownload(events).Some?)
    || FAILURE in events
  }

  // ----- The recorder agrees with its trace

  function Images(state: map<string, Entry>): map<string, Artifact> {
    if "partitions" in state && state["partitions"].Partitions? then state["partitions"].partitions else map[]
  }

  function Commands(state: map<string, Entry>): seq<string> {
    if "commands" in state && state["commands"].Names? then state["commands"].names else []
  }

  function Lookup<V>(m: map<string, V>, key: string): Option<V> {
    if key in m then Some(m[key]) else None
  }

  /** The device holds what its trace says it holds. */
  ghost predicate StateExplained(sc: Scenario, events: seq<Event>, s: Recorder) {
    && LastDownload(events) == (if s.downloaded.Some? then Some(Downloaded(sc, s)) else None)
    && (forall key :: key != "partitions" && key != "commands" ==>
          Lookup(s.deviceState, key) == LastEntry(sc, events, key))
    && (forall partition :: Lookup(Images(s.deviceState), partition) == LastImage(events, partition))
    && Commands(s.deviceState) == SimpleCommands(sc, events)
  }

  /** The counters of the recorder count events of its trace. */
  ghost predicate CountsExplained(sc: Scenario, events: seq<Event>, s: Recorder) {
    && (forall name :: Sequenced(sc, name) ==> Count(s.variableIndices, name) == Queries(events, name))
    && (sc.receiveChunks != [] ==> s.receiveIndex == Sent(events))
    && s.terminalSeen == Terminals(sc, events)
    && (s.finished <==> Ended(sc, events))
  }

  /** What the device has to send as its `n`-th data. */
  function Payload(sc: Scenario, n: nat): Option<seq<Byte>> {
    if sc.receiveChunks == [] then sc.receivePayload
    else if n < |sc.receiveChunks| then Some(sc.receiveChunks[n])
    else None
  }

  /** The event at `i` of a trace is answered or chosen as the events before it ask for. */
  predicate Answered(sc: Scenario, events: seq<Event>, i: nat)
    requires i < |events|
  {
    var e := events[i];
    && (e.Getvar? ==> && i + 1 < |events|
                      && events[i + 1] == Note("OKAY", VariableMessage(sc, Queries(events[..i], e.name), e.name)))
    && (IsDeviceData(e) ==> var bytes := Payload(sc, Sent(events[..i]));
                            bytes.Some? && e == Data(false, |bytes.value|, sc.digest(bytes.value)))
  }

  ghost predicate AnswersExplained(sc: Scenario, events: seq<Event>) {
    forall i: nat :: i < |events| ==> Answered(sc, events, i)
  }

  ghost predicate Told(sc: Scenario, events: seq<Event>, s: Recorder) {
    StateExplained(sc, events, s) && CountsExplained(sc, events, s) && AnswersExplained(sc, events)
  }

  /** The trace of a recorder tells what the recorder holds. */
  ghost predicate Explained(sc: Scenario, s: Recorder) {
    Told(sc, s.events, s)
  }

  // ----- One more event

  lemma OneMore(sc: Scenario, events: seq<Event>, e: Event)
    ensures LastDownload(events + [e]) == if IsHostData(e) then Some(Artifact(e.size, e.digest)) else LastDownload(events)
    ensures SimpleCommands(sc, events + [e])
         == SimpleCommands(sc, events) + if IsAbout(sc, e, "commands") then [e.text] else []
    ensures Sent(events + [e]) == Sent(events) + if IsDeviceData(e) then 1 else 0
    ensures Terminals(sc, events + [e]) == Terminals(sc, events) + if IsTerminal(sc, e) then 1 else 0
  {
    assert (events + [e])[..|events|] == events;
  }

  lemma OneMoreEntry(sc: Scenario, events: seq<Event>, e: Event, key: string)
    ensures LastEntry(sc, events + [e], key)
         == if IsAbout(sc, e, key) then Left(e.text, LastDownload(events)) else LastEntry(sc, events, key)
  {
    assert (events + [e])[..|events|] == events;
  }

  lemma OneMoreImage(events: seq<Event>, e: Event, partition: string)
    ensures LastImage(events + [e], partition)
         == if e == Command("flash:" + partition) then LastDownload(events) else LastImage(events, partition)
  {
    assert (events + [e])[..|events|] == events;
  }

  lemma OneMoreQuery(events: seq<Event>, e: Event, name: string)
    ensures Queries(events + [e], name) == Queries(events, name) + if e == Getvar(name) then 1 else 0
  {
    assert (events + [e])[..|events|] == events;
  }

  /** An event that is no command and no download leaves the device as it was. */
  lemma StateKept(sc: Scenario, events: seq<Event>, s: Recorder, e: Event)
    requires StateExplained(sc, events, s) && !e.Command? && !IsHostData(e)
    ensures StateExplained(sc, events + [e], s)
  {
    OneMore(sc, events, e);
    forall key { OneMoreEntry(sc, events, e, key); }
    forall partition { OneMoreImage(events, e, partition); }
  }

  /** An event that the recorder does not count. */
  lemma CountsKept(sc: Scenario, events: seq<Event>, s: Recorder, e: Event)
    requires CountsExplained(sc, events, s)
    requires e != FAILURE && !e.Getvar? && !e.Data? && !IsTerminal(sc, e)
    ensures CountsExplained(sc, events + [e], s)
  {
    OneMore(sc, events, e);
    forall name { OneMoreQuery(events, e, name); }
  }

  lemma AnswersKept(sc: Scenario, events: seq<Event>, e: Event)
    requires AnswersExplained(sc, events) && !e.Getvar?
    requires IsDeviceData(e) ==>
      var bytes := Payload(sc, Sent(events)); bytes.Some? && e == Data(false, |bytes.value|, sc.digest(bytes.value))
    ensures AnswersExplained(sc, events + [e])
  {
    forall i: nat | i < |events + [e]| ensures Answered(sc, events + [e], i) {
      if i < |events| {
        assert Answered(sc, events, i);
        assert (events + [e])[..i] == events[..i];
      } else {
        assert (events + [e])[..i] == events;
      }
    }
  }

  ghost predicate OnlyNotes(notes: seq<Event>) {
    forall i :: 0 <= i < |notes| ==> notes[i].Note? && notes[i] != FAILURE
  }

  lemma {:induction false} NotesKeepState(sc: Scenario, events: seq<Event>, s: Recorder,
                                                notes: seq<Event>, all: seq<Event>)
    requires StateExplained(sc, events, s) && OnlyNotes(notes) && all == events + notes
    ensures StateExplained(sc, all, s)
    decreases |notes|
  {
    if notes == [] {
      assert all == events;
    } else {
      StateKept(sc, events, s, notes[0]);
      NotesKeepState(sc, events + [notes[0]], s, notes[1..], all);
    }
  }

  lemma {:induction false} NotesKeepCounts(sc: Scenario, events: seq<Event>, s: Recorder,
                                                notes: seq<Event>, all: seq<Event>)
    requires CountsExplained(sc, events, s) && OnlyNotes(notes) && all == events + notes
    ensures CountsExplained(sc, all, s)
    decreases |notes|
  {
    if notes == [] {
      assert all == events;
    } else {
      CountsKept(sc, events, s, notes[0]);
      NotesKeepCounts(sc, events + [notes[0]], s, notes[1..], all);
    }
  }

  lemma {:induction false} NotesKeepAnswers(sc: Scenario, events: seq<Event>, notes: seq<Event>, all: seq<Event>)
    requires AnswersExplained(sc, events) && OnlyNotes(notes) && all == events + notes
    ensures AnswersExplained(sc, all)
    decreases |notes|
  {
    if notes == [] {
      assert all == events;
    } else {
      AnswersKept(sc, events, notes[0]);
      NotesKeepAnswers(sc, events + [notes[0]], notes[1..], all);
    }
  }

  /** A row of notes that are no failures explains nothing new. */
  lemma NotesKept(sc: Scenario, events: seq<Event>, s: Recorder, notes: seq<Event>)
    requires Told(sc, events, s) && OnlyNotes(notes)
    ensures Told(sc, events + notes, s)
  {
    NotesKeepState(sc, events, s, notes, events + notes);
    NotesKeepCounts(sc, events, s, notes, events + notes);
    NotesKeepAnswers(sc, events, notes, events + notes);
  }

  // ----- One handled message

  lemma DownloadLeft(sc: Scenario, events: seq<Event>, s: Recorder, s': Recorder)
    requires StateExplained(sc, events, s) && s'.downloaded.Some? && s'.deviceState == s.deviceState
    ensures var artifact := Downloaded(sc, s');
            StateExplained(sc, events + [Data(true, artifact.size, artifact.digest)], s')
  {
    var artifact := Downloaded(sc, s');
    var e := Data(true, artifact.size, artifact.digest);
    OneMore(sc, events, e);
    forall key { OneMoreEntry(sc, events, e, key); }
    forall partition { OneMoreImage(events, e, partition); }
  }

  lemma DownloadCounted(sc: Scenario, events: seq<Event>, s: Recorder, e: Event, s': Recorder)
    requires CountsExplained(sc, events, s) && !s.finished && IsHostData(e)
    requires s'.variableIndices == s.variableIndices && s'.terminalSeen == s.terminalSeen
    requires s'.receiveIndex == s.receiveIndex && s'.finished == (sc.terminalCommand == "download")
    ensures CountsExplained(sc, events + [e], s')
  {
    OneMore(sc, events, e);
    forall name { OneMoreQuery(events, e, name); }
  }

  lemma DataExplained(sc: Scenario, s: Recorder, payload: seq<Byte>)
    requires Explained(sc, s) && !s.finished && s.expectedDataSize.Some? && ReceiveData(sc, s, payload).1.Answer?
    ensures Explained(sc, ReceiveData(sc, s, payload).0)
  {
    var s' := ReceiveData(sc, s, payload).0;
    if s'.expectedDataSize.None? {
      var e := s'.events[|s.events|];
      DownloadLeft(sc, s.events, s, s');
      DownloadCounted(sc, s.events, s, e, s');
      AnswersKept(sc, s.events, e);
      NotesKept(sc, s.events + [e], s', [Note("OKAY", "downloaded")]);
      assert s'.events == s.events + [e] + [Note("OKAY", "downloaded")];
    }
  }

  lemma VariableStateExplained(sc: Scenario, s: Recorder, command: string)
    requires Explained(sc, s) && StartsWith(command, "getvar:")
    ensures var s' := AnswerVariable(sc, s, command).0; StateExplained(sc, s'.events, s')
  {
    var s' := AnswerVariable(sc, s, command).0;
    var query, note := s'.events[|s.events|], s'.events[|s.events| + 1];
    StateKept(sc, s.events, s', query);
    StateKept(sc, s.events + [query], s', note);
    assert s'.events == s.events + [query] + [note];
  }

  lemma QueryCounted(sc: Scenario, s: Recorder, name: string, s': Recorder)
    requires CountsExplained(sc, s.events, s) && !s.finished
    requires s' == AnswerVariable(sc, s, "getvar:" + name).0
    ensures CountsExplained(sc, s.events + [Getvar(name)], s')
  {
    OneMore(sc, s.events, Getvar(name));
    assert ("getvar:" + name)[|"getvar:"|..] == name;
    forall other | Sequenced(sc, other)
      ensures Count(s'.variableIndices, other) == Queries(s.events + [Getvar(name)], other)
    {
      OneMoreQuery(s.events, Getvar(name), other);
    }
  }

  lemma VariableCountsExplained(sc: Scenario, s: Recorder, command: string)
    requires Explained(sc, s) && !s.finished && StartsWith(command, "getvar:")
    ensures var s' := AnswerVariable(sc, s, command).0; CountsExplained(sc, s'.events, s')
  {
    var s' := AnswerVariable(sc, s, command).0;
    var query, note := s'.events[|s.events|], s'.events[|s.events| + 1];
    assert command == "getvar:" + query.name;
    QueryCounted(sc, s, query.name, s');
    CountsKept(sc, s.events + [query], s', note);
    assert s'.events == s.events + [query] + [note];
  }

  lemma VariableAnswerExplained(sc: Scenario, s: Recorder, command: string)
    requires Explained(sc, s) && StartsWith(command, "getvar:")
    ensures AnswersExplained(sc, AnswerVariable(sc, s, command).0.events)
  {
    var s' := AnswerVariable(sc, s, command).0;
    var n, name := |s.events|, command[|"getvar:"|..];
    assert Sequenced(sc, name) ==> Count(s.variableIndices, name) == Queries(s.events, name);
    forall i: nat | i < |s'.events| ensures Answered(sc, s'.events, i) {
      if i < n {
        assert Answered(sc, s.events, i);
        assert s'.events[..i] == s.events[..i];
      } else if i == n {
        assert s'.events[..i] == s.events;
      }
    }
  }

  lemma VariableExplained(sc: Scenario, s: Recorder, command: string)
    requires Explained(sc, s) && !s.finished && StartsWith(command, "getvar:")
    ensures Explained(sc, AnswerVariable(sc, s, command).0)
  {
    VariableStateExplained(sc, s, command);
    VariableCountsExplained(sc, s, command);
    VariableAnswerExplained(sc, s, command);
  }

  // ----- One command

  lemma ImageKept(events: seq<Event>, command: string, partition: string)
    requires !StartsWith(command, "flash:")
    ensures LastImage(events + [Command(command)], partition) == LastImage(events, partition)
  {
    OneMoreImage(events, Command(command), partition);
    assert StartsWith("flash:" + partition, "flash:");
  }

  lemma CommandKeepsState(sc: Scenario, events: seq<Event>, s: Recorder, command: string)
    requires StateExplained(sc, events, s) && Subject(sc, command).None? && !StartsWith(command, "flash:")
    ensures StateExplained(sc, events + [Command(command)], s)
  {
    OneMore(sc, events, Command(command));
    forall key { OneMoreEntry(sc, events, Command(command), key); }
    forall partition { ImageKept(events, command, partition); }
  }

  lemma EntryLeft(sc: Scenario, events: seq<Event>, s: Recorder, command: string, key: string, entry: Entry)
    requires StateExplained(sc, events, s) && Subject(sc, command) == Some(key) && key != "partitions" && key != "commands"
    requires Left(command, LastDownload(events)) == Some(entry)
    ensures StateExplained(sc, events + [Command(command)], Set(s, key, entry))
  {
    OneMore(sc, events, Command(command));
    forall other { OneMoreEntry(sc, events, Command(command), other); }
    forall partition { ImageKept(events, command, partition); }
  }

  lemma ImageLeft(sc: Scenario, events: seq<Event>, s: Recorder, command: string, artifact: Artifact)
    requires StateExplained(sc, events, s) && Subject(sc, command) == Some("partitions")
    requires LastDownload(events) == Some(artifact)
    ensures var images := Images(s.deviceState)[command[|"flash:"|..] := artifact];
            StateExplained(sc, events + [Command(command)], Set(s, "partitions", Partitions(images)))
  {
    var images := Images(s.deviceState)[command[|"flash:"|..] := artifact];
    OneMore(sc, events, Command(command));
    forall key { OneMoreEntry(sc, events, Command(command), key); }
    forall partition ensures Lookup(images, partition) == LastImage(events + [Command(command)], partition) {
      OneMoreImage(events, Command(command), partition);
      FlashNames(command, partition);
    }
  }

  lemma FlashNames(command: string, partition: string)
    requires StartsWith(command, "flash:")
    ensures command == "flash:" + partition <==> command[|"flash:"|..] == partition
  {
    assert ("flash:" + partition)[|"flash:"|..] == partition;
    assert command == "flash:" + command[|"flash:"|..];
  }

  lemma SimpleLeft(sc: Scenario, events: seq<Event>, s: Recorder, command: string)
    requires StateExplained(sc, events, s) && Subject(sc, command) == Some("commands")
    ensures StateExplained(sc, events + [Command(command)], Set(s, "commands", Names(Commands(s.deviceState) + [command])))
  {
    OneMore(sc, events, Command(command));
    forall key { OneMoreEntry(sc, events, Command(command), key); }
    forall partition { ImageKept(events, command, partition); }
  }

  lemma CompletedCounted(sc: Scenario, events: seq<Event>, s: Recorder, command: string)
    requires CountsExplained(sc, events, s) && !s.finished && (Receives(sc, command) || Subject(sc, command).Some?)
    ensures CountsExplained(sc, events + [Command(command)], Finish(sc, s, command))
  {
    OneMore(sc, events, Command(command));
    forall name { OneMoreQuery(events, Command(command), name); }
  }

  /** An accepted command whose effect on the device is explained, and the notes that answer it. */
  lemma AcceptExplained(sc: Scenario, s: Recorder, command: string, after: Recorder, notes: seq<Event>, s': Recorder)
    requires Explained(sc, s) && !s.finished && Subject(sc, command).Some? && OnlyNotes(notes)
    requires StateExplained(sc, s.events + [Command(command)], after)
    requires after.variableIndices == s.variableIndices && after.receiveIndex == s.receiveIndex
    requires after.terminalSeen == s.terminalSeen && after.finished == s.finished
    requires s' == Finish(sc, after, command).(events := s.events + [Command(command)] + notes, pending := s'.pending)
    ensures Explained(sc, s')
  {
    CompletedCounted(sc, s.events, s, command);
    AnswersKept(sc, s.events, Command(command));
    var events := s.events + [Command(command)];
    assert StateExplained(sc, events, s') && CountsExplained(sc, events, s');
    NotesKept(sc, events, s', notes);
  }

  lemma SetExplained(sc: Scenario, s: Recorder, command: string, key: string, entry: Entry, message: string)
    requires Explained(sc, s) && !s.finished && Subject(sc, command).Some?
    requires StateExplained(sc, s.events + [Command(command)], Set(s, key, entry))
    ensures var s1 := s.(events := s.events + [Command(command)]);
            Explained(sc, Accept(sc, Set(s1, key, entry), command, message).0)
  {
    var s1 := s.(events := s.events + [Command(command)]);
    var s' := Accept(sc, Set(s1, key, entry), command, message).0;
    AcceptExplained(sc, s, command, Set(s, key, entry), [Note("OKAY", message)], s');
  }

  lemma DownloadUserExplained(sc: Scenario, s: Recorder, command: string)
    requires Explained(sc, s) && !s.finished && !Receives(sc, command) && !StartsWith(command, "download:")
    requires NeedsDownload(command) && s.downloaded.Some?
    ensures Explained(sc, UseDownload(sc, s.(events := s.events + [Command(command)]), command).0)
  {
    var artifact := Downloaded(sc, s);
    if StartsWith(command, "flash:") {
      ImageLeft(sc, s.events, s, command, artifact);
      var images := Images(s.deviceState)[command[|"flash:"|..] := artifact];
      SetExplained(sc, s, command, "partitions", Partitions(images), "flashed");
    } else {
      StoreExplained(sc, s, command);
    }
  }

  lemma StoreExplained(sc: Scenario, s: Recorder, command: string)
    requires Explained(sc, s) && !s.finished && !Receives(sc, command) && !StartsWith(command, "download:")
    requires NeedsDownload(command) && s.downloaded.Some? && !StartsWith(command, "flash:")
    ensures Explained(sc, UseDownload(sc, s.(events := s.events + [Command(command)]), command).0)
  {
    var key := Subject(sc, command).value;
    var artifact := Downloaded(sc, s);
    var entry := if StartsWith(command, "update-super:") then SuperUpdate(command, artifact) else Stored(artifact);
    var message :=
      if command == "signature" then "accepted" else if command == "boot" then "booting"
      else if command == "stage" then "staged" else "updated";
    NotRemoving(command);
    EntryLeft(sc, s.events, s, command, key, entry);
    SetExplained(sc, s, command, key, entry, message);
  }

  /** The commands that store a download name neither a slot nor a partition to erase. */
  lemma NotRemoving(command: string)
    requires NeedsDownload(command)
    ensures !StartsWith(command, "erase:") && !StartsWith(command, "set_active:")
    ensures StartsWith(command, "update-super:") ==> command !in {"signature", "boot", "stage"}
  {
    assert "erase:"[0] == 'e' && "set_active:"[1] == 'e' && "update-super:"[0] == 'u';
  }

  lemma RemovalExplained(sc: Scenario, s: Recorder, command: string)
    requires Explained(sc, s) && !s.finished && !Receives(sc, command) && !StartsWith(command, "download:")
    requires !NeedsDownload(command) && (StartsWith(command, "erase:") || StartsWith(command, "set_active:"))
    ensures Explained(sc, RunCommand(sc, s.(events := s.events + [Command(command)]), command).0)
  {
    if StartsWith(command, "erase:") {
      var entry := Names([command[|"erase:"|..]]);
      EntryLeft(sc, s.events, s, command, "erased", entry);
      SetExplained(sc, s, command, "erased", entry, "erased");
    } else {
      var entry := Named(command[|"set_active:"|..]);
      EntryLeft(sc, s.events, s, command, "activeSlot", entry);
      SetExplained(sc, s, command, "activeSlot", entry, "active");
    }
  }

  lemma SimpleExplained(sc: Scenario, s: Recorder, command: string)
    requires Explained(sc, s) && !s.finished && Subject(sc, command) == Some("commands")
    requires RunSimple(sc, s.(events := s.events + [Command(command)]), command).1.Answer?
    ensures Explained(sc, RunSimple(sc, s.(events := s.events + [Command(command)]), command).0)
  {
    var s1 := s.(events := s.events + [Command(command)]);
    var s' := RunSimple(sc, s1, command).0;
    var notes := InformationalNotes(sc, s1, command);
    SimpleLeft(sc, s.events, s, command);
    AcceptExplained(sc, s, command, Set(s, "commands", Names(Commands(s.deviceState) + [command])), notes, s');
  }

  lemma InformationalNotes(sc: Scenario, s: Recorder, command: string) returns (notes: seq<Event>)
    requires RunSimple(sc, s, command).1.Answer?
    ensures OnlyNotes(notes) && RunSimple(sc, s, command).0.events == s.events + notes
  {
    notes := Notes(sc.informational) + [Note("OKAY", "accepted")];
    assert sc.informational[..|sc.informational|] == sc.informational;
    assert s.events + Notes(sc.informational) + [Note("OKAY", "accepted")] == s.events + notes;
    forall i | 0 <= i < |notes| ensures notes[i].Note? && notes[i] != FAILURE {
      assert i < |sc.informational| ==> Informational(sc.informational[i].0);
    }
  }

  /** `s'` is `s` after it sent its next data. */
  predicate SentFrom(sc: Scenario, s: Recorder, command: string, data: Event, s': Recorder) {
    && Payload(sc, s.receiveIndex).Some?
    && var bytes := Payload(sc, s.receiveIndex).value;
    && data == Data(false, |bytes|, sc.digest(bytes))
    && s'.downloaded == s.downloaded && s'.deviceState == s.deviceState && s'.variableIndices == s.variableIndices
    && (sc.receiveChunks != [] ==> s'.receiveIndex == s.receiveIndex + 1)
    && s'.terminalSeen == Finish(sc, s, command).terminalSeen && s'.finished == Finish(sc, s, command).finished
  }

  lemma SendDataSends(sc: Scenario, s: Recorder, command: string) returns (data: Event, note: Event)
    requires Receives(sc, command) && SendData(sc, s, command).1.Answer?
    ensures SentFrom(sc, s, command, data, SendData(sc, s, command).0) && note.Note? && note != FAILURE
    ensures SendData(sc, s, command).0.events == s.events + [data] + [note]
  {
    var s' := SendData(sc, s, command).0;
    data, note := s'.events[|s.events|], s'.events[|s.events| + 1];
  }

  lemma DataSentTold(sc: Scenario, s: Recorder, command: string, data: Event, s': Recorder)
    requires Explained(sc, s) && !s.finished && Receives(sc, command) && SentFrom(sc, s, command, data, s')
    ensures Told(sc, s.events + [Command(command)] + [data], s')
  {
    DataSentKeepsState(sc, s, command, data, s');
    CompletedCounted(sc, s.events, s, command);
    DataSentCounted(sc, s.events + [Command(command)], Finish(sc, s, command), data, s');
    OneMore(sc, s.events, Command(command));
    AnswersKept(sc, s.events, Command(command));
    AnswersKept(sc, s.events + [Command(command)], data);
  }

  lemma DataSentExplained(sc: Scenario, s: Recorder, command: string)
    requires Explained(sc, s) && !s.finished && Receives(sc, command)
    requires SendData(sc, s.(events := s.events + [Command(command)]), command).1.Answer?
    ensures Explained(sc, SendData(sc, s.(events := s.events + [Command(command)]), command).0)
  {
    var s1 := s.(events := s.events + [Command(command)]);
    var data, note := SendDataSends(sc, s1, command);
    var s' := SendData(sc, s1, command).0;
    DataSentTold(sc, s, command, data, s');
    NotesKept(sc, s1.events + [data], s', [note]);
  }

  lemma DataSentKeepsState(sc: Scenario, s: Recorder, command: string, data: Event, s': Recorder)
    requires StateExplained(sc, s.events, s) && Receives(sc, command) && IsDeviceData(data)
    requires s'.downloaded == s.downloaded && s'.deviceState == s.deviceState
    ensures StateExplained(sc, s.events + [Command(command)] + [data], s')
  {
    NotBoth(command);
    CommandKeepsState(sc, s.events, s, command);
    StateKept(sc, s.events + [Command(command)], s, data);
  }

  lemma DataSentCounted(sc: Scenario, events: seq<Event>, s: Recorder, e: Event, s': Recorder)
    requires CountsExplained(sc, events, s) && IsDeviceData(e)
    requires s'.variableIndices == s.variableIndices && s'.terminalSeen == s.terminalSeen && s'.finished == s.finished
    requires sc.receiveChunks != [] ==> s'.receiveIndex == s.receiveIndex + 1
    ensures CountsExplained(sc, events + [e], s')
  {
    OneMore(sc, events, e);
    forall name { OneMoreQuery(events, e, name); }
  }

  lemma DownloadBegunExplained(sc: Scenario, s: Recorder, command: string)
    requires Explained(sc, s) && !s.finished && !Receives(sc, command) && StartsWith(command, "download:")
    requires BeginDownload(s.(events := s.events + [Command(command)]), command).1.Answer?
    ensures Explained(sc, BeginDownload(s.(events := s.events + [Command(command)]), command).0)
  {
    var s' := BeginDownload(s.(events := s.events + [Command(command)]), command).0;
    NotBoth(command);
    CommandKeepsState(sc, s.events, s, command);
    CountsKept(sc, s.events, s, Command(command));
    AnswersKept(sc, s.events, Command(command));
    assert Told(sc, s'.events, s');
  }

  lemma FailureExplained(sc: Scenario, s: Recorder, command: string, s': Recorder)
    requires Explained(sc, s) && !s.finished && !Receives(sc, command)
    requires Subject(sc, command).None? && !StartsWith(command, "flash:")
    requires s' == s.(events := s.events + [Command(command)] + [FAILURE], finished := true)
    ensures Explained(sc, s')
  {
    var events := s.events + [Command(command)];
    CommandKeepsState(sc, s.events, s, command);
    StateKept(sc, events, s', FAILURE);
    CountsKept(sc, s.events, s, Command(command));
    OneMore(sc, events, FAILURE);
    forall name { OneMoreQuery(events, FAILURE, name); }
    AnswersKept(sc, s.events, Command(command));
    AnswersKept(sc, events, FAILURE);
  }

  lemma CommandExplained(sc: Scenario, s: Recorder, command: string)
    requires Explained(sc, s) && !s.finished
    requires RunCommand(sc, s.(events := s.events + [Command(command)]), command).1.Answer?
    ensures Explained(sc, RunCommand(sc, s.(events := s.events + [Command(command)]), command).0)
  {
    if Receives(sc, command) {
      DataSentExplained(sc, s, command);
    } else if StartsWith(command, "download:") {
      DownloadBegunExplained(sc, s, command);
    } else if NeedsDownload(command) {
      DownloadUserExplained(sc, s, command);
    } else if StartsWith(command, "erase:") || StartsWith(command, "set_active:") {
      RemovalExplained(sc, s, command);
    } else if command in SIMPLE_COMMANDS {
      SimpleExplained(sc, s, command);
    } else {
      FailureExplained(sc, s, command, RunCommand(sc, s.(events := s.events + [Command(command)]), command).0);
    }
  }

  /** Every message that is not rejected leaves a recorder that its trace explains. */
  lemma HandledExplained(sc: Scenario, s: Recorder, payload: seq<Byte>)
    requires Explained(sc, s) && Handled(sc, s, payload).1.Answer?
    ensures Explained(sc, Handled(sc, s, payload).0)
  {
    if s.expectedDataSize.Some? {
      DataExplained(sc, s, payload);
    } else {
      var command := Ascii(payload).value;
      if StartsWith(command, "getvar:") {
        VariableExplained(sc, s, command);
      } else {
        CommandExplained(sc, s, command);
      }
    }
  }

  lemma NothingExplained(sc: Scenario)
    ensures StateExplained(sc, [], Start(sc)) && CountsExplained(sc, [], Start(sc)) && AnswersExplained(sc, [])
  {
  }

  lemma StartExplained(sc: Scenario)
    ensures Explained(sc, Start(sc))
  {
    var e := CliParse(sc.arguments);
    NothingExplained(sc);
    StateKept(sc, [], Start(sc), e);
    CountsKept(sc, [], Start(sc), e);
    AnswersKept(sc, [], e);
    assert Start(sc).events == [] + [e];
  }

  /** Every run without a rejected message keeps recorder and trace in step. */
  lemma {:induction false} FeedExplained(sc: Scenario, s: Recorder, payloads: seq<seq<Byte>>)
    requires Explained(sc, s) && Accepted(sc, s, payloads)
    ensures Explained(sc, Feed(sc, s, payloads).0)
    decreases |payloads|
  {
    if payloads != [] {
      HandledExplained(sc, s, payloads[0]);
      FeedExplained(sc, Handled(sc, s, payloads[0]).0, payloads[1..]);
    }
  }

  // ----- Streams

  predicate SameButPending(h: (Recorder, Outcome), h': (Recorder, Outcome)) {
    h.1 == h'.1 && Clear(h.0) == Clear(h'.0)
  }

  lemma AcceptIgnoresPending(sc: Scenario, s: Recorder, key: string, entry: Entry, command: string, message: string)
    ensures SameButPending(Accept(sc, Set(s, key, entry), command, message),
                           Accept(sc, Set(Clear(s), key, entry), command, message))
  {
  }

  lemma UseIgnoresPending(sc: Scenario, s: Recorder, command: string)
    requires NeedsDownload(command)
    ensures SameButPending(UseDownload(sc, s, command), UseDownload(sc, Clear(s), command))
  {
    if s.downloaded.Some? {
      var artifact := Downloaded(sc, s);
      if StartsWith(command, "flash:") {
        var images := Images(s.deviceState)[command[|"flash:"|..] := artifact];
        AcceptIgnoresPending(sc, s, "partitions", Partitions(images), command, "flashed");
      } else if command == "signature" {
        AcceptIgnoresPending(sc, s, "signature", Stored(artifact), command, "accepted");
      } else if command == "boot" {
        AcceptIgnoresPending(sc, s, "boot", Stored(artifact), command, "booting");
      } else if command == "stage" {
        AcceptIgnoresPending(sc, s, "staged", Stored(artifact), command, "staged");
      } else {
        AcceptIgnoresPending(sc, s, "superUpdate", SuperUpdate(command, artifact), command, "updated");
      }
    }
  }

  lemma SimpleIgnoresPending(sc: Scenario, s: Recorder, command: string)
    ensures SameButPending(RunSimple(sc, s, command), RunSimple(sc, Clear(s), command))
  {
  }

  lemma CommandIgnoresPending(sc: Scenario, s: Recorder, command: string)
    ensures SameButPending(RunCommand(sc, s, command), RunCommand(sc, Clear(s), command))
  {
    if Receives(sc, command) || StartsWith(command, "download:") {
    } else if NeedsDownload(command) {
      UseIgnoresPending(sc, s, command);
    } else if StartsWith(command, "erase:") {
      AcceptIgnoresPending(sc, s, "erased", Names([command[|"erase:"|..]]), command, "erased");
    } else if StartsWith(command, "set_active:") {
      AcceptIgnoresPending(sc, s, "activeSlot", Named(command[|"set_active:"|..]), command, "active");
    } else if command in SIMPLE_COMMANDS {
      SimpleIgnoresPending(sc, s, command);
    }
  }

  /** Whether replies of an earlier message are still waiting makes no difference to the next message. */
  lemma HandledIgnoresPending(sc: Scenario, s: Recorder, payload: seq<Byte>)
    ensures SameButPending(Handled(sc, s, payload), Handled(sc, Clear(s), payload))
  {
    if s.expectedDataSize.None? && Ascii(payload).Some? {
      var command := Ascii(payload).value;
      if !StartsWith(command, "getvar:") {
        CommandIgnoresPending(sc, s.(events := s.events + [Command(command)]), command);
      }
    }
  }

  lemma {:induction false} FeedIgnoresPending(sc: Scenario, s: Recorder, payloads: seq<seq<Byte>>)
    ensures Feed(sc, Clear(s), payloads).1 == Feed(sc, s, payloads).1
    ensures Clear(Feed(sc, Clear(s), payloads).0) == Clear(Feed(sc, s, payloads).0)
    ensures Accepted(sc, Clear(s), payloads) == Accepted(sc, s, payloads)
    decreases |payloads|
  {
    if payloads != [] {
      HandledIgnoresPending(sc, s, payloads[0]);
      var h, h' := Handled(sc, s, payloads[0]), Handled(sc, Clear(s), payloads[0]);
      FeedIgnoresPending(sc, h.0, payloads[1..]);
      FeedIgnoresPending(sc, h'.0, payloads[1..]);
    }
  }

  /** Messages that fit a frame and do not make the client connect anew. */
  predicate Streamable(sc: Scenario, payloads: seq<seq<Byte>>) {
    forall i :: 0 <= i < |payloads| ==> |payloads[i]| <= MAX_FRAME_BYTES && !ReconnectsAfter(sc, payloads[i])
  }

  lemma ServedStep(sc: Scenario, s: Recorder, payload: seq<Byte>, tail: seq<Byte>)
    requires |payload| <= MAX_FRAME_BYTES && !ReconnectsAfter(sc, payload)
    requires !s.finished && Handled(sc, s, payload).1.Answer?
    ensures Served(sc, s, Frame(payload) + tail) == Served(sc, Clear(Handled(sc, s, payload).0), tail)
  {
    FrameIsReceived(payload, tail);
  }

  lemma FedStep(sc: Scenario, s: Recorder, payloads: seq<seq<Byte>>) returns (s': Recorder)
    requires payloads != [] && Accepted(sc, s, payloads)
    ensures !s.finished && s' == Clear(Handled(sc, s, payloads[0]).0) && Handled(sc, s, payloads[0]).1.Answer?
    ensures s'.pending == [] && Accepted(sc, s', payloads[1..])
    ensures Clear(Feed(sc, s', payloads[1..]).0) == Clear(Feed(sc, s, payloads).0)
  {
    var h := Handled(sc, s, payloads[0]);
    FeedIgnoresPending(sc, h.0, payloads[1..]);
    s' := Clear(h.0);
  }

  lemma FramesStep(payloads: seq<seq<Byte>>, rest: seq<Byte>)
    requires payloads != []
    ensures Frames(payloads) + rest == Frame(payloads[0]) + (Frames(payloads[1..]) + rest)
  {
  }

  /** Serving the frames of messages is handling the messages. */
  lemma {:induction false} ServedIsFed(sc: Scenario, s: Recorder, payloads: seq<seq<Byte>>, rest: seq<Byte>)
    requires Streamable(sc, payloads) && Accepted(sc, s, payloads) && s.pending == []
    ensures Served(sc, s, Frames(payloads) + rest) == Served(sc, Clear(Feed(sc, s, payloads).0), rest)
    decreases |payloads|
  {
    if payloads == [] {
      assert Frames(payloads) + rest == rest;
    } else {
      var s' := FedStep(sc, s, payloads);
      FramesStep(payloads, rest);
      ServedStep(sc, s, payloads[0], Frames(payloads[1..]) + rest);
      ServedIsFed(sc, s', payloads[1..], rest);
    }
  }

  ghost predicate Sound(sc: Scenario, s: Recorder) {
    Recording(s) && Explained(sc, s)
  }

  lemma HandledSound(sc: Scenario, s: Recorder, payload: seq<Byte>)
    requires Sound(sc, s) && Handled(sc, s, payload).1.Answer?
    ensures Sound(sc, Clear(Handled(sc, s, payload).0))
  {
    var s' := Handled(sc, s, payload).0;
    var more := HandledAdds(sc, s, payload);
    AddsKeepsRecording(s, s', more);
    HandledExplained(sc, s, payload);
    ClearSound(sc, s');
  }

  lemma ClearSound(sc: Scenario, s: Recorder)
    requires Sound(sc, s)
    ensures Sound(sc, Clear(s))
  {
    assert Told(sc, Clear(s).events, Clear(s));
  }

  lemma {:induction false} ServedSound(sc: Scenario, s: Recorder, stream: seq<Byte>)
    requires Sound(sc, s) && Served(sc, s, stream).1 != Broken
    ensures Sound(sc, Served(sc, s, stream).0)
    decreases |stream|
  {
    if !s.finished {
      var payload := FirstPayload(stream).value;
      HandledSound(sc, s, payload);
      if !ReconnectsAfter(sc, payload) {
        ServedSound(sc, Clear(Handled(sc, s, payload).0), stream[8 + |payload|..]);
      }
    }
  }

  lemma {:induction false} SessionsSound(sc: Scenario, s: Recorder, streams: seq<seq<Byte>>)
    requires Sound(sc, s) && Sessions(sc, s, streams).1 != Broken
    ensures Sound(sc, Sessions(sc, s, streams).0) && Sessions(sc, s, streams).0.finished
    decreases |streams|
  {
    if !s.finished {
      ServedSound(sc, s, streams[0][4..]);
      var first := Session(sc, s, streams[0]);
      if first.1 == Reconnecting {
        SessionsSound(sc, first.0, streams[1..]);
      } else {
        CompleteIsFinished(sc, s, streams[0][4..]);
      }
    }
  }

  lemma {:induction false} CompleteIsFinished(sc: Scenario, s: Recorder, stream: seq<Byte>)
    ensures Served(sc, s, stream).1 == Complete ==> Served(sc, s, stream).0.finished
    decreases |stream|
  {
    if !s.finished && FirstPayload(stream).Some? {
      var payload := FirstPayload(stream).value;
      CompleteIsFinished(sc, Clear(Handled(sc, s, payload).0), stream[8 + |payload|..]);
    }
  }

  /**
   * Every capture the serving loop completes, over any connections and any bytes: its trace explains the device,
   * its downloads come before their use, it has ended, and the comparator accepts its order.
   */
  lemma CompleteCapture(sc: Scenario, streams: seq<seq<Byte>>, exitCode: int, output: Option<seq<Byte>>)
    requires Sessions(sc, Start(sc), streams).1 == Complete
    ensures var s := Sessions(sc, Start(sc), streams).0;
            && Explained(sc, s) && DownloadsComeFirst(s.events) && Ended(sc, s.events)
            && var captured := Captured(sc, s, exitCode, output);
               captured.Some? ==> TraceCompare.InOrder(Kinds(captured.value.events))
  {
    StartRecords(sc);
    StartExplained(sc);
    SessionsSound(sc, Start(sc), streams);
    var s := Sessions(sc, Start(sc), streams).0;
    if Captured(sc, s, exitCode, output).Some? {
      CaptureInOrder(sc, s, exitCode, output);
    }
  }
}
