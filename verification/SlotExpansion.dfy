/**
 * Choosing A/B slots: which slots a request names, how the flash tasks of an
 * update plan are expanded to the slots they go to, and which slot set_active
 * picks.
 */
module SlotExpansion {
  import opened Common

  // ----- The slot planner

  datatype Selection = Current | Other | All | Explicit(name: char)

  predicate IsLetter(c: char) {
    'a' <= c <= 'z'
  }

  function WithoutUnderscore(value: string): string {
    if value != "" && value[0] == '_' then value[1..] else value
  }

  function NormalizeSlot(value: string): Option<char> {
    var name := WithoutUnderscore(value);
    if |name| != 1 || !IsLetter(name[0]) then None else Some(name[0])
  }

  function ParseSelection(value: string): Option<Selection> {
    if value == "" then Some(Current)
    else if value == "other" then Some(Other)
    else if value == "all" then Some(All)
    else
      var name := NormalizeSlot(value);
      if name.None? then None else Some(Explicit(name.value))
  }

  /** What the device answers while one task is planned; None is any failed query. */
  datatype Answers = Answers(
    secondaryTopology: Option<seq<char>>,
    hasSlot: Option<bool>,
    topology: Option<seq<char>>,
    currentSlot: Option<string>)

  function QueryCurrent(topology: seq<char>, a: Answers): Option<char> {
    if a.currentSlot.None? then None
    else
      var current := NormalizeSlot(a.currentSlot.value);
      if current.None? || current.value !in topology then None else current
  }

  function ResolveSlots(topology: seq<char>, selection: Selection, a: Answers): Option<seq<char>> {
    match selection
    case Explicit(name) => if name in topology then Some([name]) else None
    case All => Some(topology)
    case Current =>
      var current := QueryCurrent(topology, a);
      if current.None? then None else Some([current.value])
    case Other =>
      if |topology| != 2 then None
      else
        var current := QueryCurrent(topology, a);
        if current.None? then None
        else Some([if topology[0] == current.value then topology[1] else topology[0]])
  }

  const MAXIMUM_PARTITION_NAME := 4096 - 16

  predicate ValidPartitionName(partition: string) {
    && 0 < |partition| <= MAXIMUM_PARTITION_NAME
    && forall i :: 0 <= i < |partition| ==>
         var c := partition[i];
         'a' <= c <= 'z' || 'A' <= c <= 'Z' || '0' <= c <= '9' || c == '.' || c == '-' || c == '_'
  }

  method IsValidPartitionName(partition: string) returns (ok: bool)
    ensures ok <==> ValidPartitionName(partition)
  {
    if partition == "" || |partition| > 4096 - 16 { return false; }
    for i := 0 to |partition|
      invariant forall k :: 0 <= k < i ==>
                  var c := partition[k];
                  'a' <= c <= 'z' || 'A' <= c <= 'Z' || '0' <= c <= '9' || c == '.' || c == '-' || c == '_'
    {
      var c := partition[i];
      var letter, digit := 'A' <= c <= 'Z' || 'a' <= c <= 'z', '0' <= c <= '9';
      if !letter && !digit && c != '.' && c != '-' && c != '_' { return false; }
    }
    ok := true;
  }

  /** The slots a partition goes to: Some([]) for a partition without slots. */
  function PlanSlots(base: string, requested: string, a: Answers): Option<(bool, seq<char>)> {
    var selection := ParseSelection(requested);
    if !ValidPartitionName(base) || selection.None? || a.hasSlot.None? then None
    else if !a.hasSlot.value then if selection.value == Current then Some((false, [])) else None
    else if a.topology.None? then None
    else
      var slots := ResolveSlots(a.topology.value, selection.value, a);
      if slots.None? then None else Some((true, slots.value))
  }

  function SlotNames(base: string, slots: seq<char>): seq<string> {
    seq(|slots|, i requires 0 <= i < |slots| => base + "_" + [slots[i]])
  }

  method PlanPartition(base: string, requested: string, a: Answers) returns (names: Option<seq<string>>)
    ensures names == PartitionNames(base, requested, a)
  {
    var valid := IsValidPartitionName(base);
    if !valid { return None; }
    var selection := ParseSelection(requested);
    if selection.None? || a.hasSlot.None? { return None; }
    if !a.hasSlot.value { return if selection.value == Current then Some([base]) else None; }
    if a.topology.None? { return None; }
    var resolved := ResolveSlots(a.topology.value, selection.value, a);
    if resolved.None? { return None; }
    var slots := resolved.value;
    var result: seq<string> := [];
    for i := 0 to |slots|
      invariant result == SlotNames(base, slots)[..i]
    {
      result := result + [base + "_" + [slots[i]]];
    }
    assert result == SlotNames(base, slots);
    return Some(result);
  }

  ghost function PartitionNames(base: string, requested: string, a: Answers): Option<seq<string>> {
    var plan := PlanSlots(base, requested, a);
    if plan.None? then None
    else if !plan.value.0 then Some([base]) else Some(SlotNames(base, plan.value.1))
  }

  /** The first colon, or the length. */
  function Colon(partition: string): (i: nat)
    ensures i <= |partition|
    ensures forall k :: 0 <= k < i ==> partition[k] != ':'
    ensures i < |partition| ==> partition[i] == ':'
  {
    if partition == "" || partition[0] == ':' then 0 else 1 + Colon(partition[1..])
  }

  function Base(partition: string): string {
    partition[..Colon(partition)]
  }

  /** The ":..." part, empty without a colon. */
  function Suffix(partition: string): string {
    partition[Colon(partition)..]
  }

  function AppendAll(names: seq<string>, suffix: string): seq<string> {
    seq(|names|, i requires 0 <= i < |names| => names[i] + suffix)
  }

  lemma AppendNothing(names: seq<string>)
    ensures AppendAll(names, "") == names
  {
    forall i | 0 <= i < |names| ensures AppendAll(names, "")[i] == names[i] {
      assert names[i] + "" == names[i];
    }
  }

  ghost function NamesWithSuffix(partition: string, requested: string, a: Answers): Option<seq<string>> {
    var names := PartitionNames(Base(partition), requested, a);
    if names.None? then None else Some(AppendAll(names.value, Suffix(partition)))
  }

  method PlanPartitionSlots(partition: string, requested: string, a: Answers) returns (names: Option<seq<string>>)
    ensures names == NamesWithSuffix(partition, requested, a)
  {
    var separator := Colon(partition);
    names := PlanPartition(partition[..separator], requested, a);
    if names.None? { return None; }
    if separator == |partition| {
      assert Suffix(partition) == "";
      AppendNothing(names.value);
      return names;
    }
    var suffix := partition[separator..];
    var result := names.value;
    for i := 0 to |result|
      invariant |result| == |names.value|
      invariant forall k :: 0 <= k < |result| ==> result[k] == if k < i then names.value[k] + suffix else names.value[k]
    {
      result := result[i := result[i] + suffix];
    }
    assert result == AppendAll(names.value, suffix);
    return Some(result);
  }

  // ----- Which slots a request names

  /** The partition in one of its slots. */
  function InSlotName(partition: string, c: char): string {
    Base(partition) + "_" + [c] + Suffix(partition)
  }

  /** A slot letter as a request or the device may write it. */
  predicate Letters(text: string, c: char) {
    IsLetter(c) && (text == [c] || text == ['_', c])
  }

  /** A device with these slots, a partition with slots, and a current slot c. */
  ghost predicate Slotted(partition: string, a: Answers, slots: seq<char>, c: char) {
    && ValidPartitionName(Base(partition)) && ValidTopology(slots) && c in slots
    && a.hasSlot == Some(true) && a.topology == Some(slots) && a.currentSlot.Some? && Letters(a.currentSlot.value, c)
  }

  lemma LettersNormalize(text: string, c: char)
    requires Letters(text, c)
    ensures NormalizeSlot(text) == Some(c) && ParseSelection(text) == Some(Explicit(c))
    ensures text != "" && text != "other" && text != "all"
  {
    assert text == [c] ==> text[0] != '_';
    assert |text| <= 2;
  }

  lemma NormalizedLetters(text: string)
    requires NormalizeSlot(text).Some?
    ensures Letters(text, NormalizeSlot(text).value)
  {
    var name := WithoutUnderscore(text);
    assert name == [name[0]];
    if text != "" && text[0] == '_' { assert text == [text[0]] + text[1..]; }
  }

  lemma OneName(partition: string, requested: string, a: Answers, c: char)
    requires PlanSlots(Base(partition), requested, a) == Some((true, [c]))
    ensures NamesWithSuffix(partition, requested, a) == Some([InSlotName(partition, c)])
  {
    var base, suffix := Base(partition), Suffix(partition);
    assert SlotNames(base, [c]) == [base + "_" + [c]];
    assert AppendAll([base + "_" + [c]], suffix) == [InSlotName(partition, c)];
  }

  /** Without a slot asked for, a partition goes to the current slot. */
  lemma CurrentSlotIsPlanned(partition: string, a: Answers, slots: seq<char>, c: char)
    requires Slotted(partition, a, slots, c)
    ensures NamesWithSuffix(partition, "", a) == Some([InSlotName(partition, c)])
  {
    LettersNormalize(a.currentSlot.value, c);
    OneName(partition, "", a, c);
  }

  /** "other" is the slot that is not current, and only two slots have one. */
  lemma OtherSlotIsPlanned(partition: string, a: Answers, slots: seq<char>, c: char, d: char)
    requires Slotted(partition, a, slots, c) && d in slots && d != c
    ensures NamesWithSuffix(partition, "other", a) == if |slots| == 2 then Some([InSlotName(partition, d)]) else None
  {
    LettersNormalize(a.currentSlot.value, c);
    if |slots| == 2 {
      assert slots == [slots[0], slots[1]];
      OneName(partition, "other", a, d);
    }
  }

  /** A letter, with or without underscore, is that slot, if the device has it. */
  lemma LetterIsPlanned(partition: string, requested: string, a: Answers, slots: seq<char>, x: char)
    requires ValidPartitionName(Base(partition)) && a.hasSlot == Some(true) && a.topology == Some(slots)
    requires Letters(requested, x)
    ensures NamesWithSuffix(partition, requested, a) == if x in slots then Some([InSlotName(partition, x)]) else None
  {
    LettersNormalize(requested, x);
    if x in slots { OneName(partition, requested, a, x); }
  }

  /** "all" is every slot, in the order the device reports them. */
  lemma AllSlotsArePlanned(partition: string, a: Answers, slots: seq<char>)
    requires ValidPartitionName(Base(partition)) && a.hasSlot == Some(true) && a.topology == Some(slots)
    ensures NamesWithSuffix(partition, "all", a).Some?
    ensures var names := NamesWithSuffix(partition, "all", a).value;
            |names| == |slots| && forall i :: 0 <= i < |slots| ==> names[i] == InSlotName(partition, slots[i])
  {
    assert PlanSlots(Base(partition), "all", a) == Some((true, slots));
  }

  /** Nothing else is planned; a partition without slots goes to itself, and only when no slot is asked for. */
  lemma OtherRequestsAreRefused(partition: string, requested: string, a: Answers)
    ensures NamesWithSuffix(partition, requested, a).Some? ==>
              requested in {"", "other", "all"} || exists x :: Letters(requested, x)
    ensures ValidPartitionName(Base(partition)) && a.hasSlot == Some(false) ==>
              NamesWithSuffix(partition, requested, a) == if requested == "" then Some([partition]) else None
  {
    if NormalizeSlot(requested).Some? { NormalizedLetters(requested); }
    if requested == "" && ValidPartitionName(Base(partition)) && a.hasSlot == Some(false) {
      assert PartitionNames(Base(partition), "", a) == Some([Base(partition)]);
      assert AppendAll([Base(partition)], Suffix(partition)) == [Base(partition) + Suffix(partition)];
      assert Base(partition) + Suffix(partition) == partition;
    }
  }

  /** The current slot has to be reported, and be one of the slots. */
  lemma UnknownCurrentIsRefused(partition: string, requested: string, a: Answers, slots: seq<char>)
    requires a.hasSlot == Some(true) && a.topology == Some(slots) && requested in {"", "other"}
    requires a.currentSlot.None? || forall c :: c in slots ==> !Letters(a.currentSlot.value, c)
    ensures NamesWithSuffix(partition, requested, a).None?
  {
    if a.currentSlot.Some? && NormalizeSlot(a.currentSlot.value).Some? { NormalizedLetters(a.currentSlot.value); }
  }

  // ----- Expanding an update plan

  datatype TaskKind = Flash | Reboot | UpdateSuper | Erase

  datatype PlannedSlot = DefaultSlot | OtherSlot

  datatype Task = Task(
    kind: TaskKind, conditionalOnWipe: bool, line: nat, partition: string, artifact: string,
    slot: PlannedSlot, applyVbmeta: bool, excludeIfDynamic: bool, rebootTarget: string)

  const MAXIMUM_TASKS := 16384

  /** The slot to ask the planner for; a task for the other slot is turned around. */
  function RequestedSlot(task: Task, slot: string, selection: Selection, a: Answers): Option<string> {
    if task.slot == DefaultSlot then Some(slot)
    else
      match selection
      case Explicit(name) =>
        if a.secondaryTopology.None? || |a.secondaryTopology.value| != 2 then None
        else
          var slots := a.secondaryTopology.value;
          if slots[0] == name then Some([slots[1]])
          else if slots[1] == name then Some([slots[0]]) else None
      case Other => Some("")
      case All => Some("other")
      case Current => Some("other")
  }

  function Resolved(task: Task, names: seq<string>): seq<Task> {
    seq(|names|, i requires 0 <= i < |names| => task.(partition := names[i], slot := DefaultSlot))
  }

  /** What one task becomes. */
  ghost function Block(task: Task, slot: string, selection: Selection, a: Answers): Option<seq<Task>> {
    if task.kind != Flash then Some([task])
    else
      var requested := RequestedSlot(task, slot, selection, a);
      if requested.None? then None
      else
        var names := NamesWithSuffix(task.partition, requested.value, a);
        if names.None? then None else Some(Resolved(task, names.value))
  }

  /** The blocks of the first n tasks, one after the other; `world` gives the answers for each task. */
  ghost function Expansion(tasks: seq<Task>, slot: string, selection: Selection, world: nat -> Answers, n: nat)
    : Option<seq<Task>>
    requires n <= |tasks|
  {
    if n == 0 then Some([])
    else
      var before := Expansion(tasks, slot, selection, world, n - 1);
      var block := Block(tasks[n - 1], slot, selection, world(n - 1));
      if before.None? || block.None? then None else Some(before.value + block.value)
  }

  /** The limit is enforced on flash tasks only. */
  predicate FlashBelowLimit(tasks: seq<Task>) {
    forall i :: MAXIMUM_TASKS <= i < |tasks| ==> tasks[i].kind != Flash
  }

  lemma {:induction false} ExpansionPrefix(tasks: seq<Task>, slot: string, selection: Selection,
                                           world: nat -> Answers, n: nat, m: nat)
    requires n <= m <= |tasks| && Expansion(tasks, slot, selection, world, m).Some?
    ensures Expansion(tasks, slot, selection, world, n).Some?
    ensures Expansion(tasks, slot, selection, world, n).value <= Expansion(tasks, slot, selection, world, m).value
  {
    if n < m {
      ExpansionPrefix(tasks, slot, selection, world, n, m - 1);
    }
  }

  /** What expanding the whole plan gives. */
  ghost function Expanded(tasks: seq<Task>, slot: string, world: nat -> Answers): Option<seq<Task>> {
    var selection := ParseSelection(slot);
    if selection.None? then None
    else
      var all := Expansion(tasks, slot, selection.value, world, |tasks|);
      if all.None? || !FlashBelowLimit(all.value) then None else all
  }

  lemma Overfull(tasks: seq<Task>, slot: string, selection: Selection, world: nat -> Answers, n: nat)
    requires ParseSelection(slot) == Some(selection) && n < |tasks|
    requires var block := Expansion(tasks, slot, selection, world, n + 1); block.None? || !FlashBelowLimit(block.value)
    ensures Expanded(tasks, slot, world).None?
  {
    if Expansion(tasks, slot, selection, world, |tasks|).Some? {
      ExpansionPrefix(tasks, slot, selection, world, n + 1, |tasks|);
    }
  }

  /** Appends the tasks of one block until the limit is hit. */
  method AppendBlock(expanded: seq<Task>, task: Task, names: seq<string>) returns (r: Option<seq<Task>>)
    requires task.kind == Flash && FlashBelowLimit(expanded)
    ensures r == if FlashBelowLimit(expanded + Resolved(task, names)) then Some(expanded + Resolved(task, names)) else None
  {
    var result := expanded;
    ghost var all := expanded + Resolved(task, names);
    for i := 0 to |names|
      invariant result == all[..|expanded| + i] && FlashBelowLimit(result)
    {
      if |result| >= 16384 {
        assert all[|result|].kind == Flash;
        return None;
      }
      result := result + [task.(partition := names[i], slot := DefaultSlot)];
    }
    assert result == all;
    return Some(result);
  }

  method ApplyUpdateSlotPolicy(tasks: seq<Task>, slot: string, world: nat -> Answers) returns (r: Option<seq<Task>>)
    ensures r == Expanded(tasks, slot, world)
  {
    var selection := ParseSelection(slot);
    if selection.None? { return None; }
    var expanded: seq<Task> := [];
    for i := 0 to |tasks|
      invariant Expansion(tasks, slot, selection.value, world, i) == Some(expanded)
      invariant FlashBelowLimit(expanded)
    {
      var task := tasks[i];
      if task.kind != Flash {
        expanded := expanded + [task];
      } else {
        var requested := RequestedSlot(task, slot, selection.value, world(i));
        if requested.None? {
          Overfull(tasks, slot, selection.value, world, i);
          return None;
        }
        var names := PlanPartitionSlots(task.partition, requested.value, world(i));
        if names.None? {
          Overfull(tasks, slot, selection.value, world, i);
          return None;
        }
        var next := AppendBlock(expanded, task, names.value);
        if next.None? {
          Overfull(tasks, slot, selection.value, world, i);
          return None;
        }
        expanded := next.value;
      }
    }
    return Some(expanded);
  }

  // ----- What an expansion looks like

  /** What discovering the slots can return: two to 26 different letters. */
  predicate ValidTopology(slots: seq<char>) {
    && 2 <= |slots| <= 26
    && (forall i :: 0 <= i < |slots| ==> IsLetter(slots[i]))
    && (forall i, j :: 0 <= i < j < |slots| ==> slots[i] != slots[j])
  }

  /** The slots a device with a slot-count reports. */
  method TopologyFromCount(count: nat) returns (slots: Option<seq<char>>)
    ensures slots.Some? <==> 2 <= count <= 26
    ensures slots.Some? ==> ValidTopology(slots.value) && |slots.value| == count
    ensures slots.Some? ==> forall i :: 0 <= i < count ==> slots.value[i] == 'a' + i as char
  {
    if count < 2 || count > 26 { return None; }
    var result: seq<char> := [];
    for i := 0 to count
      invariant |result| == i && forall k :: 0 <= k < i ==> result[k] == 'a' + k as char
    {
      result := result + ['a' + i as char];
    }
    return Some(result);
  }

  predicate ValidAnswers(a: Answers) {
    a.topology.Some? ==> ValidTopology(a.topology.value)
  }

  /** A name for the base partition itself or for one of its slots. */
  predicate NamesPartition(name: string, base: string) {
    name == base || (|name| == |base| + 2 && name[..|base|] == base && name[|base|] == '_' && IsLetter(name[|base| + 1]))
  }

  /** Only partition and slot change, the slot becomes the default one, and the suffix survives. */
  predicate ResolvedFrom(resolved: Task, task: Task) {
    && resolved == task.(partition := resolved.partition, slot := DefaultSlot)
    && NamesPartition(Base(resolved.partition), Base(task.partition))
    && Suffix(resolved.partition) == Suffix(task.partition)
  }

  predicate BlockOf(block: seq<Task>, task: Task) {
    if task.kind != Flash then block == [task]
    else block != [] && forall k :: 0 <= k < |block| ==> ResolvedFrom(block[k], task)
  }

  lemma {:induction false} ColonAt(name: string, suffix: string)
    requires forall i :: 0 <= i < |name| ==> name[i] != ':'
    requires suffix == "" || suffix[0] == ':'
    ensures Colon(name + suffix) == |name|
  {
    if name != "" {
      ColonAt(name[1..], suffix);
      assert (name + suffix)[1..] == name[1..] + suffix;
    }
  }

  lemma SplitsAgain(name: string, suffix: string)
    requires forall i :: 0 <= i < |name| ==> name[i] != ':'
    requires suffix == "" || suffix[0] == ':'
    ensures Base(name + suffix) == name && Suffix(name + suffix) == suffix
  {
    ColonAt(name, suffix);
  }

  lemma ResolvedLetters(topology: seq<char>, selection: Selection, a: Answers)
    requires ValidTopology(topology) && ResolveSlots(topology, selection, a).Some?
    ensures var slots := ResolveSlots(topology, selection, a).value;
            slots != [] && forall i :: 0 <= i < |slots| ==> slots[i] in topology && IsLetter(slots[i])
  {
  }

  lemma NamesAreValid(base: string, requested: string, a: Answers, i: nat)
    requires ValidAnswers(a) && PartitionNames(base, requested, a).Some?
    ensures var names := PartitionNames(base, requested, a).value;
            && names != [] && ValidPartitionName(base)
            && (i < |names| ==> NamesPartition(names[i], base) && forall k :: 0 <= k < |names[i]| ==> names[i][k] != ':')
  {
    var plan := PlanSlots(base, requested, a).value;
    if plan.0 {
      ResolvedLetters(a.topology.value, ParseSelection(requested).value, a);
    }
  }

  lemma BlockShape(task: Task, slot: string, selection: Selection, a: Answers)
    requires ValidAnswers(a) && Block(task, slot, selection, a).Some?
    ensures BlockOf(Block(task, slot, selection, a).value, task)
  {
    if task.kind == Flash {
      var requested := RequestedSlot(task, slot, selection, a).value;
      var base, suffix := Base(task.partition), Suffix(task.partition);
      var names := PartitionNames(base, requested, a).value;
      var block := Block(task, slot, selection, a).value;
      NamesAreValid(base, requested, a, 0);
      forall k | 0 <= k < |block| ensures ResolvedFrom(block[k], task) {
        NamesAreValid(base, requested, a, k);
        SplitsAgain(names[k], suffix);
        assert block[k].partition == names[k] + suffix;
      }
    }
  }

  /** Where each task's block starts, and where the last one ends. */
  ghost predicate Blocks(tasks: seq<Task>, out: seq<Task>, starts: seq<nat>) {
    && |starts| == |tasks| + 1 && starts[0] == 0 && starts[|tasks|] == |out|
    && (forall i, j :: 0 <= i < j < |starts| ==> starts[i] < starts[j] <= |out|)
    && (forall i :: 0 <= i < |tasks| ==> BlockOf(out[starts[i]..starts[i + 1]], tasks[i]))
  }

  lemma BlocksSnoc(tasks: seq<Task>, out: seq<Task>, starts: seq<nat>, task: Task, block: seq<Task>)
    requires Blocks(tasks, out, starts) && BlockOf(block, task)
    ensures Blocks(tasks + [task], out + block, starts + [|out| + |block|])
  {
    var tasks', out', starts' := tasks + [task], out + block, starts + [|out| + |block|];
    assert block != [];
    forall i | 0 <= i < |tasks'| ensures BlockOf(out'[starts'[i]..starts'[i + 1]], tasks'[i]) {
      if i < |tasks| {
        assert out'[starts'[i]..starts'[i + 1]] == out[starts[i]..starts[i + 1]];
      } else {
        assert out'[starts'[i]..starts'[i + 1]] == block;
      }
    }
  }

  lemma {:induction false} ExpansionShape(tasks: seq<Task>, slot: string, selection: Selection,
                                          world: nat -> Answers, n: nat) returns (starts: seq<nat>)
    requires n <= |tasks| && Expansion(tasks, slot, selection, world, n).Some?
    requires forall i: nat :: ValidAnswers(world(i))
    ensures Blocks(tasks[..n], Expansion(tasks, slot, selection, world, n).value, starts)
  {
    if n == 0 {
      starts := [0];
    } else {
      var init := ExpansionShape(tasks, slot, selection, world, n - 1);
      BlockShape(tasks[n - 1], slot, selection, world(n - 1));
      var before := Expansion(tasks, slot, selection, world, n - 1).value;
      var block := Block(tasks[n - 1], slot, selection, world(n - 1)).value;
      BlocksSnoc(tasks[..n - 1], before, init, tasks[n - 1], block);
      assert tasks[..n - 1] + [tasks[n - 1]] == tasks[..n];
      starts := init + [|before| + |block|];
    }
  }

  // ----- How long an expansion gets

  /** How many tasks one task becomes: more than one only for "all" on a partition with slots. */
  function TargetCount(task: Task, selection: Selection, a: Answers): nat {
    if task.kind == Flash && task.slot == DefaultSlot && selection == All && a.hasSlot == Some(true) && a.topology.Some?
    then |a.topology.value| else 1
  }

  function Targets(tasks: seq<Task>, selection: Selection, world: nat -> Answers, n: nat): nat
    requires n <= |tasks|
  {
    if n == 0 then 0 else Targets(tasks, selection, world, n - 1) + TargetCount(tasks[n - 1], selection, world(n - 1))
  }

  lemma SingleSlot(base: string, requested: string, a: Answers)
    requires PartitionNames(base, requested, a).Some? && ParseSelection(requested) != Some(All)
    ensures |PartitionNames(base, requested, a).value| == 1
  {
  }

  lemma NotAll(slot: char)
    ensures ParseSelection([slot]) != Some(All)
  {
    assert |[slot]| == 1;
  }

  lemma BlockLength(task: Task, slot: string, selection: Selection, a: Answers)
    requires ParseSelection(slot) == Some(selection) && Block(task, slot, selection, a).Some?
    ensures |Block(task, slot, selection, a).value| == TargetCount(task, selection, a)
  {
    if task.kind == Flash {
      var requested := RequestedSlot(task, slot, selection, a).value;
      if task.slot == DefaultSlot && selection == All {
        assert PlanSlots(Base(task.partition), slot, a).value == (true, a.topology.value);
      } else {
        if task.slot == OtherSlot && selection.Explicit? { NotAll(requested[0]); assert requested == [requested[0]]; }
        SingleSlot(Base(task.partition), requested, a);
      }
    }
  }

  lemma {:induction false} ExpansionLength(tasks: seq<Task>, slot: string, selection: Selection,
                                           world: nat -> Answers, n: nat)
    requires n <= |tasks| && ParseSelection(slot) == Some(selection)
    requires Expansion(tasks, slot, selection, world, n).Some?
    ensures |Expansion(tasks, slot, selection, world, n).value| == Targets(tasks, selection, world, n)
    ensures selection != All ==> Targets(tasks, selection, world, n) == n
  {
    if n > 0 {
      ExpansionLength(tasks, slot, selection, world, n - 1);
      BlockLength(tasks[n - 1], slot, selection, world(n - 1));
    }
  }

  /**
   * An accepted expansion stays within the task limit exactly when the targets of all tasks do; it can pass the
   * limit only for "all", since otherwise it is as long as the plan.
   */
  lemma LimitIsKept(tasks: seq<Task>, slot: string, world: nat -> Answers)
    requires Expanded(tasks, slot, world).Some?
    ensures var selection := ParseSelection(slot).value;
            && (|Expanded(tasks, slot, world).value| <= MAXIMUM_TASKS
                <==> Targets(tasks, selection, world, |tasks|) <= MAXIMUM_TASKS)
            && (selection != All ==> |Expanded(tasks, slot, world).value| == |tasks|)
  {
    ExpansionLength(tasks, slot, ParseSelection(slot).value, world, |tasks|);
  }

  lemma {:induction false} OthersFollow(tasks: seq<Task>, slot: string, selection: Selection, world: nat -> Answers,
                                        block: seq<Task>, n: nat)
    requires 1 <= n <= |tasks| && Block(tasks[0], slot, selection, world(0)) == Some(block)
    requires forall i :: 1 <= i < |tasks| ==> tasks[i].kind != Flash
    ensures Expansion(tasks, slot, selection, world, n) == Some(block + tasks[1..n])
  {
    if n == 1 {
      assert Expansion(tasks, slot, selection, world, 0) == Some([]);
      assert [] + block == block + tasks[1..1];
    } else {
      OthersFollow(tasks, slot, selection, world, block, n - 1);
      assert block + tasks[1..n - 1] + [tasks[n - 1]] == block + tasks[1..n];
    }
  }

  /** A plan of exactly 16384 tasks whose first one is flashed to both slots is accepted and passes the limit. */
  lemma LimitCanBePassed(tasks: seq<Task>, world: nat -> Answers, x: char, y: char)
    requires |tasks| == MAXIMUM_TASKS && tasks[0].kind == Flash && tasks[0].slot == DefaultSlot
    requires ValidPartitionName(Base(tasks[0].partition)) && (forall i :: 1 <= i < |tasks| ==> tasks[i].kind != Flash)
    requires world(0).hasSlot == Some(true) && world(0).topology == Some([x, y])
    ensures Expanded(tasks, "all", world).Some?
    ensures |Expanded(tasks, "all", world).value| == MAXIMUM_TASKS + 1
  {
    var base, suffix := Base(tasks[0].partition), Suffix(tasks[0].partition);
    assert PlanSlots(base, "all", world(0)) == Some((true, [x, y]));
    var block := Block(tasks[0], "all", All, world(0)).value;
    assert |block| == 2;
    OthersFollow(tasks, "all", All, world, block, |tasks|);
    assert FlashBelowLimit(block + tasks[1..]);
  }

  /** Expansion is an order-preserving flat map: consecutive blocks, one per task, in the order of the tasks. */
  lemma ExpandedInOrder(tasks: seq<Task>, slot: string, world: nat -> Answers) returns (starts: seq<nat>)
    requires Expanded(tasks, slot, world).Some? && forall i: nat :: ValidAnswers(world(i))
    ensures Blocks(tasks, Expanded(tasks, slot, world).value, starts)
  {
    starts := ExpansionShape(tasks, slot, ParseSelection(slot).value, world, |tasks|);
    assert tasks[..|tasks|] == tasks;
  }

  /** The block a position belongs to. */
  lemma {:induction false} BlockAt(tasks: seq<Task>, out: seq<Task>, starts: seq<nat>, k: nat, n: nat) returns (i: nat)
    requires Blocks(tasks, out, starts) && n <= |tasks| && k < starts[n]
    ensures i < n && starts[i] <= k < starts[i + 1]
    decreases n
  {
    if starts[n - 1] <= k {
      i := n - 1;
    } else {
      i := BlockAt(tasks, out, starts, k, n - 1);
    }
  }

  /** No flash task is left for the other slot. */
  lemma FlashTasksAreResolved(tasks: seq<Task>, slot: string, world: nat -> Answers, k: nat)
    requires Expanded(tasks, slot, world).Some? && forall i: nat :: ValidAnswers(world(i))
    requires k < |Expanded(tasks, slot, world).value| && Expanded(tasks, slot, world).value[k].kind == Flash
    ensures Expanded(tasks, slot, world).value[k].slot == DefaultSlot && k < MAXIMUM_TASKS
  {
    var out := Expanded(tasks, slot, world).value;
    var starts := ExpandedInOrder(tasks, slot, world);
    var i := BlockAt(tasks, out, starts, k, |tasks|);
    var block := out[starts[i]..starts[i + 1]];
    assert BlockOf(block, tasks[i]) && out[k] == block[k - starts[i]];
  }

  /** The task, redirected to one slot of its partition. */
  function InSlot(task: Task, s: char): Task {
    task.(partition := Base(task.partition) + "_" + [s] + Suffix(task.partition), slot := DefaultSlot)
  }

  /** The slot a request asks for on the device with slots x and y and current slot x; None for "all". */
  function Chosen(slot: string, x: char, y: char): Option<char> {
    if slot == "" then Some(x) else if slot == "other" then Some(y) else if slot == "all" then None
    else if slot == [x] || slot == ['_', x] then Some(x) else Some(y)
  }

  ghost predicate TwoSlots(slots: seq<char>, x: char, y: char) {
    (slots == [x, y] || slots == [y, x]) && x != y && IsLetter(x) && IsLetter(y)
  }

  /** The requests for one slot. */
  predicate SingleRequest(slot: string, x: char, y: char) {
    slot == "" || slot == "other" || slot == [x] || slot == ['_', x] || slot == [y] || slot == ['_', y]
  }

  /** On a two-slot device a task for the default slot goes to the slot asked for. */
  lemma PrimaryGoesToSlot(task: Task, slot: string, selection: Selection, a: Answers, slots: seq<char>, x: char, y: char)
    requires task.kind == Flash && task.slot == DefaultSlot && ParseSelection(slot) == Some(selection)
    requires Slotted(task.partition, a, slots, x) && TwoSlots(slots, x, y) && SingleRequest(slot, x, y)
    ensures Block(task, slot, selection, a) == Some([InSlot(task, Chosen(slot, x, y).value)])
  {
    assert slots[0] == y || slots[1] == y;
    if slot == "" {
      CurrentSlotIsPlanned(task.partition, a, slots, x);
    } else if slot == "other" {
      OtherSlotIsPlanned(task.partition, a, slots, x, y);
    } else {
      var c := if slot == [x] || slot == ['_', x] then x else y;
      assert Letters(slot, c);
      LettersNormalize(slot, c);
      LetterIsPlanned(task.partition, slot, a, slots, c);
    }
    ResolvedOnce(task, slot, a, Chosen(slot, x, y).value);
  }

  lemma ResolvedOnce(task: Task, requested: string, a: Answers, c: char)
    requires NamesWithSuffix(task.partition, requested, a) == Some([InSlotName(task.partition, c)])
    ensures Resolved(task, NamesWithSuffix(task.partition, requested, a).value) == [InSlot(task, c)]
  {
  }

  /** A task for the other slot goes to the slot that was not asked for; with "all", to the one that is not current. */
  lemma SecondaryGoesElsewhere(task: Task, slot: string, selection: Selection, a: Answers, slots: seq<char>,
                               x: char, y: char)
    requires task.kind == Flash && task.slot == OtherSlot && ParseSelection(slot) == Some(selection)
    requires Slotted(task.partition, a, slots, x) && TwoSlots(slots, x, y) && a.secondaryTopology == a.topology
    requires SingleRequest(slot, x, y) || slot == "all"
    ensures Block(task, slot, selection, a) == Some([InSlot(task, if Chosen(slot, x, y) == Some(y) then x else y)])
  {
    assert slots[0] == y || slots[1] == y;
    var other := if Chosen(slot, x, y) == Some(y) then x else y;
    var requested;
    if slot == "" || slot == "all" {
      requested := "other";
      OtherSlotIsPlanned(task.partition, a, slots, x, y);
    } else if slot == "other" {
      requested := "";
      CurrentSlotIsPlanned(task.partition, a, slots, x);
    } else {
      var c := if slot == [x] || slot == ['_', x] then x else y;
      assert Letters(slot, c);
      LettersNormalize(slot, c);
      requested := [other];
      assert slots[0] == c || slots[1] == c;
      LetterIsPlanned(task.partition, requested, a, slots, other);
    }
    assert RequestedSlot(task, slot, selection, a) == Some(requested);
    ResolvedOnce(task, requested, a, other);
  }

  /** Every flash task of the plan is about a partition with slots, on a device with slots x and y, x being current. */
  ghost predicate SlottedPlan(tasks: seq<Task>, world: nat -> Answers, slots: seq<char>, x: char) {
    forall i: nat :: i < |tasks| && tasks[i].kind == Flash ==>
      Slotted(tasks[i].partition, world(i), slots, x) && world(i).secondaryTopology == world(i).topology
  }

  lemma TaskIsPlaced(tasks: seq<Task>, slot: string, selection: Selection, world: nat -> Answers, slots: seq<char>,
                     x: char, y: char, i: nat)
    requires i < |tasks| && SlottedPlan(tasks, world, slots, x) && TwoSlots(slots, x, y)
    requires SingleRequest(slot, x, y) && ParseSelection(slot) == Some(selection) && Chosen(slot, x, y).Some?
    ensures Block(tasks[i], slot, selection, world(i)) == Some([Placed(tasks[i], Chosen(slot, x, y).value, x, y)])
  {
    var task := tasks[i];
    if task.kind == Flash {
      if task.slot == DefaultSlot {
        PrimaryGoesToSlot(task, slot, selection, world(i), slots, x, y);
      } else {
        SecondaryGoesElsewhere(task, slot, selection, world(i), slots, x, y);
      }
    }
  }

  /** Tasks that each become one task. */
  lemma {:induction false} OneForOne(tasks: seq<Task>, slot: string, selection: Selection, world: nat -> Answers,
                                     out: seq<Task>, n: nat)
    requires n <= |tasks| == |out|
    requires forall i: nat :: i < |tasks| ==> Block(tasks[i], slot, selection, world(i)) == Some([out[i]])
    ensures Expansion(tasks, slot, selection, world, n) == Some(out[..n])
  {
    if n > 0 {
      OneForOne(tasks, slot, selection, world, out, n - 1);
      assert Block(tasks[n - 1], slot, selection, world(n - 1)) == Some([out[n - 1]]);
      assert out[..n - 1] + [out[n - 1]] == out[..n];
    }
  }

  /** The tasks, each where it goes. */
  function AllPlaced(tasks: seq<Task>, chosen: char, x: char, y: char): seq<Task> {
    seq(|tasks|, i requires 0 <= i < |tasks| => Placed(tasks[i], chosen, x, y))
  }

  /** Whatever single slot is asked for, primary and secondary tasks of a plan end up in the two different slots. */
  lemma PlanIsSplit(tasks: seq<Task>, slot: string, selection: Selection, world: nat -> Answers,
                    slots: seq<char>, x: char, y: char, chosen: char)
    requires SlottedPlan(tasks, world, slots, x) && TwoSlots(slots, x, y)
    requires SingleRequest(slot, x, y) && ParseSelection(slot) == Some(selection) && Chosen(slot, x, y) == Some(chosen)
    ensures Expansion(tasks, slot, selection, world, |tasks|) == Some(AllPlaced(tasks, chosen, x, y))
  {
    var out := AllPlaced(tasks, chosen, x, y);
    forall i: nat | i < |tasks| ensures Block(tasks[i], slot, selection, world(i)) == Some([out[i]]) {
      TaskIsPlaced(tasks, slot, selection, world, slots, x, y, i);
    }
    OneForOne(tasks, slot, selection, world, out, |tasks|);
    assert out[..|tasks|] == out;
  }

  /** The expanded plan has the tasks in place, each in its slot, whenever it has at most as many as the limit. */
  lemma PlanGoesToSlots(tasks: seq<Task>, slot: string, world: nat -> Answers, slots: seq<char>, x: char, y: char)
    requires SlottedPlan(tasks, world, slots, x) && TwoSlots(slots, x, y) && SingleRequest(slot, x, y)
    requires |tasks| <= MAXIMUM_TASKS
    ensures Chosen(slot, x, y).Some? && Expanded(tasks, slot, world).Some?
    ensures var out := Expanded(tasks, slot, world).value;
            |out| == |tasks|
            && forall i :: 0 <= i < |tasks| ==> out[i] == Placed(tasks[i], Chosen(slot, x, y).value, x, y)
  {
    RequestIsParsed(slot, x, y);
    PlanIsSplit(tasks, slot, ParseSelection(slot).value, world, slots, x, y, Chosen(slot, x, y).value);
  }

  /** Where a task goes when `chosen` is asked for on a device with slots x and y. */
  function Placed(task: Task, chosen: char, x: char, y: char): Task {
    if task.kind != Flash then task
    else if task.slot == DefaultSlot then InSlot(task, chosen)
    else InSlot(task, if chosen == x then y else x)
  }

  lemma RequestIsParsed(slot: string, x: char, y: char)
    requires IsLetter(x) && IsLetter(y) && SingleRequest(slot, x, y)
    ensures ParseSelection(slot).Some? && Chosen(slot, x, y).Some?
  {
    if slot != "" && slot != "other" {
      var c := if slot == [x] || slot == ['_', x] then x else y;
      assert Letters(slot, c);
      LettersNormalize(slot, c);
    }
  }

  // ----- set_active

  function SlotIndex(c: char): int {
    c as int - 'a' as int
  }

  predicate IsSlot(c: char, count: nat) {
    0 <= SlotIndex(c) < count
  }

  /** The slot set_active is sent for; `count` and `current` are what the device reports. */
  function AospSetActive(requested: string, count: Option<nat>, current: Option<string>): Option<char> {
    if count.None? || !(1 <= count.value <= 26) then None
    else
      var slot :=
        if requested == "all" then Some("a")
        else if requested != "other" then Some(requested)
        else if current.None? then None
        else
          var now := WithoutUnderscore(current.value);
          if |now| != 1 || !IsSlot(now[0], count.value) then None else Some([NextSlot(now[0], count.value)]);
      if slot.None? || |slot.value| != 1 || !IsSlot(slot.value[0], count.value) then None else Some(slot.value[0])
  }

  function NextSlot(current: char, count: nat): (r: char)
    requires 1 <= count <= 26 && IsSlot(current, count)
    ensures IsSlot(r, count)
  {
    ((SlotIndex(current) + 1) % count + 'a' as int) as char
  }

  /** Activating the other slot k times in a row. */
  function Activations(c: char, count: nat, k: nat): (r: char)
    requires 1 <= count <= 26 && IsSlot(c, count)
    ensures IsSlot(r, count)
  {
    if k == 0 then c else NextSlot(Activations(c, count, k - 1), count)
  }

  function Rotate(i: nat, count: nat, k: nat): int {
    if i + k < count then i + k else i + k - count
  }

  lemma NextIndex(c: char, count: nat)
    requires 1 <= count <= 26 && IsSlot(c, count)
    ensures SlotIndex(NextSlot(c, count)) == Rotate(SlotIndex(c), count, 1)
  {
    var i := SlotIndex(c);
    if i + 1 < count {
      assert (i + 1) % count == i + 1;
    } else {
      assert i + 1 == count && (i + 1) % count == 0;
    }
  }

  lemma {:induction false} ActivationsRotate(c: char, count: nat, k: nat)
    requires 1 <= count <= 26 && IsSlot(c, count) && k <= count
    ensures SlotIndex(Activations(c, count, k)) == Rotate(SlotIndex(c), count, k)
  {
    if k > 0 {
      ActivationsRotate(c, count, k - 1);
      NextIndex(Activations(c, count, k - 1), count);
    }
  }

  lemma OtherIsNext(c: char, count: nat)
    requires 1 <= count <= 26 && IsSlot(c, count)
    ensures AospSetActive("other", Some(count), Some([c])) == Some(NextSlot(c, count))
    ensures AospSetActive("other", Some(count), Some(['_', c])) == Some(NextSlot(c, count))
  {
    assert WithoutUnderscore([c]) == [c];
    assert WithoutUnderscore(['_', c]) == [c];
  }

  /** "other" is sent exactly when the device reports one of its slots as current, and then for the next one. */
  lemma OtherIsActivatedExactly(count: Option<nat>, current: Option<string>, d: char)
    ensures AospSetActive("other", count, current) == Some(d) <==>
              && count.Some? && 1 <= count.value <= 26 && current.Some?
              && exists c :: IsSlot(c, count.value) && (current.value == [c] || current.value == ['_', c])
                             && SlotIndex(d) == Rotate(SlotIndex(c), count.value, 1)
  {
    if count.Some? && 1 <= count.value <= 26 && current.Some? {
      var now := WithoutUnderscore(current.value);
      if |now| == 1 && IsSlot(now[0], count.value) {
        CurrentIsWritten(current.value, now[0]);
        NextIndex(now[0], count.value);
        if SlotIndex(d) == Rotate(SlotIndex(now[0]), count.value, 1) {
          SameSlot(d, NextSlot(now[0], count.value));
        }
      }
      forall c | current.value == [c] || current.value == ['_', c] ensures IsSlot(c, count.value) ==> now == [c] {
        if current.value == ['_', c] { assert current.value[1..] == [c]; }
      }
    }
  }

  lemma CurrentIsWritten(current: string, c: char)
    requires WithoutUnderscore(current) == [c]
    ensures current == [c] || current == ['_', c]
  {
    if current[0] == '_' { assert current == [current[0]] + current[1..]; }
  }

  /** Any other request must name a reported slot, and "all" activates the first one. */
  lemma RequestedSlotIsActivated(requested: string, count: Option<nat>, current: Option<string>, c: char)
    requires requested != "other" && requested != "all"
    ensures AospSetActive(requested, count, current) == Some(c)
       <==> count.Some? && 1 <= count.value <= 26 && requested == [c] && IsSlot(c, count.value)
    ensures AospSetActive("all", count, current) == if count.Some? && 1 <= count.value <= 26 then Some('a') else None
  {
    if |requested| == 1 { assert requested == [requested[0]]; }
  }

  lemma SameSlot(c: char, d: char)
    requires SlotIndex(c) == SlotIndex(d)
    ensures c == d
  {
    assert c as int == d as int;
  }

  /** "other" reaches every reported slot, */
  lemma OtherReaches(c: char, d: char, count: nat) returns (k: nat)
    requires 1 <= count <= 26 && IsSlot(c, count) && IsSlot(d, count)
    ensures k < count && Activations(c, count, k) == d
  {
    var i, j := SlotIndex(c), SlotIndex(d);
    k := if i <= j then j - i else j + count - i;
    ActivationsRotate(c, count, k);
    SameSlot(Activations(c, count, k), d);
  }

  /** meets no slot twice before it has met all, and then comes back to the first. */
  lemma OtherDoesNotRepeat(c: char, count: nat, k: nat, l: nat)
    requires 1 <= count <= 26 && IsSlot(c, count) && k < l <= count
    ensures Activations(c, count, k) == Activations(c, count, l) <==> k == 0 && l == count
  {
    ActivationsRotate(c, count, k);
    ActivationsRotate(c, count, l);
    if k == 0 && l == count {
      SameSlot(Activations(c, count, k), Activations(c, count, l));
    }
  }
}
