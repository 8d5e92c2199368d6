/**
 * Moving options ahead of positionals and reading them group by group, for any
 * set of options: `arity` says of an argument whether it is an option and, if
 * so, whether it takes the next argument as its value.
 */
module OptionOrder {
  import opened Common

  type Arity = string -> Option<bool>

  // ----- The reordering pass

  /** The options with their values, and the positional arguments, each in order. */
  datatype Parts = Parts(options: seq<string>, positionals: seq<string>)

  /** Arguments taken by the option at the front. */
  function Width(arity: Arity, args: seq<string>): (w: nat)
    requires args != [] && arity(args[0]).Some?
    ensures 1 <= w <= |args|
  {
    if arity(args[0]).value && |args| > 1 then 2 else 1
  }

  function Partition(arity: Arity, args: seq<string>): Parts {
    if args == [] then Parts([], [])
    else if args[0] == "--" then Parts([], args[1..])
    else if arity(args[0]).Some? then
      var w := Width(arity, args);
      var rest := Partition(arity, args[w..]);
      Parts(args[..w] + rest.options, rest.positionals)
    else
      var rest := Partition(arity, args[1..]);
      Parts(rest.options, args[..1] + rest.positionals)
  }

  function Joined(options: seq<string>, positionals: seq<string>, rest: Parts): Parts {
    Parts(options + rest.options, positionals + rest.positionals)
  }

  /** What the arguments from i on contribute. */
  function From(arity: Arity, enabled: bool, argv: seq<string>, i: nat): Parts
    requires i <= |argv|
  {
    if enabled then Partition(arity, argv[i..]) else Parts([], argv[i..])
  }

  lemma TakeTerminator(arity: Arity, argv: seq<string>, i: nat)
    requires i < |argv| && argv[i] == "--"
    ensures From(arity, true, argv, i) == From(arity, false, argv, i + 1)
  {
    assert argv[i..][0] == "--" && argv[i..][1..] == argv[i + 1..];
  }

  lemma TakeFlag(arity: Arity, argv: seq<string>, i: nat, options: seq<string>, positionals: seq<string>)
    requires i < |argv| && argv[i] != "--" && arity(argv[i]).Some? && (!arity(argv[i]).value || i + 1 == |argv|)
    ensures Joined(options, positionals, From(arity, true, argv, i))
         == Joined(options + [argv[i]], positionals, From(arity, true, argv, i + 1))
  {
    var rest := argv[i..];
    assert rest[0] == argv[i] && rest[..1] == [argv[i]] && rest[1..] == argv[i + 1..];
  }

  lemma TakeValued(arity: Arity, argv: seq<string>, i: nat, options: seq<string>, positionals: seq<string>)
    requires i + 1 < |argv| && argv[i] != "--" && arity(argv[i]) == Some(true)
    ensures Joined(options, positionals, From(arity, true, argv, i))
         == Joined(options + [argv[i]] + [argv[i + 1]], positionals, From(arity, true, argv, i + 2))
  {
    var rest := argv[i..];
    assert rest[0] == argv[i] && rest[..2] == [argv[i]] + [argv[i + 1]] && rest[2..] == argv[i + 2..];
  }

  lemma TakePositional(arity: Arity, argv: seq<string>, i: nat, enabled: bool,
                       options: seq<string>, positionals: seq<string>)
    requires i < |argv| && (enabled ==> argv[i] != "--" && arity(argv[i]).None?)
    ensures Joined(options, positionals, From(arity, enabled, argv, i))
         == Joined(options, positionals + [argv[i]], From(arity, enabled, argv, i + 1))
  {
    var rest := argv[i..];
    assert rest[0] == argv[i] && rest[..1] == [argv[i]] && rest[1..] == argv[i + 1..];
    assert rest == [argv[i]] + argv[i + 1..];
  }

  lemma TakeNothing(arity: Arity, argv: seq<string>, enabled: bool, options: seq<string>, positionals: seq<string>)
    ensures Joined(options, positionals, From(arity, enabled, argv, |argv|)) == Parts(options, positionals)
  {
    assert argv[|argv|..] == [];
  }

  method Reorder(arity: Arity, argv: seq<string>) returns (reordered: seq<string>)
    requires argv != []
    ensures reordered == argv[..1] + Partition(arity, argv[1..]).options + Partition(arity, argv[1..]).positionals
  {
    var options, positionals: seq<string> := [], [];
    var enabled := true;
    var i := 1;
    while i < |argv|
      invariant 1 <= i <= |argv|
      invariant From(arity, true, argv, 1) == Joined(options, positionals, From(arity, enabled, argv, i))
    {
      var argument := argv[i];
      if enabled && argument == "--" {
        TakeTerminator(arity, argv, i);
        enabled := false;
      } else if enabled && arity(argument).Some? {
        if arity(argument).value && i + 1 < |argv| {
          TakeValued(arity, argv, i, options, positionals);
          options := options + [argument] + [argv[i + 1]];
          i := i + 1;
        } else {
          TakeFlag(arity, argv, i, options, positionals);
          options := options + [argument];
        }
      } else {
        TakePositional(arity, argv, i, enabled, options, positionals);
        positionals := positionals + [argument];
      }
      i := i + 1;
    }
    TakeNothing(arity, argv, enabled, options, positionals);
    reordered := argv[..1] + options + positionals;
  }

  /** A "--" that is not itself the value of an option. */
  predicate HasTerminator(arity: Arity, args: seq<string>) {
    if args == [] then false
    else if args[0] == "--" then true
    else if arity(args[0]).Some? then HasTerminator(arity, args[Width(arity, args)..])
    else HasTerminator(arity, args[1..])
  }

  /** The reading pass keeps the original argument count; the reordered list is that long unless "--" was used. */
  lemma {:induction false} ReorderedLength(arity: Arity, args: seq<string>)
    ensures |Partition(arity, args).options| + |Partition(arity, args).positionals|
         == |args| - if HasTerminator(arity, args) then 1 else 0
  {
    if args == [] || args[0] == "--" {
    } else if arity(args[0]).Some? {
      ReorderedLength(arity, args[Width(arity, args)..]);
    } else {
      ReorderedLength(arity, args[1..]);
    }
  }

  // ----- Command lines as mixtures of option groups and positionals

  datatype Group = Group(option: string, value: Option<string>)

  datatype Item = OptionItem(group: Group) | Positional(text: string)

  predicate ValidGroup(arity: Arity, g: Group) {
    g.option != "--" && arity(g.option) == Some(g.value.Some?)
  }

  predicate ValidItem(arity: Arity, item: Item) {
    match item
    case OptionItem(g) => ValidGroup(arity, g)
    case Positional(p) => arity(p).None? && p != "--"
  }

  predicate ValidItems(arity: Arity, items: seq<Item>) {
    forall i :: 0 <= i < |items| ==> ValidItem(arity, items[i])
  }

  function GroupText(g: Group): seq<string> {
    if g.value.Some? then [g.option, g.value.value] else [g.option]
  }

  function GroupsText(groups: seq<Group>): seq<string> {
    if groups == [] then [] else GroupText(groups[0]) + GroupsText(groups[1..])
  }

  function ItemText(item: Item): seq<string> {
    match item case OptionItem(g) => GroupText(g) case Positional(p) => [p]
  }

  function Text(items: seq<Item>): seq<string> {
    if items == [] then [] else ItemText(items[0]) + Text(items[1..])
  }

  function Groups(items: seq<Item>): seq<Group> {
    if items == [] then []
    else (if items[0].OptionItem? then [items[0].group] else []) + Groups(items[1..])
  }

  function Positionals(items: seq<Item>): seq<string> {
    if items == [] then []
    else (if items[0].Positional? then [items[0].text] else []) + Positionals(items[1..])
  }

  function OptionPart(item: Item): seq<string> {
    if item.OptionItem? then GroupText(item.group) else []
  }

  function PositionalPart(item: Item): seq<string> {
    if item.Positional? then [item.text] else []
  }

  lemma TakeItem(arity: Arity, item: Item, rest: seq<string>)
    requires ValidItem(arity, item)
    ensures Partition(arity, ItemText(item) + rest)
         == Joined(OptionPart(item), PositionalPart(item), Partition(arity, rest))
    ensures HasTerminator(arity, ItemText(item) + rest) == HasTerminator(arity, rest)
  {
    var args, w := ItemText(item) + rest, |ItemText(item)|;
    assert args[..w] == ItemText(item) && args[w..] == rest;
  }

  lemma FirstItem(items: seq<Item>)
    requires items != []
    ensures GroupsText(Groups(items)) == OptionPart(items[0]) + GroupsText(Groups(items[1..]))
    ensures Positionals(items) == PositionalPart(items[0]) + Positionals(items[1..])
  {
    if items[0].OptionItem? {
      assert Groups(items)[1..] == Groups(items[1..]);
    } else {
      assert Groups(items) == Groups(items[1..]);
    }
  }

  lemma JoinedTwice(a: seq<string>, p: seq<string>, b: seq<string>, q: seq<string>, rest: Parts)
    ensures Joined(a, p, Joined(b, q, rest)) == Joined(a + b, p + q, rest)
  {
    assert a + (b + rest.options) == a + b + rest.options;
    assert p + (q + rest.positionals) == p + q + rest.positionals;
  }

  /** Reordering takes a mixture apart in front of whatever follows it. */
  lemma {:induction false} PartitionAfter(arity: Arity, items: seq<Item>, tail: seq<string>)
    requires ValidItems(arity, items)
    ensures Partition(arity, Text(items) + tail)
         == Joined(GroupsText(Groups(items)), Positionals(items), Partition(arity, tail))
    ensures HasTerminator(arity, Text(items) + tail) == HasTerminator(arity, tail)
  {
    if items == [] {
      assert Text(items) + tail == tail;
    } else {
      PartitionAfter(arity, items[1..], tail);
      AfterItem(arity, items, tail, Text(items[1..]) + tail);
    }
  }

  lemma AfterItem(arity: Arity, items: seq<Item>, tail: seq<string>, inner: seq<string>)
    requires items != [] && ValidItem(arity, items[0]) && inner == Text(items[1..]) + tail
    requires Partition(arity, inner)
          == Joined(GroupsText(Groups(items[1..])), Positionals(items[1..]), Partition(arity, tail))
    ensures Partition(arity, Text(items) + tail)
         == Joined(GroupsText(Groups(items)), Positionals(items), Partition(arity, tail))
    ensures HasTerminator(arity, Text(items) + tail) == HasTerminator(arity, inner)
  {
    TextFirst(items, tail);
    TakeItem(arity, items[0], inner);
    FirstItem(items);
    JoinedTwice(OptionPart(items[0]), PositionalPart(items[0]), GroupsText(Groups(items[1..])),
                Positionals(items[1..]), Partition(arity, tail));
  }

  lemma TextFirst(items: seq<Item>, tail: seq<string>)
    requires items != []
    ensures Text(items) + tail == ItemText(items[0]) + (Text(items[1..]) + tail)
  {
  }

  /** Reordering separates any mixture into its groups and its positionals. */
  lemma PartitionSeparates(arity: Arity, items: seq<Item>)
    requires ValidItems(arity, items)
    ensures Partition(arity, Text(items)) == Parts(GroupsText(Groups(items)), Positionals(items))
    ensures !HasTerminator(arity, Text(items))
  {
    PartitionAfter(arity, items, []);
    assert Text(items) + [] == Text(items);
  }

  /** The reading of a command line as items: none with an effective "--" or when the last option lacks its value. */
  function Itemize(arity: Arity, args: seq<string>): Option<seq<Item>> {
    if args == [] then Some([])
    else if args[0] == "--" then None
    else if arity(args[0]).Some? then
      if arity(args[0]).value then
        if |args| == 1 then None
        else Prepend(OptionItem(Group(args[0], Some(args[1]))), Itemize(arity, args[2..]))
      else Prepend(OptionItem(Group(args[0], None)), Itemize(arity, args[1..]))
    else Prepend(Positional(args[0]), Itemize(arity, args[1..]))
  }

  function Prepend(item: Item, rest: Option<seq<Item>>): Option<seq<Item>> {
    if rest.None? then None else Some([item] + rest.value)
  }

  lemma {:induction false} ItemizeSound(arity: Arity, args: seq<string>)
    requires Itemize(arity, args).Some?
    ensures ValidItems(arity, Itemize(arity, args).value) && Text(Itemize(arity, args).value) == args
  {
    if args != [] {
      var items := Itemize(arity, args).value;
      var rest := args[|ItemText(items[0])|..];
      ItemizeSound(arity, rest);
      assert items[1..] == Itemize(arity, rest).value;
    }
  }

  lemma {:induction false} ItemizeComplete(arity: Arity, items: seq<Item>)
    requires ValidItems(arity, items)
    ensures Itemize(arity, Text(items)) == Some(items)
  {
    if items != [] {
      ItemizeComplete(arity, items[1..]);
      assert ValidItem(arity, items[0]);
      assert Text(items)[|ItemText(items[0])|..] == Text(items[1..]);
      assert items == [items[0]] + items[1..];
    }
  }

  /** Every command line without "--" and with its last value present is a mixture, in exactly one way. */
  lemma ItemizeInverts(arity: Arity, args: seq<string>, items: seq<Item>)
    ensures Itemize(arity, args) == Some(items) <==> ValidItems(arity, items) && Text(items) == args
  {
    if Itemize(arity, args) == Some(items) {
      ItemizeSound(arity, args);
    } else if ValidItems(arity, items) {
      ItemizeComplete(arity, items);
    }
  }

  // ----- The reading pass

  /** What a group asks for; None is a missing or malformed value. */
  datatype Reading<K, V> =
    | Selection(selector: Option<string>)
    | Setting(key: K, value: Option<V>, repeatable: bool)

  type Reader<!K, !V> = Group -> Reading<K, V>

  datatype Settings<K, V> = Settings(values: map<K, V>, selectors: seq<string>)

  datatype Problem =
    | Repeated(option: string) | BadValue(option: string) | MissingValue(option: string)
    | DuplicateSelector(option: string) | UnknownCommand | UnknownOption(option: string) | BadCommand
    | OutsideList           // an argument was read behind the end of the list

  datatype Scanned<K, V> = Scanned(settings: Settings<K, V>, rest: seq<string>)

  function ApplyGroup<K(==), V>(read: Reader<K, V>, st: Settings<K, V>, g: Group): Result<Settings<K, V>, Problem> {
    match read(g)
    case Selection(selector) =>
      if selector.None? then Err(BadValue(g.option))
      else if selector.value in st.selectors then Err(DuplicateSelector(g.option))
      else Ok(st.(selectors := st.selectors + [selector.value]))
    case Setting(key, value, repeatable) =>
      if key in st.values && !repeatable then Err(Repeated(g.option))
      else if value.None? then Err(BadValue(g.option))
      else Ok(st.(values := st.values[key := value.value]))
  }

  /** An option that was given before and may not come again; this is checked before its value is looked at. */
  predicate Repeats<K(==), V>(read: Reader<K, V>, st: Settings<K, V>, option: string) {
    var r := read(Group(option, None));
    r.Setting? && r.key in st.values && !r.repeatable
  }

  /**
   * Options are read from the front until the first argument that is none. The pass goes by an argument count
   * that may exceed the list by `beyond`; reading behind the list is the error OutsideList.
   */
  function Scan<K(==), V>(arity: Arity, read: Reader<K, V>, st: Settings<K, V>, args: seq<string>, beyond: nat)
    : Result<Scanned<K, V>, Problem>
    decreases |args|
  {
    if args == [] then if beyond > 0 then Err(OutsideList) else Ok(Scanned(st, []))
    else if arity(args[0]).None? then Ok(Scanned(st, args))
    else if arity(args[0]).value && |args| == 1 then
      Err(if Repeats(read, st, args[0]) then Repeated(args[0])
          else if beyond > 0 then OutsideList else MissingValue(args[0]))
    else
      var width := if arity(args[0]).value then 2 else 1;
      var next := ApplyGroup(read, st, Group(args[0], if arity(args[0]).value then Some(args[1]) else None));
      if next.Err? then Err(next.error) else Scan(arity, read, next.value, args[width..], beyond)
  }

  /** `argc` is the count the pass goes by, `argv` the list it reads from. */
  method ReadOptions<K(==), V>(arity: Arity, read: Reader<K, V>, argv: seq<string>, argc: nat)
    returns (r: Result<Scanned<K, V>, Problem>)
    requires argv != [] && |argv| <= argc
    ensures r == Scan(arity, read, Settings(map[], []), argv[1..], argc - |argv|)
  {
    var st := Settings(map[], []);
    var i := 1;
    ghost var beyond := argc - |argv|;
    while i < argc
      invariant 1 <= i <= |argv|
      invariant Scan(arity, read, st, argv[i..], beyond) == Scan(arity, read, Settings(map[], []), argv[1..], beyond)
    {
      if i >= |argv| { return Err(OutsideList); }
      var argument := argv[i];
      ghost var rest := argv[i..];
      assert rest[0] == argument && rest[1..] == argv[i + 1..];
      if arity(argument).None? { break; }
      var value: Option<string> := None;
      if arity(argument).value {
        if i + 1 >= |argv| {
          if Repeats(read, st, argument) { return Err(Repeated(argument)); }
          return Err(if i + 1 < argc then OutsideList else MissingValue(argument));
        }
        value := Some(argv[i + 1]);
        assert rest[1] == argv[i + 1] && rest[2..] == argv[i + 2..];
      }
      var next := ApplyGroup(read, st, Group(argument, value));
      if next.Err? { return Err(next.error); }
      st := next.value;
      i := i + if value.Some? then 2 else 1;
    }
    return Ok(Scanned(st, argv[i..]));
  }

  /** The list is used up, or its last option still wants a value. */
  predicate RunsOut<K, V>(scanned: Result<Scanned<K, V>, Problem>) {
    match scanned case Ok(s) => s.rest == [] case Err(e) => e.MissingValue?
  }

  /** Reading leaves the list exactly when, with the right count, it would use the list up or miss a value. */
  lemma {:induction false} ScanBeyond<K, V>(arity: Arity, read: Reader<K, V>, st: Settings<K, V>,
                                            args: seq<string>, beyond: nat)
    requires beyond > 0
    ensures Scan(arity, read, st, args, beyond)
         == if RunsOut(Scan(arity, read, st, args, 0)) then Err(OutsideList) else Scan(arity, read, st, args, 0)
    ensures Scan(arity, read, st, args, 0) != Err(OutsideList)
    decreases |args|
  {
    if args != [] && arity(args[0]).Some? && !(arity(args[0]).value && |args| == 1) {
      var width := if arity(args[0]).value then 2 else 1;
      var next := ApplyGroup(read, st, Group(args[0], if arity(args[0]).value then Some(args[1]) else None));
      if next.Ok? {
        ScanBeyond(arity, read, next.value, args[width..], beyond);
      }
    }
  }

  /** Reading whole groups one after the other. */
  function Fold<K(==), V>(read: Reader<K, V>, groups: seq<Group>): Result<Settings<K, V>, Problem> {
    if groups == [] then Ok(Settings(map[], []))
    else
      var before := Fold(read, groups[..|groups| - 1]);
      if before.Err? then before else ApplyGroup(read, before.value, groups[|groups| - 1])
  }

  predicate ValidGroups(arity: Arity, groups: seq<Group>) {
    forall i :: 0 <= i < |groups| ==> ValidGroup(arity, groups[i])
  }

  /** Scanning the text of groups k.. and what follows them, from the state after groups ..k. */
  function Resume<K(==), V>(arity: Arity, read: Reader<K, V>, groups: seq<Group>, tail: seq<string>, beyond: nat, k: nat)
    : Result<Scanned<K, V>, Problem>
    requires k <= |groups|
  {
    var before := Fold(read, groups[..k]);
    if before.Err? then Err(before.error)
    else Scan(arity, read, before.value, GroupsText(groups[k..]) + tail, beyond)
  }

  lemma ResumeStep<K, V>(arity: Arity, read: Reader<K, V>, groups: seq<Group>, tail: seq<string>, beyond: nat, k: nat)
    requires k < |groups| && ValidGroups(arity, groups)
    ensures Resume(arity, read, groups, tail, beyond, k) == Resume(arity, read, groups, tail, beyond, k + 1)
  {
    var g := groups[k];
    assert ValidGroup(arity, g);
    var text := GroupsText(groups[k..]) + tail;
    assert groups[k..][0] == g && groups[k..][1..] == groups[k + 1..];
    assert text[|GroupText(g)|..] == GroupsText(groups[k + 1..]) + tail;
    assert groups[..k + 1][..k] == groups[..k];
  }

  lemma {:induction false} ResumeAll<K, V>(arity: Arity, read: Reader<K, V>, groups: seq<Group>,
                                           tail: seq<string>, beyond: nat, k: nat)
    requires k <= |groups| && ValidGroups(arity, groups)
    ensures Resume(arity, read, groups, tail, beyond, 0) == Resume(arity, read, groups, tail, beyond, k)
  {
    if k > 0 {
      ResumeAll(arity, read, groups, tail, beyond, k - 1);
      ResumeStep(arity, read, groups, tail, beyond, k - 1);
    }
  }

  /** Scanning option groups followed by anything folds the groups and goes on with the rest. */
  lemma ScanGroups<K, V>(arity: Arity, read: Reader<K, V>, groups: seq<Group>, tail: seq<string>, beyond: nat)
    requires ValidGroups(arity, groups)
    ensures Scan(arity, read, Settings(map[], []), GroupsText(groups) + tail, beyond)
         == (var folded := Fold(read, groups);
             if folded.Err? then Err(folded.error) else Scan(arity, read, folded.value, tail, beyond))
  {
    ResumeAll(arity, read, groups, tail, beyond, |groups|);
    assert groups[0..] == groups && groups[..|groups|] == groups && groups[|groups|..] == [];
    assert [] + tail == tail;
  }

  function Leaving<K, V>(folded: Result<Settings<K, V>, Problem>, rest: seq<string>): Result<Scanned<K, V>, Problem> {
    if folded.Err? then Err(folded.error) else Ok(Scanned(folded.value, rest))
  }

  /** Scanning option groups followed by positionals folds the groups and leaves the positionals. */
  lemma ScanFolds<K, V>(arity: Arity, read: Reader<K, V>, groups: seq<Group>, positionals: seq<string>, beyond: nat)
    requires ValidGroups(arity, groups) && (if positionals == [] then beyond == 0 else arity(positionals[0]).None?)
    ensures Scan(arity, read, Settings(map[], []), GroupsText(groups) + positionals, beyond)
         == Leaving(Fold(read, groups), positionals)
  {
    ScanGroups(arity, read, groups, positionals, beyond);
  }

  // ----- What a fold accepts, without an order

  function Selectors<K, V>(read: Reader<K, V>, groups: seq<Group>): seq<string> {
    if groups == [] then []
    else
      var r := read(groups[|groups| - 1]);
      Selectors(read, groups[..|groups| - 1]) + if r.Selection? && r.selector.Some? then [r.selector.value] else []
  }

  predicate WellFormed<K, V>(r: Reading<K, V>) {
    match r case Selection(s) => s.Some? case Setting(_, v, _) => v.Some?
  }

  predicate Clash<K(==), V>(r: Reading<K, V>, r': Reading<K, V>) {
    r.Setting? && r'.Setting? && r.key == r'.key && !(r.repeatable && r'.repeatable)
  }

  /** Values well formed, no option twice unless it may be, no selector twice. */
  ghost predicate Accepts<K, V>(read: Reader<K, V>, groups: seq<Group>) {
    && (forall i :: 0 <= i < |groups| ==> WellFormed(read(groups[i])))
    && (forall i, j :: 0 <= i < j < |groups| ==> !Clash(read(groups[i]), read(groups[j])))
    && Distinct(Selectors(read, groups))
  }

  /** A key that may be repeated always carries the same value. */
  ghost predicate Coherent<K(!new), V(!new)>(read: Reader<K, V>) {
    forall g, g' :: read(g).Setting? && read(g').Setting? && read(g).key == read(g').key ==>
                      read(g).repeatable == read(g').repeatable
                      && (read(g).repeatable ==> read(g).value == read(g').value)
  }

  ghost predicate Collects<K(!new), V>(read: Reader<K, V>, groups: seq<Group>, st: Settings<K, V>) {
    && st.selectors == Selectors(read, groups)
    && (forall i :: 0 <= i < |groups| && read(groups[i]).Setting? ==>
                      read(groups[i]).key in st.values && read(groups[i]).value == Some(st.values[read(groups[i]).key]))
    && (forall k :: k in st.values ==> exists i :: 0 <= i < |groups| && read(groups[i]).Setting? && read(groups[i]).key == k)
  }

  /** Whether one more group fits after the given ones. */
  ghost predicate Fits<K, V>(read: Reader<K, V>, groups: seq<Group>, g: Group) {
    && WellFormed(read(g))
    && (forall i :: 0 <= i < |groups| ==> !Clash(read(groups[i]), read(g)))
    && (read(g).Selection? && read(g).selector.Some? ==> read(g).selector.value !in Selectors(read, groups))
  }

  lemma DistinctSnoc(s: seq<string>, x: string)
    ensures Distinct(s + [x]) <==> Distinct(s) && x !in s
  {
    var t := s + [x];
    assert forall i :: 0 <= i < |s| ==> t[i] == s[i];
    assert t[|s|] == x;
  }

  lemma AcceptsSnoc<K, V>(read: Reader<K, V>, groups: seq<Group>, g: Group)
    ensures Accepts(read, groups + [g]) <==> Accepts(read, groups) && Fits(read, groups, g)
  {
    var all, n, r := groups + [g], |groups|, read(g);
    assert all[..n] == groups && all[n] == g;
    assert forall i :: 0 <= i < n ==> all[i] == groups[i];
    assert (forall i :: 0 <= i < |all| ==> WellFormed(read(all[i])))
      <==> (forall i :: 0 <= i < n ==> WellFormed(read(groups[i]))) && WellFormed(r);
    assert (forall i, j :: 0 <= i < j < |all| ==> !Clash(read(all[i]), read(all[j])))
      <==> (forall i, j :: 0 <= i < j < n ==> !Clash(read(groups[i]), read(groups[j])))
           && (forall i :: 0 <= i < n ==> !Clash(read(groups[i]), r));
    if r.Selection? && r.selector.Some? {
      DistinctSnoc(Selectors(read, groups), r.selector.value);
    } else {
      assert Selectors(read, all) == Selectors(read, groups);
    }
  }

  lemma ApplyFits<K(!new), V(!new)>(read: Reader<K, V>, groups: seq<Group>, st: Settings<K, V>, g: Group)
    requires Coherent(read) && Collects(read, groups, st)
    ensures ApplyGroup(read, st, g).Ok? <==> Fits(read, groups, g)
  {
    var r := read(g);
    if r.Setting? && r.key in st.values {
      var i :| 0 <= i < |groups| && read(groups[i]).Setting? && read(groups[i]).key == r.key;
      assert Clash(read(groups[i]), r) <==> !r.repeatable;
    }
  }

  lemma ApplyCollects<K(!new), V(!new)>(read: Reader<K, V>, groups: seq<Group>, st: Settings<K, V>, g: Group)
    requires Coherent(read) && Collects(read, groups, st) && ApplyGroup(read, st, g).Ok?
    ensures Collects(read, groups + [g], ApplyGroup(read, st, g).value)
  {
    var all, n, r := groups + [g], |groups|, read(g);
    var st' := ApplyGroup(read, st, g).value;
    assert all[..n] == groups && all[n] == g;
    forall k | k in st'.values
      ensures exists i :: 0 <= i < |all| && read(all[i]).Setting? && read(all[i]).key == k
    {
      if r.Setting? && r.key == k {
        assert read(all[n]).key == k;
      } else {
        var i :| 0 <= i < n && read(groups[i]).Setting? && read(groups[i]).key == k;
        assert all[i] == groups[i];
      }
    }
    forall i | 0 <= i < |all| && read(all[i]).Setting?
      ensures read(all[i]).key in st'.values && read(all[i]).value == Some(st'.values[read(all[i]).key])
    {
      if i < n {
        assert all[i] == groups[i] && read(groups[i]).Setting?;
      }
    }
  }

  /** Acceptance and the resulting settings, said without mentioning the order of reading. */
  lemma {:induction false} FoldAccepts<K(!new), V(!new)>(read: Reader<K, V>, groups: seq<Group>)
    requires Coherent(read)
    ensures Fold(read, groups).Ok? <==> Accepts(read, groups)
    ensures Fold(read, groups).Ok? ==> Collects(read, groups, Fold(read, groups).value)
  {
    if groups != [] {
      var init, g := groups[..|groups| - 1], groups[|groups| - 1];
      FoldAccepts(read, init);
      assert groups == init + [g];
      AcceptsSnoc(read, init, g);
      var before := Fold(read, init);
      if before.Ok? {
        ApplyFits(read, init, before.value, g);
        if Fits(read, init, g) {
          ApplyCollects(read, init, before.value, g);
        }
      }
    }
  }

  // ----- Permuting the groups

  lemma TwoPlaces(b: seq<Group>, x: Group)
    requires multiset(b)[x] >= 2
    ensures exists i, j :: 0 <= i < j < |b| && b[i] == x && b[j] == x
  {
    assert x in multiset(b);
    var i :| 0 <= i < |b| && b[i] == x;
    var left, right := b[..i], b[i + 1..];
    assert b == left + [x] + right;
    assert multiset(b) == multiset(left) + multiset{x} + multiset(right);
    if x in multiset(left) {
      var j :| 0 <= j < |left| && left[j] == x;
      assert b[j] == x;
    } else {
      assert x in multiset(right);
      var j :| 0 <= j < |right| && right[j] == x;
      assert b[i + 1 + j] == x;
    }
  }

  lemma ClashMoves<K, V>(read: Reader<K, V>, a: seq<Group>, b: seq<Group>, i: nat, j: nat)
    requires multiset(a) == multiset(b) && i < j < |a| && Clash(read(a[i]), read(a[j]))
    ensures exists k, l :: 0 <= k < l < |b| && Clash(read(b[k]), read(b[l]))
  {
    if a[i] == a[j] {
      assert a == a[..i] + [a[i]] + a[i + 1..j] + [a[j]] + a[j + 1..];
      assert multiset(a)[a[i]] >= 2;
      TwoPlaces(b, a[i]);
    } else {
      assert a[i] in multiset(b) && a[j] in multiset(b);
      var k :| 0 <= k < |b| && b[k] == a[i];
      var l :| 0 <= l < |b| && b[l] == a[j];
      assert Clash(read(b[k]), read(b[l])) && Clash(read(b[l]), read(b[k]));
    }
  }

  lemma AcceptsMoves<K, V>(read: Reader<K, V>, a: seq<Group>, b: seq<Group>)
    requires multiset(a) == multiset(b) && Selectors(read, a) == Selectors(read, b) && Accepts(read, b)
    ensures Accepts(read, a)
  {
    forall i | 0 <= i < |a| ensures WellFormed(read(a[i])) {
      assert a[i] in multiset(b);
    }
    forall i, j | 0 <= i < j < |a| ensures !Clash(read(a[i]), read(a[j])) {
      if Clash(read(a[i]), read(a[j])) {
        ClashMoves(read, a, b, i, j);
        assert false;
      }
    }
  }

  lemma CollectsIncludes<K(!new), V(!new)>(read: Reader<K, V>, a: seq<Group>, b: seq<Group>,
                                           sa: Settings<K, V>, sb: Settings<K, V>, k: K)
    requires multiset(a) == multiset(b) && Collects(read, a, sa) && Collects(read, b, sb) && k in sa.values
    ensures k in sb.values && sb.values[k] == sa.values[k]
  {
    var i :| 0 <= i < |a| && read(a[i]).Setting? && read(a[i]).key == k;
    assert a[i] in multiset(b);
    var j :| 0 <= j < |b| && b[j] == a[i];
    assert read(b[j]).Setting?;
  }

  /** Permuting groups while keeping the selectors in order changes neither acceptance nor the settings. */
  lemma FoldPermutes<K(!new), V(!new)>(read: Reader<K, V>, a: seq<Group>, b: seq<Group>)
    requires Coherent(read) && multiset(a) == multiset(b) && Selectors(read, a) == Selectors(read, b)
    ensures Fold(read, a).Ok? <==> Fold(read, b).Ok?
    ensures Fold(read, a).Ok? ==> Fold(read, a) == Fold(read, b)
  {
    FoldAccepts(read, a);
    FoldAccepts(read, b);
    if Accepts(read, a) {
      AcceptsMoves(read, b, a);
      var sa, sb := Fold(read, a).value, Fold(read, b).value;
      forall k | k in sa.values ensures k in sb.values && sb.values[k] == sa.values[k] {
        CollectsIncludes(read, a, b, sa, sb, k);
      }
      forall k | k in sb.values ensures k in sa.values {
        CollectsIncludes(read, b, a, sb, sa, k);
      }
      assert sa.values == sb.values;
    } else if Accepts(read, b) {
      AcceptsMoves(read, a, b);
      assert false;
    }
  }

  // ----- What the reading pass is given

  lemma {:induction false} GroupsValid(arity: Arity, items: seq<Item>)
    requires ValidItems(arity, items)
    ensures ValidGroups(arity, Groups(items))
    ensures forall i :: 0 <= i < |Positionals(items)| ==> arity(Positionals(items)[i]).None?
  {
    if items != [] {
      assert ValidItem(arity, items[0]);
      GroupsValid(arity, items[1..]);
    }
  }

  // ----- An option that stands last without its value

  lemma PartitionTrailing(arity: Arity, items: seq<Item>, option: string)
    requires ValidItems(arity, items) && arity(option) == Some(true) && option != "--"
    ensures Partition(arity, Text(items) + [option]) == Parts(GroupsText(Groups(items)) + [option], Positionals(items))
    ensures !HasTerminator(arity, Text(items) + [option])
  {
    PartitionAfter(arity, items, [option]);
    assert [option][..1] == [option] && [option][1..] == [];
    assert Partition(arity, [option]) == Parts([option], []);
  }

  lemma {:induction false} GroupsTextSnoc(groups: seq<Group>, g: Group)
    ensures GroupsText(groups + [g]) == GroupsText(groups) + GroupText(g)
  {
    if groups == [] {
      assert groups + [g] == [g] && [g][1..] == [];
    } else {
      GroupsTextSnoc(groups[1..], g);
      assert (groups + [g])[1..] == groups[1..] + [g];
    }
  }

  /**
   * Behind any mixture an option that lacks its value is read with the first positional as its value; exactly
   * without a positional the value is missed, unless an earlier group or a repetition is refused first.
   */
  lemma LastOptionTakesPositional<K, V>(arity: Arity, read: Reader<K, V>, items: seq<Item>, option: string)
    requires ValidItems(arity, items) && arity(option) == Some(true) && option != "--"
    ensures var parts := Partition(arity, Text(items) + [option]);
            var scanned := Scan(arity, read, Settings(map[], []), parts.options + parts.positionals, 0);
            var groups, positionals, folded := Groups(items), Positionals(items), Fold(read, Groups(items));
            if positionals != [] then
              scanned == Leaving(Fold(read, groups + [Group(option, Some(positionals[0]))]), positionals[1..])
            else if folded.Err? then scanned == Err(folded.error)
            else scanned == Err(if Repeats(read, folded.value, option) then Repeated(option) else MissingValue(option))
  {
    var groups, positionals := Groups(items), Positionals(items);
    PartitionTrailing(arity, items, option);
    GroupsValid(arity, items);
    if positionals != [] {
      SwallowedText(groups, option, positionals);
      ScanFolds(arity, read, groups + [Group(option, Some(positionals[0]))], positionals[1..], 0);
    } else {
      assert GroupsText(groups) + [option] + positionals == GroupsText(groups) + [option];
      ScanGroups(arity, read, groups, [option], 0);
    }
  }

  lemma SwallowedText(groups: seq<Group>, option: string, positionals: seq<string>)
    requires positionals != []
    ensures GroupsText(groups) + [option] + positionals
         == GroupsText(groups + [Group(option, Some(positionals[0]))]) + positionals[1..]
  {
    var g := Group(option, Some(positionals[0]));
    GroupsTextSnoc(groups, g);
    assert positionals == [positionals[0]] + positionals[1..];
  }

  // ----- The terminator

  lemma PartitionTerminated(arity: Arity, items: seq<Item>, tail: seq<string>)
    requires ValidItems(arity, items)
    ensures Partition(arity, Text(items) + ["--"] + tail) == Parts(GroupsText(Groups(items)), Positionals(items) + tail)
    ensures HasTerminator(arity, Text(items) + ["--"] + tail)
  {
    var rest := ["--"] + tail;
    PartitionAfter(arity, items, rest);
    assert Text(items) + ["--"] + tail == Text(items) + rest;
    assert rest[0] == "--" && rest[1..] == tail;
    assert Partition(arity, rest) == Parts([], tail);
  }

  /** A command line with an effective "--" is a mixture, the "--", and anything. */
  lemma {:induction false} TerminatorSplits(arity: Arity, args: seq<string>) returns (items: seq<Item>, tail: seq<string>)
    requires HasTerminator(arity, args)
    ensures ValidItems(arity, items) && args == Text(items) + ["--"] + tail
  {
    if args[0] == "--" {
      items, tail := [], args[1..];
    } else {
      var item := FrontItem(arity, args);
      var rest;
      rest, tail := TerminatorSplits(arity, args[|ItemText(item)|..]);
      items := [item] + rest;
      TextFirst(items, ["--"] + tail);
    }
  }

  /** The first argument of a line that is not "--", with its value. */
  lemma FrontItem(arity: Arity, args: seq<string>) returns (item: Item)
    requires HasTerminator(arity, args) && args[0] != "--"
    ensures ValidItem(arity, item) && |ItemText(item)| <= |args| && args == ItemText(item) + args[|ItemText(item)|..]
    ensures HasTerminator(arity, args[|ItemText(item)|..])
  {
    item := if arity(args[0]).None? then Positional(args[0])
            else OptionItem(Group(args[0], if arity(args[0]).value then Some(args[1]) else None));
  }

  /**
   * After "--": with a positional before it, reading stops there and the list is never left. Without one, reading
   * goes on behind the "--", so that options there are still read as options.
   */
  lemma TerminatedReading<K, V>(arity: Arity, read: Reader<K, V>, items: seq<Item>, tail: seq<string>)
    requires ValidItems(arity, items)
    ensures var parts := Partition(arity, Text(items) + ["--"] + tail);
            var scanned := Scan(arity, read, Settings(map[], []), parts.options + parts.positionals, 1);
            var folded := Fold(read, Groups(items));
            && scanned == (if Positionals(items) != [] then Leaving(folded, Positionals(items) + tail)
                           else if folded.Err? then Err(folded.error)
                           else Scan(arity, read, folded.value, tail, 1))
            && (scanned == Err(OutsideList) <==>
                  Positionals(items) == [] && folded.Ok? && RunsOut(Scan(arity, read, folded.value, tail, 0)))
  {
    var groups, rest := Groups(items), Positionals(items) + tail;
    PartitionTerminated(arity, items, tail);
    GroupsValid(arity, items);
    ScanGroups(arity, read, groups, rest, 1);
    FoldErrors(read, groups);
    if Positionals(items) == [] {
      assert rest == tail;
      if Fold(read, groups).Ok? {
        ScanBeyond(arity, read, Fold(read, groups).value, tail, 1);
      }
    } else {
      assert rest[0] == Positionals(items)[0];
    }
  }

  lemma {:induction false} GroupsTextJoin(a: seq<Group>, b: seq<Group>)
    ensures GroupsText(a + b) == GroupsText(a) + GroupsText(b)
  {
    if a == [] {
      assert a + b == b;
    } else {
      GroupsTextJoin(a[1..], b);
      assert (a + b)[1..] == a[1..] + b;
    }
  }

  /**
   * Option groups behind a "--" that no positional precedes are read like those before it; when nothing but
   * groups follows and all are accepted, the list is left.
   */
  lemma OptionsBehindTerminator<K, V>(arity: Arity, read: Reader<K, V>, items: seq<Item>, more: seq<Group>,
                                      rest: seq<string>)
    requires ValidItems(arity, items) && Positionals(items) == [] && ValidGroups(arity, more)
    requires rest != [] ==> arity(rest[0]).None?
    ensures var parts := Partition(arity, Text(items) + ["--"] + (GroupsText(more) + rest));
            var scanned := Scan(arity, read, Settings(map[], []), parts.options + parts.positionals, 1);
            var folded := Fold(read, Groups(items) + more);
            scanned == if folded.Ok? && rest == [] then Err(OutsideList) else Leaving(folded, rest)
  {
    var groups, tail := Groups(items), GroupsText(more) + rest;
    PartitionTerminated(arity, items, tail);
    GroupsValid(arity, items);
    BehindText(groups, more, rest, Positionals(items));
    ScanGroups(arity, read, groups + more, rest, 1);
  }

  lemma BehindText(groups: seq<Group>, more: seq<Group>, rest: seq<string>, none: seq<string>)
    requires none == []
    ensures GroupsText(groups) + (none + (GroupsText(more) + rest)) == GroupsText(groups + more) + rest
  {
    GroupsTextJoin(groups, more);
    Regrouped(GroupsText(groups), none, GroupsText(more), rest);
  }

  lemma Regrouped(a: seq<string>, none: seq<string>, b: seq<string>, c: seq<string>)
    requires none == []
    ensures a + (none + (b + c)) == a + b + c
  {
    assert none + (b + c) == b + c;
  }

  lemma {:induction false} FoldErrors<K, V>(read: Reader<K, V>, groups: seq<Group>)
    ensures Fold(read, groups) != Err(OutsideList)
  {
    if groups != [] { FoldErrors(read, groups[..|groups| - 1]); }
  }

  // ----- Both passes together

  /** A command table gets the settings, the arguments from the command on, and how many of them it is told there are. */
  type CommandTable<!K, !V, !T> = (Settings<K, V>, seq<string>, nat) -> Result<T, Problem>

  /** What a mixture of groups and positionals means. */
  function Meaning<K(==), V, T>(read: Reader<K, V>, command: CommandTable<K, V, T>, items: seq<Item>): Result<T, Problem> {
    var options, positionals := Fold(read, Groups(items)), Positionals(items);
    if options.Err? then Err(options.error) else command(options.value, positionals, |positionals|)
  }

  /** PastTheEnd: an argument behind the end of the reordered list was read. */
  datatype Outcome<T> = Parsed(invocation: T) | Rejected(problem: Problem) | PastTheEnd

  function AsOutcome<T>(r: Result<T, Problem>): Outcome<T> {
    match r case Ok(x) => Parsed(x) case Err(e) => Rejected(e)
  }

  function Finish<K, V, T>(command: CommandTable<K, V, T>, scanned: Result<Scanned<K, V>, Problem>, beyond: nat): Outcome<T> {
    match scanned
    case Err(e) => if e == OutsideList then PastTheEnd else Rejected(e)
    case Ok(s) => AsOutcome(command(s.settings, s.rest, |s.rest| + beyond))
  }

  /** How far the argument count exceeds the reordered list. */
  function Beyond(arity: Arity, args: seq<string>): nat {
    if HasTerminator(arity, args) then 1 else 0
  }

  /** What the reading pass makes of the reordered arguments when it goes by the count `beyond` too large. */
  function ReadParts<K(==), V>(arity: Arity, read: Reader<K, V>, parts: Parts, beyond: nat): Result<Scanned<K, V>, Problem> {
    Scan(arity, read, Settings(map[], []), parts.options + parts.positionals, beyond)
  }

  /** The outcome that every reading of the arguments as a mixture calls for. */
  ghost predicate Means<K, V, T>(arity: Arity, read: Reader<K, V>, command: CommandTable<K, V, T>,
                                 args: seq<string>, r: Outcome<T>)
  {
    forall items :: ValidItems(arity, items) && Text(items) == args ==> r == AsOutcome(Meaning(read, command, items))
  }

  /** Reordering and then reading gives the meaning of the mixture. */
  lemma ReadsMeaning<K, V, T>(arity: Arity, arity': Arity, read: Reader<K, V>, command: CommandTable<K, V, T>,
                              items: seq<Item>)
    requires ValidItems(arity, items) && forall x :: arity(x) == arity'(x)
    ensures Finish(command, ReadParts(arity', read, Partition(arity, Text(items)), 0), 0)
         == AsOutcome(Meaning(read, command, items))
  {
    PartitionSeparates(arity, items);
    GroupsValid(arity, items);
    forall i | 0 <= i < |Groups(items)| ensures ValidGroup(arity', Groups(items)[i]) {
      assert ValidGroup(arity, Groups(items)[i]);
    }
    ScanFolds(arity', read, Groups(items), Positionals(items), 0);
    FoldErrors(read, Groups(items));
  }

  lemma TerminatedIsNoMixture<K, V, T>(arity: Arity, read: Reader<K, V>, command: CommandTable<K, V, T>,
                                       args: seq<string>, r: Outcome<T>)
    requires HasTerminator(arity, args)
    ensures Means(arity, read, command, args, r)
  {
    forall items | ValidItems(arity, items) ensures Text(items) != args {
      PartitionSeparates(arity, items);
    }
  }

  lemma ScannedMeans<K, V, T>(arity: Arity, arity': Arity, read: Reader<K, V>, command: CommandTable<K, V, T>,
                              args: seq<string>, r: Outcome<T>)
    requires forall x :: arity(x) == arity'(x)
    requires r == Finish(command, ReadParts(arity', read, Partition(arity, args), 0), 0)
    ensures Means(arity, read, command, args, r)
  {
    forall items | ValidItems(arity, items) && Text(items) == args
      ensures r == AsOutcome(Meaning(read, command, items))
    {
      ReadsMeaning(arity, arity', read, command, items);
    }
  }

  /**
   * `arity` is what the reordering pass knows about options, `arity'` what the reading pass knows. The list is
   * left exactly with an effective "--" when reading it with the right count would use it up or miss a value.
   */
  method Parse<K(==), V, T>(arity: Arity, arity': Arity, read: Reader<K, V>, command: CommandTable<K, V, T>,
                            argv: seq<string>)
    returns (r: Outcome<T>)
    requires argv != [] && forall x :: arity(x) == arity'(x)
    ensures var parts, beyond := Partition(arity, argv[1..]), Beyond(arity, argv[1..]);
            r == Finish(command, ReadParts(arity', read, parts, beyond), beyond)
    ensures r.PastTheEnd? <==>
              HasTerminator(arity, argv[1..]) && RunsOut(ReadParts(arity', read, Partition(arity, argv[1..]), 0))
    ensures Means(arity, read, command, argv[1..], r)
  {
    var reordered := Reorder(arity, argv);
    ReorderedLength(arity, argv[1..]);
    ghost var parts := Partition(arity, argv[1..]);
    assert reordered[1..] == parts.options + parts.positionals;
    ScanBeyond(arity', read, Settings(map[], []), reordered[1..], 1);
    var scanned := ReadOptions(arity', read, reordered, |argv|);
    r := Finish(command, scanned, |argv| - |reordered|);
    if HasTerminator(arity, argv[1..]) {
      TerminatedIsNoMixture(arity, read, command, argv[1..], r);
    } else {
      ScannedMeans(arity, arity', read, command, argv[1..], r);
    }
  }
}
