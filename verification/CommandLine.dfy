/**
 * The command line: recognised options are moved ahead of the positional
 * arguments, then read one group at a time. What an accepted command line means
 * does not depend on how options and positionals were mixed.
 */
module CommandLine {
  import opened Common
  import opened OptionOrder

  const FS_OPTIONS := "--fs-options="
  const SET_ACTIVE := "--set-active="

  // ----- What the reordering pass knows about options

  predicate IsGlobalOption(value: string) {
    || value == "-s" || value == "-l" || value == "-w" || value == "-v" || value == "--verbose"
    || value == "--disable-verity" || value == "--disable-verification" || value == "--disable-super-optimization"
    || value == "--exclude-dynamic-partitions" || value == "--disable-fastboot-info"
    || value == "--skip-secondary" || value == "--skip-reboot" || value == "--unbuffered"
    || value == "-S" || value == "--force" || value == "--fs-options" || StartsWith(value, FS_OPTIONS)
    || value == "--dtb" || value == "--base" || value == "--cmdline" || value == "--page-size"
    || value == "--kernel-offset" || value == "--ramdisk-offset" || value == "--tags-offset"
    || value == "--header-version" || value == "--os-version" || value == "--os-patch-level"
    || value == "--dtb-offset" || value == "--slot" || value == "-a" || value == "--set-active"
    || StartsWith(value, SET_ACTIVE)
  }

  predicate ConsumesNext(value: string) {
    || value == "-s" || value == "-S" || value == "--fs-options" || value == "--dtb" || value == "--base"
    || value == "--cmdline" || value == "--page-size" || value == "--kernel-offset" || value == "--ramdisk-offset"
    || value == "--tags-offset" || value == "--header-version" || value == "--os-version"
    || value == "--os-patch-level" || value == "--dtb-offset" || value == "--slot"
  }

  // ----- What the reading pass knows about options

  datatype Key =
    | Verbose | Selector | LongListing | Wipe | SkipReboot | SkipSecondary | ExcludeDynamicPartitions
    | DisableFastbootInfo | DisableSuperOptimization | Unbuffered | DisableVerity | DisableVerification | Force
    | Filesystem | SparseLimit | Slot | SetActive | Dtb | CommandLineText | Base | PageSize | KernelOffset
    | RamdiskOffset | TagsOffset | HeaderVersion | OsVersion | OsPatchLevel | DtbOffset

  datatype Recognised = Recognised(key: Key, takesValue: bool)

  /** The reading pass's own chain of comparisons. */
  function Recognise(argument: string): Option<Recognised> {
    var general := RecogniseGeneral(argument);
    if general.Some? then general else RecogniseTarget(argument)
  }

  function RecogniseGeneral(argument: string): Option<Recognised> {
    if argument == "-v" || argument == "--verbose" then Some(Recognised(Verbose, false))
    else if argument == "-s" then Some(Recognised(Selector, true))
    else if argument == "-l" then Some(Recognised(LongListing, false))
    else if argument == "-w" then Some(Recognised(Wipe, false))
    else if argument == "--skip-reboot" then Some(Recognised(SkipReboot, false))
    else if argument == "--skip-secondary" then Some(Recognised(SkipSecondary, false))
    else if argument == "--exclude-dynamic-partitions" then Some(Recognised(ExcludeDynamicPartitions, false))
    else if argument == "--disable-fastboot-info" then Some(Recognised(DisableFastbootInfo, false))
    else if argument == "--disable-super-optimization" then Some(Recognised(DisableSuperOptimization, false))
    else if argument == "--unbuffered" then Some(Recognised(Unbuffered, false))
    else if argument == "--disable-verity" then Some(Recognised(DisableVerity, false))
    else if argument == "--disable-verification" then Some(Recognised(DisableVerification, false))
    else if argument == "--force" then Some(Recognised(Force, false))
    else None
  }

  /** Options about what is written and where it goes. */
  function RecogniseTarget(argument: string): Option<Recognised> {
    if StartsWith(argument, FS_OPTIONS) then Some(Recognised(Filesystem, false))
    else if argument == "--fs-options" then Some(Recognised(Filesystem, true))
    else if argument == "-S" then Some(Recognised(SparseLimit, true))
    else if argument == "--slot" then Some(Recognised(Slot, true))
    else if argument == "-a" || argument == "--set-active" || StartsWith(argument, SET_ACTIVE) then
      Some(Recognised(SetActive, false))
    else if argument == "--dtb" then Some(Recognised(Dtb, true))
    else RecogniseBoot(argument)
  }

  /** The options of the boot image layout, which all take a value. */
  function RecogniseBoot(argument: string): Option<Recognised> {
    if argument == "--cmdline" then Some(Recognised(CommandLineText, true))
    else if argument == "--base" then Some(Recognised(Base, true))
    else if argument == "--page-size" then Some(Recognised(PageSize, true))
    else if argument == "--kernel-offset" then Some(Recognised(KernelOffset, true))
    else if argument == "--ramdisk-offset" then Some(Recognised(RamdiskOffset, true))
    else if argument == "--tags-offset" then Some(Recognised(TagsOffset, true))
    else if argument == "--header-version" then Some(Recognised(HeaderVersion, true))
    else if argument == "--os-version" then Some(Recognised(OsVersion, true))
    else if argument == "--os-patch-level" then Some(Recognised(OsPatchLevel, true))
    else if argument == "--dtb-offset" then Some(Recognised(DtbOffset, true))
    else None
  }

  /** The two passes agree on what is an option and on whether it takes the next argument. */
  lemma PassesAgree(argument: string)
    ensures Recognise(argument).Some? <==> IsGlobalOption(argument)
    ensures Recognise(argument).Some? ==> (Recognise(argument).value.takesValue <==> ConsumesNext(argument))
    ensures Recognise(argument).Some? ==> argument != "--"
  {
    if ConsumesNext(argument) {
      ValuedOption(argument);
    }
    if StartsWith(argument, FS_OPTIONS) || StartsWith(argument, SET_ACTIVE) {
      NotTerminator(argument);
    }
  }

  /** The same options, addresses and the rest. */
  predicate IsAddressOption(value: string) {
    || value == "--base" || value == "--kernel-offset" || value == "--ramdisk-offset" || value == "--tags-offset"
    || value == "--dtb-offset"
  }

  predicate IsHeaderOption(value: string) {
    || value == "--cmdline" || value == "--page-size" || value == "--header-version" || value == "--os-version"
    || value == "--os-patch-level"
  }

  lemma AddressOption(argument: string)
    requires IsAddressOption(argument)
    ensures Recognise(argument).Some? && Recognise(argument).value.takesValue
  {
    assert argument[2] != 'f' && argument[2] != 's';
    assert FS_OPTIONS[2] == 'f' && SET_ACTIVE[2] == 's';
  }

  lemma HeaderOption(argument: string)
    requires IsHeaderOption(argument)
    ensures Recognise(argument).Some? && Recognise(argument).value.takesValue
  {
    assert argument[2] != 'f' && argument[2] != 's';
    assert FS_OPTIONS[2] == 'f' && SET_ACTIVE[2] == 's';
  }

  lemma ShortValuedOption(argument: string)
    requires ConsumesNext(argument) && !IsAddressOption(argument) && !IsHeaderOption(argument)
    ensures Recognise(argument).Some? && Recognise(argument).value.takesValue
  {
    assert |argument| < 13;
  }

  lemma ValuedOption(argument: string)
    requires ConsumesNext(argument)
    ensures Recognise(argument).Some? && Recognise(argument).value.takesValue
  {
    if IsAddressOption(argument) {
      AddressOption(argument);
    } else if IsHeaderOption(argument) {
      HeaderOption(argument);
    } else {
      ShortValuedOption(argument);
    }
  }

  lemma NotTerminator(argument: string)
    requires StartsWith(argument, FS_OPTIONS) || StartsWith(argument, SET_ACTIVE)
    ensures argument != "--"
  {
  }

  // ----- Option values

  function DigitValue(c: char, base: nat): Option<nat> {
    if base == 16 || '0' <= c <= '9' then HexValue(c as int) else None
  }

  /** A whole numeral whose value is at most `max`. */
  function ParseNumeral(text: string, base: nat, max: nat): Option<nat> {
    var n := Numeral(text, base);
    if text == "" || n.None? || n.value > max then None else n
  }

  function Numeral(text: string, base: nat): Option<nat> {
    if text == "" then Some(0)
    else
      var high, low := Numeral(text[..|text| - 1], base), DigitValue(text[|text| - 1], base);
      if high.None? || low.None? then None else Some(high.value * base + low.value)
  }

  function Multiplier(suffix: char): nat {
    if suffix == 'K' || suffix == 'k' then 1024
    else if suffix == 'M' || suffix == 'm' then 1024 * 1024
    else if suffix == 'G' || suffix == 'g' then 1024 * 1024 * 1024
    else 1
  }

  function ParseSparseLimit(text: string): Option<nat> {
    if text == "" then None
    else
      var digits := if text[0] == '+' then text[1..] else text;
      var multiplier := if digits == "" then 1 else Multiplier(digits[|digits| - 1]);
      var number := if multiplier == 1 then digits else digits[..|digits| - 1];
      Scale(ParseNumeral(number, 10, U64_MAX), multiplier)
  }

  function Scale(parsed: Option<nat>, multiplier: nat): Option<nat>
    requires multiplier > 0
  {
    if parsed.None? || parsed.value > U64_MAX / multiplier then None else Some(parsed.value * multiplier)
  }

  /** A size with a unit is its number times the unit exactly as long as that fits 64 bits. */
  lemma SparseLimitIsExact(digits: string, suffix: char)
    requires digits != "" && digits[0] != '+' && Numeral(digits, 10).Some? && Multiplier(suffix) > 1
    ensures var bytes := Numeral(digits, 10).value * Multiplier(suffix);
            ParseSparseLimit(digits + [suffix]) == if bytes <= U64_MAX then Some(bytes) else None
  {
    var text, n, m := digits + [suffix], Numeral(digits, 10).value, Multiplier(suffix);
    assert text[..|text| - 1] == digits && text[|text| - 1] == suffix && text[0] == digits[0];
    assert ParseSparseLimit(text) == Scale(ParseNumeral(digits, 10, U64_MAX), m);
    ScaleIsExact(n, m);
  }

  lemma ScaleIsExact(n: nat, m: nat)
    requires m > 0
    ensures Scale(if n > U64_MAX then None else Some(n), m) == if n * m <= U64_MAX then Some(n * m) else None
  {
    ProductFits(n, m);
    if n > U64_MAX { assert n * m == n + n * (m - 1); }
  }

  lemma ProductFits(n: nat, m: nat)
    requires m > 0
    ensures n > U64_MAX / m <==> n * m > U64_MAX
  {
    var q := U64_MAX / m;
    assert q * m <= U64_MAX < q * m + m;
    if n <= q {
      assert q * m == n * m + (q - n) * m;
    } else {
      assert n * m == q * m + m + (n - q - 1) * m;
    }
  }

  function ParseAuto(text: string, max: nat): Option<nat> {
    if StartsWith(text, "0x") || StartsWith(text, "0X") then ParseNumeral(text[2..], 16, max)
    else ParseNumeral(text, 10, max)
  }

  datatype FilesystemOptions = FilesystemOptions(casefold: bool, projid: bool, compress: bool)

  function Comma(text: string): nat
    ensures Comma(text) <= |text|
    ensures forall i :: 0 <= i < Comma(text) ==> text[i] != ','
    ensures Comma(text) < |text| ==> text[Comma(text)] == ','
  {
    if text == "" || text[0] == ',' then 0 else 1 + Comma(text[1..])
  }

  function Tokens(text: string): seq<string> {
    var comma := Comma(text);
    if comma == |text| then [text] else [text[..comma]] + Tokens(text[comma + 1..])
  }

  predicate KnownToken(token: string) {
    token == "casefold" || token == "projid" || token == "compress"
  }

  /** A comma-separated list of different known names. */
  predicate ValidTokens(tokens: seq<string>) {
    && (forall i :: 0 <= i < |tokens| ==> KnownToken(tokens[i]))
    && (forall i, j :: 0 <= i < j < |tokens| ==> tokens[i] != tokens[j])
  }

  function NamedOptions(tokens: seq<string>): FilesystemOptions {
    FilesystemOptions("casefold" in tokens, "projid" in tokens, "compress" in tokens)
  }

  /** One more name is fine when it is known and new. */
  lemma OneMoreToken(done: seq<string>, token: string)
    ensures ValidTokens(done + [token]) <==> ValidTokens(done) && KnownToken(token) && token !in done
  {
    var all := done + [token];
    assert forall i :: 0 <= i < |done| ==> all[i] == done[i];
    assert all[|done|] == token;
  }

  lemma InvalidPrefix(done: seq<string>, more: seq<string>)
    requires !ValidTokens(done)
    ensures !ValidTokens(done + more)
  {
    var all := done + more;
    if i :| 0 <= i < |done| && !KnownToken(done[i]) {
      assert !KnownToken(all[i]);
    } else {
      var i, j :| 0 <= i < j < |done| && done[i] == done[j];
      assert all[i] == all[j];
    }
  }

  /** An empty name, as a trailing comma leaves it, is not known. */
  lemma EmptyToken(done: seq<string>)
    ensures !ValidTokens(done + Tokens(""))
  {
    assert (done + Tokens(""))[|done|] == "";
  }

  method AcceptToken(options: FilesystemOptions, token: string, ghost done: seq<string>)
    returns (r: Option<FilesystemOptions>)
    requires ValidTokens(done) && options == NamedOptions(done)
    ensures r == if ValidTokens(done + [token]) then Some(NamedOptions(done + [token])) else None
  {
    OneMoreToken(done, token);
    assert forall name :: name in done + [token] <==> name in done || name == token;
    if token == "casefold" && !options.casefold {
      return Some(options.(casefold := true));
    } else if token == "projid" && !options.projid {
      return Some(options.(projid := true));
    } else if token == "compress" && !options.compress {
      return Some(options.(compress := true));
    } else {
      return None;
    }
  }

  /** The tokens from position `begin` on, once the first of them has been read. */
  function TokensAfter(rest: string): seq<string> {
    var comma := Comma(rest);
    if comma == |rest| then [] else Tokens(rest[comma + 1..])
  }

  lemma TokensFrom(done: seq<string>, rest: string)
    ensures done + Tokens(rest) == (done + [rest[..Comma(rest)]]) + TokensAfter(rest)
  {
    assert Comma(rest) == |rest| ==> rest[..Comma(rest)] == rest;
  }

  method ParseFilesystemOptions(text: string) returns (r: Option<FilesystemOptions>)
    ensures r == if ValidTokens(Tokens(text)) then Some(NamedOptions(Tokens(text))) else None
  {
    EmptyToken([]);
    if text == "" { return None; }
    var options := FilesystemOptions(false, false, false);
    var begin := 0;
    ghost var done: seq<string> := [];
    assert text[0..] == text;
    while begin < |text|
      invariant 0 <= begin < |text|
      invariant Tokens(text) == done + Tokens(text[begin..])
      invariant ValidTokens(done) && options == NamedOptions(done)
      decreases |text| - begin
    {
      var rest := text[begin..];
      var comma := Comma(rest);
      TokensFrom(done, rest);
      var next := AcceptToken(options, rest[..comma], done);
      done := done + [rest[..comma]];
      if next.None? {
        InvalidPrefix(done, TokensAfter(rest));
        return None;
      }
      if comma == |rest| { return next; }
      options := next.value;
      begin := begin + comma + 1;
      assert rest[comma + 1..] == text[begin..];
      if begin == |text| {
        EmptyToken(done);
        return None;
      }
    }
    assert false;
  }

  // ----- Reading one option group

  datatype Value =
    | Flag
    | Named(name: string)
    | Number(number: nat)
    | FilesystemSet(options: FilesystemOptions)
    | ActiveSlot(slot: Option<string>)

  function OptionArity(argument: string): Option<bool> {
    if IsGlobalOption(argument) then Some(ConsumesNext(argument)) else None
  }

  function ReadingArity(argument: string): Option<bool> {
    var r := Recognise(argument);
    if r.Some? then Some(r.value.takesValue) else None
  }

  function TextValue(value: Option<string>): Option<Value> {
    if value.None? then None else Some(Named(value.value))
  }

  function NumberValue(number: Option<nat>): Option<Value> {
    if number.None? then None else Some(Number(number.value))
  }

  /** A value that is present, not empty and not itself a long option. */
  function Operand(value: Option<string>): Option<string> {
    if value.None? || value.value == "" || StartsWith(value.value, "--") then None else value
  }

  function NotEmpty(value: Option<string>): Option<string> {
    if value.None? || value.value == "" then None else value
  }

  function U32Value(value: Option<string>): Option<nat> {
    if value.None? then None else ParseAuto(value.value, U32_MAX)
  }

  function FilesystemValue(text: string): Option<Value> {
    if ValidTokens(Tokens(text)) then Some(FilesystemSet(NamedOptions(Tokens(text)))) else None
  }

  function ReadValue(key: Key, g: Group): Option<Value> {
    match key
    case Filesystem =>
      if StartsWith(g.option, FS_OPTIONS) then FilesystemValue(g.option[|FS_OPTIONS|..])
      else if g.value.None? then None else FilesystemValue(g.value.value)
    case SparseLimit => if g.value.None? then None else NumberValue(ParseSparseLimit(g.value.value))
    case Slot => TextValue(Operand(g.value))
    case Dtb => TextValue(Operand(g.value))
    case SetActive =>
      if !StartsWith(g.option, SET_ACTIVE) then Some(ActiveSlot(None))
      else if g.option == SET_ACTIVE then None
      else Some(ActiveSlot(Some(g.option[|SET_ACTIVE|..])))
    case CommandLineText => TextValue(g.value)
    case OsVersion => TextValue(NotEmpty(g.value))
    case OsPatchLevel => TextValue(NotEmpty(g.value))
    case Base => NumberValue(U32Value(g.value))
    case PageSize => NumberValue(U32Value(g.value))
    case KernelOffset => NumberValue(U32Value(g.value))
    case RamdiskOffset => NumberValue(U32Value(g.value))
    case TagsOffset => NumberValue(U32Value(g.value))
    case HeaderVersion =>
      var number := U32Value(g.value);
      if number.None? || number.value > 4 then None else NumberValue(number)
    case DtbOffset => if g.value.None? then None else NumberValue(ParseAuto(g.value.value, U64_MAX))
    case _ => Some(Flag)
  }

  predicate Repeatable(key: Key) {
    key == DisableVerity || key == DisableVerification
  }

  function ReadGroup(g: Group): Reading<Key, Value> {
    var r := Recognise(g.option);
    if r.None? then Selection(None)
    else if r.value.key == Selector then Selection(Operand(g.value))
    else Setting(r.value.key, ReadValue(r.value.key, g), Repeatable(r.value.key))
  }

  lemma ReadGroupCoherent()
    ensures Coherent(ReadGroup)
  {
    forall g, g' | ReadGroup(g).Setting? && ReadGroup(g').Setting? && ReadGroup(g).key == ReadGroup(g').key
      ensures ReadGroup(g).repeatable == ReadGroup(g').repeatable
      ensures ReadGroup(g).repeatable ==> ReadGroup(g).value == ReadGroup(g').value
    {
    }
  }

  // ----- The whole command line

  type Options = Settings<Key, Value>

  /** What follows the options: settings, the command with its operands, and how many of these the count promises. */
  type Dispatch<!T> = (Options, seq<string>, nat) -> Option<T>

  /** The command after the options; `dispatch` stands for the table of commands. */
  function Command<T>(dispatch: Dispatch<T>, options: Options, positionals: seq<string>, count: nat): Result<T, Problem> {
    if positionals == [] then Err(UnknownCommand)
    else
      var command := positionals[0];
      if StartsWith(command, "-") && command != "--version" && command != "--help" && command != "-h" then
        Err(UnknownOption(command))
      else
        var r := dispatch(options, positionals, count);
        if r.None? then Err(BadCommand) else Ok(r.value)
  }

  function CommandOf<T>(dispatch: Dispatch<T>): CommandTable<Key, Value, T> {
    (options, positionals, count: nat) => Command(dispatch, options, positionals, count)
  }

  /** The reading pass over the reordered arguments, going by a count that is `beyond` too large. */
  function ReadArguments(args: seq<string>, beyond: nat): Result<Scanned<Key, Value>, Problem> {
    ReadParts(ReadingArity, ReadGroup, Partition(OptionArity, args), beyond)
  }

  method ParseInvocation<T>(argv: seq<string>, dispatch: Dispatch<T>) returns (r: Outcome<T>)
    requires argv != []
    ensures var beyond := Beyond(OptionArity, argv[1..]);
            r == Finish(CommandOf(dispatch), ReadArguments(argv[1..], beyond), beyond)
    ensures r.PastTheEnd? <==> HasTerminator(OptionArity, argv[1..]) && RunsOut(ReadArguments(argv[1..], 0))
    ensures Means(OptionArity, ReadGroup, CommandOf(dispatch), argv[1..], r)
  {
    forall x ensures OptionArity(x) == ReadingArity(x) {
      PassesAgree(x);
    }
    r := Parse(OptionArity, ReadingArity, ReadGroup, CommandOf(dispatch), argv);
  }

  /** A lone "--" makes the reading pass leave its list. */
  lemma LoneTerminatorLeavesTheList()
    ensures HasTerminator(OptionArity, ["--"]) && ReadArguments(["--"], 1) == Err(OutsideList)
  {
    var args := ["--"];
    assert args[1..] == [];
    assert Partition(OptionArity, args) == Parts([], []);
  }

  datatype Listing = Listed(long: bool) | Refused | ReadsBehind

  /** The options that are not refused together with devices. */
  const DEVICES_OPTIONS: set<Key> := {Verbose, LongListing, Unbuffered, DisableVerity, DisableVerification}

  /** The devices command checks the options and reads its operand by the count of arguments from the command on. */
  function Devices(options: Options, positionals: seq<string>, count: nat): Listing
    requires positionals != []
  {
    var long := LongListing in options.values;
    if !(options.values.Keys <= DEVICES_OPTIONS) then Refused
    else if count == 2 then
      if |positionals| < 2 then ReadsBehind
      else if positionals[1] != "-l" || long then Refused
      else Listed(true)
    else if count != 1 then Refused
    else Listed(long)
  }

  /**
   * With a "--" on the command line devices never lists anything: alone, with options it admits, it reads an
   * argument behind the list; otherwise it is refused. `rest` is what the options leave of the command line.
   */
  lemma DevicesWithTerminator(items: seq<Item>, tail: seq<string>, rest: seq<string>)
    requires ValidItems(OptionArity, items) && Fold(ReadGroup, Groups(items)).Ok?
    requires rest == Positionals(items) + tail && rest != [] && rest[0] == "devices"
    ensures var args, settings := Text(items) + ["--"] + tail, Fold(ReadGroup, Groups(items)).value;
            && HasTerminator(OptionArity, args) && ReadArguments(args, 1) == Ok(Scanned(settings, rest))
            && Devices(settings, rest, |rest| + 1)
            == if |rest| == 1 && settings.values.Keys <= DEVICES_OPTIONS then ReadsBehind else Refused
  {
    var groups := Groups(items);
    forall x ensures OptionArity(x) == ReadingArity(x) { PassesAgree(x); }
    PartitionTerminated(OptionArity, items, tail);
    GroupsValid(OptionArity, items);
    assert ReadingArity("devices").None?;
    forall i | 0 <= i < |groups| ensures ValidGroup(ReadingArity, groups[i]) {
      assert ValidGroup(OptionArity, groups[i]);
    }
    ScanFolds(ReadingArity, ReadGroup, groups, rest, 1);
  }

  /**
   * A line whose options are accepted runs a command exactly when it names one: without a positional there is none,
   * and a first positional that starts with a dash is an unknown option unless it asks for version or help.
   */
  lemma CommandIsNamed<T>(dispatch: Dispatch<T>, items: seq<Item>)
    requires ValidItems(OptionArity, items) && Fold(ReadGroup, Groups(items)).Ok?
    ensures var meaning, operands := Meaning(ReadGroup, CommandOf(dispatch), items), Positionals(items);
            && (meaning == Err(UnknownCommand) <==> operands == [])
            && (meaning.Err? && meaning.error.UnknownOption? <==>
                  operands != [] && operands[0] != "" && operands[0][0] == '-'
                  && operands[0] !in ["--version", "--help", "-h"])
            && (meaning.Ok? ==> dispatch(Fold(ReadGroup, Groups(items)).value, operands, |operands|) == Some(meaning.value))
  {
    var operands := Positionals(items);
    if operands != [] && operands[0] != "" { assert operands[0][..1] == [operands[0][0]]; }
  }

  /**
   * Mixing options and positionals differently, and permuting the option groups as long as the -s groups keep
   * their order, changes neither whether a command line is accepted nor what it means.
   */
  lemma OrderDoesNotMatter<T>(dispatch: Dispatch<T>, a: seq<Item>, b: seq<Item>)
    requires ValidItems(OptionArity, a) && ValidItems(OptionArity, b)
    requires Positionals(a) == Positionals(b)
    requires multiset(Groups(a)) == multiset(Groups(b))
    requires Selectors(ReadGroup, Groups(a)) == Selectors(ReadGroup, Groups(b))
    ensures var ma, mb := Meaning(ReadGroup, CommandOf(dispatch), a), Meaning(ReadGroup, CommandOf(dispatch), b);
            (ma.Ok? <==> mb.Ok?) && (ma.Ok? ==> ma == mb)
  {
    ReadGroupCoherent();
    FoldPermutes(ReadGroup, Groups(a), Groups(b));
  }

  /** An accepted command line never names a device twice. */
  lemma SelectorsAreDistinct(groups: seq<Group>)
    requires Fold(ReadGroup, groups).Ok?
    ensures Distinct(Fold(ReadGroup, groups).value.selectors)
  {
    ReadGroupCoherent();
    FoldAccepts(ReadGroup, groups);
  }
}
