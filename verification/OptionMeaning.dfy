/**
 * What each option of the command line means: its spellings, and the value that
 * its text stands for.
 */
module OptionMeaning {
  import opened Common
  import opened OptionOrder
  import opened CommandLine

  // ----- Spellings

  predicate Spells(argument: string, key: Key) {
    match key
    case Verbose => argument == "-v" || argument == "--verbose"
    case Selector => argument == "-s"
    case LongListing => argument == "-l"
    case Wipe => argument == "-w"
    case SkipReboot => argument == "--skip-reboot"
    case SkipSecondary => argument == "--skip-secondary"
    case ExcludeDynamicPartitions => argument == "--exclude-dynamic-partitions"
    case DisableFastbootInfo => argument == "--disable-fastboot-info"
    case DisableSuperOptimization => argument == "--disable-super-optimization"
    case Unbuffered => argument == "--unbuffered"
    case DisableVerity => argument == "--disable-verity"
    case DisableVerification => argument == "--disable-verification"
    case Force => argument == "--force"
    case Filesystem => argument == "--fs-options" || StartsWith(argument, "--fs-options=")
    case SparseLimit => argument == "-S"
    case Slot => argument == "--slot"
    case SetActive => argument == "-a" || argument == "--set-active" || StartsWith(argument, "--set-active=")
    case Dtb => argument == "--dtb"
    case CommandLineText => argument == "--cmdline"
    case Base => argument == "--base"
    case PageSize => argument == "--page-size"
    case KernelOffset => argument == "--kernel-offset"
    case RamdiskOffset => argument == "--ramdisk-offset"
    case TagsOffset => argument == "--tags-offset"
    case HeaderVersion => argument == "--header-version"
    case OsVersion => argument == "--os-version"
    case OsPatchLevel => argument == "--os-patch-level"
    case DtbOffset => argument == "--dtb-offset"
  }

  predicate IsBoot(key: Key) {
    key in {CommandLineText, Base, PageSize, KernelOffset, RamdiskOffset, TagsOffset, HeaderVersion, OsVersion,
            OsPatchLevel, DtbOffset}
  }

  predicate IsTarget(key: Key) {
    key in {Filesystem, SparseLimit, Slot, SetActive, Dtb}
  }

  lemma RecognisedBootIsSpelled(argument: string)
    requires RecogniseBoot(argument).Some?
    ensures Spells(argument, RecogniseBoot(argument).value.key)
  {
  }

  lemma RecognisedTargetIsSpelled(argument: string)
    requires RecogniseTarget(argument).Some?
    ensures Spells(argument, RecogniseTarget(argument).value.key)
  {
    if RecogniseBoot(argument).Some? { RecognisedBootIsSpelled(argument); }
  }

  lemma RecognisedGeneralIsSpelled(argument: string)
    requires RecogniseGeneral(argument).Some?
    ensures var key := RecogniseGeneral(argument).value.key; Spells(argument, key) && !IsBoot(key) && !IsTarget(key)
  {
  }

  lemma RecognisedIsSpelled(argument: string)
    requires Recognise(argument).Some?
    ensures Spells(argument, Recognise(argument).value.key)
  {
    if RecogniseGeneral(argument).Some? {
      RecognisedGeneralIsSpelled(argument);
    } else {
      RecognisedTargetIsSpelled(argument);
    }
  }

  lemma BootSpelled(argument: string, key: Key)
    requires Spells(argument, key) && IsBoot(key)
    ensures RecogniseBoot(argument).Some? && RecogniseBoot(argument).value.key == key
  {
    assert argument[2] == argument[2];
  }

  lemma TargetSpelled(argument: string, key: Key)
    requires Spells(argument, key) && IsTarget(key)
    ensures RecogniseTarget(argument).Some? && RecogniseTarget(argument).value.key == key
  {
    assert FS_OPTIONS[2] == 'f' && SET_ACTIVE[2] == 's';
    if |argument| > 2 { assert argument[2] == argument[2]; }
  }

  lemma GeneralSpelled(argument: string, key: Key)
    requires Spells(argument, key) && !IsBoot(key) && !IsTarget(key)
    ensures RecogniseGeneral(argument).Some? && RecogniseGeneral(argument).value.key == key
  {
    assert argument[1] == argument[1];
    if |argument| > 2 { assert argument[2] == argument[2]; }
  }

  /** The first letters of the general options. */
  lemma GeneralLetters(argument: string, key: Key)
    requires Spells(argument, key) && !IsBoot(key) && !IsTarget(key)
    ensures |argument| == 2 ==> argument[1] in {'v', 's', 'l', 'w'}
    ensures |argument| != 2 ==> |argument| > 3 && argument[2] in {'v', 's', 'e', 'd', 'u', 'f'}
    ensures |argument| != 2 ==>
              argument[3] == match argument[2] case 's' => 'k' case 'd' => 'i' case 'f' => 'o' case _ => argument[3]
  {
  }

  lemma BootIsNotGeneral(argument: string, key: Key)
    requires Spells(argument, key) && IsBoot(key)
    ensures RecogniseGeneral(argument).None?
  {
    assert argument[2] in {'c', 'b', 'p', 'k', 'r', 't', 'h', 'o', 'd'};
    assert argument[2] == 'd' ==> argument[3] == 't';
    if RecogniseGeneral(argument).Some? {
      RecognisedGeneralIsSpelled(argument);
      GeneralLetters(argument, RecogniseGeneral(argument).value.key);
      assert false;
    }
  }

  lemma TargetIsNotGeneral(argument: string, key: Key)
    requires Spells(argument, key) && IsTarget(key)
    ensures RecogniseGeneral(argument).None?
  {
    if |argument| == 2 {
      assert argument[1] in {'S', 'a'};
    } else {
      TargetLetters(argument, key);
    }
    if RecogniseGeneral(argument).Some? {
      RecognisedGeneralIsSpelled(argument);
      GeneralLetters(argument, RecogniseGeneral(argument).value.key);
      assert false;
    }
  }

  lemma TargetLetters(argument: string, key: Key)
    requires Spells(argument, key) && IsTarget(key) && |argument| != 2
    ensures |argument| > 3 && argument[2] in {'f', 's', 'd'}
    ensures argument[3] in if argument[2] == 'f' then {'s'} else if argument[2] == 'd' then {'t'} else {'l', 'e'}
  {
    if StartsWith(argument, "--fs-options=") {
      assert argument[2] == "--fs-options="[2] && argument[3] == "--fs-options="[3];
    } else if StartsWith(argument, "--set-active=") {
      assert argument[2] == "--set-active="[2] && argument[3] == "--set-active="[3];
    }
  }

  lemma NotTarget(argument: string, key: Key)
    requires Spells(argument, key) && IsBoot(key)
    ensures RecogniseTarget(argument) == RecogniseBoot(argument)
  {
    assert FS_OPTIONS[2] == 'f' && SET_ACTIVE[2] == 's';
    assert argument[2] == argument[2];
  }

  /** An argument is an option with a key exactly when it is one of the key's spellings. */
  lemma RecognisesSpellings(argument: string, key: Key)
    ensures Recognise(argument).Some? && Recognise(argument).value.key == key <==> Spells(argument, key)
  {
    if Recognise(argument).Some? { RecognisedIsSpelled(argument); }
    if Spells(argument, key) {
      if IsBoot(key) {
        BootSpelled(argument, key);
        NotTarget(argument, key);
        BootIsNotGeneral(argument, key);
      } else if IsTarget(key) {
        TargetSpelled(argument, key);
        TargetIsNotGeneral(argument, key);
      } else {
        GeneralSpelled(argument, key);
      }
    }
  }

  /** Only three keys have more than one spelling. */
  lemma SpellingsAreUnique(a: string, b: string, key: Key)
    requires Spells(a, key) && Spells(b, key) && a != b
    ensures key in {Verbose, Filesystem, SetActive}
  {
  }

  // ----- Numbers

  function Power(base: nat, k: nat): nat {
    if k == 0 then 1 else base * Power(base, k - 1)
  }

  /** The digits of the two bases in use. */
  function Digit(c: char, base: nat): Option<nat> {
    if base == 16 then HexValue(c as int) else if '0' <= c <= '9' then Some(c as int - '0' as int) else None
  }

  predicate IsNumeral(text: string, base: nat) {
    forall i :: 0 <= i < |text| ==> Digit(text[i], base).Some?
  }

  /** Each digit counts as much as its place says. */
  function PlaceValue(text: string, base: nat): nat
    requires IsNumeral(text, base)
  {
    if text == "" then 0
    else Digit(text[0], base).value * Power(base, |text| - 1) + PlaceValue(text[1..], base)
  }

  lemma DigitsAgree(c: char, base: nat)
    requires base == 10 || base == 16
    ensures DigitValue(c, base) == Digit(c, base)
  {
  }

  lemma ShiftedSum(base: nat, d: nat, p: nat, q: nat, v: nat, w: nat, last: nat)
    requires q == base * p && w == v * base + last
    ensures d * q + w == (d * p + v) * base + last
  {
    assert d * q == d * (base * p) == (d * p) * base;
    assert (d * p + v) * base == (d * p) * base + v * base;
  }

  lemma {:induction false} PlaceValueSnoc(text: string, base: nat)
    requires text != "" && IsNumeral(text, base)
    ensures var init := text[..|text| - 1];
            IsNumeral(init, base)
            && PlaceValue(text, base) == PlaceValue(init, base) * base + Digit(text[|text| - 1], base).value
  {
    var init, last := text[..|text| - 1], Digit(text[|text| - 1], base).value;
    if init == "" {
      assert text[1..] == "" && Power(base, 0) == 1;
    } else {
      var rest := text[1..];
      PlaceValueSnoc(rest, base);
      assert rest[..|rest| - 1] == init[1..] && rest[|rest| - 1] == text[|text| - 1];
      ShiftedSum(base, Digit(text[0], base).value, Power(base, |init| - 1), Power(base, |text| - 1),
                 PlaceValue(init[1..], base), PlaceValue(rest, base), last);
    }
  }

  lemma {:induction false} NumeralIsPlaceValue(text: string, base: nat)
    requires base == 10 || base == 16
    ensures Numeral(text, base) == if IsNumeral(text, base) then Some(PlaceValue(text, base)) else None
  {
    if text != "" {
      var init := text[..|text| - 1];
      NumeralIsPlaceValue(init, base);
      DigitsAgree(text[|text| - 1], base);
      assert text == init + [text[|text| - 1]];
      if IsNumeral(text, base) {
        PlaceValueSnoc(text, base);
      } else if IsNumeral(init, base) {
        assert Digit(text[|text| - 1], base).None?;
      }
    }
  }

  /** A text of at least one digit that stands for n. */
  predicate Denotes(text: string, base: nat, n: nat) {
    text != "" && IsNumeral(text, base) && PlaceValue(text, base) == n
  }

  lemma ParsesNumerals(text: string, base: nat, max: nat, n: nat)
    requires base == 10 || base == 16
    ensures ParseNumeral(text, base, max) == Some(n) <==> Denotes(text, base, n) && n <= max
  {
    NumeralIsPlaceValue(text, base);
  }

  /** Hexadecimal after 0x or 0X, decimal otherwise. */
  predicate WritesNumber(text: string, n: nat) {
    if StartsWith(text, "0x") || StartsWith(text, "0X") then Denotes(text[2..], 16, n) else Denotes(text, 10, n)
  }

  lemma ParsesNumbers(text: string, max: nat, n: nat)
    ensures ParseAuto(text, max) == Some(n) <==> WritesNumber(text, n) && n <= max
  {
    if StartsWith(text, "0x") || StartsWith(text, "0X") {
      ParsesNumerals(text[2..], 16, max, n);
    } else {
      ParsesNumerals(text, 10, max, n);
    }
  }

  /** K, M and G count in powers of 1024. */
  function UnitBits(unit: char): Option<nat> {
    if unit in {'K', 'k'} then Some(10) else if unit in {'M', 'm'} then Some(20)
    else if unit in {'G', 'g'} then Some(30) else None
  }

  /** An optional plus sign, a decimal number and an optional unit. */
  predicate WritesSize(text: string, n: nat) {
    var body := if text != "" && text[0] == '+' then text[1..] else text;
    && body != ""
    && var bits := UnitBits(body[|body| - 1]);
       if bits.None? then Denotes(body, 10, n)
       else
         var digits := body[..|body| - 1];
         digits != "" && IsNumeral(digits, 10) && n == PlaceValue(digits, 10) * Pow2(bits.value)
  }

  lemma UnitFactor(unit: char)
    ensures Multiplier(unit) == (if UnitBits(unit).None? then 1 else Pow2(UnitBits(unit).value))
    ensures UnitBits(unit).Some? ==> Multiplier(unit) > 1
  {
    assert Pow2(5) == 32 && Pow2(10) == 32 * Pow2(5);
    assert Pow2(15) == 32 * Pow2(10) && Pow2(20) == 32 * Pow2(15);
    assert Pow2(25) == 32 * Pow2(20) && Pow2(30) == 32 * Pow2(25);
  }

  /** A size is read exactly as it is written, as long as it fits 64 bits. */
  lemma ParsesSizes(text: string, n: nat)
    ensures ParseSparseLimit(text) == Some(n) <==> WritesSize(text, n) && n <= U64_MAX
  {
    var body := if text != "" && text[0] == '+' then text[1..] else text;
    if body != "" {
      var unit := body[|body| - 1];
      UnitFactor(unit);
      var digits := if UnitBits(unit).None? then body else body[..|body| - 1];
      NumeralIsPlaceValue(digits, 10);
      if digits != "" && IsNumeral(digits, 10) {
        ScaleIsExact(PlaceValue(digits, 10), Multiplier(unit));
      }
    }
  }

  // ----- Values

  predicate IsOperand(text: string) {
    text != "" && !StartsWith(text, "--")
  }

  predicate WritesFilesystem(text: string, value: Value) {
    value.FilesystemSet? && ValidTokens(Tokens(text)) && value.options == NamedOptions(Tokens(text))
  }

  /** The group gives its key this value. */
  predicate Writes(g: Group, key: Key, value: Value) {
    match key
    case Filesystem =>
      if StartsWith(g.option, "--fs-options=") then WritesFilesystem(g.option[|"--fs-options="|..], value)
      else g.value.Some? && WritesFilesystem(g.value.value, value)
    case SetActive =>
      if StartsWith(g.option, "--set-active=") then
        value == ActiveSlot(Some(g.option[|"--set-active="|..])) && g.option != "--set-active="
      else value == ActiveSlot(None)
    case Slot => g.value.Some? && value == Named(g.value.value) && IsOperand(g.value.value)
    case Dtb => g.value.Some? && value == Named(g.value.value) && IsOperand(g.value.value)
    case CommandLineText => g.value.Some? && value == Named(g.value.value)
    case OsVersion => g.value.Some? && value == Named(g.value.value) && g.value.value != ""
    case OsPatchLevel => g.value.Some? && value == Named(g.value.value) && g.value.value != ""
    case SparseLimit =>
      g.value.Some? && value.Number? && WritesSize(g.value.value, value.number) && value.number <= U64_MAX
    case HeaderVersion => g.value.Some? && value.Number? && WritesNumber(g.value.value, value.number) && value.number <= 4
    case DtbOffset =>
      g.value.Some? && value.Number? && WritesNumber(g.value.value, value.number) && value.number <= U64_MAX
    case Base => WritesU32(g, value)
    case PageSize => WritesU32(g, value)
    case KernelOffset => WritesU32(g, value)
    case RamdiskOffset => WritesU32(g, value)
    case TagsOffset => WritesU32(g, value)
    case _ => value == Flag
  }

  predicate WritesU32(g: Group, value: Value) {
    g.value.Some? && value.Number? && WritesNumber(g.value.value, value.number) && value.number <= U32_MAX
  }

  lemma ReadsValues(g: Group, key: Key, value: Value)
    ensures ReadValue(key, g) == Some(value) <==> Writes(g, key, value)
  {
    if g.value.Some? && value.Number? {
      ParsesSizes(g.value.value, value.number);
      ParsesNumbers(g.value.value, U32_MAX, value.number);
      ParsesNumbers(g.value.value, U64_MAX, value.number);
    }
  }

  // ----- One option alone, and twice

  lemma FoldOne(g: Group)
    ensures Fold(ReadGroup, [g]) == ApplyGroup(ReadGroup, Settings(map[], []), g)
  {
    var none: seq<Group> := [];
    assert [g][..0] == none;
  }

  /** An option alone sets exactly the key it spells to exactly the value it writes. */
  lemma OptionSetsItsKey(g: Group, key: Key, value: Value)
    requires key != Selector
    ensures Fold(ReadGroup, [g]) == Ok(Settings(map[key := value], []))
       <==> Spells(g.option, key) && Writes(g, key, value)
  {
    FoldOne(g);
    RecognisesSpellings(g.option, key);
    ReadsValues(g, key, value);
    var settings := Settings(map[key := value], []);
    if Fold(ReadGroup, [g]) == Ok(settings) {
      var read := Recognise(g.option).value.key;
      var got := ReadValue(read, g).value;
      assert map[][read := got] == map[key := value];
      assert key in map[][read := got];
      assert map[][read := got][key] == value;
    }
  }

  /** The selector option alone selects exactly the device it names. */
  lemma SelectorSelects(g: Group, name: string)
    ensures Fold(ReadGroup, [g]) == Ok(Settings(map[], [name]))
       <==> g.option == "-s" && g.value == Some(name) && IsOperand(name)
  {
    FoldOne(g);
    RecognisesSpellings(g.option, Selector);
    var r := ReadGroup(g);
    if r.Setting? && r.value.Some? {
      assert r.key in map[][r.key := r.value.value];
    }
    if r.Selection? && r.selector.Some? {
      assert [] + [r.selector.value] == [r.selector.value];
      assert [r.selector.value] == [name] <==> r.selector.value == name;
    }
  }

  /** Only the two AVB flags may come twice. */
  lemma RepeatedExactly(g: Group, g': Group, key: Key, value: Value, value': Value)
    requires key != Selector && Spells(g.option, key) && Spells(g'.option, key)
    requires Writes(g, key, value) && Writes(g', key, value')
    ensures Fold(ReadGroup, [g, g']).Ok? <==> key in {DisableVerity, DisableVerification}
  {
    assert [g, g'][..1] == [g];
    OptionSetsItsKey(g, key, value);
    RecognisesSpellings(g'.option, key);
    ReadsValues(g', key, value');
  }

  lemma SixteenIsWritten()
    ensures WritesNumber("0x10", 16)
  {
    var text := "0x10";
    assert text[..2] == "0x" && text[2..] == "10";
    assert "10"[1..] == "0" && "0"[1..] == "" && Power(16, 1) == 16;
    assert PlaceValue("0", 16) == 0;
  }

  /** For instance "--base 0x10" sets the base address to sixteen and nothing else. */
  lemma BaseInHexadecimal(option: string, text: string)
    requires option == "--base" && text == "0x10"
    ensures Fold(ReadGroup, [Group(option, Some(text))]) == Ok(Settings(map[Base := Number(16)], []))
  {
    SixteenIsWritten();
    OptionSetsItsKey(Group(option, Some(text)), Base, Number(16));
  }

  /** devices admits exactly the options that none of the checks before it refuses. */
  lemma DevicesAdmits(key: Key, value: Value)
    requires key != Selector
    ensures Devices(Settings(map[key := value], []), ["devices"], 1) == Refused
       <==> || IsBoot(key) || IsTarget(key)
            || key in {Force, Wipe, SkipReboot, SkipSecondary, ExcludeDynamicPartitions, DisableFastbootInfo,
                       DisableSuperOptimization}
  {
    var keys := map[key := value].Keys;
    assert keys == {key};
  }
}
