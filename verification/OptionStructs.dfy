/**
 * Versioned option structs: a caller passes a buffer whose first four bytes say
 * how many bytes of it are valid. Readers and initialisers must not depend on,
 * or touch, anything beyond. Offsets are those of abi/kairosboot-layout-v1.h on
 * a little-endian machine with eight-byte pointers.
 */
module OptionStructs {
  import opened Common

  const API_VERSION := 1
  const DEFAULT_TIMEOUT := 0xFFFF_FFFF
  const DEFAULT_MAXIMUM_RECEIVE := 64 * 1024 * 1024
  const FILESYSTEM_OPTIONS_ALL := 7

  // ----- Little-endian fields

  function LittleEndian(bytes: seq<Byte>): nat {
    if bytes == [] then 0 else bytes[0] as nat + 256 * LittleEndian(bytes[1..])
  }

  function Encode(n: nat, width: nat): (r: seq<Byte>)
    ensures |r| == width
  {
    if width == 0 then [] else [n % 256] + Encode(n / 256, width - 1)
  }

  lemma {:induction false} EncodeInverts(n: nat, width: nat)
    requires n < Power256(width)
    ensures LittleEndian(Encode(n, width)) == n
  {
    if width > 0 {
      EncodeInverts(n / 256, width - 1);
      assert Encode(n, width)[1..] == Encode(n / 256, width - 1);
    }
  }

  function Zeros(n: nat): seq<Byte> {
    seq(n, _ => 0)
  }

  lemma {:induction false} ZeroField(n: nat)
    ensures LittleEndian(Zeros(n)) == 0
  {
    if n > 0 {
      ZeroField(n - 1);
      assert Zeros(n)[1..] == Zeros(n - 1);
    }
  }

  function Field(buf: seq<Byte>, offset: nat, width: nat): nat
    requires offset + width <= |buf|
  {
    LittleEndian(buf[offset..offset + width])
  }

  /** The declared size: the first field of every struct. */
  function StructSize(buf: seq<Byte>): nat
    requires |buf| >= 4
  {
    Field(buf, 0, 4)
  }

  /** What a caller owes: memory for the size field and for as much of the struct as it declares. */
  predicate Readable(buf: seq<Byte>, sizeOf: nat) {
    |buf| >= 4 && |buf| >= Min(StructSize(buf), sizeOf)
  }

  /** A flag field, when the struct reaches that far, must be zero or one. */
  predicate OptionalBool(buf: seq<Byte>, sizeOf: nat, offset: nat)
    requires Readable(buf, sizeOf) && offset + 4 <= sizeOf
  {
    StructSize(buf) < offset + 4 || Field(buf, offset, 4) <= 1
  }

  function FieldOr(buf: seq<Byte>, sizeOf: nat, offset: nat, width: nat, default: nat): nat
    requires Readable(buf, sizeOf) && offset + width <= sizeOf
  {
    if StructSize(buf) >= offset + width then Field(buf, offset, width) else default
  }

  // ----- Flash options

  const FLASH_SIZE := 80
  const FLASH_V1 := 32
  const FLASH_AVB := 40
  const FLASH_SLOT_POLICY := 64

  predicate ValidFlashOptions(options: Option<seq<Byte>>)
    requires options.Some? ==> Readable(options.value, FLASH_SIZE)
  {
    options.None? ||
    (var buf := options.value;
     var size := StructSize(buf);
     && size >= FLASH_V1 && Field(buf, 4, 4) == API_VERSION
     && (size >= FLASH_AVB ==> Field(buf, 32, 4) <= 1 && Field(buf, 36, 4) <= 1)
     && OptionalBool(buf, FLASH_SIZE, 72)
     && (size >= FLASH_SIZE ==> Field(buf, 76, 4) <= FILESYSTEM_OPTIONS_ALL)
     && (size < 52
         || (Field(buf, 48, 4) <= 1
             && (size < FLASH_SLOT_POLICY || Field(buf, 56, 8) == 0 || Field(buf, 48, 4) == 1))))
  }

  /** Pointers are copied as numbers. */
  datatype FlashOptions = FlashOptions(
    timeout: nat, progress: nat, userData: nat, disableVerity: nat, disableVerification: nat,
    sparseLimit: nat, force: nat, filesystem: nat, slot: nat, setActive: nat, activeSlot: nat)

  function FlashDefaults(): FlashOptions {
    FlashOptions(DEFAULT_TIMEOUT, 0, 0, 0, 0, 0, 0, 0, 0, 0, 0)
  }

  /** flash_options_or_default together with the slot policy fields. */
  function CopyFlashOptions(options: Option<seq<Byte>>): FlashOptions
    requires options.Some? ==> Readable(options.value, FLASH_SIZE) && ValidFlashOptions(options)
  {
    if options.None? then FlashDefaults()
    else
      var buf := options.value;
      FlashOptions(
        Field(buf, 8, 4), Field(buf, 16, 8), Field(buf, 24, 8),
        if StructSize(buf) >= FLASH_AVB then Field(buf, 32, 4) else 0,
        FieldOr(buf, FLASH_SIZE, 36, 4, 0), FieldOr(buf, FLASH_SIZE, 64, 8, 0), FieldOr(buf, FLASH_SIZE, 72, 4, 0),
        FieldOr(buf, FLASH_SIZE, 76, 4, 0), FieldOr(buf, FLASH_SIZE, 40, 8, 0), FieldOr(buf, FLASH_SIZE, 48, 4, 0),
        FieldOr(buf, FLASH_SIZE, 56, 8, 0))
  }

  // ----- Update options

  const UPDATE_SIZE := 104
  const UPDATE_V1 := 32
  const UPDATE_SLOT_POLICY := 80
  const UPDATE_FORCE_FS := 96

  predicate ValidUpdateOptions(options: Option<seq<Byte>>)
    requires options.Some? ==> Readable(options.value, UPDATE_SIZE)
  {
    options.None? ||
    (var buf := options.value;
     var size := StructSize(buf);
     && size >= UPDATE_V1 && Field(buf, 4, 4) == API_VERSION && Field(buf, 12, 4) <= 1
     && OptionalBool(buf, UPDATE_SIZE, 32) && OptionalBool(buf, UPDATE_SIZE, 36) && OptionalBool(buf, UPDATE_SIZE, 40)
     && OptionalBool(buf, UPDATE_SIZE, 44) && OptionalBool(buf, UPDATE_SIZE, 48) && OptionalBool(buf, UPDATE_SIZE, 52)
     && OptionalBool(buf, UPDATE_SIZE, 88) && OptionalBool(buf, UPDATE_SIZE, 96)
     && (size >= UPDATE_FORCE_FS ==> Field(buf, 92, 4) <= FILESYSTEM_OPTIONS_ALL)
     && (size < 68
         || (Field(buf, 64, 4) <= 1
             && (size < UPDATE_SLOT_POLICY || Field(buf, 72, 8) == 0 || Field(buf, 64, 4) == 1))))
  }

  datatype UpdateOptions = UpdateOptions(
    timeout: nat, wipe: nat, progress: nat, userData: nat, skipReboot: nat, skipSecondary: nat,
    excludeDynamic: nat, disableInfo: nat, disableVerity: nat, disableVerification: nat, slot: nat,
    setActive: nat, activeSlot: nat, sparseLimit: nat, force: nat, filesystem: nat, disableSuper: nat)

  function UpdateDefaults(): UpdateOptions {
    UpdateOptions(DEFAULT_TIMEOUT, 0, 0, 0, 0, 0, 0, 0, 0, 0, 0, 0, 0, 0, 0, 0, 0)
  }

  function CopyUpdateOptions(options: Option<seq<Byte>>): UpdateOptions
    requires options.Some? ==> Readable(options.value, UPDATE_SIZE) && ValidUpdateOptions(options)
  {
    if options.None? then UpdateDefaults()
    else
      var buf := options.value;
      UpdateOptions(
        Field(buf, 8, 4), Field(buf, 12, 4), Field(buf, 16, 8), Field(buf, 24, 8),
        FieldOr(buf, UPDATE_SIZE, 32, 4, 0), FieldOr(buf, UPDATE_SIZE, 36, 4, 0), FieldOr(buf, UPDATE_SIZE, 40, 4, 0),
        FieldOr(buf, UPDATE_SIZE, 44, 4, 0), FieldOr(buf, UPDATE_SIZE, 48, 4, 0), FieldOr(buf, UPDATE_SIZE, 52, 4, 0),
        FieldOr(buf, UPDATE_SIZE, 56, 8, 0), FieldOr(buf, UPDATE_SIZE, 64, 4, 0), FieldOr(buf, UPDATE_SIZE, 72, 8, 0),
        FieldOr(buf, UPDATE_SIZE, 80, 8, 0), FieldOr(buf, UPDATE_SIZE, 88, 4, 0), FieldOr(buf, UPDATE_SIZE, 92, 4, 0),
        FieldOr(buf, UPDATE_SIZE, 96, 4, 0))
  }

  // ----- Command and context options

  const COMMAND_SIZE := 40

  predicate ValidCommandOptions(options: Option<seq<Byte>>)
    requires options.Some? ==> Readable(options.value, COMMAND_SIZE)
  {
    options.None? ||
    (var buf := options.value;
     StructSize(buf) >= COMMAND_SIZE && Field(buf, 4, 4) == API_VERSION && Field(buf, 32, 8) != 0)
  }

  datatype CommandOptions = CommandOptions(timeout: nat, progress: nat, userData: nat, maximumReceive: nat)

  function CommandDefaults(): CommandOptions {
    CommandOptions(DEFAULT_TIMEOUT, 0, 0, DEFAULT_MAXIMUM_RECEIVE)
  }

  function CopyCommandOptions(options: Option<seq<Byte>>): CommandOptions
    requires options.Some? ==> Readable(options.value, COMMAND_SIZE) && ValidCommandOptions(options)
  {
    if options.None? then CommandDefaults()
    else
      var buf := options.value;
      CommandOptions(Field(buf, 8, 4), Field(buf, 16, 8), Field(buf, 24, 8), Field(buf, 32, 8))
  }

  const CONTEXT_SIZE := 32
  const CONTEXT_V1 := 24

  predicate ValidContextOptions(options: Option<seq<Byte>>)
    requires options.Some? ==> Readable(options.value, CONTEXT_SIZE)
  {
    options.None? ||
    (var buf := options.value;
     && StructSize(buf) >= CONTEXT_V1 && Field(buf, 4, 4) == API_VERSION
     && (StructSize(buf) < CONTEXT_SIZE || Field(buf, 24, 8) <= 0xFFFF))
  }

  // ----- Nothing beyond the declared size is read

  /** The bytes a reader may look at. */
  function Declared(buf: seq<Byte>, sizeOf: nat): seq<Byte>
    requires Readable(buf, sizeOf)
  {
    if StructSize(buf) < 4 || sizeOf < 4 then buf[..4] else buf[..Min(StructSize(buf), sizeOf)]
  }

  lemma PrefixSlice(buf: seq<Byte>, prefix: seq<Byte>, o: nat, w: nat)
    requires prefix <= buf && o + w <= |prefix|
    ensures buf[o..o + w] == prefix[o..o + w]
  {
    assert forall k :: o <= k < o + w ==> buf[k] == prefix[k];
  }

  /** Buffers that agree on the declared bytes have the same fields there. */
  lemma SameFields(a: seq<Byte>, b: seq<Byte>, sizeOf: nat)
    requires Readable(a, sizeOf) && Readable(b, sizeOf) && Declared(a, sizeOf) == Declared(b, sizeOf)
    ensures StructSize(a) == StructSize(b)
    ensures forall o: nat, w: nat :: o + w <= StructSize(a) && o + w <= sizeOf ==> Field(a, o, w) == Field(b, o, w)
  {
    var d := Declared(a, sizeOf);
    PrefixSlice(a, d, 0, 4);
    PrefixSlice(b, d, 0, 4);
    forall o: nat, w: nat | o + w <= StructSize(a) && o + w <= sizeOf ensures Field(a, o, w) == Field(b, o, w) {
      PrefixSlice(a, d, o, w);
      PrefixSlice(b, d, o, w);
    }
  }

  lemma FlashReadsDeclaredOnly(a: seq<Byte>, b: seq<Byte>)
    requires Readable(a, FLASH_SIZE) && Readable(b, FLASH_SIZE) && Declared(a, FLASH_SIZE) == Declared(b, FLASH_SIZE)
    ensures ValidFlashOptions(Some(a)) == ValidFlashOptions(Some(b))
    ensures ValidFlashOptions(Some(a)) ==> CopyFlashOptions(Some(a)) == CopyFlashOptions(Some(b))
  {
    SameFields(a, b, FLASH_SIZE);
  }

  lemma UpdateReadsDeclaredOnly(a: seq<Byte>, b: seq<Byte>)
    requires Readable(a, UPDATE_SIZE) && Readable(b, UPDATE_SIZE) && Declared(a, UPDATE_SIZE) == Declared(b, UPDATE_SIZE)
    ensures ValidUpdateOptions(Some(a)) == ValidUpdateOptions(Some(b))
    ensures ValidUpdateOptions(Some(a)) ==> CopyUpdateOptions(Some(a)) == CopyUpdateOptions(Some(b))
  {
    SameFields(a, b, UPDATE_SIZE);
  }

  lemma CommandReadsDeclaredOnly(a: seq<Byte>, b: seq<Byte>)
    requires Readable(a, COMMAND_SIZE) && Readable(b, COMMAND_SIZE)
    requires Declared(a, COMMAND_SIZE) == Declared(b, COMMAND_SIZE)
    ensures ValidCommandOptions(Some(a)) == ValidCommandOptions(Some(b))
    ensures ValidCommandOptions(Some(a)) ==> CopyCommandOptions(Some(a)) == CopyCommandOptions(Some(b))
  {
    SameFields(a, b, COMMAND_SIZE);
  }

  lemma ContextReadsDeclaredOnly(a: seq<Byte>, b: seq<Byte>)
    requires Readable(a, CONTEXT_SIZE) && Readable(b, CONTEXT_SIZE)
    requires Declared(a, CONTEXT_SIZE) == Declared(b, CONTEXT_SIZE)
    ensures ValidContextOptions(Some(a)) == ValidContextOptions(Some(b))
  {
    SameFields(a, b, CONTEXT_SIZE);
  }

  // ----- Initialisers

  /** Bytes an initialiser may write: the declared ones the library knows. */
  function Writable(structSize: nat, sizeOf: nat): nat {
    Min(structSize, sizeOf)
  }

  /** memset of the known prefix. */
  method InitializeKnownPrefix(value: array<Byte>, structSize: nat, sizeOf: nat)
    requires Writable(structSize, sizeOf) <= value.Length
    modifies value
    ensures value[..] == Zeroed(old(value[..]), structSize, sizeOf)
  {
    var writable := Writable(structSize, sizeOf);
    for i := 0 to writable
      invariant forall k :: 0 <= k < i ==> value[k] == 0
      invariant forall k :: i <= k < value.Length ==> value[k] == old(value[k])
    {
      value[i] := 0;
    }
  }

  function Zeroed(buf: seq<Byte>, structSize: nat, sizeOf: nat): (r: seq<Byte>)
    requires Writable(structSize, sizeOf) <= |buf|
    ensures |r| == |buf|
  {
    Zeros(Writable(structSize, sizeOf)) + buf[Writable(structSize, sizeOf)..]
  }

  /** memcpy of one field, unless the field does not fit into the declared bytes. */
  method InitializeField(value: array<Byte>, structSize: nat, sizeOf: nat, offset: nat, field: seq<Byte>)
    requires Writable(structSize, sizeOf) <= value.Length
    modifies value
    ensures value[..] == Put(old(value[..]), structSize, sizeOf, offset, field)
  {
    var writable := Writable(structSize, sizeOf);
    if offset > writable || |field| > writable - offset { return; }
    for i := 0 to |field|
      invariant forall k :: 0 <= k < value.Length ==>
                  value[k] == if offset <= k < offset + i then field[k - offset] else old(value[k])
    {
      value[offset + i] := field[i];
    }
  }

  function Put(buf: seq<Byte>, structSize: nat, sizeOf: nat, offset: nat, field: seq<Byte>): (r: seq<Byte>)
    requires Writable(structSize, sizeOf) <= |buf|
    ensures |r| == |buf|
    ensures r[Writable(structSize, sizeOf)..] == buf[Writable(structSize, sizeOf)..]
  {
    if offset + |field| > Writable(structSize, sizeOf) then buf
    else buf[..offset] + field + buf[offset + |field|..]
  }

  function Header(buf: seq<Byte>, structSize: nat, sizeOf: nat): (r: seq<Byte>)
    requires Writable(structSize, sizeOf) <= |buf|
    ensures |r| == |buf| && r[Writable(structSize, sizeOf)..] == buf[Writable(structSize, sizeOf)..]
  {
    Put(Put(Zeroed(buf, structSize, sizeOf), structSize, sizeOf, 0, Encode(structSize, 4)),
        structSize, sizeOf, 4, Encode(API_VERSION, 4))
  }

  method InitializeStructHeader(value: array<Byte>, structSize: nat, sizeOf: nat)
    requires Writable(structSize, sizeOf) <= value.Length
    modifies value
    ensures value[..] == Header(old(value[..]), structSize, sizeOf)
  {
    InitializeKnownPrefix(value, structSize, sizeOf);
    InitializeField(value, structSize, sizeOf, 0, Encode(structSize, 4));
    InitializeField(value, structSize, sizeOf, 4, Encode(API_VERSION, 4));
  }

  /** Header and infinite timeout, as flash and update structs start out. */
  function WithTimeout(buf: seq<Byte>, structSize: nat, sizeOf: nat): (r: seq<Byte>)
    requires Writable(structSize, sizeOf) <= |buf|
    ensures |r| == |buf| && r[Writable(structSize, sizeOf)..] == buf[Writable(structSize, sizeOf)..]
  {
    Put(Header(buf, structSize, sizeOf), structSize, sizeOf, 8, Encode(DEFAULT_TIMEOUT, 4))
  }

  /** Nothing at or beyond the declared or known size changes. */
  method FlashOptionsInitSized(value: array<Byte>, structSize: nat)
    requires Writable(structSize, FLASH_SIZE) <= value.Length
    modifies value
    ensures value[..] == WithTimeout(old(value[..]), structSize, FLASH_SIZE)
    ensures value[Writable(structSize, FLASH_SIZE)..] == old(value[Writable(structSize, FLASH_SIZE)..])
  {
    InitializeStructHeader(value, structSize, FLASH_SIZE);
    InitializeField(value, structSize, FLASH_SIZE, 8, Encode(DEFAULT_TIMEOUT, 4));
  }

  method UpdateOptionsInitSized(value: array<Byte>, structSize: nat)
    requires Writable(structSize, UPDATE_SIZE) <= value.Length
    modifies value
    ensures value[..] == WithTimeout(old(value[..]), structSize, UPDATE_SIZE)
    ensures value[Writable(structSize, UPDATE_SIZE)..] == old(value[Writable(structSize, UPDATE_SIZE)..])
  {
    InitializeStructHeader(value, structSize, UPDATE_SIZE);
    InitializeField(value, structSize, UPDATE_SIZE, 8, Encode(DEFAULT_TIMEOUT, 4));
  }

  method CommandOptionsInitSized(value: array<Byte>, structSize: nat)
    requires Writable(structSize, COMMAND_SIZE) <= value.Length
    modifies value
    ensures value[..] == CommandInitialized(old(value[..]), structSize)
    ensures value[Writable(structSize, COMMAND_SIZE)..] == old(value[Writable(structSize, COMMAND_SIZE)..])
  {
    InitializeStructHeader(value, structSize, COMMAND_SIZE);
    InitializeField(value, structSize, COMMAND_SIZE, 8, Encode(DEFAULT_TIMEOUT, 4));
    InitializeField(value, structSize, COMMAND_SIZE, 32, Encode(DEFAULT_MAXIMUM_RECEIVE, 8));
  }

  function CommandInitialized(buf: seq<Byte>, structSize: nat): (r: seq<Byte>)
    requires Writable(structSize, COMMAND_SIZE) <= |buf|
    ensures |r| == |buf| && r[Writable(structSize, COMMAND_SIZE)..] == buf[Writable(structSize, COMMAND_SIZE)..]
  {
    Put(WithTimeout(buf, structSize, COMMAND_SIZE), structSize, COMMAND_SIZE, 32, Encode(DEFAULT_MAXIMUM_RECEIVE, 8))
  }

  // ----- An initialised struct means the defaults

  lemma PutField(buf: seq<Byte>, structSize: nat, sizeOf: nat, offset: nat, n: nat, width: nat)
    requires Writable(structSize, sizeOf) <= |buf| && offset + width <= Writable(structSize, sizeOf)
    requires n < Power256(width)
    ensures Field(Put(buf, structSize, sizeOf, offset, Encode(n, width)), offset, width) == n
  {
    var r := Put(buf, structSize, sizeOf, offset, Encode(n, width));
    assert r[offset..offset + width] == Encode(n, width);
    EncodeInverts(n, width);
  }

  lemma PutElsewhere(buf: seq<Byte>, structSize: nat, sizeOf: nat, offset: nat, field: seq<Byte>, o: nat, w: nat)
    requires Writable(structSize, sizeOf) <= |buf| && o + w <= |buf|
    requires o + w <= offset || offset + |field| <= o
    ensures Field(Put(buf, structSize, sizeOf, offset, field), o, w) == Field(buf, o, w)
  {
    var r := Put(buf, structSize, sizeOf, offset, field);
    assert r[o..o + w] == buf[o..o + w];
  }

  lemma ZeroedField(buf: seq<Byte>, structSize: nat, sizeOf: nat, o: nat, w: nat)
    requires Writable(structSize, sizeOf) <= |buf| && o + w <= Writable(structSize, sizeOf)
    ensures Field(Zeroed(buf, structSize, sizeOf), o, w) == 0
  {
    assert Zeroed(buf, structSize, sizeOf)[o..o + w] == Zeros(w);
    ZeroField(w);
  }

  lemma Widths()
    ensures Power256(4) == U32_MAX + 1 && Power256(8) == U64_MAX + 1
  {
    EightBytes();
  }

  lemma HeaderFields(buf: seq<Byte>, structSize: nat, sizeOf: nat)
    requires Writable(structSize, sizeOf) <= |buf| && 4 <= structSize <= U32_MAX && 8 <= sizeOf
    ensures Field(Header(buf, structSize, sizeOf), 0, 4) == structSize
    ensures structSize >= 8 ==> Field(Header(buf, structSize, sizeOf), 4, 4) == API_VERSION
    ensures forall o: nat, w: nat :: 8 <= o && o + w <= Writable(structSize, sizeOf) ==>
                                       Field(Header(buf, structSize, sizeOf), o, w) == 0
  {
    Widths();
    var zeroed := Zeroed(buf, structSize, sizeOf);
    var sized := Put(zeroed, structSize, sizeOf, 0, Encode(structSize, 4));
    PutField(zeroed, structSize, sizeOf, 0, structSize, 4);
    PutElsewhere(sized, structSize, sizeOf, 4, Encode(API_VERSION, 4), 0, 4);
    if structSize >= 8 {
      PutField(sized, structSize, sizeOf, 4, API_VERSION, 4);
    }
    forall o: nat, w: nat | 8 <= o && o + w <= Writable(structSize, sizeOf)
      ensures Field(Header(buf, structSize, sizeOf), o, w) == 0
    {
      ZeroedField(buf, structSize, sizeOf, o, w);
      PutElsewhere(zeroed, structSize, sizeOf, 0, Encode(structSize, 4), o, w);
      PutElsewhere(sized, structSize, sizeOf, 4, Encode(API_VERSION, 4), o, w);
    }
  }

  lemma TimeoutFields(buf: seq<Byte>, structSize: nat, sizeOf: nat)
    requires Writable(structSize, sizeOf) <= |buf| && 4 <= structSize <= U32_MAX && 12 <= sizeOf
    ensures Field(WithTimeout(buf, structSize, sizeOf), 0, 4) == structSize
    ensures structSize >= 12 ==>
              && Field(WithTimeout(buf, structSize, sizeOf), 4, 4) == API_VERSION
              && Field(WithTimeout(buf, structSize, sizeOf), 8, 4) == DEFAULT_TIMEOUT
    ensures forall o: nat, w: nat :: 12 <= o && o + w <= Writable(structSize, sizeOf) ==>
                                       Field(WithTimeout(buf, structSize, sizeOf), o, w) == 0
  {
    Widths();
    var header, timeout := Header(buf, structSize, sizeOf), Encode(DEFAULT_TIMEOUT, 4);
    HeaderFields(buf, structSize, sizeOf);
    PutElsewhere(header, structSize, sizeOf, 8, timeout, 0, 4);
    if structSize >= 12 {
      PutElsewhere(header, structSize, sizeOf, 8, timeout, 4, 4);
      PutField(header, structSize, sizeOf, 8, DEFAULT_TIMEOUT, 4);
    }
    forall o: nat, w: nat | 12 <= o && o + w <= Writable(structSize, sizeOf)
      ensures Field(WithTimeout(buf, structSize, sizeOf), o, w) == 0
    {
      PutElsewhere(header, structSize, sizeOf, 8, timeout, o, w);
    }
  }

  /** An initialised flash struct is valid exactly from the v1 size on, and then means the same as NULL. */
  lemma InitialisedFlashIsDefault(buf: seq<Byte>, structSize: nat)
    requires Writable(structSize, FLASH_SIZE) <= |buf| && 4 <= structSize <= U32_MAX
    ensures var r := WithTimeout(buf, structSize, FLASH_SIZE);
            && Readable(r, FLASH_SIZE)
            && (ValidFlashOptions(Some(r)) <==> structSize >= FLASH_V1)
            && (structSize >= FLASH_V1 ==> CopyFlashOptions(Some(r)) == CopyFlashOptions(None))
  {
    TimeoutFields(buf, structSize, FLASH_SIZE);
  }

  lemma InitialisedUpdateIsDefault(buf: seq<Byte>, structSize: nat)
    requires Writable(structSize, UPDATE_SIZE) <= |buf| && 4 <= structSize <= U32_MAX
    ensures var r := WithTimeout(buf, structSize, UPDATE_SIZE);
            && Readable(r, UPDATE_SIZE)
            && (ValidUpdateOptions(Some(r)) <==> structSize >= UPDATE_V1)
            && (structSize >= UPDATE_V1 ==> CopyUpdateOptions(Some(r)) == CopyUpdateOptions(None))
  {
    TimeoutFields(buf, structSize, UPDATE_SIZE);
  }

  lemma InitialisedCommandIsDefault(buf: seq<Byte>, structSize: nat)
    requires Writable(structSize, COMMAND_SIZE) <= |buf| && 4 <= structSize <= U32_MAX
    ensures var r := CommandInitialized(buf, structSize);
            && Readable(r, COMMAND_SIZE)
            && (ValidCommandOptions(Some(r)) <==> structSize >= COMMAND_SIZE)
            && (structSize >= COMMAND_SIZE ==> CopyCommandOptions(Some(r)) == CopyCommandOptions(None))
  {
    Widths();
    var t, field := WithTimeout(buf, structSize, COMMAND_SIZE), Encode(DEFAULT_MAXIMUM_RECEIVE, 8);
    TimeoutFields(buf, structSize, COMMAND_SIZE);
    PutElsewhere(t, structSize, COMMAND_SIZE, 32, field, 0, 4);
    if structSize >= COMMAND_SIZE {
      PutField(t, structSize, COMMAND_SIZE, 32, DEFAULT_MAXIMUM_RECEIVE, 8);
      PutElsewhere(t, structSize, COMMAND_SIZE, 32, field, 4, 4);
      PutElsewhere(t, structSize, COMMAND_SIZE, 32, field, 8, 4);
      PutElsewhere(t, structSize, COMMAND_SIZE, 32, field, 16, 8);
      PutElsewhere(t, structSize, COMMAND_SIZE, 32, field, 24, 8);
    }
  }
}
