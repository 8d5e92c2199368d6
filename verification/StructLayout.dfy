/**
 * Option structs as a caller lays them out in memory: each field in its place
 * of the ABI, padding in between, and only the declared bytes there. Reading
 * such a struct gives back exactly what was stored.
 */
module StructLayout {
  import opened Common
  import opened OptionStructs

  // ----- Fields in a row

  function Joined(parts: seq<seq<Byte>>): seq<Byte> {
    if parts == [] then [] else Joined(parts[..|parts| - 1]) + parts[|parts| - 1]
  }

  function Place(parts: seq<seq<Byte>>, i: nat): nat
    requires i <= |parts|
  {
    if i == 0 then 0 else Place(parts, i - 1) + |parts[i - 1]|
  }

  lemma {:induction false} PlacePrefix(parts: seq<seq<Byte>>, k: nat, i: nat)
    requires i <= k <= |parts|
    ensures Place(parts[..k], i) == Place(parts, i)
  {
    if i > 0 { PlacePrefix(parts, k, i - 1); }
  }

  lemma {:induction false} JoinedLength(parts: seq<seq<Byte>>)
    ensures |Joined(parts)| == Place(parts, |parts|)
  {
    if parts != [] {
      JoinedLength(parts[..|parts| - 1]);
      PlacePrefix(parts, |parts| - 1, |parts| - 1);
    }
  }

  /** Each part stands in its place. */
  lemma {:induction false} PartInPlace(parts: seq<seq<Byte>>, i: nat)
    requires i < |parts|
    ensures Place(parts, i) + |parts[i]| <= |Joined(parts)|
    ensures Joined(parts)[Place(parts, i)..Place(parts, i) + |parts[i]|] == parts[i]
  {
    var init, last := parts[..|parts| - 1], parts[|parts| - 1];
    JoinedLength(init);
    PlacePrefix(parts, |parts| - 1, |parts| - 1);
    if i < |init| {
      PartInPlace(init, i);
      PlacePrefix(parts, |parts| - 1, i);
      var from, to := Place(parts, i), Place(parts, i) + |parts[i]|;
      assert Joined(parts)[from..to] == Joined(init)[from..to];
    } else {
      assert Joined(parts)[|Joined(init)|..] == last;
    }
  }

  // ----- Stored fields

  /** The field is there, as far as the declared size reaches. */
  ghost predicate Holds(buf: seq<Byte>, size: nat, offset: nat, width: nat, value: nat) {
    offset + width <= size ==> offset + width <= |buf| && buf[offset..offset + width] == Encode(value, width)
  }

  lemma HeldField(buf: seq<Byte>, size: nat, offset: nat, width: nat, value: nat)
    requires Holds(buf, size, offset, width, value) && offset + width <= size && value < Power256(width)
    ensures offset + width <= |buf| && Field(buf, offset, width) == value
  {
    EncodeInverts(value, width);
  }

  /** Cutting a buffer at the declared size and putting anything behind keeps the fields. */
  lemma HeldInPrefix(whole: seq<Byte>, size: nat, tail: seq<Byte>, offset: nat, width: nat, value: nat)
    requires offset + width <= |whole| && whole[offset..offset + width] == Encode(value, width)
    ensures Holds(whole[..Min(size, |whole|)] + tail, size, offset, width, value)
  {
    var buf := whole[..Min(size, |whole|)] + tail;
    if offset + width <= size {
      assert buf[offset..offset + width] == whole[offset..offset + width];
    }
  }

  predicate U32(n: nat) {
    n <= U32_MAX
  }

  predicate U64(n: nat) {
    n <= U64_MAX
  }

  lemma SizeHeld(buf: seq<Byte>, size: nat, sizeOf: nat)
    requires Holds(buf, size, 0, 4, size) && 4 <= size <= U32_MAX && |buf| >= Min(size, sizeOf)
    ensures Readable(buf, sizeOf) && StructSize(buf) == size
  {
    Widths();
    HeldField(buf, size, 0, 4, size);
  }

  lemma PartHeld(parts: seq<seq<Byte>>, size: nat, tail: seq<Byte>, i: nat, offset: nat, width: nat, value: nat)
    requires i < |parts| && Place(parts, i) == offset && parts[i] == Encode(value, width)
    ensures Holds(Joined(parts)[..Min(size, |Joined(parts)|)] + tail, size, offset, width, value)
  {
    PartInPlace(parts, i);
    HeldInPrefix(Joined(parts), size, tail, offset, width, value);
  }

  // ----- Flash options

  predicate FlashInRange(o: FlashOptions) {
    && U32(o.timeout) && U64(o.progress) && U64(o.userData) && U32(o.disableVerity) && U32(o.disableVerification)
    && U64(o.slot) && U32(o.setActive) && U64(o.activeSlot) && U64(o.sparseLimit) && U32(o.force) && U32(o.filesystem)
  }

  ghost predicate FlashStored(buf: seq<Byte>, size: nat, version: nat, o: FlashOptions) {
    && Holds(buf, size, 0, 4, size) && Holds(buf, size, 4, 4, version) && Holds(buf, size, 8, 4, o.timeout)
    && Holds(buf, size, 16, 8, o.progress) && Holds(buf, size, 24, 8, o.userData)
    && Holds(buf, size, 32, 4, o.disableVerity) && Holds(buf, size, 36, 4, o.disableVerification)
    && Holds(buf, size, 40, 8, o.slot) && Holds(buf, size, 48, 4, o.setActive)
    && Holds(buf, size, 56, 8, o.activeSlot) && Holds(buf, size, 64, 8, o.sparseLimit)
    && Holds(buf, size, 72, 4, o.force) && Holds(buf, size, 76, 4, o.filesystem)
  }

  predicate FlashAllowed(size: nat, version: nat, o: FlashOptions) {
    && size >= 32 && version == 1 && (size >= 40 ==> o.disableVerity <= 1 && o.disableVerification <= 1)
    && (size >= 52 ==> o.setActive <= 1) && (size >= 64 && o.activeSlot != 0 ==> o.setActive == 1)
    && (size >= 76 ==> o.force <= 1) && (size >= 80 ==> o.filesystem <= 7)
  }

  /** The two AVB flags are taken together. */
  function FlashReached(size: nat, o: FlashOptions): FlashOptions {
    FlashOptions(
      timeout := o.timeout, progress := o.progress, userData := o.userData,
      disableVerity := if size >= 40 then o.disableVerity else 0,
      disableVerification := if size >= 40 then o.disableVerification else 0,
      slot := if size >= 48 then o.slot else 0, setActive := if size >= 52 then o.setActive else 0,
      activeSlot := if size >= 64 then o.activeSlot else 0, sparseLimit := if size >= 72 then o.sparseLimit else 0,
      force := if size >= 76 then o.force else 0, filesystem := if size >= 80 then o.filesystem else 0)
  }

  lemma FlashFieldsHeld(buf: seq<Byte>, size: nat, version: nat, o: FlashOptions)
    requires FlashStored(buf, size, version, o) && FlashInRange(o) && U32(version) && 32 <= size <= U32_MAX
    requires |buf| >= Min(size, 80)
    ensures StructSize(buf) == size && Field(buf, 4, 4) == version
    ensures Field(buf, 8, 4) == o.timeout
    ensures Field(buf, 16, 8) == o.progress
    ensures Field(buf, 24, 8) == o.userData
    ensures size >= 36 ==> Field(buf, 32, 4) == o.disableVerity
    ensures size >= 40 ==> Field(buf, 36, 4) == o.disableVerification
    ensures size >= 48 ==> Field(buf, 40, 8) == o.slot
    ensures size >= 52 ==> Field(buf, 48, 4) == o.setActive
    ensures size >= 64 ==> Field(buf, 56, 8) == o.activeSlot
    ensures size >= 72 ==> Field(buf, 64, 8) == o.sparseLimit
    ensures size >= 76 ==> Field(buf, 72, 4) == o.force
    ensures size >= 80 ==> Field(buf, 76, 4) == o.filesystem
  {
    Widths();
    HeldField(buf, size, 0, 4, size);
    HeldField(buf, size, 4, 4, version);
    HeldField(buf, size, 8, 4, o.timeout);
    HeldField(buf, size, 16, 8, o.progress);
    HeldField(buf, size, 24, 8, o.userData);
    if size >= 36 { HeldField(buf, size, 32, 4, o.disableVerity); }
    if size >= 40 { HeldField(buf, size, 36, 4, o.disableVerification); }
    if size >= 48 { HeldField(buf, size, 40, 8, o.slot); }
    if size >= 52 { HeldField(buf, size, 48, 4, o.setActive); }
    if size >= 64 { HeldField(buf, size, 56, 8, o.activeSlot); }
    if size >= 72 { HeldField(buf, size, 64, 8, o.sparseLimit); }
    if size >= 76 { HeldField(buf, size, 72, 4, o.force); }
    if size >= 80 { HeldField(buf, size, 76, 4, o.filesystem); }
  }

  /** A stored flash struct is valid exactly when its fields are allowed, and is then read as it was stored. */
  lemma StoredFlashIsRead(buf: seq<Byte>, size: nat, version: nat, o: FlashOptions)
    requires FlashStored(buf, size, version, o) && FlashInRange(o) && U32(version) && 4 <= size <= U32_MAX
    requires |buf| >= Min(size, 80)
    ensures Readable(buf, FLASH_SIZE)
    ensures ValidFlashOptions(Some(buf)) <==> FlashAllowed(size, version, o)
    ensures FlashAllowed(size, version, o) ==> CopyFlashOptions(Some(buf)) == FlashReached(size, o)
  {
    SizeHeld(buf, size, FLASH_SIZE);
    if size >= 32 { FlashFieldsHeld(buf, size, version, o); }
  }

  /** The struct as it lies in memory. */
  function FlashParts(size: nat, version: nat, o: FlashOptions): seq<seq<Byte>> {
    [Encode(size, 4), Encode(version, 4), Encode(o.timeout, 4), Zeros(4), Encode(o.progress, 8),
     Encode(o.userData, 8), Encode(o.disableVerity, 4), Encode(o.disableVerification, 4), Encode(o.slot, 8),
     Encode(o.setActive, 4), Zeros(4), Encode(o.activeSlot, 8), Encode(o.sparseLimit, 8), Encode(o.force, 4),
     Encode(o.filesystem, 4)]
  }

  lemma FlashPlaces(size: nat, version: nat, o: FlashOptions)
    ensures var parts := FlashParts(size, version, o);
            && Place(parts, 0) == 0 && Place(parts, 1) == 4 && Place(parts, 2) == 8 && Place(parts, 3) == 12
            && Place(parts, 4) == 16 && Place(parts, 5) == 24 && Place(parts, 6) == 32 && Place(parts, 7) == 36
            && Place(parts, 8) == 40 && Place(parts, 9) == 48 && Place(parts, 10) == 52 && Place(parts, 11) == 56
            && Place(parts, 12) == 64 && Place(parts, 13) == 72 && Place(parts, 14) == 76 && Place(parts, 15) == 80
  {
  }

  /** Laid out in memory, the fields are stored, whatever lies behind the declared bytes. */
  lemma FlashLaidOut(size: nat, version: nat, o: FlashOptions, tail: seq<Byte>)
    ensures var bytes := Joined(FlashParts(size, version, o));
            |bytes| == 80 && FlashStored(bytes[..Min(size, 80)] + tail, size, version, o)
  {
    var parts := FlashParts(size, version, o);
    FlashPlaces(size, version, o);
    JoinedLength(parts);
    PartHeld(parts, size, tail, 0, 0, 4, size);
    PartHeld(parts, size, tail, 1, 4, 4, version);
    PartHeld(parts, size, tail, 2, 8, 4, o.timeout);
    PartHeld(parts, size, tail, 4, 16, 8, o.progress);
    PartHeld(parts, size, tail, 5, 24, 8, o.userData);
    PartHeld(parts, size, tail, 6, 32, 4, o.disableVerity);
    PartHeld(parts, size, tail, 7, 36, 4, o.disableVerification);
    PartHeld(parts, size, tail, 8, 40, 8, o.slot);
    PartHeld(parts, size, tail, 9, 48, 4, o.setActive);
    PartHeld(parts, size, tail, 11, 56, 8, o.activeSlot);
    PartHeld(parts, size, tail, 12, 64, 8, o.sparseLimit);
    PartHeld(parts, size, tail, 13, 72, 4, o.force);
    PartHeld(parts, size, tail, 14, 76, 4, o.filesystem);
  }

  /** Storing and reading: the same options come back, as far as the declared size reaches. */
  lemma FlashRoundTrip(size: nat, version: nat, o: FlashOptions, tail: seq<Byte>)
    requires FlashInRange(o) && U32(version) && 4 <= size <= U32_MAX
    ensures |Joined(FlashParts(size, version, o))| == 80
    ensures var buf := Joined(FlashParts(size, version, o))[..Min(size, 80)] + tail;
            && Readable(buf, FLASH_SIZE)
            && (ValidFlashOptions(Some(buf)) <==> FlashAllowed(size, version, o))
            && (FlashAllowed(size, version, o) ==> CopyFlashOptions(Some(buf)) == FlashReached(size, o))
  {
    FlashLaidOut(size, version, o, tail);
    StoredFlashIsRead(Joined(FlashParts(size, version, o))[..Min(size, 80)] + tail, size, version, o);
  }

  // ----- Update options

  predicate UpdateInRange(o: UpdateOptions) {
    && U32(o.timeout) && U32(o.wipe) && U64(o.progress) && U64(o.userData) && U32(o.skipReboot)
    && U32(o.skipSecondary) && U32(o.excludeDynamic) && U32(o.disableInfo) && U32(o.disableVerity)
    && U32(o.disableVerification) && U64(o.slot) && U32(o.setActive) && U64(o.activeSlot) && U64(o.sparseLimit)
    && U32(o.force) && U32(o.filesystem) && U32(o.disableSuper)
  }

  ghost predicate UpdateStored(buf: seq<Byte>, size: nat, version: nat, o: UpdateOptions) {
    && Holds(buf, size, 0, 4, size) && Holds(buf, size, 4, 4, version) && Holds(buf, size, 8, 4, o.timeout)
    && Holds(buf, size, 12, 4, o.wipe) && Holds(buf, size, 16, 8, o.progress) && Holds(buf, size, 24, 8, o.userData)
    && Holds(buf, size, 32, 4, o.skipReboot) && Holds(buf, size, 36, 4, o.skipSecondary)
    && Holds(buf, size, 40, 4, o.excludeDynamic) && Holds(buf, size, 44, 4, o.disableInfo)
    && Holds(buf, size, 48, 4, o.disableVerity) && Holds(buf, size, 52, 4, o.disableVerification)
    && Holds(buf, size, 56, 8, o.slot) && Holds(buf, size, 64, 4, o.setActive)
    && Holds(buf, size, 72, 8, o.activeSlot) && Holds(buf, size, 80, 8, o.sparseLimit)
    && Holds(buf, size, 88, 4, o.force) && Holds(buf, size, 92, 4, o.filesystem)
    && Holds(buf, size, 96, 4, o.disableSuper)
  }

  predicate UpdateAllowed(size: nat, version: nat, o: UpdateOptions) {
    && size >= 32 && version == 1 && o.wipe <= 1 && (size >= 36 ==> o.skipReboot <= 1)
    && (size >= 40 ==> o.skipSecondary <= 1) && (size >= 44 ==> o.excludeDynamic <= 1)
    && (size >= 48 ==> o.disableInfo <= 1) && (size >= 52 ==> o.disableVerity <= 1)
    && (size >= 56 ==> o.disableVerification <= 1) && (size >= 68 ==> o.setActive <= 1)
    && (size >= 92 ==> o.force <= 1) && (size >= 100 ==> o.disableSuper <= 1)
    && (size >= 80 && o.activeSlot != 0 ==> o.setActive == 1) && (size >= 96 ==> o.filesystem <= 7)
  }

  function UpdateReached(size: nat, o: UpdateOptions): UpdateOptions {
    UpdateOptions(
      timeout := o.timeout, wipe := o.wipe, progress := o.progress, userData := o.userData,
      skipReboot := if size >= 36 then o.skipReboot else 0,
      skipSecondary := if size >= 40 then o.skipSecondary else 0,
      excludeDynamic := if size >= 44 then o.excludeDynamic else 0,
      disableInfo := if size >= 48 then o.disableInfo else 0,
      disableVerity := if size >= 52 then o.disableVerity else 0,
      disableVerification := if size >= 56 then o.disableVerification else 0,
      slot := if size >= 64 then o.slot else 0, setActive := if size >= 68 then o.setActive else 0,
      activeSlot := if size >= 80 then o.activeSlot else 0, sparseLimit := if size >= 88 then o.sparseLimit else 0,
      force := if size >= 92 then o.force else 0, filesystem := if size >= 96 then o.filesystem else 0,
      disableSuper := if size >= 100 then o.disableSuper else 0)
  }

  lemma UpdateFieldsHeld(buf: seq<Byte>, size: nat, version: nat, o: UpdateOptions)
    requires UpdateStored(buf, size, version, o) && UpdateInRange(o) && U32(version) && 32 <= size <= U32_MAX
    requires |buf| >= Min(size, 104)
    ensures StructSize(buf) == size && Field(buf, 4, 4) == version
    ensures Field(buf, 8, 4) == o.timeout
    ensures Field(buf, 12, 4) == o.wipe
    ensures Field(buf, 16, 8) == o.progress
    ensures Field(buf, 24, 8) == o.userData
    ensures size >= 36 ==> Field(buf, 32, 4) == o.skipReboot
    ensures size >= 40 ==> Field(buf, 36, 4) == o.skipSecondary
    ensures size >= 44 ==> Field(buf, 40, 4) == o.excludeDynamic
    ensures size >= 48 ==> Field(buf, 44, 4) == o.disableInfo
    ensures size >= 52 ==> Field(buf, 48, 4) == o.disableVerity
    ensures size >= 56 ==> Field(buf, 52, 4) == o.disableVerification
    ensures size >= 64 ==> Field(buf, 56, 8) == o.slot
    ensures size >= 68 ==> Field(buf, 64, 4) == o.setActive
    ensures size >= 80 ==> Field(buf, 72, 8) == o.activeSlot
    ensures size >= 88 ==> Field(buf, 80, 8) == o.sparseLimit
    ensures size >= 92 ==> Field(buf, 88, 4) == o.force
    ensures size >= 96 ==> Field(buf, 92, 4) == o.filesystem
    ensures size >= 100 ==> Field(buf, 96, 4) == o.disableSuper
  {
    Widths();
    HeldField(buf, size, 0, 4, size);
    HeldField(buf, size, 4, 4, version);
    HeldField(buf, size, 8, 4, o.timeout);
    HeldField(buf, size, 12, 4, o.wipe);
    HeldField(buf, size, 16, 8, o.progress);
    HeldField(buf, size, 24, 8, o.userData);
    if size >= 36 { HeldField(buf, size, 32, 4, o.skipReboot); }
    if size >= 40 { HeldField(buf, size, 36, 4, o.skipSecondary); }
    if size >= 44 { HeldField(buf, size, 40, 4, o.excludeDynamic); }
    if size >= 48 { HeldField(buf, size, 44, 4, o.disableInfo); }
    if size >= 52 { HeldField(buf, size, 48, 4, o.disableVerity); }
    if size >= 56 { HeldField(buf, size, 52, 4, o.disableVerification); }
    if size >= 64 { HeldField(buf, size, 56, 8, o.slot); }
    if size >= 68 { HeldField(buf, size, 64, 4, o.setActive); }
    if size >= 80 { HeldField(buf, size, 72, 8, o.activeSlot); }
    if size >= 88 { HeldField(buf, size, 80, 8, o.sparseLimit); }
    if size >= 92 { HeldField(buf, size, 88, 4, o.force); }
    if size >= 96 { HeldField(buf, size, 92, 4, o.filesystem); }
    if size >= 100 { HeldField(buf, size, 96, 4, o.disableSuper); }
  }

  /** A stored update struct is valid exactly when its fields are allowed, and is then read as it was stored. */
  lemma StoredUpdateIsRead(buf: seq<Byte>, size: nat, version: nat, o: UpdateOptions)
    requires UpdateStored(buf, size, version, o) && UpdateInRange(o) && U32(version) && 4 <= size <= U32_MAX
    requires |buf| >= Min(size, 104)
    ensures Readable(buf, UPDATE_SIZE)
    ensures ValidUpdateOptions(Some(buf)) <==> UpdateAllowed(size, version, o)
    ensures UpdateAllowed(size, version, o) ==> CopyUpdateOptions(Some(buf)) == UpdateReached(size, o)
  {
    SizeHeld(buf, size, UPDATE_SIZE);
    if size >= 32 { UpdateFieldsHeld(buf, size, version, o); }
  }

  /** The struct as it lies in memory. */
  function UpdateParts(size: nat, version: nat, o: UpdateOptions): seq<seq<Byte>> {
    [Encode(size, 4), Encode(version, 4), Encode(o.timeout, 4), Encode(o.wipe, 4), Encode(o.progress, 8),
     Encode(o.userData, 8), Encode(o.skipReboot, 4), Encode(o.skipSecondary, 4), Encode(o.excludeDynamic, 4),
     Encode(o.disableInfo, 4), Encode(o.disableVerity, 4), Encode(o.disableVerification, 4), Encode(o.slot, 8),
     Encode(o.setActive, 4), Zeros(4), Encode(o.activeSlot, 8), Encode(o.sparseLimit, 8), Encode(o.force, 4),
     Encode(o.filesystem, 4), Encode(o.disableSuper, 4), Zeros(4)]
  }

  lemma UpdatePlaces(size: nat, version: nat, o: UpdateOptions)
    ensures var parts := UpdateParts(size, version, o);
            && Place(parts, 0) == 0 && Place(parts, 1) == 4 && Place(parts, 2) == 8 && Place(parts, 3) == 12
            && Place(parts, 4) == 16 && Place(parts, 5) == 24 && Place(parts, 6) == 32 && Place(parts, 7) == 36
            && Place(parts, 8) == 40 && Place(parts, 9) == 44 && Place(parts, 10) == 48 && Place(parts, 11) == 52
            && Place(parts, 12) == 56 && Place(parts, 13) == 64 && Place(parts, 14) == 68 && Place(parts, 15) == 72
            && Place(parts, 16) == 80 && Place(parts, 17) == 88 && Place(parts, 18) == 92 && Place(parts, 19) == 96
            && Place(parts, 20) == 100 && Place(parts, 21) == 104
  {
  }

  /** Laid out in memory, the fields are stored, whatever lies behind the declared bytes. */
  lemma UpdateLaidOut(size: nat, version: nat, o: UpdateOptions, tail: seq<Byte>)
    ensures var bytes := Joined(UpdateParts(size, version, o));
            |bytes| == 104 && UpdateStored(bytes[..Min(size, 104)] + tail, size, version, o)
  {
    var parts := UpdateParts(size, version, o);
    UpdatePlaces(size, version, o);
    JoinedLength(parts);
    PartHeld(parts, size, tail, 0, 0, 4, size);
    PartHeld(parts, size, tail, 1, 4, 4, version);
    PartHeld(parts, size, tail, 2, 8, 4, o.timeout);
    PartHeld(parts, size, tail, 3, 12, 4, o.wipe);
    PartHeld(parts, size, tail, 4, 16, 8, o.progress);
    PartHeld(parts, size, tail, 5, 24, 8, o.userData);
    PartHeld(parts, size, tail, 6, 32, 4, o.skipReboot);
    PartHeld(parts, size, tail, 7, 36, 4, o.skipSecondary);
    PartHeld(parts, size, tail, 8, 40, 4, o.excludeDynamic);
    PartHeld(parts, size, tail, 9, 44, 4, o.disableInfo);
    PartHeld(parts, size, tail, 10, 48, 4, o.disableVerity);
    PartHeld(parts, size, tail, 11, 52, 4, o.disableVerification);
    PartHeld(parts, size, tail, 12, 56, 8, o.slot);
    PartHeld(parts, size, tail, 13, 64, 4, o.setActive);
    PartHeld(parts, size, tail, 15, 72, 8, o.activeSlot);
    PartHeld(parts, size, tail, 16, 80, 8, o.sparseLimit);
    PartHeld(parts, size, tail, 17, 88, 4, o.force);
    PartHeld(parts, size, tail, 18, 92, 4, o.filesystem);
    PartHeld(parts, size, tail, 19, 96, 4, o.disableSuper);
  }

  /** Storing and reading: the same options come back, as far as the declared size reaches. */
  lemma UpdateRoundTrip(size: nat, version: nat, o: UpdateOptions, tail: seq<Byte>)
    requires UpdateInRange(o) && U32(version) && 4 <= size <= U32_MAX
    ensures |Joined(UpdateParts(size, version, o))| == 104
    ensures var buf := Joined(UpdateParts(size, version, o))[..Min(size, 104)] + tail;
            && Readable(buf, UPDATE_SIZE)
            && (ValidUpdateOptions(Some(buf)) <==> UpdateAllowed(size, version, o))
            && (UpdateAllowed(size, version, o) ==> CopyUpdateOptions(Some(buf)) == UpdateReached(size, o))
  {
    UpdateLaidOut(size, version, o, tail);
    StoredUpdateIsRead(Joined(UpdateParts(size, version, o))[..Min(size, 104)] + tail, size, version, o);
  }

  // ----- Command options

  predicate CommandInRange(o: CommandOptions) {
    && U32(o.timeout) && U64(o.progress) && U64(o.userData) && U64(o.maximumReceive)
  }

  ghost predicate CommandStored(buf: seq<Byte>, size: nat, version: nat, o: CommandOptions) {
    && Holds(buf, size, 0, 4, size) && Holds(buf, size, 4, 4, version) && Holds(buf, size, 8, 4, o.timeout)
    && Holds(buf, size, 16, 8, o.progress) && Holds(buf, size, 24, 8, o.userData)
    && Holds(buf, size, 32, 8, o.maximumReceive)
  }

  predicate CommandAllowed(size: nat, version: nat, o: CommandOptions) {
    && size >= 40 && version == 1 && o.maximumReceive != 0
  }

  lemma CommandFieldsHeld(buf: seq<Byte>, size: nat, version: nat, o: CommandOptions)
    requires CommandStored(buf, size, version, o) && CommandInRange(o) && U32(version) && 40 <= size <= U32_MAX
    requires |buf| >= Min(size, 40)
    ensures StructSize(buf) == size && Field(buf, 4, 4) == version
    ensures Field(buf, 8, 4) == o.timeout
    ensures Field(buf, 16, 8) == o.progress
    ensures Field(buf, 24, 8) == o.userData
    ensures Field(buf, 32, 8) == o.maximumReceive
  {
    Widths();
    HeldField(buf, size, 0, 4, size);
    HeldField(buf, size, 4, 4, version);
    HeldField(buf, size, 8, 4, o.timeout);
    HeldField(buf, size, 16, 8, o.progress);
    HeldField(buf, size, 24, 8, o.userData);
    HeldField(buf, size, 32, 8, o.maximumReceive);
  }

  /** A stored command struct is valid exactly when its fields are allowed, and is then read as it was stored. */
  lemma StoredCommandIsRead(buf: seq<Byte>, size: nat, version: nat, o: CommandOptions)
    requires CommandStored(buf, size, version, o) && CommandInRange(o) && U32(version) && 4 <= size <= U32_MAX
    requires |buf| >= Min(size, 40)
    ensures Readable(buf, COMMAND_SIZE)
    ensures ValidCommandOptions(Some(buf)) <==> CommandAllowed(size, version, o)
    ensures CommandAllowed(size, version, o) ==> CopyCommandOptions(Some(buf)) == o
  {
    SizeHeld(buf, size, COMMAND_SIZE);
    if size >= 40 { CommandFieldsHeld(buf, size, version, o); }
  }

  /** The struct as it lies in memory. */
  function CommandParts(size: nat, version: nat, o: CommandOptions): seq<seq<Byte>> {
    [Encode(size, 4), Encode(version, 4), Encode(o.timeout, 4), Zeros(4), Encode(o.progress, 8),
     Encode(o.userData, 8), Encode(o.maximumReceive, 8)]
  }

  lemma CommandPlaces(size: nat, version: nat, o: CommandOptions)
    ensures var parts := CommandParts(size, version, o);
            && Place(parts, 0) == 0 && Place(parts, 1) == 4 && Place(parts, 2) == 8 && Place(parts, 3) == 12
            && Place(parts, 4) == 16 && Place(parts, 5) == 24 && Place(parts, 6) == 32 && Place(parts, 7) == 40
  {
  }

  /** Laid out in memory, the fields are stored, whatever lies behind the declared bytes. */
  lemma CommandLaidOut(size: nat, version: nat, o: CommandOptions, tail: seq<Byte>)
    ensures var bytes := Joined(CommandParts(size, version, o));
            |bytes| == 40 && CommandStored(bytes[..Min(size, 40)] + tail, size, version, o)
  {
    var parts := CommandParts(size, version, o);
    CommandPlaces(size, version, o);
    JoinedLength(parts);
    PartHeld(parts, size, tail, 0, 0, 4, size);
    PartHeld(parts, size, tail, 1, 4, 4, version);
    PartHeld(parts, size, tail, 2, 8, 4, o.timeout);
    PartHeld(parts, size, tail, 4, 16, 8, o.progress);
    PartHeld(parts, size, tail, 5, 24, 8, o.userData);
    PartHeld(parts, size, tail, 6, 32, 8, o.maximumReceive);
  }

  /** Storing and reading: the same options come back, as far as the declared size reaches. */
  lemma CommandRoundTrip(size: nat, version: nat, o: CommandOptions, tail: seq<Byte>)
    requires CommandInRange(o) && U32(version) && 4 <= size <= U32_MAX
    ensures |Joined(CommandParts(size, version, o))| == 40
    ensures var buf := Joined(CommandParts(size, version, o))[..Min(size, 40)] + tail;
            && Readable(buf, COMMAND_SIZE)
            && (ValidCommandOptions(Some(buf)) <==> CommandAllowed(size, version, o))
            && (CommandAllowed(size, version, o) ==> CopyCommandOptions(Some(buf)) == o)
  {
    CommandLaidOut(size, version, o, tail);
    StoredCommandIsRead(Joined(CommandParts(size, version, o))[..Min(size, 40)] + tail, size, version, o);
  }

  // ----- Context options and defaults

  /** A stored context struct is valid exactly from its first size on, with a vendor id of 16 bits if it has one. */
  lemma StoredContextIsJudged(buf: seq<Byte>, size: nat, version: nat, vendor: nat)
    requires Holds(buf, size, 0, 4, size) && Holds(buf, size, 4, 4, version) && Holds(buf, size, 24, 8, vendor)
    requires U32(version) && U64(vendor) && 4 <= size <= U32_MAX && |buf| >= Min(size, 32)
    ensures Readable(buf, CONTEXT_SIZE)
    ensures ValidContextOptions(Some(buf)) <==> size >= 24 && version == 1 && (size >= 32 ==> vendor < 0x1_0000)
  {
    Widths();
    SizeHeld(buf, size, CONTEXT_SIZE);
    if size >= 8 { HeldField(buf, size, 4, 4, version); }
    if size >= 32 { HeldField(buf, size, 24, 8, vendor); }
  }

  /** Without a struct: no timeout, nothing set, and 64 MiB for what a command may receive. */
  lemma DefaultsAreNeutral()
    ensures CopyFlashOptions(None) == FlashOptions(
              timeout := U32_MAX, progress := 0, userData := 0, disableVerity := 0, disableVerification := 0, slot := 0,
              setActive := 0, activeSlot := 0, sparseLimit := 0, force := 0, filesystem := 0)
    ensures CopyUpdateOptions(None) == UpdateReached(UPDATE_V1, UpdateDefaults()).(timeout := U32_MAX, wipe := 0)
    ensures CopyCommandOptions(None)
         == CommandOptions(timeout := U32_MAX, progress := 0, userData := 0, maximumReceive := 0x400_0000)
  {
  }
}
