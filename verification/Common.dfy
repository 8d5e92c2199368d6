/** Values shared by the whole model: optional results, error results and bytes. */
module Common {

  datatype Option<+T> = None | Some(value: T)

  datatype Result<+T, +E> = Ok(value: T) | Err(error: E)

  /** One octet. */
  type Byte = x: int | 0 <= x < 256

  const U32_MAX := 0xFFFF_FFFF
  const U64_MAX := 0xFFFF_FFFF_FFFF_FFFF

  function Min(a: int, b: int): (r: int)
    ensures r <= a && r <= b && (r == a || r == b)
  {
    if a <= b then a else b
  }

  predicate StartsWith(s: string, prefix: string) {
    |prefix| <= |s| && s[..|prefix|] == prefix
  }

  function Pow2(k: nat): (r: nat)
    ensures r > 0
  {
    if k == 0 then 1 else 2 * Pow2(k - 1)
  }

  function Power256(k: nat): (r: nat)
    ensures r > 0
  {
    if k == 0 then 1 else 256 * Power256(k - 1)
  }

  lemma EightBytes()
    ensures Power256(8) == U64_MAX + 1
  {
    assert Power256(4) == 0x1_0000_0000;
    assert Power256(5) == 256 * Power256(4);
    assert Power256(6) == 256 * Power256(5);
    assert Power256(7) == 256 * Power256(6);
    assert Power256(8) == 256 * Power256(7);
  }

  /** The value of a hexadecimal digit, given by its ASCII code. */
  function HexValue(code: int): Option<nat> {
    if 0x30 <= code <= 0x39 then Some(code - 0x30)
    else if 0x61 <= code <= 0x66 then Some(code - 0x61 + 10)
    else if 0x41 <= code <= 0x46 then Some(code - 0x41 + 10)
    else None
  }

  /** The ASCII code of a lower-case hexadecimal digit. */
  function HexDigit(n: nat): Byte
    requires n < 16
  {
    if n < 10 then 0x30 + n else 0x61 + n - 10
  }

  /** Exactly the digits of both cases have a value, which is their place in the row of digits. */
  lemma HexValueIsPlace(code: int, n: nat)
    requires n < 16
    ensures HexValue(code) == Some(n) <==> code == "0123456789abcdef"[n] as int || code == "0123456789ABCDEF"[n] as int
    ensures HexDigit(n) == "0123456789abcdef"[n] as int
  {
    var lower, upper := "0123456789abcdef", "0123456789ABCDEF";
    assert forall k :: 0 <= k < 10 ==> lower[k] as int == 0x30 + k && upper[k] as int == 0x30 + k;
    assert forall k :: 10 <= k < 16 ==> lower[k] as int == 0x61 + k - 10 && upper[k] as int == 0x41 + k - 10;
  }

  /** No element occurs twice. */
  ghost predicate Distinct<T>(s: seq<T>) {
    forall i, j :: 0 <= i < j < |s| ==> s[i] != s[j]
  }
}

/** Progress values reported while a transfer runs. */
module Progress {

  /** The values never fall and stay between the bounds. */
  predicate Monotone(progress: seq<nat>, low: nat, high: nat) {
    && (forall i :: 0 <= i < |progress| ==> low <= progress[i] <= high)
    && (forall i, j :: 0 <= i < j < |progress| ==> progress[i] <= progress[j])
  }

  lemma MonotoneSnoc(progress: seq<nat>, low: nat, high: nat, high': nat)
    requires Monotone(progress, low, high) && low <= high <= high'
    ensures Monotone(progress + [high'], low, high')
  {
  }

  function Shift(progress: seq<nat>, start: nat): seq<nat> {
    seq(|progress|, i requires 0 <= i < |progress| => start + progress[i])
  }

  /** Progress of a second transfer, counted from where the first one ended, goes on from it. */
  lemma ShiftMonotone(progress: seq<nat>, low: nat, more: seq<nat>, high: nat)
    requires Monotone(progress, 0, low) && Monotone(more, 0, high)
    ensures Monotone(progress + Shift(more, low), 0, low + high)
  {
  }
}

/** The public status codes and transfer states that operations report. */
module Statuses {

  datatype Status =
    | InvalidArgument | OutOfMemory | NotSupported | NoDevice | AmbiguousDevice
    | Busy | Timeout | CancelledStatus | Io | Internal | Protocol | DeviceFailed

  datatype TransferState = NotSent | PartialOrUnknown | FullyTransferred

  datatype PrimitiveErrorCode =
    | InvalidArgumentCode | UnsupportedCode | BusyCode | ClosedCode | PoisonedCode | CancelledCode
    | TimeoutCode | DisconnectedCode | TransportIoCode | ProtocolViolationCode | DeviceFailCode

  function PrimitiveStatus(code: PrimitiveErrorCode): Status {
    match code
    case InvalidArgumentCode => InvalidArgument
    case UnsupportedCode => NotSupported
    case BusyCode => Busy
    case CancelledCode => CancelledStatus
    case TimeoutCode => Timeout
    case DisconnectedCode => NoDevice
    case ClosedCode => Io
    case PoisonedCode => Io
    case TransportIoCode => Io
    case ProtocolViolationCode => Protocol
    case DeviceFailCode => DeviceFailed
  }

  /** The errors behind a status. */
  function Causes(status: Status): set<PrimitiveErrorCode> {
    match status
    case InvalidArgument => {InvalidArgumentCode}
    case NotSupported => {UnsupportedCode}
    case NoDevice => {DisconnectedCode}
    case Busy => {BusyCode}
    case Timeout => {TimeoutCode}
    case CancelledStatus => {CancelledCode}
    case Io => {ClosedCode, PoisonedCode, TransportIoCode}
    case Protocol => {ProtocolViolationCode}
    case DeviceFailed => {DeviceFailCode}
    case _ => {}
  }

  /** A public status tells which error it came from, up to the three transport errors. */
  lemma StatusTellsCause(code: PrimitiveErrorCode, status: Status)
    ensures PrimitiveStatus(code) == status <==> code in Causes(status)
  {
  }
}
