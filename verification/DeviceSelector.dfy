/**
 * Device selectors: percent-encoded serials, physical USB paths and the choice
 * of one device from an enumeration. Text is a string of bytes.
 */
module DeviceSelector {
  import opened Common
  import opened Statuses
  import opened Decimal
  import opened Utf8

  const DASH: Byte := 0x2D
  const DOT: Byte := 0x2E
  const COLON: Byte := 0x3A
  const PERCENT: Byte := 0x25
  const USB_PREFIX: seq<Byte> := [0x75, 0x73, 0x62, COLON]                                    // "usb:"
  const SERIAL_PREFIX: seq<Byte> := USB_PREFIX + [0x73, 0x65, 0x72, 0x69, 0x61, 0x6C, COLON]  // "usb:serial:"
  const TCP_PREFIX: seq<Byte> := [0x74, 0x63, 0x70, COLON]                                    // "tcp:"
  const UDP_PREFIX: seq<Byte> := [0x75, 0x64, 0x70, COLON]                                    // "udp:"
  const MAXIMUM_HUB_DEPTH := 7

  predicate IsText(bytes: seq<Byte>, text: string) {
    |bytes| == |text| && forall i :: 0 <= i < |text| ==> bytes[i] == text[i] as int
  }

  lemma PrefixesAreText()
    ensures IsText(USB_PREFIX, "usb:") && IsText(SERIAL_PREFIX, "usb:serial:")
    ensures IsText(TCP_PREFIX, "tcp:") && IsText(UDP_PREFIX, "udp:")
    ensures IsText([DASH, DOT, COLON, PERCENT, ZERO], "-.:%0")
  {
  }

  // ----- Percent-encoded serials

  /** The value of a hexadecimal digit, or -1. */
  function HexOrMinusOne(b: Byte): int {
    var v := HexValue(b);
    if v.None? then -1 else v.value
  }

  /** `encoded` spells `raw`: each byte stands for itself, unless it is '%', or is written as '%' and two hex digits. */
  predicate PercentEncodes(encoded: seq<Byte>, raw: seq<Byte>)
    decreases |raw|
  {
    if raw == [] then encoded == []
    else
      || (|encoded| >= 1 && encoded[0] == raw[0] != PERCENT && PercentEncodes(encoded[1..], raw[1..]))
      || (|encoded| >= 3 && encoded[0] == PERCENT
          && HexOrMinusOne(encoded[1]) >= 0 && HexOrMinusOne(encoded[2]) >= 0
          && HexOrMinusOne(encoded[1]) * 16 + HexOrMinusOne(encoded[2]) == raw[0] as int
          && PercentEncodes(encoded[3..], raw[1..]))
  }

  predicate IsControl(b: Byte) {
    b < 0x20 || b == 0x7F
  }

  predicate ControlFree(s: seq<Byte>) {
    forall i :: 0 <= i < |s| ==> !IsControl(s[i])
  }

  /** A serial that a selector may name. */
  ghost predicate Nameable(raw: seq<Byte>) {
    raw != [] && ControlFree(raw) && IsUtf8(raw)
  }

  function PercentDecode(encoded: seq<Byte>): Option<seq<Byte>> {
    if encoded == [] then Some([])
    else if encoded[0] != PERCENT then Prepend(encoded[0], PercentDecode(encoded[1..]))
    else if |encoded| < 3 then None
    else
      var high, low := HexOrMinusOne(encoded[1]), HexOrMinusOne(encoded[2]);
      if high < 0 || low < 0 then None else Prepend(high * 16 + low, PercentDecode(encoded[3..]))
  }

  function Prepend(b: Byte, rest: Option<seq<Byte>>): Option<seq<Byte>> {
    Glue([b], rest)
  }

  function Glue(front: seq<Byte>, rest: Option<seq<Byte>>): Option<seq<Byte>> {
    if rest.None? then None else Some(front + rest.value)
  }

  lemma GlueMoves(front: seq<Byte>, b: Byte, rest: Option<seq<Byte>>)
    ensures Glue([], rest) == rest
    ensures Glue(front, Prepend(b, rest)) == Glue(front + [b], rest)
  {
    if rest.Some? {
      assert [] + rest.value == rest.value;
      assert front + ([b] + rest.value) == front + [b] + rest.value;
    }
  }

  lemma {:induction false} PercentDecodeInverts(encoded: seq<Byte>, raw: seq<Byte>)
    ensures PercentDecode(encoded) == Some(raw) <==> PercentEncodes(encoded, raw)
    decreases |encoded|
  {
    if encoded != [] && raw != [] {
      assert raw == [raw[0]] + raw[1..];
      PercentDecodeInverts(encoded[1..], raw[1..]);
      if |encoded| >= 3 { PercentDecodeInverts(encoded[3..], raw[1..]); }
    }
  }

  /** Decodes exactly the percent-encodings of nameable serials, each to the serial it spells. */
  method DecodeSerial(encoded: seq<Byte>) returns (r: Option<seq<Byte>>)
    ensures forall raw :: r == Some(raw) <==> PercentEncodes(encoded, raw) && Nameable(raw)
  {
    forall raw ensures PercentDecode(encoded) == Some(raw) <==> PercentEncodes(encoded, raw) {
      PercentDecodeInverts(encoded, raw);
    }
    if encoded == [] { return None; }
    var decoded: seq<Byte> := [];
    var index := 0;
    assert encoded[0..] == encoded;
    GlueMoves([], 0, PercentDecode(encoded));
    while index < |encoded|
      invariant 0 <= index <= |encoded|
      invariant PercentDecode(encoded) == Glue(decoded, PercentDecode(encoded[index..]))
      invariant ControlFree(decoded) && (index > 0 ==> decoded != [])
    {
      var value := encoded[index];
      var step := 1;
      if value == PERCENT {
        if |encoded| - index < 3 { return None; }
        var high, low := HexOrMinusOne(encoded[index + 1]), HexOrMinusOne(encoded[index + 2]);
        if high < 0 || low < 0 { return None; }
        value := high * 16 + low;
        step := 3;
      }
      assert encoded[index..][step..] == encoded[index + step..];
      GlueMoves(decoded, value, PercentDecode(encoded[index + step..]));
      if value < 0x20 || value == 0x7F {
        forall rest | PercentDecode(encoded) == Some(rest) ensures !ControlFree(rest) {
          assert rest[|decoded|] == value;
        }
        return None;
      }
      decoded := decoded + [value];
      index := index + step;
    }
    assert decoded + [] == decoded;
    var valid := SelectorValidUtf8(decoded);
    return if valid then Some(decoded) else None;
  }

  // ----- Physical USB paths

  datatype UsbPath = UsbPath(bus: Byte, ports: seq<Byte>)

  ghost predicate Addressable(path: UsbPath) {
    1 <= |path.ports| <= MAXIMUM_HUB_DEPTH && 0 !in path.ports
  }

  /** The printed form of a path: bus, dash, ports joined with dots. */
  function PathText(path: UsbPath): seq<Byte>
    requires path.ports != []
  {
    Print(path.bus) + [DASH] + PortsText(path.ports)
  }

  function PortsText(ports: seq<Byte>): seq<Byte>
    requires ports != []
  {
    if |ports| == 1 then Print(ports[0]) else Print(ports[0]) + [DOT] + PortsText(ports[1..])
  }

  /** The path recorded for an opened device; empty when the device has no port path. */
  method PhysicalUsbPath(path: UsbPath) returns (text: seq<Byte>)
    ensures text == if path.ports == [] then [] else USB_PREFIX + PathText(path)
  {
    if path.ports == [] { return []; }
    text := USB_PREFIX + Print(path.bus) + [DASH];
    var n := |path.ports|;
    for index := 0 to n
      invariant USB_PREFIX + PathText(path) == text + Remaining(path.ports, index)
    {
      assert path.ports[index..][1..] == path.ports[index + 1..];
      if index != 0 {
        text := text + [DOT];
      }
      text := text + Print(path.ports[index]);
    }
  }

  /** What is still to be printed before port `index`. */
  function Remaining(ports: seq<Byte>, index: nat): seq<Byte>
    requires index <= |ports|
  {
    if index == |ports| then [] else (if index == 0 then [] else [DOT]) + PortsText(ports[index..])
  }

  /** The first position of `b` at or after `from`. */
  function Find(s: seq<Byte>, b: Byte, from: nat): (r: Option<nat>)
    requires from <= |s|
    ensures r.Some? ==> from <= r.value < |s| && s[r.value] == b
    ensures forall k :: from <= k < (if r.Some? then r.value else |s|) ==> s[k] != b
    decreases |s| - from
  {
    if from == |s| then None else if s[from] == b then Some(from) else Find(s, b, from + 1)
  }

  lemma FindIsFirst(s: seq<Byte>, b: Byte, from: nat, at: nat)
    requires from <= at < |s| && s[at] == b
    requires forall k :: from <= k < at ==> s[k] != b
    ensures Find(s, b, from) == Some(at)
  {
    var r := Find(s, b, from);
    assert s[at] == b;
  }

  function ParseComponent(component: seq<Byte>, allowZero: bool): Option<Byte> {
    if component == [] || (|component| > 1 && component[0] == ZERO) then None
    else
      var parsed := ParseUnsigned(component, U32_MAX);
      if parsed.None? || (!allowZero && parsed.value == 0) || parsed.value > 255 then None
      else Some(parsed.value as Byte)
  }

  function ParsePorts(text: seq<Byte>): Option<seq<Byte>>
    decreases |text|
  {
    var dot := Find(text, DOT, 0);
    var end := if dot.None? then |text| else dot.value;
    var port := ParseComponent(text[..end], false);
    if port.None? then None
    else if dot.None? then Some([port.value])
    else Prepend(port.value, ParsePorts(text[end + 1..]))
  }

  function ParsePath(text: seq<Byte>): Option<UsbPath> {
    var dash := Find(text, DASH, 0);
    if dash.None? || dash.value == 0 || dash.value + 1 == |text| then None
    else
      var bus := ParseComponent(text[..dash.value], true);
      var ports := ParsePorts(text[dash.value + 1..]);
      if bus.None? || ports.None? || |ports.value| > MAXIMUM_HUB_DEPTH then None
      else Some(UsbPath(bus.value, ports.value))
  }

  lemma ComponentRoundTrip(component: seq<Byte>, allowZero: bool, b: Byte)
    ensures ParseComponent(component, allowZero) == Some(b) <==> component == Print(b) && (allowZero || b != 0)
  {
    PrintIsCanonical(b);
    if component != [] && AllDigits(component) && !(|component| > 1 && component[0] == ZERO) {
      CanonicalIsPrinted(component);
    }
  }

  /** A run of digits before a separator ends at the first separator. */
  lemma FindAfterDigits(digits: seq<Byte>, separator: Byte, rest: seq<Byte>)
    requires AllDigits(digits) && !IsDigit(separator)
    ensures var text := digits + [separator] + rest;
            && Find(text, separator, 0) == Some(|digits|)
            && text[..|digits|] == digits && text[|digits| + 1..] == rest
  {
    var text := digits + [separator] + rest;
    FindIsFirst(text, separator, 0, |digits|);
  }

  /** The first dot of a port list ends its first port. */
  lemma PortsTextDot(ports: seq<Byte>)
    requires ports != []
    ensures Find(PortsText(ports), DOT, 0) == if |ports| == 1 then None else Some(|Print(ports[0])|)
  {
    if |ports| > 1 { FindAfterDigits(Print(ports[0]), DOT, PortsText(ports[1..])); }
  }

  lemma {:induction false} PrintedPortsParse(ports: seq<Byte>)
    requires ports != [] && 0 !in ports
    ensures ParsePorts(PortsText(ports)) == Some(ports)
  {
    var text := PortsText(ports);
    assert ports == [ports[0]] + ports[1..];
    ComponentRoundTrip(Print(ports[0]), false, ports[0]);
    PortsTextDot(ports);
    if |ports| == 1 {
      assert text[..|text|] == text && ports == [ports[0]];
    } else {
      FindAfterDigits(Print(ports[0]), DOT, PortsText(ports[1..]));
      PrintedPortsParse(ports[1..]);
    }
  }

  lemma {:induction false} ParsedPortsPrint(text: seq<Byte>)
    requires ParsePorts(text).Some?
    ensures var ports := ParsePorts(text).value; ports != [] && 0 !in ports && text == PortsText(ports)
    decreases |text|
  {
    var dot := Find(text, DOT, 0);
    var end := if dot.None? then |text| else dot.value;
    var port := ParseComponent(text[..end], false).value;
    ComponentRoundTrip(text[..end], false, port);
    if dot.Some? {
      ParsedPortsPrint(text[end + 1..]);
      assert text == text[..end] + [DOT] + text[end + 1..];
      assert ([port] + ParsePorts(text[end + 1..]).value)[1..] == ParsePorts(text[end + 1..]).value;
    } else {
      assert text[..end] == text;
    }
  }

  lemma PrintedPathParses(path: UsbPath)
    requires Addressable(path)
    ensures ParsePath(PathText(path)) == Some(path)
  {
    FindAfterDigits(Print(path.bus), DASH, PortsText(path.ports));
    ComponentRoundTrip(Print(path.bus), true, path.bus);
    PrintedPortsParse(path.ports);
    ParsedPortsPrint(PortsText(path.ports));
  }

  lemma ParsedPathPrints(text: seq<Byte>)
    requires ParsePath(text).Some?
    ensures Addressable(ParsePath(text).value) && text == PathText(ParsePath(text).value)
  {
    var dash := Find(text, DASH, 0).value;
    assert text == text[..dash] + [DASH] + text[dash + 1..];
    ComponentRoundTrip(text[..dash], true, ParsePath(text).value.bus);
    ParsedPortsPrint(text[dash + 1..]);
  }

  /** Paths parse exactly when they are the printed form of an addressable path, and to that path. */
  lemma PathRoundTrip(text: seq<Byte>, path: UsbPath)
    ensures ParsePath(text) == Some(path) <==> Addressable(path) && text == PathText(path)
  {
    if ParsePath(text).Some? { ParsedPathPrints(text); }
    if Addressable(path) { PrintedPathParses(path); }
  }

  method ParseUsbPath(text: seq<Byte>) returns (r: Option<UsbPath>)
    ensures forall path :: r == Some(path) <==> Addressable(path) && text == PathText(path)
  {
    forall path ensures ParsePath(text) == Some(path) <==> Addressable(path) && text == PathText(path) {
      PathRoundTrip(text, path);
    }
    var dash := Find(text, DASH, 0);
    if dash.None? || dash.value == 0 || dash.value + 1 == |text| { return None; }
    var bus := ParseComponent(text[..dash.value], true);
    if bus.None? { return None; }
    var ports := ParsePortList(text, dash.value + 1);
    return if ports.None? then None else Some(UsbPath(bus.value, ports.value));
  }

  method ParsePortList(text: seq<Byte>, from: nat) returns (r: Option<seq<Byte>>)
    requires from <= |text|
    ensures r == AtMostHubDepth(ParsePorts(text[from..]))
  {
    var ports: seq<Byte> := [];
    var start := from;
    GlueMoves([], 0, ParsePorts(text[start..]));
    ghost var all := ParsePorts(text[from..]);
    while true
      invariant from <= start <= |text|
      invariant |ports| <= MAXIMUM_HUB_DEPTH
      invariant all == Glue(ports, ParsePorts(text[start..]))
      decreases |text| - start
    {
      var dot := Find(text, DOT, start);
      PortsStep(text, start, ports);
      var end := if dot.None? then |text| else dot.value;
      var port := ParseComponent(text[start..end], false);
      if port.None? { return None; }
      ports := ports + [port.value];
      ghost var rest := if dot.None? then Some([]) else ParsePorts(text[end + 1..]);
      assert ports + [] == ports;
      assert all == Glue(ports, rest);
      if |ports| > 7 { return None; }
      if dot.None? { break; }
      start := end + 1;
    }
    return Some(ports);
  }

  function AtMostHubDepth(ports: Option<seq<Byte>>): Option<seq<Byte>> {
    if ports.Some? && |ports.value| > MAXIMUM_HUB_DEPTH then None else ports
  }

  /** One component at the front of a list of ports. */
  function FirstPort(port: Option<Byte>, last: bool, rest: Option<seq<Byte>>): Option<seq<Byte>> {
    if port.None? then None else if last then Some([port.value]) else Prepend(port.value, rest)
  }

  lemma PortsAt(text: seq<Byte>, start: nat)
    requires start <= |text|
    ensures var dot := Find(text, DOT, start);
            var end := if dot.None? then |text| else dot.value;
            var rest := if dot.None? then None else ParsePorts(text[end + 1..]);
            ParsePorts(text[start..]) == FirstPort(ParseComponent(text[start..end], false), dot.None?, rest)
  {
    var dot := Find(text, DOT, start);
    FindFromStart(text, DOT, start);
    var end := if dot.None? then |text| else dot.value;
    assert text[start..][..end - start] == text[start..end];
    if dot.Some? {
      assert text[start..][end - start + 1..] == text[end + 1..];
    }
  }

  lemma GlueFirstPort(front: seq<Byte>, port: Option<Byte>, last: bool, rest: Option<seq<Byte>>)
    ensures Glue(front, FirstPort(port, last, rest))
         == if port.None? then None
            else if last then Some(front + [port.value]) else Glue(front + [port.value], rest)
  {
    if port.Some? { GlueMoves(front, port.value, rest); }
  }

  lemma PortsStep(text: seq<Byte>, start: nat, front: seq<Byte>)
    requires start <= |text|
    ensures var dot := Find(text, DOT, start);
            var end := if dot.None? then |text| else dot.value;
            var port := ParseComponent(text[start..end], false);
            Glue(front, ParsePorts(text[start..])) ==
            if port.None? then None
            else if dot.None? then Some(front + [port.value])
            else Glue(front + [port.value], ParsePorts(text[end + 1..]))
  {
    var dot := Find(text, DOT, start);
    var end := if dot.None? then |text| else dot.value;
    PortsAt(text, start);
    GlueFirstPort(front, ParseComponent(text[start..end], false), dot.None?,
                  if dot.None? then None else ParsePorts(text[end + 1..]));
  }

  lemma FindFromStart(s: seq<Byte>, b: Byte, from: nat)
    requires from <= |s|
    ensures var there, here := Find(s, b, from), Find(s[from..], b, 0);
            here == if there.None? then None else Some(there.value - from)
  {
    var there := Find(s, b, from);
    assert forall k :: 0 <= k < |s| - from ==> s[from..][k] == s[from + k];
    if there.Some? { FindIsFirst(s[from..], b, 0, there.value - from); }
  }

  // ----- Choosing a device

  datatype Selector =
    | UsbUnique
    | UsbSerial(serial: seq<Byte>)
    | UsbPhysical(path: UsbPath)
    | Network(endpoint: seq<Byte>)

  datatype UsbDevice = UsbDevice(path: UsbPath, serial: seq<Byte>)

  predicate ForbiddenEndpointCharacter(b: Byte) {
    b <= 0x20 || b == 0x7F || b == 0x2F || b == 0x3F || b == 0x23 || b == 0x40 || b == 0x5C
  }

  predicate EndpointAccepted(endpoint: seq<Byte>, endpointParses: seq<Byte> -> bool) {
    && endpoint != [] && (forall i :: 0 <= i < |endpoint| ==> !ForbiddenEndpointCharacter(endpoint[i]))
    && endpointParses(endpoint)
  }

  predicate KnownPrefix(text: seq<Byte>) {
    USB_PREFIX <= text || TCP_PREFIX <= text || UDP_PREFIX <= text
  }

  /** `endpointParses` stands for the transports' own endpoint grammar. */
  method ParseDeviceSelector(text: Option<seq<Byte>>, endpointParses: seq<Byte> -> bool)
    returns (r: Result<Selector, Status>)
    ensures r.Err? ==> r.error == InvalidArgument
    ensures text.None? ==> r == Ok(UsbUnique)
    ensures text.Some? && SERIAL_PREFIX <= text.value ==>
              forall raw :: r == Ok(UsbSerial(raw)) <==>
                            PercentEncodes(text.value[|SERIAL_PREFIX|..], raw) && Nameable(raw)
    ensures text.Some? && SERIAL_PREFIX <= text.value && r.Ok? ==> r.value.UsbSerial?
    ensures text.Some? && USB_PREFIX <= text.value && !(SERIAL_PREFIX <= text.value) ==>
              forall path :: r == Ok(UsbPhysical(path)) <==>
                             Addressable(path) && text.value == USB_PREFIX + PathText(path)
    ensures text.Some? && USB_PREFIX <= text.value && !(SERIAL_PREFIX <= text.value) && r.Ok? ==> r.value.UsbPhysical?
    ensures text.Some? && COLON !in text.value ==>
              (r == Ok(UsbSerial(text.value)) <==> Nameable(text.value)) && (r.Ok? ==> Nameable(text.value))
    ensures text.Some? && (TCP_PREFIX <= text.value || UDP_PREFIX <= text.value) ==>
              r == if EndpointAccepted(text.value[4..], endpointParses) then Ok(Network(text.value[4..]))
                   else Err(InvalidArgument)
    ensures text.Some? && COLON in text.value && !KnownPrefix(text.value) ==> r.Err?
    ensures r.Ok? && r.value.UsbSerial? ==> Nameable(r.value.serial)
    ensures r.Ok? && r.value.UsbPhysical? ==> Addressable(r.value.path)
  {
    if text.None? { return Ok(UsbUnique); }
    var t := text.value;
    if t == [] { return Err(InvalidArgument); }
    if SERIAL_PREFIX <= t {
      assert t[0] == 0x75 && t[1] == 0x73 && t[3] == COLON;
      var serial := DecodeSerial(t[|SERIAL_PREFIX|..]);
      return if serial.None? then Err(InvalidArgument) else Ok(UsbSerial(serial.value));
    }
    if USB_PREFIX <= t {
      assert t[0] == 0x75 && t[1] == 0x73 && t[3] == COLON;
      assert t == USB_PREFIX + t[|USB_PREFIX|..];
      var path := ParseUsbPath(t[|USB_PREFIX|..]);
      return if path.None? then Err(InvalidArgument) else Ok(UsbPhysical(path.value));
    }
    if TCP_PREFIX <= t || UDP_PREFIX <= t {
      assert t[3] == COLON;
      var endpoint := t[4..];
      if endpoint == [] { return Err(InvalidArgument); }
      for i := 0 to |endpoint|
        invariant forall k :: 0 <= k < i ==> !ForbiddenEndpointCharacter(endpoint[k])
      {
        var c := endpoint[i];
        if c <= 0x20 || c == 0x7F || c in {0x2F, 0x3F, 0x23, 0x40, 0x5C} { return Err(InvalidArgument); }
      }
      return if endpointParses(endpoint) then Ok(Network(endpoint)) else Err(InvalidArgument);
    }
    if COLON in t { return Err(InvalidArgument); }
    var valid := SelectorValidUtf8(t);
    if !valid { return Err(InvalidArgument); }
    for i := 0 to |t|
      invariant forall k :: 0 <= k < i ==> !IsControl(t[k])
    {
      if t[i] < 0x20 || t[i] == 0x7F { return Err(InvalidArgument); }
    }
    return Ok(UsbSerial(t));
  }

  predicate Matches(device: UsbDevice, selector: Selector) {
    match selector
    case UsbUnique => true
    case UsbSerial(serial) => device.serial == serial
    case UsbPhysical(path) => device.path == path
    case Network(_) => false
  }

  function Matching(devices: seq<UsbDevice>, selector: Selector): seq<UsbDevice> {
    if devices == [] then []
    else
      var rest := Matching(devices[..|devices| - 1], selector);
      if Matches(devices[|devices| - 1], selector) then rest + [devices[|devices| - 1]] else rest
  }

  lemma {:induction false} MatchingMatch(devices: seq<UsbDevice>, selector: Selector)
    ensures forall d :: d in Matching(devices, selector) <==> d in devices && Matches(d, selector)
    ensures selector.UsbUnique? ==> Matching(devices, selector) == devices
  {
    if devices != [] {
      MatchingMatch(devices[..|devices| - 1], selector);
      assert devices == devices[..|devices| - 1] + [devices[|devices| - 1]];
    }
  }

  /** The one matching device, or an error that says whether there were none or several. */
  method SelectUsbDevice(devices: seq<UsbDevice>, selector: Selector) returns (r: Result<UsbDevice, Status>)
    ensures selector.Network? ==> r == Err(InvalidArgument)
    ensures !selector.Network? ==>
              var found := Matching(devices, selector);
              r == if |found| == 0 then Err(NoDevice)
                   else if |found| == 1 then Ok(found[0]) else Err(AmbiguousDevice)
    ensures r.Ok? ==> r.value in devices
    ensures r.Ok? && selector.UsbSerial? ==> r.value.serial == selector.serial
    ensures r.Ok? && selector.UsbPhysical? ==> r.value.path == selector.path
    ensures r == Err(NoDevice) && selector.UsbSerial? ==> forall d :: d in devices ==> d.serial != selector.serial
    ensures r == Err(NoDevice) && selector.UsbPhysical? ==> forall d :: d in devices ==> d.path != selector.path
  {
    MatchingMatch(devices, selector);
    if selector.Network? { return Err(InvalidArgument); }
    if selector.UsbUnique? {
      if devices == [] { return Err(NoDevice); }
      if |devices| != 1 { return Err(AmbiguousDevice); }
      return Ok(devices[0]);
    }
    var match': Option<UsbDevice> := None;
    for i := 0 to |devices|
      invariant Matching(devices[..i], selector) == if match'.None? then [] else [match'.value]
    {
      assert devices[..i + 1][..i] == devices[..i];
      if selector.UsbSerial? && devices[i].serial != selector.serial { continue; }
      if selector.UsbPhysical? && devices[i].path != selector.path { continue; }
      if match'.Some? {
        MatchingGrows(devices, i + 1, selector);
        return Err(AmbiguousDevice);
      }
      match' := Some(devices[i]);
    }
    assert devices[..|devices|] == devices;
    return if match'.None? then Err(NoDevice) else Ok(match'.value);
  }

  lemma {:induction false} MatchingGrows(devices: seq<UsbDevice>, i: nat, selector: Selector)
    requires i <= |devices|
    ensures |Matching(devices[..i], selector)| <= |Matching(devices, selector)|
  {
    if i < |devices| {
      var init := devices[..|devices| - 1];
      assert init[..i] == devices[..i];
      MatchingGrows(init, i, selector);
    } else {
      assert devices[..i] == devices;
    }
  }

  /**
   * A device opened once keeps its printed path as its selector. Looking it up in
   * any later enumeration yields a device on the same bus and ports or an error,
   * and succeeds when exactly one such device is there.
   */
  method Reselect(device: UsbDevice, later: seq<UsbDevice>) returns (r: Result<UsbDevice, Status>)
    ensures r.Ok? ==> r.value in later && r.value.path == device.path
    ensures r.Ok? <==> Addressable(device.path) && |Matching(later, UsbPhysical(device.path))| == 1
  {
    var text := PhysicalUsbPath(device.path);
    if text == [] { return Err(NotSupported); }
    PrintedPathIsNotSerial(device.path);
    var parsed := ParseDeviceSelector(Some(text), _ => false);
    forall path | Addressable(path) && text == USB_PREFIX + PathText(path) ensures path == device.path {
      assert PathText(path) == text[|USB_PREFIX|..] == PathText(device.path);
      PathTextInjective(path, device.path);
    }
    if parsed.Err? {
      assert parsed != Ok(UsbPhysical(device.path));
      return Err(parsed.error);
    }
    assert parsed == Ok(UsbPhysical(device.path));
    MatchingMatch(later, parsed.value);
    r := SelectUsbDevice(later, parsed.value);
  }

  lemma PathTextInjective(a: UsbPath, b: UsbPath)
    requires a.ports != [] && b.ports != [] && PathText(a) == PathText(b)
    ensures a == b
  {
    FindAfterDigits(Print(a.bus), DASH, PortsText(a.ports));
    FindAfterDigits(Print(b.bus), DASH, PortsText(b.ports));
    PrintIsCanonical(a.bus);
    PrintIsCanonical(b.bus);
    PortsTextInjective(a.ports, b.ports);
  }

  lemma {:induction false} PortsTextInjective(a: seq<Byte>, b: seq<Byte>)
    requires a != [] && b != [] && PortsText(a) == PortsText(b)
    ensures a == b
  {
    PrintIsCanonical(a[0]);
    PrintIsCanonical(b[0]);
    PortsTextDot(a);
    PortsTextDot(b);
    assert a == [a[0]] + a[1..] && b == [b[0]] + b[1..];
    if |a| > 1 {
      FindAfterDigits(Print(a[0]), DOT, PortsText(a[1..]));
      FindAfterDigits(Print(b[0]), DOT, PortsText(b[1..]));
      PortsTextInjective(a[1..], b[1..]);
    }
  }

  lemma PrintedPathIsNotSerial(path: UsbPath)
    requires path.ports != []
    ensures !(SERIAL_PREFIX <= USB_PREFIX + PathText(path))
  {
    var text := USB_PREFIX + PathText(path);
    assert text[4] == Print(path.bus)[0] && IsDigit(text[4]);
    assert SERIAL_PREFIX[4] == 0x73;
  }
}
