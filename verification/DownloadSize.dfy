/**
 * The size a client announces with a download command: how it is written, what
 * the scripted device makes of it, and how many bytes it then takes.
 */
module DownloadSize {
  import opened Common
  import opened ScriptedDevice

  // ----- Commands as bytes

  predicate IsAscii(text: string) {
    forall i :: 0 <= i < |text| ==> text[i] as int < 128
  }

  function AsciiBytes(text: string): seq<Byte>
    requires IsAscii(text)
  {
    seq(|text|, i requires 0 <= i < |text| => text[i] as int)
  }

  /** A payload is a command exactly when it is the bytes of that text. */
  lemma AsciiInverts(payload: seq<Byte>, text: string)
    ensures Ascii(payload) == Some(text) <==> IsAscii(text) && payload == AsciiBytes(text)
  {
    if Ascii(payload) == Some(text) {
      assert forall i :: 0 <= i < |payload| ==> text[i] == payload[i] as char;
    }
    if IsAscii(text) && payload == AsciiBytes(text) {
      assert forall i :: 0 <= i < |payload| ==> payload[i] as char == text[i];
      assert Ascii(payload).value == text;
    }
  }

  // ----- Hexadecimal numbers

  function Power16(k: nat): (r: nat)
    ensures r > 0
  {
    if k == 0 then 1 else 16 * Power16(k - 1)
  }

  /** Exactly k lower-case digits. */
  function Digits(n: nat, k: nat): (text: string)
    ensures |text| == k
  {
    if k == 0 then "" else Digits(n / 16, k - 1) + [HexDigit(n % 16) as char]
  }

  lemma DigitValue(n: nat)
    requires n < 16
    ensures HexValue((HexDigit(n) as char) as int) == Some(n)
  {
  }

  lemma {:induction false} DigitsDenote(n: nat, k: nat)
    requires n < Power16(k)
    ensures HexNumber(Digits(n, k)) == Some(n)
  {
    if k > 0 {
      var text := Digits(n, k);
      assert text[..k - 1] == Digits(n / 16, k - 1);
      DigitsDenote(n / 16, k - 1);
      DigitValue(n % 16);
    }
  }

  lemma LowerDigit(c: char)
    requires HexValue(c as int).Some?
    ensures Lower([c]) == [HexDigit(HexValue(c as int).value) as char] && HexValue(c as int).value < 16
  {
  }

  lemma LowerSnoc(text: string)
    requires text != ""
    ensures Lower(text) == Lower(text[..|text| - 1]) + Lower([text[|text| - 1]])
  {
  }

  /** A number is below the power of its digits, and its digits in lower case are the canonical ones. */
  lemma {:induction false} NumberIsDigits(text: string)
    requires HexNumber(text).Some?
    ensures HexNumber(text).value < Power16(|text|) && Lower(text) == Digits(HexNumber(text).value, |text|)
  {
    if text != "" {
      var init, last := text[..|text| - 1], text[|text| - 1];
      NumberIsDigits(init);
      LowerSnoc(text);
      LowerDigit(last);
      var high, low := HexNumber(init).value, HexValue(last as int).value;
      assert (high * 16 + low) / 16 == high && (high * 16 + low) % 16 == low;
    }
  }

  lemma {:induction false} LowerDenotes(text: string)
    ensures HexNumber(Lower(text)) == HexNumber(text)
  {
    if text != "" {
      var lower := Lower(text);
      assert lower[..|lower| - 1] == Lower(text[..|text| - 1]);
      LowerDenotes(text[..|text| - 1]);
    }
  }

  /** The shortest text, filled up with zeros, is the text of that many digits. */
  lemma {:induction false} PaddedIsDigits(n: nat, k: nat)
    requires k > 0 && n < Power16(k)
    ensures |Hex(n)| <= k && seq(k - |Hex(n)|, _ => '0') + Hex(n) == Digits(n, k)
  {
    if n < 16 {
      ZeroDigits(k - 1);
      assert n / 16 == 0 && n % 16 == n;
    } else {
      PaddedIsDigits(n / 16, k - 1);
      var zeros := seq(k - |Hex(n)|, _ => '0');
      assert zeros + Hex(n) == (zeros + Hex(n / 16)) + [HexDigit(n % 16) as char];
    }
  }

  lemma {:induction false} ZeroDigits(k: nat)
    ensures Digits(0, k) == seq(k, _ => '0')
  {
    if k > 0 { ZeroDigits(k - 1); }
  }

  lemma EightDigits(n: nat)
    requires n <= U32_MAX
    ensures n < Power16(8) && Hex8(n) == Digits(n, 8)
  {
    assert Power16(4) == 0x1_0000;
    assert Power16(8) == 16 * Power16(7) == 256 * Power16(6) == 4096 * Power16(5) == 0x1_0000 * Power16(4);
    PaddedIsDigits(n, 8);
  }

  /** Eight characters announce a size exactly when, in lower case, they are its eight digits. */
  lemma SizeIsWritten(text: string, n: nat)
    requires |text| == 8
    ensures HexNumber(text) == Some(n) <==> n <= U32_MAX && Lower(text) == Hex8(n)
  {
    assert Power16(4) == 0x1_0000;
    assert Power16(8) == 16 * Power16(7) == 256 * Power16(6) == 4096 * Power16(5) == 0x1_0000 * Power16(4);
    if HexNumber(text) == Some(n) {
      NumberIsDigits(text);
      EightDigits(n);
    } else if n <= U32_MAX && Lower(text) == Hex8(n) {
      EightDigits(n);
      DigitsDenote(n, 8);
      LowerDenotes(text);
    }
  }

  lemma SizeRoundTrip(n: nat)
    requires n <= U32_MAX
    ensures |Hex8(n)| == 8 && HexNumber(Hex8(n)) == Some(n)
  {
    EightDigits(n);
    DigitsDenote(n, 8);
  }

  // ----- A download

  predicate Idle(s: Recorder) {
    !s.finished && s.expectedDataSize.None?
  }

  lemma IsDownload(text: string)
    ensures var command := "download:" + text;
            && StartsWith(command, "download:") && command[|"download:"|..] == text
            && !StartsWith(command, "getvar:") && !StartsWith(command, "fetch:") && command != "upload"
  {
    var command := "download:" + text;
    assert command[0] == 'd';
  }

  lemma CommandIsRead(sc: Scenario, s: Recorder, text: string)
    requires Idle(s) && IsAscii("download:" + text)
    ensures var command := "download:" + text;
            StartsWith(command, "download:")
            && Handled(sc, s, AsciiBytes(command)) == BeginDownload(s.(events := s.events + [Command(command)]), command)
  {
    var command := "download:" + text;
    IsDownload(text);
    AsciiInverts(AsciiBytes(command), command);
  }

  /** The command is answered with the size it announces, and rejected exactly when it announces none. */
  lemma DownloadIsAnnounced(sc: Scenario, s: Recorder, text: string, n: nat)
    requires Idle(s) && IsAscii("download:" + text)
    ensures var (s', r) := Handled(sc, s, AsciiBytes("download:" + text));
            && (|text| == 8 && n <= U32_MAX && Lower(text) == Hex8(n) <==>
                  r.Answer? && s'.expectedDataSize == Some(n))
            && (r.Answer? && s'.expectedDataSize == Some(n) ==>
                  && r == Answer(Some(Line("DATA", Hex8(n))))
                  && s' == s.(events := s.events + [Command("download:" + text)], expectedDataSize := Some(n),
                              downloadBuffer := []))
            && (r.Answer? ==> s'.expectedDataSize.Some?)
  {
    IsDownload(text);
    CommandIsRead(sc, s, text);
    if |text| == 8 { SizeIsWritten(text, n); }
  }

  lemma {:induction false} LowerOfDigits(n: nat, k: nat)
    ensures Lower(Digits(n, k)) == Digits(n, k) && IsAscii(Digits(n, k))
  {
    if k > 0 {
      LowerOfDigits(n / 16, k - 1);
      LowerSnoc(Digits(n, k));
      assert Digits(n, k)[..k - 1] == Digits(n / 16, k - 1);
    }
  }

  lemma SizesAreAscii(n: nat)
    requires n <= U32_MAX
    ensures IsAscii("download:" + Hex8(n))
  {
    EightDigits(n);
    LowerOfDigits(n, 8);
  }

  /** The bytes of the command that announces n bytes. */
  function DownloadCommand(n: nat): seq<Byte>
    requires n <= U32_MAX
  {
    SizesAreAscii(n);
    AsciiBytes("download:" + Hex8(n))
  }

  /** After the command for n bytes the device is silent below n, says OKAY at n and rejects more. */
  lemma DownloadTakesItsSize(sc: Scenario, s: Recorder, n: nat, bytes: seq<Byte>)
    requires Idle(s) && n <= U32_MAX
    ensures var (s', r) := Handled(sc, s, DownloadCommand(n));
            && r == Answer(Some(Line("DATA", Hex8(n))))
            && Handled(sc, s', bytes).1
            == if |bytes| < n then Answer(None) else if |bytes| == n then DOWNLOADED else Rejected
  {
    SizesAreAscii(n);
    EightDigits(n);
    LowerOfDigits(n, 8);
    DownloadIsAnnounced(sc, s, Hex8(n), n);
  }
}
