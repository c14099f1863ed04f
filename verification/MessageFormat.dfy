/** The lines a server sends about a channel: how they are put together, and how they are read back. */
module MessageFormat {
  import opened ChannelIds
  import opened Decimals
  import opened Sequences
  import opened Wrappers

  datatype Prefix = NoPrefix | Ack | Err

  datatype Line = Line(continues: bool, prefix: Prefix, id: nat, timestamp: nat, message: string)

  /** Converting to C's int keeps the low 32 bits. */
  function ToInt32(n: nat): (i: int)
    ensures -0x8000_0000 <= i < 0x8000_0000
    ensures n < 0x8000_0000 ==> i == n
  {
    var low := n % 0x1_0000_0000;
    if low < 0x8000_0000 then low else low - 0x1_0000_0000
  }

  /**
   num_digits on an int. Negating the smallest int leaves it negative, so that no digit is counted then.
   */
  function NumDigits(value: int): (digits: nat)
    requires -0x8000_0000 <= value < 0x8000_0000
  {
    if value == -0x8000_0000 then 0 else DigitCount(if value < 0 then -value else value)
  }

  /** How many characters the formatter reserves for a timestamp; the 64-bit value is passed as an int. */
  function TimestampLength(timestamp: nat): (length: nat) {
    NumDigits(ToInt32(timestamp))
  }

  /** The timestamp as it ends up in the line: snprintf cuts off what does not fit. */
  function Timestamp(timestamp: nat): (text: string)
    ensures IsDigits(text)
  {
    var digits := Decimal(timestamp);
    if TimestampLength(timestamp) < |digits| then digits[..TimestampLength(timestamp)] else digits
  }

  lemma {:induction false} TimestampFits(timestamp: nat)
    ensures TimestampLength(timestamp) <= |Decimal(timestamp)| && |Timestamp(timestamp)| == TimestampLength(timestamp)
    ensures timestamp < 0x8000_0000 ==> TimestampLength(timestamp) == |Decimal(timestamp)|
  {
    DecimalValue(timestamp);
    var value := ToInt32(timestamp);
    if value != -0x8000_0000 {
      MoreDigits(if value < 0 then -value else value, timestamp);
    }
  }

  function PrefixText(prefix: Prefix): string {
    match prefix
    case NoPrefix => ""
    case Ack => "ACK "
    case Err => "ERR "
  }

  /** What follows the prefix in a line, without the line end. */
  function Body(line: Line): (body: string) {
    NameOf(line.id) + " " + Timestamp(line.timestamp) + if line.message == "" then "" else " " + line.message
  }

  /** The line as sent. */
  function Text(line: Line): (text: string) {
    [if line.continues then '+' else '-'] + PrefixText(line.prefix) + Body(line) + "\n"
  }

  function IndexOf(s: string, ch: char): (k: nat)
    ensures k <= |s|
  {
    if s == "" || s[0] == ch then 0 else 1 + IndexOf(s[1..], ch)
  }

  /** How a client takes a line apart. A prefix shows by the space behind it, where a bare line still has its ID. */
  function Decode(text: string): (line: Option<Line>) {
    if |text| < 7 then None
    else
      var bare := text[4] != ' ';
      var prefix := if bare then NoPrefix else if text[1..4] == "ACK" then Ack else Err;
      DecodeBody(text[0] == '+', prefix, text[if bare then 1 else 5..|text| - 1])
  }

  function DecodeBody(continues: bool, prefix: Prefix, body: string): (line: Option<Line>) {
    if |body| < 5 then None
    else
      var rest := body[5..];
      var n := IndexOf(rest, ' ');
      if !IsDigits(rest[..n]) then None
      else Some(Line(continues, prefix, IdOf(body[..4]), Value(rest[..n]), if n < |rest| then rest[n + 1..] else ""))
  }

  function MessageTail(message: string): string {
    if message == "" then "" else " " + message
  }

  lemma {:induction false} FirstSpace(digits: string, message: string)
    requires IsDigits(digits)
    ensures IndexOf(digits + MessageTail(message), ' ') == |digits|
  {
    if digits == "" {
      assert digits + MessageTail(message) == MessageTail(message);
    } else {
      FirstSpace(digits[1..], message);
      assert (digits + MessageTail(message))[1..] == digits[1..] + MessageTail(message);
    }
  }

  lemma {:induction false} DecodeOfBody(line: Line)
    requires IsId(line.id)
    ensures DecodeBody(line.continues, line.prefix, Body(line)) ==
            Some(line.(timestamp := Value(Timestamp(line.timestamp))))
  {
    var digits, tail := Timestamp(line.timestamp), MessageTail(line.message);
    IdOfNameOf(line.id);
    NameAndRest(NameOf(line.id), digits, tail);
    FirstSpace(digits, line.message);
    DigitsAndRest(digits, line.message);
  }

  lemma {:induction false} NameAndRest(name: string, digits: string, tail: string)
    requires |name| == 4
    ensures var body := name + " " + digits + tail;
            |body| >= 5 && body[..4] == name && body[5..] == digits + tail
  {
  }

  lemma {:induction false} DigitsAndRest(digits: string, message: string)
    ensures var rest := digits + MessageTail(message);
            && rest[..|digits|] == digits
            && (message != "" ==> |digits| < |rest| && rest[|digits| + 1..] == message)
            && (message == "" ==> |digits| == |rest|)
  {
  }

  /** A prefix is told from a bare ID because no character of an ID is a space. */
  lemma {:induction false} DecodeParts(sign: char, prefix: Prefix, body: string)
    requires 5 <= |body| && body[3] != ' '
    ensures Decode([sign] + PrefixText(prefix) + body + "\n") == DecodeBody(sign == '+', prefix, body)
  {
    if prefix == NoPrefix {
      assert [sign] + "" == [sign];
      DecodeBare(sign, body);
    } else {
      DecodePrefixed(sign, PrefixText(prefix), body);
    }
  }

  lemma {:induction false} DecodeBare(sign: char, body: string)
    requires 5 <= |body| && body[3] != ' '
    ensures Decode([sign] + body + "\n") == DecodeBody(sign == '+', NoPrefix, body)
  {
    var text := [sign] + body + "\n";
    Inside([sign], body);
    assert text[4] == text[1..|text| - 1][3];
  }

  lemma {:induction false} DecodePrefixed(sign: char, prefix: string, body: string)
    requires 5 <= |body| && prefix in {"ACK ", "ERR "}
    ensures Decode([sign] + prefix + body + "\n") ==
            DecodeBody(sign == '+', if prefix == "ACK " then Ack else Err, body)
  {
    var text := [sign] + prefix + body + "\n";
    Inside([sign] + prefix, body);
    assert text[4] == prefix[3] == ' ' && text[0] == sign;
    assert text[1..4] == prefix[..3];
    assert prefix == "ACK " <==> prefix[..3] == "ACK";
  }

  lemma {:induction false} Inside(head: string, body: string)
    ensures var text := head + body + "\n";
            text[|head|..|text| - 1] == body && text[..|head|] == head
  {
  }

  /**
   Reading back what was written gives every part of the line again, except that of a timestamp that was cut
   off only the leading digits arrive.
   */
  lemma {:induction false} DecodeOfText(line: Line)
    requires IsId(line.id)
    ensures Decode(Text(line)) == Some(line.(timestamp := Value(Timestamp(line.timestamp))))
  {
    IdOfNameOf(line.id);
    assert Body(line)[3] == NameOf(line.id)[3] != ' ';
    DecodeParts(if line.continues then '+' else '-', line.prefix, Body(line));
    DecodeOfBody(line);
  }

  /**
   The round trip is complete just when the length reserved for the timestamp is its number of digits, which
   is so for all timestamps of an int's range.
   */
  lemma {:induction false} RoundTrip(line: Line)
    requires IsId(line.id)
    ensures Decode(Text(line)) == Some(line) <==> TimestampLength(line.timestamp) == DigitCount(line.timestamp)
    ensures line.timestamp < 0x8000_0000 ==> Decode(Text(line)) == Some(line)
  {
    DecodeOfText(line);
    TimestampFits(line.timestamp);
    DecimalValue(line.timestamp);
    PrefixValue(Decimal(line.timestamp), TimestampLength(line.timestamp));
  }

  /**
   Two lines have the same text if and only if they differ in nothing but their timestamps and these are cut off to the
   same digits; lines with timestamps of an int's range are told apart by their texts.
   */
  lemma {:induction false} TextsDiffer(a: Line, b: Line)
    requires IsId(a.id) && IsId(b.id)
    ensures Text(a) == Text(b) <==>
            a.(timestamp := b.timestamp) == b && Timestamp(a.timestamp) == Timestamp(b.timestamp)
    ensures a.timestamp < 0x8000_0000 && b.timestamp < 0x8000_0000 && Text(a) == Text(b) ==> a == b
  {
    if Text(a) == Text(b) {
      DecodeOfText(a);
      DecodeOfText(b);
      BodyOfText(a);
      BodyOfText(b);
      TimestampOfBody(a);
      TimestampOfBody(b);
    }
    RoundTrip(a);
    RoundTrip(b);
  }

  lemma {:induction false} BodyOfText(line: Line)
    ensures var n := 1 + |PrefixText(line.prefix)|; Text(line)[n..|Text(line)| - 1] == Body(line)
  {
    Inside([if line.continues then '+' else '-'] + PrefixText(line.prefix), Body(line));
  }

  lemma {:induction false} TimestampOfBody(line: Line)
    ensures var rest := Body(line)[5..];
            |Body(line)| >= 5 && rest[..IndexOf(rest, ' ')] == Timestamp(line.timestamp)
  {
    var digits, tail := Timestamp(line.timestamp), MessageTail(line.message);
    NameAndRest(NameOf(line.id), digits, tail);
    FirstSpace(digits, line.message);
    DigitsAndRest(digits, line.message);
  }

  lemma {:induction false} LeadingDigit(n: nat)
    requires 10 <= n
    ensures Decimal(n)[0] == Decimal(n / 10)[0]
  {
  }

  lemma {:induction false} LeadingDigitOfFourBillion()
    ensures Decimal(4294967296)[0] == '4'
  {
    LeadingDigit(4294967296);
    LeadingDigit(429496729);
    LeadingDigit(42949672);
    LeadingDigit(4294967);
    LeadingDigit(429496);
    LeadingDigit(42949);
    LeadingDigit(4294);
    LeadingDigit(429);
    LeadingDigit(42);
  }

  lemma {:induction false} OneDigitReserved(timestamp: nat)
    requires timestamp == 0x1_0000_0000
    ensures Timestamp(timestamp) == "4"
  {
    LeadingDigitOfFourBillion();
    TimestampFits(timestamp);
    assert TimestampLength(timestamp) == NumDigits(0) == 1;
  }

  /** After 2 to the power of 32 milliseconds the line reads as if only 4 milliseconds had passed. */
  lemma {:induction false} CutOffTimestamp(line: Line)
    requires line.timestamp == 0x1_0000_0000
    ensures Text(line) == Text(line.(timestamp := 4))
  {
    OneDigitReserved(line.timestamp);
    TimestampFits(4);
  }

  /** Copies `s` behind the `at` characters that `out` holds already. */
  method Write(out: array<char>, at: nat, s: string, ghost text: string) returns (next: nat)
    requires at + |s| < out.Length && out[..at] == text
    modifies out
    ensures next == at + |s| && out[..next] == text + s && out[out.Length - 1] == old(out[out.Length - 1])
  {
    forall k | 0 <= k < |s| {
      out[at + k] := s[k];
    }
    return at + |s|;
  }

  /** snprintf of a number: at most `length` digits and a terminating NUL. */
  method WriteNumber(out: array<char>, at: nat, number: nat, length: nat, ghost text: string) returns (next: nat)
    requires at + length + 1 < out.Length && length <= |Decimal(number)| && out[..at] == text
    modifies out
    ensures next == at + length
    ensures out[..next] == text + Decimal(number)[..length] && out[out.Length - 1] == old(out[out.Length - 1])
  {
    next := Write(out, at, Decimal(number)[..length], text);
    out[next] := '\0';
    assert out[..next] == text + Decimal(number)[..length];
  }

  /** The part of the formatter that fills in the channel's name and the timestamp. */
  method WriteReference(out: array<char>, at: nat, line: Line, ghost text: string) returns (next: nat)
    requires at + 5 + TimestampLength(line.timestamp) + 1 < out.Length && out[..at] == text
    modifies out
    ensures next == at + 5 + TimestampLength(line.timestamp) && out[out.Length - 1] == old(out[out.Length - 1])
    ensures out[..next] == text + (NameOf(line.id) + " " + Timestamp(line.timestamp))
  {
    TimestampFits(line.timestamp);
    var name := NameOf(line.id);
    next := Write(out, at, name, text);
    next := Write(out, next, " ", text + name);
    next := WriteNumber(out, next, line.timestamp, TimestampLength(line.timestamp), text + name + " ");
    RegroupedFour(text, name, " ", Timestamp(line.timestamp));
  }

  /** The part of the formatter that fills in the sign and the prefix. */
  method WriteHead(out: array<char>, line: Line) returns (next: nat)
    requires 5 < out.Length
    modifies out
    ensures next == 1 + |PrefixText(line.prefix)| && out[out.Length - 1] == old(out[out.Length - 1])
    ensures out[..next] == Head(line)
  {
    out[0] := if line.continues then '+' else '-';
    next := 1;
    assert out[..next] == [out[0]];
    if line.prefix != NoPrefix {
      next := Write(out, next, PrefixText(line.prefix), [out[0]]);
    }
  }

  function Head(line: Line): string {
    [if line.continues then '+' else '-'] + PrefixText(line.prefix)
  }

  lemma {:induction false} TextAsWritten(line: Line, text: string)
    requires text ==
             Head(line) + (NameOf(line.id) + " " + Timestamp(line.timestamp)) + (MessageTail(line.message) + "\n")
    ensures text == Text(line)
  {
  }

  /** The formatter: the buffer is sized up front, and the line fills it to the last character before the NUL. */
  method FormatLine(line: Line) returns (out: array<char>, outLength: nat)
    ensures fresh(out) && out.Length == outLength + 1
    ensures out[..outLength] == Text(line) && out[outLength] == '\0'
  {
    outLength := 1 + 4 + 1 + TimestampLength(line.timestamp) + 1;
    if |line.message| > 0 {
      outLength := outLength + 1 + |line.message|;
    }
    if line.prefix != NoPrefix {
      outLength := outLength + 4;
    }

    out := new char[outLength + 1](_ => '\0');
    var dest := WriteHead(out, line);
    ghost var head := out[..dest];
    dest := WriteReference(out, dest, line, head);
    ghost var text := out[..dest];
    dest := Write(out, dest, MessageTail(line.message) + "\n", text);
    assert dest == outLength;
    TextAsWritten(line, out[..outLength]);
  }
}
