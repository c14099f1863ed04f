/** Parsing requests, character by character, and looking up their options. */
module Requests {
  import opened ChannelIds
  import opened RequestText
  import opened Texts

  /** strcmp on the bytes from some place in memory and a stored name: whether they are the same up to a NUL. */
  predicate SameCString(memory: string, name: string) {
    if name == "" || name[0] == NUL then memory != "" && memory[0] == NUL
    else memory != "" && memory[0] == name[0] && SameCString(memory[1..], name[1..])
  }

  predicate IsOptionName(name: string) {
    name != "" && '=' !in name[1..]
  }

  predicate AreNamed(options: seq<CommandOption>) {
    forall i :: 0 <= i < |options| ==> IsOptionName(options[i].name)
  }

  /**
   The name that is compared with stored ones runs on to the end of the line, and an equals sign follows it; so it
   is only ever the same as a stored name if a NUL ends it early.
   */
  lemma {:induction false} RestOfLine(key: string, more: string, name: string)
    requires '=' !in name && more != "" && more[0] == '='
    ensures SameCString(key + more, name) <==> NUL in key && CString(key) == CString(name)
  {
    var memory := key + more;
    if key == "" {
      assert memory == more;
    } else {
      assert memory[0] == key[0] && memory[1..] == key[1..] + more;
      assert NUL in key <==> key[0] == NUL || NUL in key[1..];
      if name != "" {
        RestOfLine(key[1..], more, name[1..]);
        SameFirst(key, name);
      }
    }
  }

  lemma {:induction false} RestOfLineAfterFirst(key: string, more: string, name: string)
    requires key != "" && IsOptionName(name) && more != "" && more[0] == '='
    ensures SameCString(key + more, name) <==> NUL in key && CString(key) == CString(name)
  {
    assert (key + more)[0] == key[0] && (key + more)[1..] == key[1..] + more;
    assert NUL in key <==> key[0] == NUL || NUL in key[1..];
    RestOfLine(key[1..], more, name[1..]);
    SameFirst(key, name);
  }

  lemma {:induction false} SameFirst(s: string, t: string)
    requires s != "" && t != ""
    ensures CString(s) == CString(t) <==>
            s[0] == t[0] == NUL || (s[0] == t[0] && s[0] != NUL && CString(s[1..]) == CString(t[1..]))
  {
    assert s[0] != NUL ==> CString(s)[0] == s[0] && CString(s)[1..] == CString(s[1..]);
    assert t[0] != NUL ==> CString(t)[0] == t[0] && CString(t)[1..] == CString(t[1..]);
  }

  /** Appends an option unless it is found to be a duplicate of one before the last. */
  method AddOption(
    options: seq<CommandOption>, line: string, keyStart: nat, keyLength: nat, valueStart: nat, valueLength: nat)
    returns (r: Parsed<seq<CommandOption>>)
    requires 0 < keyLength && keyStart + keyLength < |line| && line[keyStart + keyLength] == '='
    requires valueStart + valueLength <= |line| && AreNamed(options)
    ensures var (name, value) := (line[keyStart..keyStart + keyLength], line[valueStart..valueStart + valueLength]);
            r == if Seen(options, name) then DuplicateOption else Ok(options + [CommandOption(name, value)])
  {
    ghost var name := line[keyStart..keyStart + keyLength];
    assert line[keyStart..] == name + line[keyStart + keyLength..];
    var last := 0;
    while last + 1 < |options|
      invariant last == 0 || last < |options|
      invariant forall j :: 0 <= j < last ==> !(NUL in name && CString(options[j].name) == CString(name))
    {
      RestOfLineAfterFirst(name, line[keyStart + keyLength..], options[last].name);
      if SameCString(line[keyStart..], options[last].name) {
        return DuplicateOption;
      }
      last := last + 1;
    }
    var (key, value) := (line[keyStart..keyStart + keyLength], line[valueStart..valueStart + valueLength]);
    r := Ok(options + [CommandOption(key, value)]);
  }

  /** The option that ends at `offset`, given what the loop has found out about it. */
  lemma {:induction false} EndOfOption(text: string, s: nat, offset: nat, keyLength: nat)
    requires Scanned(text, s, offset, keyLength) && (offset < |text| ==> text[offset] in {';', ' '})
    ensures PartEnd(text[s..], {';', ' '}) == offset - s
    ensures ToOption(text[s..][..offset - s]) ==
            if keyLength == 0 then InvalidSyntax
            else Ok(CommandOption(text[s..s + keyLength], text[s + keyLength + 1..offset]))
  {
    Cut(text, s, offset);
    PartEndIs(text[s..offset], text[offset..], {';', ' '});
    if keyLength == 0 {
      NoName(text, s, offset);
    } else {
      NameAndValue(text, s, offset, keyLength);
    }
  }

  lemma {:induction false} Cut(text: string, s: nat, offset: nat)
    requires s <= offset <= |text|
    ensures text[s..] == text[s..offset] + text[offset..] && text[s..][..offset - s] == text[s..offset]
  {
  }

  lemma {:induction false} NoName(text: string, s: nat, offset: nat)
    requires Scanned(text, s, offset, 0)
    ensures ToOption(text[s..offset]) == InvalidSyntax
  {
    var option := text[s..offset];
    if option != "" {
      assert forall i :: 0 <= i < |option[1..]| ==> option[1..][i] == text[s + 1 + i];
      PartEndIs(option[1..], "", {'='});
      assert option[1..] + "" == option[1..];
    }
  }

  lemma {:induction false} NameAndValue(text: string, s: nat, offset: nat, keyLength: nat)
    requires Scanned(text, s, offset, keyLength) && 0 < keyLength
    ensures ToOption(text[s..offset]) == Ok(CommandOption(text[s..s + keyLength], text[s + keyLength + 1..offset]))
  {
    var end := s + keyLength;
    Behind(text, s, end, offset);
    PartEndIs(text[s + 1..end], text[end..offset], {'='});
  }

  lemma {:induction false} Behind(text: string, s: nat, end: nat, offset: nat)
    requires s < end < offset <= |text|
    ensures text[s..offset][1..] == text[s + 1..end] + text[end..offset]
    ensures text[s..offset][..end - s] == text[s..end] && text[s..offset][end - s + 1..] == text[end + 1..offset]
  {
  }

  lemma {:induction false} AfterOption(
    text: string, s: nat, offset: nat, keyLength: nat, before: seq<CommandOption>)
    requires Scanned(text, s, offset, keyLength) && (offset < |text| ==> text[offset] in {';', ' '})
    ensures keyLength == 0 ==> Options(text[s..], before) == InvalidSyntax
    ensures 0 < keyLength ==>
      Options(text[s..], before) ==
      (var option := CommandOption(text[s..s + keyLength], text[s + keyLength + 1..offset]);
       if Seen(before, option.name) then DuplicateOption
       else if offset == |text| then Ok((before + [option], ""))
       else if text[offset] == ' ' then Ok((before + [option], text[offset + 1..]))
       else Options(text[offset + 1..], before + [option]))
  {
    EndOfOption(text, s, offset, keyLength);
    if offset < |text| {
      assert text[s..][offset - s] == text[offset] && text[s..][offset - s + 1..] == text[offset + 1..];
    }
  }

  lemma {:induction false} AfterNamedOption(
    text: string, s: nat, offset: nat, keyLength: nat, before: seq<CommandOption>, name: string, value: string)
    requires Scanned(text, s, offset, keyLength) && (offset < |text| ==> text[offset] in {';', ' '}) && 0 < keyLength
    requires name == text[s..s + keyLength] && value == text[s + keyLength + 1..offset]
    ensures Options(text[s..], before) ==
            if Seen(before, name) then DuplicateOption
            else if offset == |text| then Ok((before + [CommandOption(name, value)], ""))
            else if text[offset] == ' ' then Ok((before + [CommandOption(name, value)], text[offset + 1..]))
            else Options(text[offset + 1..], before + [CommandOption(name, value)])
  {
    AfterOption(text, s, offset, keyLength, before);
  }

  ghost predicate SameError(r: Parsed<seq<CommandOption>>, options: Parsed<(seq<CommandOption>, string)>) {
    (r.InvalidSyntax? && options.InvalidSyntax?) || (r.DuplicateOption? && options.DuplicateOption?)
  }

  /** Adds the option that ends at `offset`. */
  method FinishOption(
    options: seq<CommandOption>, line: string, length: nat, keyStart: nat, keyLength: nat, valueStart: nat, offset: nat,
    ghost text: string, ghost all: Parsed<(seq<CommandOption>, string)>)
    returns (r: Parsed<seq<CommandOption>>)
    requires offset <= length < |line| && AreNamed(options) && text == line[..length]
    requires Scanned(text, keyStart, offset, keyLength) && (offset < length ==> text[offset] in {';', ' '})
    requires 0 < keyLength && valueStart == keyStart + keyLength + 1
    requires all == Options(text[keyStart..], options)
    ensures r.Ok? ==> AreNamed(r.value)
    ensures r.Ok? && offset == length ==> all == Ok((r.value, ""))
    ensures r.Ok? && offset < length && text[offset] == ' ' ==> all == Ok((r.value, text[offset + 1..]))
    ensures r.Ok? && offset < length && text[offset] == ';' ==> all == Options(text[offset + 1..], r.value)
    ensures !r.Ok? ==> SameError(r, all)
  {
    SameInLine(line, length, keyStart, keyStart + keyLength);
    SameInLine(line, length, valueStart, offset);
    KeyIsOptionName(text, keyStart, offset, keyLength);
    AfterNamedOption(
      text, keyStart, offset, keyLength, options, line[keyStart..keyStart + keyLength], line[valueStart..offset]);
    r := AddOption(options, line, keyStart, keyLength, valueStart, offset - valueStart);
  }

  lemma {:induction false} SameInLine(line: string, length: nat, i: nat, j: nat)
    requires i <= j <= length <= |line|
    ensures line[..length][i..j] == line[i..j]
  {
  }

  /** Checks and adds the option that ends at `offset`. */
  method EndOption(
    options: seq<CommandOption>, line: string, length: nat, keyStart: nat, keyLength: nat, valueStart: nat, offset: nat,
    ghost text: string, ghost all: Parsed<(seq<CommandOption>, string)>)
    returns (r: Parsed<seq<CommandOption>>)
    requires offset <= length < |line| && AreNamed(options) && text == line[..length]
    requires Scanned(text, keyStart, offset, keyLength) && (offset < length ==> text[offset] in {';', ' '})
    requires 0 < keyStart && (0 < keyLength ==> valueStart == keyStart + keyLength + 1)
    requires all == Options(text[keyStart..], options)
    ensures r.Ok? ==> AreNamed(r.value)
    ensures r.Ok? && offset == length ==> all == Ok((r.value, ""))
    ensures r.Ok? && offset < length && text[offset] == ' ' ==> all == Ok((r.value, text[offset + 1..]))
    ensures r.Ok? && offset < length && text[offset] == ';' ==> all == Options(text[offset + 1..], r.value)
    ensures !r.Ok? ==> SameError(r, all)
  {
    if keyStart == 0 || keyLength == 0 || valueStart == 0 {
      AfterOption(text, keyStart, offset, keyLength, options);
      return InvalidSyntax;
    }
    r := FinishOption(options, line, length, keyStart, keyLength, valueStart, offset, text, all);
  }

  lemma {:induction false} KeyIsOptionName(text: string, s: nat, offset: nat, keyLength: nat)
    requires Scanned(text, s, offset, keyLength) && 0 < keyLength
    ensures IsOptionName(text[s..s + keyLength])
  {
    assert text[s..s + keyLength][1..] == text[s + 1..s + keyLength];
  }

  /** What the loop knows of the option that starts at `s`, up to `offset`. */
  ghost predicate Scanned(text: string, s: nat, offset: nat, keyLength: nat) {
    && s <= offset <= |text| && (forall i :: s <= i < offset ==> text[i] != ';' && text[i] != ' ')
    && (keyLength == 0 ==> forall i :: s < i < offset ==> text[i] != '=')
    && (0 < keyLength ==> s + keyLength < offset && text[s + keyLength] == '=')
    && (0 < keyLength ==> forall i :: s < i < s + keyLength ==> text[i] != '=')
  }

  /** One more character that does not end the option. */
  lemma {:induction false} ScannedMore(text: string, s: nat, offset: nat, keyLength: nat)
    requires Scanned(text, s, offset, keyLength) && offset < |text| && text[offset] !in {';', ' '}
    ensures Scanned(text, s, offset + 1, if keyLength == 0 && text[offset] == '=' then offset - s else keyLength)
  {
  }

  /** Where the current option starts. */
  function StartOf(offset: nat, keyStart: nat): nat {
    if keyStart == 0 then offset else keyStart
  }

  /** What the loop's variables mean in front of the character at `offset`; `start` is where the option starts. */
  ghost predicate Cursor(
    text: string, start: nat, offset: nat, keyStart: nat, keyLength: nat, valueStart: nat)
  {
    && start == StartOf(offset, keyStart)
    && Scanned(text, start, offset, keyLength)
    && (keyStart == 0 <==> start == offset)
    && (0 < keyLength && valueStart == 0 ==> keyStart + keyLength + 1 == offset)
    && (valueStart != 0 ==> 0 < keyLength && valueStart == keyStart + keyLength + 1)
  }

  lemma {:induction false} NextOption(text: string, offset: nat)
    requires offset < |text|
    ensures Cursor(text, offset + 1, offset + 1, 0, 0, 0)
  {
  }

  /** One more character of an option, which may be the first one or the end of the key. */
  lemma {:induction false} CursorMoves(
    text: string, start: nat, offset: nat, keyStart: nat, keyLength: nat, valueStart: nat, keyLength': nat,
    valueStart': nat)
    requires Cursor(text, start, offset, keyStart, keyLength, valueStart)
    requires 0 < offset < |text| && text[offset] !in {';', ' '}
    requires keyLength' == if keyLength == 0 && text[offset] == '=' then offset - start else keyLength
    requires valueStart' == if keyStart != 0 && keyLength != 0 && valueStart == 0 then offset else valueStart
    ensures Cursor(text, start, offset + 1, StartOf(offset, keyStart), keyLength', valueStart')
  {
    ScannedMore(text, start, offset, keyLength);
  }

  /**
   One turn of the loop over the options: looks at the character at `offset`, which is the end of the line or before,
   and tells whether it ends the options. `all` is what the loop is to find out.
   */
  method ReadCharacter(
    options: seq<CommandOption>, line: string, length: nat, offset: nat, keyStart: nat, keyLength: nat, valueStart: nat,
    ghost text: string, ghost start: nat, ghost all: Parsed<(seq<CommandOption>, string)>)
    returns (
      r: Parsed<seq<CommandOption>>, keyStart': nat, keyLength': nat, valueStart': nat, offset': nat, atEnd: bool,
      ghost start': nat)
    requires 0 < offset <= length < |line| && AreNamed(options) && text == line[..length]
    requires Cursor(text, start, offset, keyStart, keyLength, valueStart) && all == Options(text[start..], options)
    ensures r.Ok? ==> AreNamed(r.value) && offset <= offset' <= length
    ensures !r.Ok? ==> SameError(r, all)
    ensures r.Ok? && !atEnd ==> Cursor(text, start', offset', keyStart', keyLength', valueStart') && offset < offset'
    ensures r.Ok? && !atEnd ==> start' <= length && all == Options(text[start'..], r.value)
    ensures r.Ok? && atEnd ==> all == Ok((r.value, text[offset'..]))
  {
    var ch := line[offset];
    var isEndOfLine := offset == length;
    atEnd := isEndOfLine || ch == ' ';
    if atEnd || ch == ';' {
      r, offset' := ReadEnd(options, line, length, offset, keyStart, keyLength, valueStart, text, start, all);
      keyStart', keyLength', valueStart', start' := 0, 0, 0, offset + 1;
      if !atEnd {
        NextOption(text, offset);
      }
    } else {
      r, offset', start' := Ok(options), offset + 1, start;
      keyStart', keyLength', valueStart' := ReadInside(ch, offset, keyStart, keyLength, valueStart, text, start);
    }
  }

  /** A turn at a character inside of an option. */
  method ReadInside(
    ch: char, offset: nat, keyStart: nat, keyLength: nat, valueStart: nat, ghost text: string, ghost start: nat)
    returns (keyStart': nat, keyLength': nat, valueStart': nat)
    requires Cursor(text, start, offset, keyStart, keyLength, valueStart)
    requires 0 < offset < |text| && text[offset] == ch && ch !in {';', ' '}
    ensures Cursor(text, start, offset + 1, keyStart', keyLength', valueStart')
  {
    keyStart', keyLength', valueStart' := keyStart, keyLength, valueStart;
    var isEndOfKey := keyLength == 0 && ch == '=';
    if keyStart == 0 {
      keyStart' := offset;
    } else if keyLength != 0 && valueStart == 0 {
      valueStart' := offset;
    }
    if isEndOfKey {
      keyLength' := offset - keyStart';
    }
    CursorMoves(text, start, offset, keyStart, keyLength, valueStart, keyLength', valueStart');
  }

  /** A turn at the end of an option. */
  method ReadEnd(
    options: seq<CommandOption>, line: string, length: nat, offset: nat, keyStart: nat, keyLength: nat, valueStart: nat,
    ghost text: string, ghost start: nat, ghost all: Parsed<(seq<CommandOption>, string)>)
    returns (r: Parsed<seq<CommandOption>>, offset': nat)
    requires 0 < offset <= length < |line| && AreNamed(options) && text == line[..length]
    requires offset < length ==> line[offset] in {';', ' '}
    requires Cursor(text, start, offset, keyStart, keyLength, valueStart) && all == Options(text[start..], options)
    ensures r.Ok? ==> AreNamed(r.value)
    ensures offset' == if offset == length then offset else offset + 1
    ensures !r.Ok? ==> SameError(r, all)
    ensures r.Ok? && (offset == length || line[offset] == ' ') ==> all == Ok((r.value, text[offset'..]))
    ensures r.Ok? && offset < length && line[offset] == ';' ==> all == Options(text[offset + 1..], r.value)
  {
    var keyStart', valueStart' := keyStart, valueStart;
    if keyStart == 0 {
      keyStart' := offset;
    } else if keyLength != 0 && valueStart == 0 {
      valueStart' := offset;
    }
    r := EndOption(options, line, length, keyStart', keyLength, valueStart', offset, text, all);
    offset' := offset;
    if offset < length {
      offset' := offset + 1;
    } else {
      NothingBehind(text);
    }
  }

  /** Reads options from a place in a line on; also gives the place where the parameters start. */
  method ParseOptions(line: string, length: nat, from: nat) returns (r: Parsed<seq<CommandOption>>, end: nat)
    requires 0 < from <= length < |line|
    ensures r.Ok? ==>
              from <= end <= length && Options(line[..length][from..], []) == Ok((r.value, line[..length][end..]))
    ensures !r.Ok? ==> SameError(r, Options(line[..length][from..], []))
  {
    ghost var text := line[..length];
    ghost var start: nat, all := from, Options(text[from..], []);
    var options: seq<CommandOption> := [];
    var offset: nat, atEnd := from, false;
    var keyStart: nat, keyLength: nat, valueStart: nat := 0, 0, 0;
    while offset <= length
      invariant from <= offset <= length && AreNamed(options)
      invariant Cursor(text, start, offset, keyStart, keyLength, valueStart)
      invariant start <= length && all == Options(text[start..], options)
      decreases length - offset
    {
      r, keyStart, keyLength, valueStart, offset, atEnd, start :=
        ReadCharacter(options, line, length, offset, keyStart, keyLength, valueStart, text, start, all);
      if !r.Ok? {
        return r, 0;
      }
      if atEnd {
        return r, offset;
      }
      options := r.value;
    }
    assert false;
  }

  lemma {:induction false} NothingBehind(text: string)
    ensures text[|text|..] == ""
  {
  }

  lemma {:induction false} AfterParameter(text: string, s: nat, offset: nat)
    requires s <= offset <= |text| && Without(text[s..offset], {';'}) && (offset < |text| ==> text[offset] == ';')
    ensures Split(text[s..]) == [text[s..offset]] + if offset == |text| then [] else Split(text[offset + 1..])
  {
    assert text[s..] == text[s..offset] + text[offset..] && text[s..][..offset - s] == text[s..offset];
    PartEndIs(text[s..offset], text[offset..], {';'});
    if offset < |text| {
      assert text[s..][offset - s + 1..] == text[offset + 1..];
    } else {
      assert text[s..] == text[s..offset];
    }
  }

  lemma {:induction false} OneMoreParameter(
    before: seq<string>, line: string, length: nat, s: nat, offset: nat, all: seq<string>)
    requires s <= offset <= length < |line| && (offset < length ==> line[offset] == ';')
    requires forall i :: s <= i < offset ==> line[i] != ';'
    requires before + Split(line[..length][s..]) == all
    ensures offset == length ==> before + [line[s..offset]] == all
    ensures offset < length ==> before + [line[s..offset]] + Split(line[..length][offset + 1..]) == all
  {
    var text := line[..length];
    assert text[s..offset] == line[s..offset];
    AfterParameter(text, s, offset);
    assert [text[s..offset]] + [] == [text[s..offset]];
  }

  /** What the loop over the parameters knows of the one that starts at `start`, up to `offset`. */
  ghost predicate InParameter(line: string, length: nat, start: nat, offset: nat, parameterStart: nat) {
    && start <= offset <= length < |line| && start == StartOf(offset, parameterStart)
    && (parameterStart != 0 ==> parameterStart < offset)
    && forall i :: start <= i < offset ==> line[i] != ';'
  }

  /** One turn of that loop. */
  method ReadParameter(
    parameters: seq<string>, line: string, length: nat, offset: nat, parameterStart: nat,
    ghost start: nat, ghost all: seq<string>)
    returns (parameters': seq<string>, parameterStart': nat, ghost start': nat)
    requires 0 < offset && InParameter(line, length, start, offset, parameterStart)
    requires parameters + Split(line[..length][start..]) == all
    ensures offset == length ==> parameters' == all
    ensures offset < length ==> InParameter(line, length, start', offset + 1, parameterStart') && start <= start'
    ensures offset < length ==> parameters' + Split(line[..length][start'..]) == all
  {
    parameters', parameterStart', start' := parameters, parameterStart, start;
    var isEndOfParameter := offset == length || line[offset] == ';';
    if parameterStart == 0 {
      parameterStart' := offset;
    }
    if isEndOfParameter {
      OneMoreParameter(parameters, line, length, start, offset, all);
      parameters' := parameters + [line[parameterStart'..offset]];
      parameterStart', start' := 0, offset + 1;
    }
  }

  /** Splits the rest of a line into parameters. */
  method ParseParameters(line: string, length: nat, from: nat) returns (parameters: seq<string>)
    requires 0 < from <= length < |line|
    ensures parameters == Split(line[..length][from..])
  {
    ghost var start: nat, all := from, Split(line[..length][from..]);
    parameters := [];
    var offset, parameterStart: nat := from, 0;
    while offset <= length
      invariant from <= offset && InParameter(line, length, start, offset, parameterStart)
      invariant parameters + Split(line[..length][start..]) == all
      decreases length - offset
    {
      var isEndOfLine := offset == length;
      parameters, parameterStart, start := ReadParameter(parameters, line, length, offset, parameterStart, start, all);
      if isEndOfLine {
        return;
      }
      offset := offset + 1;
    }
    assert false;
  }

  /** Parses the first `length` characters of a line; what follows them makes no difference. */
  method ParseRequest(line: string, length: int) returns (r: Parsed<Request>)
    requires 0 <= length ==> length < |line|
    ensures r == if length < 0 then Unspecific else Parse(line[..length])
  {
    if length < 0 {
      return Unspecific;
    }
    if length < MINIMUM_LENGTH {
      return InvalidSyntax;
    }
    if line[4] != ' ' {
      return InvalidSyntax;
    }
    if length > MINIMUM_LENGTH && line[MINIMUM_LENGTH] != ' ' && line[MINIMUM_LENGTH] != ';' {
      return InvalidSyntax;
    }
    var channel := StringToChannelId(line);
    assert line[..length][..4] == line[..4];
    if channel == BAD_CHANNEL_ID {
      return InvalidSyntax;
    }
    var commandName := line[5..MINIMUM_LENGTH];
    assert line[..length][5..MINIMUM_LENGTH] == commandName;
    var tail := ParseTail(line, length);
    match tail
    case Ok(parts) => r := Ok(Request(channel, commandName, parts.0, parts.1));
    case Unspecific => r := Unspecific;
    case InvalidSyntax => r := InvalidSyntax;
    case DuplicateOption => r := DuplicateOption;
  }

  /** The options and parameters of a line whose name of the command ends where it should. */
  method ParseTail(line: string, length: nat) returns (r: Parsed<(seq<CommandOption>, seq<string>)>)
    requires MINIMUM_LENGTH <= length < |line|
    requires length > MINIMUM_LENGTH ==> line[MINIMUM_LENGTH] == ' ' || line[MINIMUM_LENGTH] == ';'
    ensures r == Tail(line[..length][MINIMUM_LENGTH..])
  {
    var offset := MINIMUM_LENGTH + 1;
    var options: seq<CommandOption> := [];
    ghost var tail := line[..length][MINIMUM_LENGTH..];
    assert length > MINIMUM_LENGTH ==> tail[0] == line[MINIMUM_LENGTH] && tail[1..] == line[..length][offset..];
    var hasOptions := line[MINIMUM_LENGTH] == ';';
    if hasOptions && offset <= length {
      var parsed, end := ParseOptions(line, length, offset);
      match parsed
      case Ok(read) => options, offset := read, end;
      case Unspecific => return Unspecific;
      case InvalidSyntax => return InvalidSyntax;
      case DuplicateOption => return DuplicateOption;
    }
    var parameters: seq<string> := [];
    if offset <= length {
      parameters := ParseParameters(line, length, offset);
    }
    r := Ok((options, parameters));
  }

  /** Where the first option of a given name is in a list, compared as C strings; the length of the list without any. */
  function FirstNamed(options: seq<CommandOption>, name: string): (i: nat)
    ensures i <= |options|
    ensures i < |options| ==> CString(options[i].name) == CString(name)
    ensures forall j :: 0 <= j < i ==> CString(options[j].name) != CString(name)
  {
    if options == [] || CString(options[0].name) == CString(name) then 0 else 1 + FirstNamed(options[1..], name)
  }

  method HasOption(request: Request, name: string) returns (found: bool)
    ensures found <==> FirstNamed(request.options, name) < |request.options|
  {
    for i := 0 to |request.options|
      invariant forall j :: 0 <= j < i ==> CString(request.options[j].name) != CString(name)
    {
      if CString(request.options[i].name) == CString(name) {
        return true;
      }
    }
    found := false;
  }

  method GetOption(request: Request, name: string, defaultValue: string) returns (value: string)
    ensures var i := FirstNamed(request.options, name);
            value == if i < |request.options| then request.options[i].value else defaultValue
  {
    var i := 0;
    while i < |request.options| && CString(request.options[i].name) != CString(name)
      invariant i <= |request.options|
      invariant forall j :: 0 <= j < i ==> CString(request.options[j].name) != CString(name)
    {
      i := i + 1;
    }
    if i < |request.options| {
      return request.options[i].value;
    }
    value := defaultValue;
  }

  predicate IsAmong(name: string, names: seq<string>) {
    exists j :: 0 <= j < |names| && CString(names[j]) == CString(name)
  }

  method HasOnlyOptions(request: Request, names: seq<string>) returns (only: bool)
    ensures only <==> forall i :: 0 <= i < |request.options| ==> IsAmong(request.options[i].name, names)
  {
    for i := 0 to |request.options|
      invariant forall k :: 0 <= k < i ==> IsAmong(request.options[k].name, names)
    {
      var found := false;
      for j := 0 to |names|
        invariant !found && forall k :: 0 <= k < j ==> CString(names[k]) != CString(request.options[i].name)
      {
        if CString(request.options[i].name) == CString(names[j]) {
          found := true;
          break;
        }
      }
      if !found {
        return false;
      }
    }
    only := true;
  }
}
