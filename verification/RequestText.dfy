/** The text of a request and what it stands for. */
module RequestText {
  import opened ChannelIds
  import opened Texts

  /** Channel ID, a space, and the name of the command. */
  const MINIMUM_LENGTH: nat := 9

  datatype CommandOption = CommandOption(name: string, value: string)

  datatype Request = Request(channel: nat, command: string, options: seq<CommandOption>, parameters: seq<string>)

  datatype Parsed<+T> = Ok(value: T) | Unspecific | InvalidSyntax | DuplicateOption

  /** Parts separated by semicolons. */
  function Split(text: string): (parts: seq<string>)
    ensures parts != []
  {
    var end := PartEnd(text, {';'});
    if end == |text| then [text] else [text[..end]] + Split(text[end + 1..])
  }

  /** Where the name of an option ends: at the first equals sign, except one the option starts with. */
  function NameEnd(option: string): (end: nat)
    ensures end <= |option|
  {
    if option == "" then 0 else 1 + PartEnd(option[1..], {'='})
  }

  /** A string as C sees it: up to the first NUL. */
  function CString(s: string): string {
    if s == "" || s[0] == NUL then "" else [s[0]] + CString(s[1..])
  }

  /** Whether a name is refused as a duplicate: only one with an embedded NUL is, and never due to the last option. */
  predicate Seen(options: seq<CommandOption>, name: string) {
    NUL in name && exists j :: 0 <= j < |options| - 1 && CString(options[j].name) == CString(name)
  }

  /** An option, unless it has no name or no value. */
  function ToOption(text: string): Parsed<CommandOption> {
    var k := NameEnd(text);
    if k == |text| then InvalidSyntax else Ok(CommandOption(text[..k], text[k + 1..]))
  }

  /** The options at the start of a text, after those already read, and the text that follows them. */
  function Options(text: string, before: seq<CommandOption>): Parsed<(seq<CommandOption>, string)>
    decreases |text|
  {
    var end := PartEnd(text, {';', ' '});
    var option := ToOption(text[..end]);
    if !option.Ok? then InvalidSyntax
    else if Seen(before, option.value.name) then DuplicateOption
    else
      var options := before + [option.value];
      if end == |text| then Ok((options, ""))
      else if text[end] == ' ' then Ok((options, text[end + 1..]))
      else Options(text[end + 1..], options)
  }

  /** What follows the name of the command. */
  function Tail(text: string): Parsed<(seq<CommandOption>, seq<string>)> {
    if text == "" then Ok(([], []))
    else if text[0] == ' ' then Ok(([], Split(text[1..])))
    else if text[0] == ';' then
      match Options(text[1..], [])
      case Ok(r) => Ok((r.0, Split(r.1)))
      case Unspecific => Unspecific
      case InvalidSyntax => InvalidSyntax
      case DuplicateOption => DuplicateOption
    else InvalidSyntax
  }

  /** What a line stands for. */
  function Parse(text: string): Parsed<Request> {
    if |text| < MINIMUM_LENGTH || text[4] != ' ' || IdOf(text[..4]) == BAD_CHANNEL_ID then InvalidSyntax
    else
      match Tail(text[MINIMUM_LENGTH..])
      case Ok(r) => Ok(Request(IdOf(text[..4]), text[5..MINIMUM_LENGTH], r.0, r.1))
      case Unspecific => Unspecific
      case InvalidSyntax => InvalidSyntax
      case DuplicateOption => DuplicateOption
  }

  function OptionsText(options: seq<CommandOption>): string {
    if options == [] then "" else ";" + options[0].name + "=" + options[0].value + OptionsText(options[1..])
  }

  function Join(parts: seq<string>): string
    requires parts != []
  {
    if |parts| == 1 then parts[0] else parts[0] + ";" + Join(parts[1..])
  }

  function ParametersText(parameters: seq<string>): string {
    if parameters == [] then "" else " " + Join(parameters)
  }

  /** The line that asks for a request. */
  function Text(r: Request): string {
    NameOf(r.channel) + " " + r.command + OptionsText(r.options) + ParametersText(r.parameters)
  }

  predicate GoodOption(option: CommandOption) {
    && option.name != "" && Without(option.name, {';', ' '}) && Without(option.name[1..], {'='})
    && Without(option.value, {';', ' '})
  }

  /** Whether some option is refused as a duplicate of those before it. */
  predicate AnyRefused(before: seq<CommandOption>, options: seq<CommandOption>)
    decreases |options|
  {
    options != [] && (Seen(before, options[0].name) || AnyRefused(before + [options[0]], options[1..]))
  }

  predicate WellFormed(r: Request) {
    && IsId(r.channel) && |r.command| == 4
    && (forall i :: 0 <= i < |r.options| ==> GoodOption(r.options[i]))
    && (forall i :: 0 <= i < |r.parameters| ==> Without(r.parameters[i], {';'}))
  }

  lemma {:induction false} SplitOfJoin(parts: seq<string>)
    requires parts != [] && forall i :: 0 <= i < |parts| ==> Without(parts[i], {';'})
    ensures Split(Join(parts)) == parts
  {
    if |parts| == 1 {
      PartEndIs(parts[0], "", {';'});
      assert parts[0] + "" == parts[0];
    } else {
      var more := ";" + Join(parts[1..]);
      PartEndIs(parts[0], more, {';'});
      SplitOfJoin(parts[1..]);
      assert Join(parts) == parts[0] + more;
      assert Join(parts)[..|parts[0]|] == parts[0] && Join(parts)[|parts[0]| + 1..] == Join(parts[1..]);
    }
  }

  lemma {:induction false} ToOptionOfText(option: CommandOption)
    requires GoodOption(option)
    ensures ToOption(option.name + "=" + option.value) == Ok(option)
  {
    var text := option.name + "=" + option.value;
    PartEndIs(option.name[1..], "=" + option.value, {'='});
    assert text[1..] == option.name[1..] + ("=" + option.value);
    assert text[..|option.name|] == option.name && text[|option.name| + 1..] == option.value;
  }

  /** Reading the options that were written, up to the parameters. */
  lemma {:induction false} OptionsOfText(before: seq<CommandOption>, options: seq<CommandOption>, rest: string)
    requires options != [] && forall i :: 0 <= i < |options| ==> GoodOption(options[i])
    requires rest == "" || rest[0] == ' '
    ensures Options((OptionsText(options) + rest)[1..], before) ==
            if AnyRefused(before, options) then DuplicateOption
            else Ok((before + options, if rest == "" then "" else rest[1..]))
    decreases |options|
  {
    if |options| == 1 {
      LastOption(before, options, rest);
    } else {
      FirstOption(options, rest);
      OptionThenMore(options[0], OptionsText(options[1..]) + rest, before);
      OptionsOfText(before + [options[0]], options[1..], rest);
      OneByOne(before, options);
    }
  }

  lemma {:induction false} OneByOne<T>(before: seq<T>, options: seq<T>)
    requires options != []
    ensures before + [options[0]] + options[1..] == before + options
  {
  }

  lemma {:induction false} LastOption(before: seq<CommandOption>, options: seq<CommandOption>, rest: string)
    requires |options| == 1 && GoodOption(options[0]) && (rest == "" || rest[0] == ' ')
    ensures Options((OptionsText(options) + rest)[1..], before) ==
            if AnyRefused(before, options) then DuplicateOption
            else Ok((before + options, if rest == "" then "" else rest[1..]))
  {
    FirstOption(options, rest);
    assert OptionsText(options[1..]) + rest == rest && [options[0]] == options;
    OptionThenMore(options[0], rest, before);
  }

  lemma {:induction false} FirstOption(options: seq<CommandOption>, rest: string)
    requires options != [] && (rest == "" || rest[0] == ' ')
    ensures var more := OptionsText(options[1..]) + rest;
            && (OptionsText(options) + rest)[1..] == (options[0].name + "=" + options[0].value) + more
            && (more == "" || more[0] == if |options| > 1 then ';' else ' ')
  {
    var written := options[0].name + "=" + options[0].value;
    assert OptionsText(options) == ";" + written + OptionsText(options[1..]);
  }

  /** One step of reading options. */
  lemma {:induction false} OptionThenMore(option: CommandOption, more: string, before: seq<CommandOption>)
    requires GoodOption(option) && (more == "" || more[0] in {';', ' '})
    ensures Options(option.name + "=" + option.value + more, before) ==
            if Seen(before, option.name) then DuplicateOption
            else if more == "" then Ok((before + [option], ""))
            else if more[0] == ' ' then Ok((before + [option], more[1..]))
            else Options(more[1..], before + [option])
  {
    ToOptionOfText(option);
    WrittenThenMore(option.name + "=" + option.value, option, more, before);
  }

  lemma {:induction false} WrittenThenMore(
    written: string, option: CommandOption, more: string, before: seq<CommandOption>)
    requires Without(written, {';', ' '}) && ToOption(written) == Ok(option)
    requires more == "" || more[0] in {';', ' '}
    ensures Options(written + more, before) ==
            if Seen(before, option.name) then DuplicateOption
            else if more == "" then Ok((before + [option], ""))
            else if more[0] == ' ' then Ok((before + [option], more[1..]))
            else Options(more[1..], before + [option])
  {
    PartEndIs(written, more, {';', ' '});
    TakenApart(written, more);
  }

  lemma {:induction false} TakenApart(written: string, more: string)
    ensures (written + more)[..|written|] == written
    ensures more != "" ==> (written + more)[|written|] == more[0] && (written + more)[|written| + 1..] == more[1..]
  {
  }

  /**
   Parsing a well-formed request that was written as a line gives the request back, except that options without
   parameters come back with one empty parameter; so it does if and only if there are parameters or no options, and
   no option is refused as a duplicate, which none is without a NUL in a name.
   */
  lemma {:induction false} RoundTrip(r: Request)
    requires WellFormed(r)
    ensures Parse(Text(r)) ==
            if AnyRefused([], r.options) then DuplicateOption
            else Ok(if r.options != [] && r.parameters == [] then r.(parameters := [""]) else r)
    ensures Parse(Text(r)) == Ok(r) <==> !AnyRefused([], r.options) && (r.options == [] || r.parameters != [])
    ensures (forall i :: 0 <= i < |r.options| ==> NUL !in r.options[i].name) ==> !AnyRefused([], r.options)
  {
    if forall i :: 0 <= i < |r.options| ==> NUL !in r.options[i].name {
      NoneRefused([], r.options);
    }
    IdOfNameOf(r.channel);
    Layout(NameOf(r.channel), r.command, OptionsText(r.options), ParametersText(r.parameters));
    TailOfText(r.options, r.parameters);
  }

  lemma {:induction false} NoneRefused(before: seq<CommandOption>, options: seq<CommandOption>)
    requires forall i :: 0 <= i < |options| ==> NUL !in options[i].name
    ensures !AnyRefused(before, options)
    decreases |options|
  {
    if options != [] {
      NoneRefused(before + [options[0]], options[1..]);
    }
  }

  lemma {:induction false} Layout(name: string, command: string, options: string, parameters: string)
    requires |name| == 4 && |command| == 4
    ensures var text := name + " " + command + options + parameters;
            && |text| >= 9 && text[4] == ' '
            && text[..4] == name && text[5..9] == command && text[9..] == options + parameters
  {
  }

  lemma {:induction false} TailOfText(options: seq<CommandOption>, parameters: seq<string>)
    requires forall i :: 0 <= i < |options| ==> GoodOption(options[i])
    requires forall i :: 0 <= i < |parameters| ==> Without(parameters[i], {';'})
    ensures Tail(OptionsText(options) + ParametersText(parameters)) ==
            if AnyRefused([], options) then DuplicateOption
            else Ok((options, if options != [] && parameters == [] then [""] else parameters))
  {
    var rest := ParametersText(parameters);
    var tail := OptionsText(options) + rest;
    if parameters != [] {
      SplitOfJoin(parameters);
      assert rest[1..] == Join(parameters);
    }
    if options != [] {
      OptionsOfText([], options, rest);
      assert tail[0] == ';' && [] + options == options;
    } else {
      assert tail == rest;
    }
  }

  /** Options given twice are not refused, although there is an error code for that. */
  lemma {:induction false} DuplicateAccepted(r: Request)
    requires r.options == [CommandOption("a", "1"), CommandOption("a", "2")] && r.parameters == [""]
    requires IsId(r.channel) && |r.command| == 4
    ensures Parse(Text(r)) == Ok(r)
  {
    assert forall i :: 0 <= i < |r.options| ==> GoodOption(r.options[i]) && NUL !in r.options[i].name;
    RoundTrip(r);
  }

  /** Options are only ever refused as duplicates in a line with a NUL in it. */
  lemma {:induction false} RefusedHasNul(text: string, before: seq<CommandOption>)
    requires Options(text, before).DuplicateOption?
    ensures NUL in text
    decreases |text|
  {
    var end := PartEnd(text, {';', ' '});
    var option := ToOption(text[..end]);
    var name := option.value.name;
    if Seen(before, name) {
      var i :| 0 <= i < |name| && name[i] == NUL;
      assert text[i] == NUL;
    } else {
      RefusedHasNul(text[end + 1..], before + [option.value]);
    }
  }
}
