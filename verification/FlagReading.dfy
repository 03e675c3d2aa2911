/** What a command line means, read directly: splitting and parsing it gives the same (cmd/upbrr/cli_options.go). */
module FlagReading {
  import opened Text
  import opened FlagArgs
  import opened FlagMeaning

  /** The flags that a command line sets, with their values, and its paths. */
  datatype Command = Command(assignments: seq<Assignment>, paths: seq<string>)

  const LANGUAGES_FLAG := "hardcoded-subtitle-languages"
  const TRUE_WORDS := ["1", "t", "T", "TRUE", "true", "True"]
  const FALSE_WORDS := ["0", "f", "F", "FALSE", "false", "False"]

  /** `name` is set to `value`, before what `rest` says. */
  function Sets(t: Table, name: string, value: string, rest: Result<Command>): Result<Command> {
    if name !in t.flags || !t.accepts(name, value) || rest.Err? then Err
    else Ok(rest.value.(assignments := [Assignment(Canonical(t, name), value)] + rest.value.assignments))
  }

  /** Text is in parentheses or not, and names full or forced subtitles. */
  predicate NamesCoverage(s: string) { Lower(TrimParens(s)) in ["full", "forced"] }

  /**
   * A flag is written with one or two dashes, `console-log-level` with two only. Its value is attached or, unless it is
   * boolean, the next argument; -hc is on, or has the boolean behind it, or the languages. All else is a path.
   */
  function Read(t: Table, args: seq<string>): Result<Command>
    decreases |args|
  {
    if args == [] then Ok(Command([], []))
    else if args[0] == "--" then Ok(Command([], args[1..]))
    else if !IsFlag(args[0]) then
      match Read(t, args[1..])
      case Err => Err
      case Ok(c) => Ok(c.(paths := [args[0]] + c.paths))
    else
      var name := HeadName(args[0]);
      if name in ["help", "h"] || Dashes(args[0]) > 2 || (Dashes(args[0]) == 1 && name == "console-log-level") then Err
      else if name == "hc" then ReadHc(t, args)
      else if name !in t.flags then Err
      else if '=' in args[0] then Sets(t, name, AttachedValue(args[0]), Read(t, args[1..]))
      else if t.flags[name].isBool then Sets(t, name, "true", Read(t, args[1..]))
      else if |args| == 1 then Err
      else Sets(t, name, args[1], Read(t, args[2..]))
  }

  function ReadHc(t: Table, args: seq<string>): Result<Command>
    requires args != []
    decreases |args|, 0
  {
    if '=' in args[0] then
      var value := AttachedValue(args[0]);
      if value in TRUE_WORDS || value in FALSE_WORDS then Sets(t, "hc", value, Read(t, args[1..]))
      else Sets(t, "hc", "true", Sets(t, LANGUAGES_FLAG, value, Read(t, args[1..])))
    else if |args| == 1 || HasPrefix(args[1], "-") then Sets(t, "hc", "true", Read(t, args[1..]))
    else if args[1] in TRUE_WORDS then Sets(t, "hc", "true", Read(t, args[2..]))
    else if args[1] in FALSE_WORDS then Sets(t, "hc", "false", Read(t, args[2..]))
    else if t.knownLanguage(args[1]) && |args| > 2 && NamesCoverage(args[2]) then
      Sets(t, "hc", "true", Sets(t, LANGUAGES_FLAG, args[1] + " " + TrimParens(args[2]), Read(t, args[3..])))
    else if t.knownLanguage(args[1]) || args[1] == "" then
      Sets(t, "hc", "true", Sets(t, LANGUAGES_FLAG, args[1], Read(t, args[2..])))
    else Sets(t, "hc", "true", Read(t, args[1..]))
  }

  /** What splitting and parsing a command line gives. */
  ghost predicate Agrees(t: Table, args: seq<string>, command: Result<Command>) {
    match command
    case Err => Parse(t, Partition(t, args).0).Err?
    case Ok(c) => Parse(t, Partition(t, args).0) == Ok(c.assignments) && Partition(t, args).1 == c.paths
  }

  // ---- One flag in front of a vector ----

  lemma {:induction false} ParseLone(t: Table, token: string, flags: seq<string>)
    requires !TakesValue(t, token)
    ensures Parse(t, [token] + flags) ==
      if !Assigns(t, [token]) || Parse(t, flags).Err? then Err
      else Ok([Assignment(Canonical(t, HeadName(token)), GroupValue([token]))] + Parse(t, flags).value)
  {
    hide Assigns, GroupValue, HeadName, TakesValue, Canonical;
    var all := [token] + flags;
    assert Width(t, all) == 1 && all[..1] == [token] && all[1..] == flags;
  }

  lemma {:induction false} ParsePair(t: Table, token: string, value: string, flags: seq<string>)
    requires TakesValue(t, token)
    ensures Parse(t, [token, value] + flags) ==
      if !Assigns(t, [token, value]) || Parse(t, flags).Err? then Err
      else Ok([Assignment(Canonical(t, HeadName(token)), value)] + Parse(t, flags).value)
  {
    hide Assigns, HeadName, Canonical, AttachedValue;
    var all := [token, value] + flags;
    assert Width(t, all) == 2 && all[..2] == [token, value] && all[2..] == flags;
  }

  lemma {:induction false} ParseEndsLacking(t: Table, token: string)
    requires TakesValue(t, token)
    ensures Parse(t, [token]) == Err
  {
    hide Assigns, HeadName, TakesValue;
  }

  /** A flag as it is spelled after normalizing: two dashes, same name, same value. */
  lemma {:induction false} SpelledWell(t: Table, arg: string)
    requires IsFlag(arg) && arg != "--"
    ensures var n := Normalized(arg);
      && HeadName(n) == HeadName(arg) && AttachedValue(n) == AttachedValue(arg) && ('=' in n <==> '=' in arg)
      && (Dashes(n) == 2 <==> Dashes(arg) == 2 || (Dashes(arg) == 1 && HeadName(arg) != "console-log-level"))
      && Dashes(arg) >= 1 && (TakesValue(t, n) <==> TakesValue(t, arg))
  {
    hide Equals;
    NormalizedAgain(arg);
    var n := Normalized(arg);
    if n != arg {
      assert n[0] == '-' && n[1..] == arg;
    }
  }

  /** The flags that stand for -hc. */
  lemma {:induction false} HcTokens(t: Table, value: string)
    requires ValidTable(t)
    ensures HcSays(t, "--hc", "true") && HcSays(t, "--hc=true", "true") && HcSays(t, "--hc=false", "false")
    ensures var token := HC_LANGUAGES + value;
      && !TakesValue(t, token) && HeadName(token) == LANGUAGES_FLAG && Dashes(token) == 2 && GroupValue([token]) == value
  {
    hide HcSays, HeadName, Dashes, GroupValue, TakesValue;
    assert "--hc" + "" == "--hc" && "--hc" + "=true" == "--hc=true" && "--hc" + "=false" == "--hc=false";
    assert "=true"[1..] == "true" && "=false"[1..] == "false";
    HcToken(t, "");
    HcToken(t, "=true");
    HcToken(t, "=false");
    LanguagesToken(t, value);
  }

  predicate HcSays(t: Table, token: string, value: string) {
    !TakesValue(t, token) && HeadName(token) == "hc" && Dashes(token) == 2 && GroupValue([token]) == value
  }

  /** A flag with two dashes and an attached value. */
  lemma {:induction false} AttachedToken(t: Table, name: string, value: string)
    requires name != "" && name[0] != '-' && '=' !in name
    ensures var token := "--" + name + ("=" + value);
      && !TakesValue(t, token) && HeadName(token) == name && Dashes(token) == 2 && GroupValue([token]) == value
  {
    hide Bare, Equals, AttachedValue, HeadName, Normalized, IsFlag, Dashes;
    var suffix := "=" + value;
    LongToken(name, suffix);
    LongDashes(name + suffix);
    assert "--" + name + suffix == "--" + (name + suffix);
    assert suffix[1..] == value;
  }

  lemma {:induction false} LanguagesToken(t: Table, value: string)
    ensures var token := HC_LANGUAGES + value;
      && !TakesValue(t, token) && HeadName(token) == LANGUAGES_FLAG && Dashes(token) == 2 && GroupValue([token]) == value
  {
    hide HeadName, Dashes, GroupValue, TakesValue;
    Attached(LANGUAGES_FLAG, value);
    AttachedToken(t, LANGUAGES_FLAG, value);
  }

  lemma {:induction false} HcToken(t: Table, suffix: string)
    requires ValidTable(t) && suffix in ["", "=true", "=false"]
    ensures HcSays(t, "--hc" + suffix, if suffix == "" then "true" else suffix[1..])
  {
    hide Bare, Equals, AttachedValue, HeadName, Normalized, IsFlag, Dashes;
    LongToken("hc", suffix);
    LongDashes("hc" + suffix);
    assert "--hc" + suffix == "--" + "hc" + suffix == "--" + ("hc" + suffix);
  }

  /** The words of strconv.ParseBool. */
  lemma BooleanWords(s: string)
    ensures ParseBool(s) == if s in TRUE_WORDS then Some(true) else if s in FALSE_WORDS then Some(false) else None
  {
  }

  // ---- Every command line ----

  /** A flag other than -hc. */
  lemma {:induction false} PlainFlagAgrees(t: Table, args: seq<string>)
    requires ValidTable(t) && args != [] && IsFlag(args[0]) && args[0] != "--" && !IsHelp(args[0])
    requires HeadName(args[0]) != "hc" && HeadName(args[0]) !in ["help", "h"]
    requires Agrees(t, args[1..], Read(t, args[1..])) && (|args| > 1 ==> Agrees(t, args[2..], Read(t, args[2..])))
    ensures Agrees(t, args, Read(t, args))
  {
    hide IsFlag, IsHelp, HeadName, AttachedValue, Normalized, Dashes, Partition, Group, Parse, Canonical;
    var token := Normalized(args[0]);
    SpelledWell(t, args[0]);
    PartitionFlag(t, args);
    PlainGroup(t, args);
    if TakesValue(t, args[0]) {
      if |args| > 1 {
        ParsePair(t, token, args[1], Partition(t, args[2..]).0);
      } else {
        PartitionFirst(t, []);
        assert [token] + [] == [token] && args[1..] == [];
        ParseEndsLacking(t, token);
      }
    } else {
      ParseLone(t, token, Partition(t, args[1..]).0);
    }
  }

  lemma {:induction false} HcAgrees(t: Table, args: seq<string>)
    requires ValidTable(t) && args != [] && IsFlag(args[0]) && args[0] != "--" && !IsHelp(args[0])
    requires HeadName(args[0]) == "hc" && Dashes(args[0]) <= 2
    requires Agrees(t, args[1..], Read(t, args[1..])) && (|args| > 1 ==> Agrees(t, args[2..], Read(t, args[2..])))
    requires |args| > 2 ==> Agrees(t, args[3..], Read(t, args[3..]))
    ensures Agrees(t, args, ReadHc(t, args))
  {
    hide IsFlag, IsHelp, HeadName, AttachedValue, Normalized, Dashes, Partition, Parse, Canonical, ParseBool,
      TrimParens, Lower, GroupValue, TakesValue, Read;
    SpelledWell(t, args[0]);
    PartitionFlag(t, args);
    HcIsBare(args[0]);
    HcHasNoValue(t, args[0]);
    if '=' in args[0] {
      var value := AttachedValue(args[0]);
      BooleanWords(value);
      HcTokens(t, value);
      AttachedIsValue(Normalized(args[0]));
      LanguagesAgree(t, value, Partition(t, args[1..]).0);
      ParseLone(t, Normalized(args[0]), Partition(t, args[1..]).0);
    } else {
      BareIsTrue(Normalized(args[0]));
      ParseLone(t, Normalized(args[0]), Partition(t, args[1..]).0);
      if |args| > 1 && !HasPrefix(args[1], "-") {
        BooleanWords(args[1]);
        HcTokens(t, args[1]);
        ParseLone(t, "--hc=true", Partition(t, args[2..]).0);
        ParseLone(t, "--hc=false", Partition(t, args[2..]).0);
        LanguagesAgree(t, args[1], Partition(t, args[2..]).0);
        if |args| > 2 {
          LanguagesAgree(t, args[1] + " " + TrimParens(args[2]), Partition(t, args[3..]).0);
          assert HC_LANGUAGES + (args[1] + " " + TrimParens(args[2]))
            == HC_LANGUAGES + args[1] + " " + TrimParens(args[2]);
        }
      }
    }
  }

  /** -hc and the languages, in front of other flags. */
  lemma {:induction false} LanguagesAgree(t: Table, value: string, flags: seq<string>)
    requires ValidTable(t)
    ensures Parse(t, ["--hc", HC_LANGUAGES + value] + flags) ==
      if "hc" !in t.flags || !t.accepts("hc", "true") || LANGUAGES_FLAG !in t.flags || !t.accepts(LANGUAGES_FLAG, value)
         || Parse(t, flags).Err? then Err
      else
        Ok([Assignment(Canonical(t, "hc"), "true")]
           + ([Assignment(Canonical(t, LANGUAGES_FLAG), value)] + Parse(t, flags).value))
  {
    hide HeadName, Dashes, GroupValue, TakesValue, Canonical, Parse;
    HcTokens(t, value);
    var rest := [HC_LANGUAGES + value] + flags;
    assert ["--hc", HC_LANGUAGES + value] + flags == ["--hc"] + rest;
    ParseLone(t, "--hc", rest);
    ParseLone(t, HC_LANGUAGES + value, flags);
  }

  lemma HcIsBare(arg: string)
    requires Dashes(arg) <= 2
    ensures !HasPrefix(arg, "---")
  {
    hide Dashes;
    ManyDashes(arg);
  }

  lemma HcHasNoValue(t: Table, arg: string)
    requires ValidTable(t) && HeadName(arg) == "hc"
    ensures !TakesValue(t, arg)
  {
  }

  lemma AttachedIsValue(token: string)
    requires '=' in token
    ensures GroupValue([token]) == AttachedValue(token)
  {
  }

  lemma BareIsTrue(token: string)
    requires '=' !in token
    ensures GroupValue([token]) == "true"
  {
  }

  /**
   * For every command line, splitting it into flags and paths and parsing the flags gives what reading it directly
   * gives: the same values for the same flags in the same order and the same paths, or an error in both cases.
   */
  lemma {:induction false} SplitThenParseIsRead(t: Table, args: seq<string>)
    requires ValidTable(t) && "help" !in t.flags
    ensures Agrees(t, args, Read(t, args))
    decreases |args|
  {
    hide IsFlag, IsHelp, HeadName, Dashes, Partition, Group, Parse, ReadHc, AttachedValue;
    PartitionFirst(t, args);
    if args == [] || args[0] == "--" {
      ParseNothing(t);
    } else {
      SplitThenParseIsRead(t, args[1..]);
      if IsFlag(args[0]) {
        if |args| > 1 { SplitThenParseIsRead(t, args[2..]); }
        if |args| > 2 { SplitThenParseIsRead(t, args[3..]); }
        FlagAgrees(t, args);
      }
    }
  }

  lemma ParseNothing(t: Table)
    ensures Parse(t, []) == Ok([])
  {
  }

  lemma {:induction false} FlagAgrees(t: Table, args: seq<string>)
    requires ValidTable(t) && "help" !in t.flags && args != [] && IsFlag(args[0]) && args[0] != "--"
    requires Agrees(t, args[1..], Read(t, args[1..])) && (|args| > 1 ==> Agrees(t, args[2..], Read(t, args[2..])))
    requires |args| > 2 ==> Agrees(t, args[3..], Read(t, args[3..]))
    ensures Agrees(t, args, Read(t, args))
  {
    hide IsFlag, HeadName, Dashes, Partition, Group, Parse, ReadHc, AttachedValue, Agrees;
    var name := HeadName(args[0]);
    if IsHelp(args[0]) {
      PartitionFirst(t, args);
      HelpDoesNotParse(t);
      HelpFails(t, args);
    } else if name == "hc" && Dashes(args[0]) <= 2 {
      HcAgrees(t, args);
    } else if name in ["help", "h", "hc"] {
      ThreeDashes(t, args);
    } else {
      PlainFlagAgrees(t, args);
    }
  }

  lemma HelpFails(t: Table, args: seq<string>)
    requires Partition(t, args) == (["--help"], []) && Parse(t, ["--help"]) == Err
    ensures Agrees(t, args, Err)
  {
  }

  /** A flag with three dashes or more never parses. */
  lemma {:induction false} ThreeDashes(t: Table, args: seq<string>)
    requires ValidTable(t) && args != [] && IsFlag(args[0]) && args[0] != "--" && !IsHelp(args[0])
    requires HeadName(args[0]) in ["help", "h"] || Dashes(args[0]) > 2
    ensures Agrees(t, args, Err)
  {
    hide IsFlag, HeadName, AttachedValue, Normalized, Partition, Group, Parse, Canonical;
    SpelledWell(t, args[0]);
    ManyDashes(args[0]);
    PartitionFlag(t, args);
    PlainGroup(t, args);
    var token := Normalized(args[0]);
    if TakesValue(t, args[0]) {
      if |args| > 1 {
        ParsePair(t, token, args[1], Partition(t, args[2..]).0);
      } else {
        PartitionFirst(t, []);
        assert [token] + [] == [token] && args[1..] == [];
        ParseEndsLacking(t, token);
      }
    } else {
      ParseLone(t, token, Partition(t, args[1..]).0);
    }
  }

  lemma ManyDashes(arg: string)
    ensures Dashes(arg) > 2 <==> HasPrefix(arg, "---")
  {
    if Dashes(arg) > 2 { assert arg[..3] == "---"; }
  }
}
