/** How upload arguments are split into flags and paths, and grouped (cmd/upbrr/cli_options.go). */
module FlagArgs {
  import opened Text

  /** `isBool` is a non-empty NoOptDefVal; `repeats` is the value type "stringArray". */
  datatype Flag = Flag(isBool: bool, repeats: bool)

  /**
   * `accepts` tells whether a value is valid for a flag; `knownLanguage` whether a list starts with a known language.
   */
  datatype Table = Table(
    flags: map<string, Flag>, aliases: map<string, string>,
    accepts: (string, string) -> bool, knownLanguage: string -> bool)

  /** The legacy alias -hc is a boolean flag. */
  predicate ValidTable(t: Table) { "hc" in t.flags && t.flags["hc"].isBool }

  // ---- One argument ----

  function Dashes(arg: string): (n: nat)
    ensures n <= |arg| && (forall i :: 0 <= i < n ==> arg[i] == '-') && (n < |arg| ==> arg[n] != '-')
  {
    if arg == "" || arg[0] != '-' then 0 else 1 + Dashes(arg[1..])
  }

  function Bare(arg: string): string { arg[Dashes(arg)..] }

  function Equals(s: string): (i: nat)
    ensures i <= |s| && '=' !in s[..i] && (i < |s| ==> s[i] == '=') && (i == |s| <==> '=' !in s)
  {
    if s == "" || s[0] == '=' then 0
    else
      var i := 1 + Equals(s[1..]);
      assert s == [s[0]] + s[1..] && s[..i] == [s[0]] + s[1..][..i - 1];
      i
  }

  function HeadName(arg: string): string { Bare(arg)[..Equals(Bare(arg))] }

  function AttachedValue(arg: string): string {
    var s := Bare(arg);
    if Equals(s) < |s| then s[Equals(s) + 1..] else ""
  }

  /** The `ok` result of normalizeLegacyFlag. */
  predicate IsFlag(arg: string) { HasPrefix(arg, "-") && HeadName(arg) != "" }

  function Normalized(arg: string): string {
    if Dashes(arg) == 1 && HeadName(arg) != "console-log-level" then "-" + arg else arg
  }

  lemma {:induction false} NormalizedAgain(arg: string)
    requires IsFlag(arg)
    ensures var n := Normalized(arg);
      Bare(n) == Bare(arg) && IsFlag(n) && Normalized(n) == n && (HasPrefix(n, "---") <==> HasPrefix(arg, "---"))
    ensures '=' in Normalized(arg) <==> '=' in arg
    ensures '=' in arg <==> '=' in Bare(arg)
  {
    hide Equals;
    var n := Normalized(arg);
    assert arg == arg[..Dashes(arg)] + Bare(arg);
    if n != arg {
      assert n[1..] == arg;
      assert Dashes(n) == 2;
      assert n == ['-'] + arg;
    }
  }

  predicate IsHelp(arg: string) {
    (HeadName(arg) == "help" || HeadName(arg) == "h") && !HasPrefix(arg, "---")
  }

  predicate TakesValue(t: Table, arg: string) {
    HeadName(arg) in t.flags && !t.flags[HeadName(arg)].isBool && '=' !in arg
  }

  // ---- The lookahead of -hc ----

  function ParseBool(s: string): Option<bool> {
    if s in ["1", "t", "T", "TRUE", "true", "True"] then Some(true)
    else if s in ["0", "f", "F", "FALSE", "false", "False"] then Some(false)
    else None
  }

  function TrimParensLeft(s: string): string {
    if s != "" && s[0] in "()" then TrimParensLeft(s[1..]) else s
  }

  function TrimParensRight(s: string): string {
    if s != "" && s[|s| - 1] in "()" then TrimParensRight(s[..|s| - 1]) else s
  }

  function TrimParens(s: string): string { TrimParensRight(TrimParensLeft(s)) }

  predicate IsParen(c: char) { c == '(' || c == ')' }

  predicate AllParens(s: string) { forall i :: 0 <= i < |s| ==> IsParen(s[i]) }

  lemma {:induction false} TrimParensFront(front: string, rest: string)
    requires AllParens(front) && (rest != "" ==> !IsParen(rest[0]))
    ensures TrimParensLeft(front + rest) == rest
    decreases |front|
  {
    var s := front + rest;
    if front == "" {
      assert s == rest;
    } else {
      assert s[1..] == front[1..] + rest;
      TrimParensFront(front[1..], rest);
    }
  }

  lemma TrimParensOne(s: string)
    requires s != ""
    ensures TrimParensRight(s) == if IsParen(s[|s| - 1]) then TrimParensRight(s[..|s| - 1]) else s
  {
  }

  lemma {:induction false} TrimParensBack(rest: string, back: string)
    requires AllParens(back) && (rest != "" ==> !IsParen(rest[|rest| - 1]))
    ensures TrimParensRight(rest + back) == rest
    decreases |back|
  {
    var s := rest + back;
    if back == "" {
      assert s == rest;
      if rest != "" { TrimParensOne(rest); }
    } else {
      var shorter := back[..|back| - 1];
      TrimParensOne(s);
      hide TrimParensRight, IsParen;
      assert s[|s| - 1] == back[|back| - 1];
      assert s[..|s| - 1] == rest + shorter;
      TrimParensBack(rest, shorter);
    }
  }

  /** The parentheses around a text go, those inside it stay. */
  lemma {:induction false} TrimParensExactly(front: string, core: string, back: string)
    requires AllParens(front) && AllParens(back)
    requires core != "" ==> !IsParen(core[0]) && !IsParen(core[|core| - 1])
    ensures TrimParens(front + core + back) == core
  {
    hide TrimParensLeft, TrimParensRight, IsParen;
    if core == "" {
      assert front + core + back == (front + back) + "";
      TrimParensFront(front + back, "");
      TrimParensBack("", "");
      assert "" + "" == "";
    } else {
      assert front + core + back == front + (core + back) && (core + back)[0] == core[0];
      TrimParensFront(front, core + back);
      TrimParensBack(core, back);
    }
  }

  predicate IsCoverage(s: string) { Lower(s) == "full" || Lower(s) == "forced" }

  predicate LooksAhead(t: Table, arg: string) {
    HeadName(arg) == "hc" && "hc" in t.flags && !HasPrefix(arg, "---")
  }

  const LANGUAGES := "hardcoded-subtitle-languages"
  const HC_LANGUAGES := "--" + LANGUAGES + "="

  /** hardcodedLanguageFlags: the replacement flags and how many arguments they stand for. */
  function HardcodedLanguage(t: Table, args: seq<string>): Option<(seq<string>, nat)>
    requires args != []
  {
    if '=' in args[0] then
      var value := AttachedValue(args[0]);
      if ParseBool(value).Some? then None else Some((["--hc", HC_LANGUAGES + value], 1))
    else if |args| < 2 || HasPrefix(args[1], "-") then None
    else match ParseBool(args[1])
      case Some(b) => Some(([if b then "--hc=true" else "--hc=false"], 2))
      case None =>
        var known := t.knownLanguage(args[1]);
        if args[1] != "" && !known then None
        else if known && |args| > 2 && IsCoverage(TrimParens(args[2])) then
          Some((["--hc", HC_LANGUAGES + args[1] + " " + TrimParens(args[2])], 3))
        else Some((["--hc", HC_LANGUAGES + args[1]], 2))
  }

  // ---- Splitting a command line ----

  /** The flag tokens that the leading flag of `args` contributes, and how many arguments it uses up. */
  function Group(t: Table, args: seq<string>): (g: (seq<string>, nat))
    requires args != [] && IsFlag(args[0])
    ensures 1 <= g.1 <= |args|
  {
    var arg := args[0];
    var lookahead :=
      if LooksAhead(t, arg) then HardcodedLanguage(t, args) else None;
    if lookahead.Some? then lookahead.value
    else if TakesValue(t, arg) && |args| > 1 then ([Normalized(arg), args[1]], 2)
    else ([Normalized(arg)], 1)
  }

  /** partitionUploadArgs */
  function Partition(t: Table, args: seq<string>): (seq<string>, seq<string>)
    decreases |args|
  {
    if args == [] then ([], [])
    else if args[0] == "--" then ([], args[1..])
    else if !IsFlag(args[0]) then
      var (flags, paths) := Partition(t, args[1..]);
      (flags, [args[0]] + paths)
    else if IsHelp(args[0]) then (["--help"], [])
    else
      var (tokens, used) := Group(t, args);
      var (flags, paths) := Partition(t, args[used..]);
      (tokens + flags, paths)
  }

  lemma {:induction false} PartitionFirst(t: Table, args: seq<string>)
    ensures args == [] ==> Partition(t, args) == ([], [])
    ensures args != [] && args[0] == "--" ==> Partition(t, args) == ([], args[1..])
    ensures args != [] && args[0] != "--" && !IsFlag(args[0]) ==>
      Partition(t, args) == (Partition(t, args[1..]).0, [args[0]] + Partition(t, args[1..]).1)
    ensures args != [] && args[0] != "--" && IsFlag(args[0]) ==>
      Partition(t, args) == if IsHelp(args[0]) then (["--help"], [])
        else (Group(t, args).0 + Partition(t, args[Group(t, args).1..]).0, Partition(t, args[Group(t, args).1..]).1)
  {
    hide Group, IsFlag, IsHelp;
  }

  method PartitionUploadArgs(t: Table, args: seq<string>) returns (flagArgs: seq<string>, positionalArgs: seq<string>)
    ensures (flagArgs, positionalArgs) == Partition(t, args)
  {
    hide Group, IsFlag, IsHelp, Partition;
    flagArgs, positionalArgs := [], [];
    var i := 0;
    assert args[0..] == args;
    while i < |args|
      invariant 0 <= i <= |args|
      invariant Partition(t, args).0 == flagArgs + Partition(t, args[i..]).0
      invariant Partition(t, args).1 == positionalArgs + Partition(t, args[i..]).1
    {
      PartitionFirst(t, args[i..]);
      assert args[i..][0] == args[i] && args[i..][1..] == args[i + 1..];
      var arg := args[i];
      if arg == "--" {
        positionalArgs := positionalArgs + args[i + 1..];
        assert flagArgs + [] == flagArgs && Partition(t, args[i..]).1 == args[i + 1..];
        return;
      }
      if !IsFlag(arg) {
        positionalArgs := positionalArgs + [arg];
        i := i + 1;
        continue;
      }
      if IsHelp(arg) {
        flagArgs := flagArgs + ["--help"];
        assert positionalArgs + [] == positionalArgs;
        return;
      }
      var (tokens, used) := Group(t, args[i..]);
      flagArgs := flagArgs + tokens;
      assert args[i..][used..] == args[i + used..];
      i := i + used;
    }
    PartitionFirst(t, []);
    assert args[i..] == [] && flagArgs + [] == flagArgs && positionalArgs + [] == positionalArgs;
  }

  // ---- The shape of a flag vector ----

  /** How a flag vector ends: properly, at a help flag, or with a value flag that lacks its value. */
  datatype End = Complete | Helped | Lacking | Malformed

  /** A token that `Partition` leaves as it is and that starts a group of its own. */
  predicate Settled(t: Table, head: string) {
    && IsFlag(head) && head != "--" && Normalized(head) == head
    && (LooksAhead(t, head) && '=' in head ==> ParseBool(AttachedValue(head)).Some?)
  }

  function EndOf(t: Table, flags: seq<string>): End
    decreases |flags|
  {
    if flags == [] then Complete
    else if !Settled(t, flags[0]) then Malformed
    else if IsHelp(flags[0]) then if flags == ["--help"] then Helped else Malformed
    else if TakesValue(t, flags[0]) then if |flags| == 1 then Lacking else EndOf(t, flags[2..])
    else EndOf(t, flags[1..])
  }

  lemma FlagStartsWithDash(arg: string)
    requires IsFlag(arg)
    ensures HasPrefix(arg, "-") && arg != "--"
  {
  }

  /** A boolean -hc that was left as it is does not look ahead again, as long as a flag or nothing follows. */
  lemma {:induction false} NoLookahead(t: Table, args: seq<string>)
    requires args != [] && Settled(t, args[0]) && LooksAhead(t, args[0])
    requires |args| > 1 ==> HasPrefix(args[1], "-")
    ensures HardcodedLanguage(t, args) == None
  {
    hide ParseBool, AttachedValue, HasPrefix, HeadName, IsFlag, Normalized;
  }

  lemma SettledStartsWithDash(t: Table, flags: seq<string>)
    requires EndOf(t, flags) != Malformed && flags != []
    ensures HasPrefix(flags[0], "-")
  {
  }

  /** How many tokens the first group of `flags` has. */
  function Width(t: Table, flags: seq<string>): (n: nat)
    requires flags != []
    ensures 1 <= n <= |flags|
  {
    if TakesValue(t, flags[0]) && |flags| > 1 then 2 else 1
  }

  /** Whether the last flag is an -hc, which looks at the arguments after it. */
  predicate EndsWithHc(t: Table, flags: seq<string>)
    decreases |flags|
  {
    flags != [] &&
    var n := Width(t, flags);
    if n == |flags| then LooksAhead(t, flags[0]) else EndsWithHc(t, flags[n..])
  }

  /** `rest` does not change what the last of the flags stands for. */
  predicate Follows(t: Table, flags: seq<string>, rest: seq<string>) {
    rest != [] ==> HasPrefix(rest[0], "-") || !EndsWithHc(t, flags)
  }

  lemma {:induction false} FollowsRest(t: Table, flags: seq<string>, rest: seq<string>)
    requires flags != [] && Follows(t, flags, rest)
    ensures Follows(t, flags[Width(t, flags)..], rest)
  {
    hide LooksAhead, HasPrefix, TakesValue;
  }

  lemma EndOfRest(t: Table, flags: seq<string>)
    requires flags != [] && EndOf(t, flags) != Malformed && !IsHelp(flags[0])
    ensures Settled(t, flags[0]) && IsFlag(flags[0]) && flags[0] != "--"
    ensures if TakesValue(t, flags[0]) && |flags| == 1 then EndOf(t, flags) == Lacking
            else EndOf(t, flags) == EndOf(t, flags[Width(t, flags)..])
    ensures |flags| == 1 && !TakesValue(t, flags[0]) ==> EndOf(t, flags) == Complete
  {
  }

  lemma PartitionFlag(t: Table, args: seq<string>)
    requires args != [] && IsFlag(args[0]) && args[0] != "--" && !IsHelp(args[0])
    ensures var (tokens, used) := Group(t, args);
      Partition(t, args) == (tokens + Partition(t, args[used..]).0, Partition(t, args[used..]).1)
  {
  }

  lemma PlainGroup(t: Table, args: seq<string>)
    requires args != [] && IsFlag(args[0]) && (LooksAhead(t, args[0]) ==> HardcodedLanguage(t, args) == None)
    ensures Group(t, args) == if TakesValue(t, args[0]) && |args| > 1 then ([Normalized(args[0]), args[1]], 2)
      else ([Normalized(args[0])], 1)
  {
  }

  lemma {:induction false} SettledDoesNotLookAhead(t: Table, flags: seq<string>, rest: seq<string>)
    requires ValidTable(t) && EndOf(t, flags) != Malformed && flags != [] && !IsHelp(flags[0])
    requires Follows(t, flags, rest)
    requires LooksAhead(t, flags[0])
    ensures HardcodedLanguage(t, flags + rest) == None
  {
    hide IsFlag, HeadName, HasPrefix, Normalized, HardcodedLanguage, IsHelp, EndOf;
    EndOfRest(t, flags);
    var all := flags + rest;
    assert all[0] == flags[0];
    assert !TakesValue(t, flags[0]);
    if |flags| > 1 {
      SettledStartsWithDash(t, flags[1..]);
      assert all[1] == flags[1..][0];
    }
    NoLookahead(t, all);
  }

  /** What `Partition` takes from a vector whose first group is settled, whatever follows it. */
  lemma {:induction false} SettledGroup(t: Table, flags: seq<string>, rest: seq<string>)
    requires ValidTable(t) && EndOf(t, flags) != Malformed && flags != [] && !IsHelp(flags[0])
    requires Follows(t, flags, rest)
    ensures IsFlag(flags[0]) && flags[0] != "--"
    ensures EndOf(t, flags) == Lacking && |flags| == 1 && rest != [] ==>
      Group(t, flags + rest) == ([flags[0], rest[0]], 2)
    ensures EndOf(t, flags) != Lacking || |flags| > 1 ==>
      Group(t, flags + rest) == (flags[..Width(t, flags)], Width(t, flags))
  {
    hide IsFlag, HeadName, HasPrefix, Normalized, HardcodedLanguage, IsHelp, EndOf, Group, TakesValue, LooksAhead;
    var all := flags + rest;
    EndOfRest(t, flags);
    assert all[0] == flags[0] && flags[..1] == [flags[0]];
    if |flags| > 1 { assert flags[..2] == [flags[0], flags[1]] && all[1] == flags[1]; }
    if LooksAhead(t, flags[0]) { SettledDoesNotLookAhead(t, flags, rest); }
    PlainGroup(t, all);
  }

  /** One settled group goes through `Partition` unchanged. */
  lemma {:induction false} PartitionSettled(t: Table, flags: seq<string>, rest: seq<string>)
    requires ValidTable(t) && EndOf(t, flags) != Malformed && flags != [] && !IsHelp(flags[0])
    requires Follows(t, flags, rest)
    requires EndOf(t, flags) != Lacking || |flags| > 1
    ensures var n := Width(t, flags);
      Partition(t, flags + rest) == (flags[..n] + Partition(t, flags[n..] + rest).0, Partition(t, flags[n..] + rest).1)
  {
    hide Partition, Group, IsFlag, HasPrefix, Width, IsHelp, EndOf;
    SettledGroup(t, flags, rest);
    var n := Width(t, flags);
    assert (flags + rest)[n..] == flags[n..] + rest && (flags + rest)[0] == flags[0];
    PartitionFlag(t, flags + rest);
  }

  lemma {:induction false} PartitionComplete(t: Table, flags: seq<string>, rest: seq<string>)
    requires ValidTable(t) && EndOf(t, flags) == Complete && Follows(t, flags, rest)
    ensures Partition(t, flags + rest) == (flags + Partition(t, rest).0, Partition(t, rest).1)
    decreases |flags|
  {
    hide Partition, TakesValue, IsFlag, IsHelp, HasPrefix, Settled, Width;
    if flags == [] {
      assert flags + rest == rest && [] + Partition(t, rest).0 == Partition(t, rest).0;
    } else {
      var n := Width(t, flags);
      EndOfRest(t, flags);
      FollowsRest(t, flags, rest);
      PartitionSettled(t, flags, rest);
      PartitionComplete(t, flags[n..], rest);
      assert flags == flags[..n] + flags[n..];
      assert flags[..n] + (flags[n..] + Partition(t, rest).0) == flags + Partition(t, rest).0;
    }
  }

  lemma {:induction false} HelpIsFlag()
    ensures IsFlag("--help") && IsHelp("--help") && Normalized("--help") == "--help"
  {
    assert Bare("--help") == "help" && Equals("help") == 4;
  }

  lemma {:induction false} PartitionHelped(t: Table, flags: seq<string>, rest: seq<string>)
    requires ValidTable(t) && EndOf(t, flags) == Helped && (rest != [] ==> HasPrefix(rest[0], "-"))
    ensures Partition(t, flags + rest) == (flags, [])
    decreases |flags|
  {
    hide TakesValue, IsFlag, IsHelp, HasPrefix, Settled, Width, Group;
    if IsHelp(flags[0]) {
      HelpIsFlag();
      assert (flags + rest)[0] == "--help";
    } else {
      var n := Width(t, flags);
      EndOfRest(t, flags);
      PartitionSettled(t, flags, rest);
      PartitionHelped(t, flags[n..], rest);
      assert flags == flags[..n] + flags[n..];
    }
  }

  lemma {:induction false} LoneLackingFlag(t: Table, flags: seq<string>, rest: seq<string>)
    requires ValidTable(t) && EndOf(t, flags) == Lacking && |flags| == 1 && rest != [] && HasPrefix(rest[0], "-")
    ensures Partition(t, flags + rest) == (flags + ([rest[0]] + Partition(t, rest[1..]).0), Partition(t, rest[1..]).1)
  {
    hide TakesValue, IsFlag, HasPrefix, Settled, Width, Group, Partition;
    assert !IsHelp(flags[0]);
    hide IsHelp, EndOf;
    SettledGroup(t, flags, rest);
    assert (flags + rest)[0] == flags[0] && (flags + rest)[2..] == rest[1..];
    PartitionFlag(t, flags + rest);
    assert [flags[0], rest[0]] == flags + [rest[0]];
    Reassociate(flags, [rest[0]], Partition(t, rest[1..]).0);
  }

  /** A value flag without its value takes the flag, or the end of options, that comes next as its value. */
  lemma {:induction false} PartitionLacking(t: Table, flags: seq<string>, rest: seq<string>)
    requires ValidTable(t) && EndOf(t, flags) == Lacking && rest != [] && HasPrefix(rest[0], "-")
    ensures Partition(t, flags + rest) == (flags + ([rest[0]] + Partition(t, rest[1..]).0), Partition(t, rest[1..]).1)
    decreases |flags|
  {
    hide TakesValue, IsFlag, HasPrefix, Settled, Width, Group, Partition;
    EndOfRest(t, flags);
    if |flags| == 1 {
      LoneLackingFlag(t, flags, rest);
    } else {
      hide EndOf, IsHelp;
      var n := Width(t, flags);
      PartitionSettled(t, flags, rest);
      PartitionLacking(t, flags[n..], rest);
      assert flags == flags[..n] + flags[n..];
      Reassociate(flags[..n], flags[n..], [rest[0]] + Partition(t, rest[1..]).0);
    }
  }

  lemma Reassociate(a: seq<string>, b: seq<string>, c: seq<string>)
    ensures a + (b + c) == a + b + c
  {
  }

  lemma {:induction false} EqualsAppend(a: string, b: string)
    requires '=' !in a
    ensures Equals(a + "=" + b) == |a|
  {
    if a != "" {
      assert (a + "=" + b)[1..] == a[1..] + "=" + b;
      EqualsAppend(a[1..], b);
    }
  }

  lemma {:induction false} LongDashes(body: string)
    requires body != "" && body[0] != '-'
    ensures Dashes("--" + body) == 2 && Bare("--" + body) == body && HasPrefix("--" + body, "-")
  {
    hide Dashes;
    var token := "--" + body;
    assert token[0] == '-' && token[1] == '-' && token[2] == body[0];
    assert Dashes(token) == 2;
  }

  /** A flag spelled with two dashes. */
  lemma {:induction false} LongToken(name: string, suffix: string)
    requires name != "" && name[0] != '-' && '=' !in name && (suffix != "" ==> suffix[0] == '=')
    ensures var token := "--" + name + suffix;
      && Bare(token) == name + suffix && HeadName(token) == name && IsFlag(token) && token != "--"
      && Normalized(token) == token
      && ('=' in token <==> suffix != "") && (suffix != "" ==> AttachedValue(token) == suffix[1..])
  {
    hide Dashes, Bare, Equals, HasPrefix;
    var body := name + suffix;
    var token := "--" + name + suffix;
    assert token == "--" + body;
    LongDashes(body);
    if suffix != "" {
      assert body == name + "=" + suffix[1..];
      EqualsAppend(name, suffix[1..]);
      assert body[..|name|] == name && body[|name| + 1..] == suffix[1..];
      assert token[2 + |name|] == '=';
    } else {
      assert body == name && body[..|name|] == name;
      assert forall i :: 2 <= i < |token| ==> token[i] == name[i - 2];
    }
  }

  /** The tokens that replace -hc are settled. */
  lemma {:induction false} HcSettled(t: Table, suffix: string)
    requires ValidTable(t) && suffix in ["", "=true", "=false"]
    ensures var token := "--hc" + suffix; Settled(t, token) && !IsHelp(token) && !TakesValue(t, token)
  {
    hide Bare, HeadName, IsFlag, Normalized, AttachedValue, HasPrefix;
    assert "--hc" + suffix == "--" + "hc" + suffix;
    LongToken("hc", suffix);
  }

  lemma {:induction false} LongNameSettled(t: Table, name: string, suffix: string)
    requires |name| > 4 && name[0] != '-' && '=' !in name && suffix != "" && suffix[0] == '='
    ensures var token := "--" + name + suffix; Settled(t, token) && !IsHelp(token) && !TakesValue(t, token)
  {
    hide Bare, HeadName, IsFlag, Normalized, AttachedValue, HasPrefix;
    LongToken(name, suffix);
  }

  lemma Attached(name: string, value: string)
    ensures "--" + name + "=" + value == "--" + name + ("=" + value)
  {
  }

  lemma {:induction false} LanguagesSettled(t: Table, value: string)
    ensures var token := HC_LANGUAGES + value; Settled(t, token) && !IsHelp(token) && !TakesValue(t, token)
  {
    hide Settled, IsHelp, TakesValue;
    Attached(LANGUAGES, value);
    LongNameSettled(t, LANGUAGES, "=" + value);
  }

  lemma HcTakesNoValue(t: Table, arg: string)
    requires ValidTable(t) && LooksAhead(t, arg)
    ensures !TakesValue(t, arg)
  {
  }

  lemma {:induction false} GroupSettles(t: Table, args: seq<string>, flags: seq<string>)
    requires ValidTable(t) && args != [] && IsFlag(args[0]) && !IsHelp(args[0]) && args[0] != "--"
    requires EndOf(t, flags) != Malformed
    requires |args| == 1 ==> flags == []
    ensures EndOf(t, Group(t, args).0 + flags) == if TakesValue(t, args[0]) && |args| == 1 then Lacking
      else EndOf(t, flags)
  {
    hide Settled, TakesValue, IsHelp, HasPrefix, HeadName, Normalized, IsFlag, ParseBool, Lower, TrimParens,
      AttachedValue;
    var (tokens, used) := Group(t, args);
    var arg := args[0];
    if LooksAhead(t, arg) && HardcodedLanguage(t, args).Some? {
      assert !TakesValue(t, arg) by { HcTakesNoValue(t, arg); }
      HcSettled(t, "");
      HcSettled(t, "=true");
      HcSettled(t, "=false");
      if |tokens| == 1 {
        assert "--hc" + "=true" == "--hc=true" && "--hc" + "=false" == "--hc=false";
        assert (tokens + flags)[1..] == flags && (tokens + flags)[0] == tokens[0];
      } else {
        var value := tokens[1][|HC_LANGUAGES|..];
        assert tokens[1] == HC_LANGUAGES + value;
        LanguagesSettled(t, value);
        var rest := [tokens[1]] + flags;
        assert (tokens + flags)[1..] == rest && rest[1..] == flags && rest[0] == tokens[1];
        assert EndOf(t, rest) == EndOf(t, flags);
        assert tokens[0] == "--hc" + "" && (tokens + flags)[0] == tokens[0];
      }
    } else {
      NormalizedSettles(t, args);
      PlainGroup(t, args);
      assert (tokens + flags)[|tokens|..] == flags && (tokens + flags)[0] == tokens[0];
    }
  }

  /** Outside the -hc lookahead, normalizing a flag settles it. */
  lemma {:induction false} NormalizedSettles(t: Table, args: seq<string>)
    requires ValidTable(t) && args != [] && IsFlag(args[0]) && !IsHelp(args[0]) && args[0] != "--"
    requires LooksAhead(t, args[0]) ==> HardcodedLanguage(t, args) == None
    ensures Settled(t, Normalized(args[0])) && !IsHelp(Normalized(args[0]))
    ensures TakesValue(t, Normalized(args[0])) == TakesValue(t, args[0])
  {
    NormalizedAgain(args[0]);
  }

  lemma {:induction false} PartitionEndsWell(t: Table, args: seq<string>)
    requires ValidTable(t)
    ensures EndOf(t, Partition(t, args).0) != Malformed
    decreases |args|
  {
    hide Group, IsFlag, IsHelp, Settled, TakesValue;
    if args == [] || args[0] == "--" {
    } else if !IsFlag(args[0]) {
      PartitionEndsWell(t, args[1..]);
    } else if IsHelp(args[0]) {
      HelpIsFlag();
      HelpIsSettled(t);
    } else {
      var (tokens, used) := Group(t, args);
      PartitionEndsWell(t, args[used..]);
      GroupSettles(t, args, Partition(t, args[used..]).0);
    }
  }

  lemma {:induction false} HelpIsSettled(t: Table)
    ensures Settled(t, "--help")
  {
    assert Bare("--help") == "help" && Equals("help") == 4;
  }

  lemma PartitionNothing(t: Table)
    ensures Partition(t, []) == ([], [])
  {
  }

  lemma {:induction false} PartitionPaths(t: Table, paths: seq<string>)
    ensures Partition(t, ["--"] + paths) == ([], paths)
  {
    assert (["--"] + paths)[1..] == paths;
  }

  // ---- The normal form ----

  /**
   * Putting the flags first, then "--" and the paths, is a normal form of a command line exactly when the flags
   * are not cut short: no value flag lacks its value, and no path is hidden behind a help flag.
   */
  lemma {:induction false} NormalFormExactly(t: Table, args: seq<string>)
    requires ValidTable(t)
    ensures var (flags, paths) := Partition(t, args);
      Partition(t, flags + ["--"] + paths) == (flags, paths)
      <==> EndOf(t, flags) == Complete || (EndOf(t, flags) == Helped && paths == [])
  {
    var (flags, paths) := Partition(t, args);
    var rest := ["--"] + paths;
    PartitionEndsWell(t, args);
    assert flags + ["--"] + paths == flags + rest;
    match EndOf(t, flags)
    case Complete =>
      PartitionComplete(t, flags, rest);
      assert rest[1..] == paths && flags + [] == flags;
    case Helped => PartitionHelped(t, flags, rest);
    case Lacking =>
      PartitionLacking(t, flags, rest);
      assert |Partition(t, flags + rest).0| > |flags|;
  }
}
