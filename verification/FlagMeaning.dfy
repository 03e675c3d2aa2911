/** The meaning of a flag vector: its groups, and what pflag assigns when it parses them. */
module FlagMeaning {
  import opened Text
  import opened FlagArgs

  /** One flag token with its separate value, if it has one; `name` is canonical. */
  datatype FlagGroup = FlagGroup(name: string, tokens: seq<string>)

  function Canonical(t: Table, name: string): string {
    if name in t.aliases then t.aliases[name] else name
  }

  function Groups(t: Table, flags: seq<string>): seq<FlagGroup>
    decreases |flags|
  {
    if flags == [] then []
    else
      var n := Width(t, flags);
      [FlagGroup(Canonical(t, HeadName(flags[0])), flags[..n])] + Groups(t, flags[n..])
  }

  lemma {:induction false} GroupsHaveTokens(t: Table, flags: seq<string>)
    ensures forall i :: 0 <= i < |Groups(t, flags)| ==> Groups(t, flags)[i].tokens != []
    decreases |flags|
  {
    if flags != [] { GroupsHaveTokens(t, flags[Width(t, flags)..]); }
  }

  function Flatten(groups: seq<FlagGroup>): seq<string> {
    if groups == [] then [] else groups[0].tokens + Flatten(groups[1..])
  }

  /** A group that any neighbours leave intact. */
  predicate Good(t: Table, g: FlagGroup) {
    && g.tokens != [] && Settled(t, g.tokens[0]) && !IsHelp(g.tokens[0])
    && |g.tokens| == (if TakesValue(t, g.tokens[0]) then 2 else 1)
    && g.name == Canonical(t, HeadName(g.tokens[0]))
  }

  ghost predicate AllGood(t: Table, groups: seq<FlagGroup>) {
    forall i :: 0 <= i < |groups| ==> Good(t, groups[i])
  }

  lemma {:induction false} FirstGroupGood(t: Table, flags: seq<string>)
    requires flags != [] && EndOf(t, flags) == Complete
    ensures Good(t, FlagGroup(Canonical(t, HeadName(flags[0])), flags[..Width(t, flags)]))
    ensures EndOf(t, flags[Width(t, flags)..]) == Complete
  {
    hide Settled, HeadName;
  }

  lemma {:induction false} GroupsOfComplete(t: Table, flags: seq<string>)
    requires EndOf(t, flags) == Complete
    ensures AllGood(t, Groups(t, flags)) && Flatten(Groups(t, flags)) == flags
    decreases |flags|
  {
    hide Good, HeadName, Width, EndOf;
    if flags != [] {
      FirstGroupGood(t, flags);
      var n := Width(t, flags);
      GroupsOfComplete(t, flags[n..]);
      assert flags == flags[..n] + flags[n..];
      assert Groups(t, flags)[1..] == Groups(t, flags[n..]);
    }
  }

  lemma {:induction false} GroupsOfFlattened(t: Table, groups: seq<FlagGroup>)
    requires AllGood(t, groups)
    ensures Groups(t, Flatten(groups)) == groups && EndOf(t, Flatten(groups)) == Complete
    decreases |groups|
  {
    if groups != [] {
      hide Settled, HeadName, IsHelp, TakesValue, IsFlag, Canonical, HasPrefix, Bare, Dashes;
      GroupsOfFlattened(t, groups[1..]);
      var g := groups[0];
      var flags := Flatten(groups);
      assert flags[0] == g.tokens[0] && Width(t, flags) == |g.tokens|;
      assert flags[..|g.tokens|] == g.tokens && flags[|g.tokens|..] == Flatten(groups[1..]);
    }
  }

  lemma {:induction false} FlattenConcat(a: seq<FlagGroup>, b: seq<FlagGroup>)
    ensures Flatten(a + b) == Flatten(a) + Flatten(b)
    decreases |a|
  {
    if a == [] {
      assert a + b == b;
    } else {
      assert (a + b)[1..] == a[1..] + b;
      FlattenConcat(a[1..], b);
    }
  }

  /** The occurrences of one flag, under any of its spellings, in order. */
  function Occurrences(groups: seq<FlagGroup>, name: string): seq<FlagGroup> {
    if groups == [] then []
    else (if groups[0].name == name then [groups[0]] else []) + Occurrences(groups[1..], name)
  }

  lemma {:induction false} OccurrencesConcat(a: seq<FlagGroup>, b: seq<FlagGroup>, name: string)
    ensures Occurrences(a + b, name) == Occurrences(a, name) + Occurrences(b, name)
    decreases |a|
  {
    if a == [] {
      assert a + b == b;
    } else {
      assert (a + b)[1..] == a[1..] + b;
      OccurrencesConcat(a[1..], b, name);
      var head := if a[0].name == name then [a[0]] else [];
      assert (head + Occurrences(a[1..], name)) + Occurrences(b, name)
        == head + (Occurrences(a[1..], name) + Occurrences(b, name));
    }
  }

  /** The groups whose flag is in `names`, or, with `keep` false, those whose flag is not. */
  function Selected(groups: seq<FlagGroup>, names: set<string>, keep: bool): seq<FlagGroup> {
    if groups == [] then []
    else (if (groups[0].name in names) == keep then [groups[0]] else []) + Selected(groups[1..], names, keep)
  }

  lemma {:induction false} SelectedOccurrences(groups: seq<FlagGroup>, names: set<string>, keep: bool, name: string)
    ensures Occurrences(Selected(groups, names, keep), name)
      == if (name in names) == keep then Occurrences(groups, name) else []
    decreases |groups|
  {
    if groups != [] {
      SelectedOccurrences(groups[1..], names, keep, name);
      var head := if (groups[0].name in names) == keep then [groups[0]] else [];
      OccurrencesConcat(head, Selected(groups[1..], names, keep), name);
    }
  }

  lemma {:induction false} SelectedGood(t: Table, groups: seq<FlagGroup>, names: set<string>, keep: bool)
    requires AllGood(t, groups)
    ensures AllGood(t, Selected(groups, names, keep))
    decreases |groups|
  {
    if groups != [] { SelectedGood(t, groups[1..], names, keep); }
  }

  // ---- pflag ----

  datatype Assignment = Assignment(name: string, value: string)

  /** The value that pflag assigns for one group: attached, separate, or "true" for a boolean flag. */
  function GroupValue(tokens: seq<string>): string
    requires tokens != []
  {
    if '=' in tokens[0] then AttachedValue(tokens[0]) else if |tokens| > 1 then tokens[1] else "true"
  }

  predicate Assigns(t: Table, tokens: seq<string>)
    requires tokens != []
  {
    && Dashes(tokens[0]) == 2 && HeadName(tokens[0]) in t.flags
    && t.accepts(HeadName(tokens[0]), GroupValue(tokens))
  }

  /** Parsing a flag vector fails at an unknown flag, a bad spelling, a missing value or an invalid value. */
  function Parse(t: Table, flags: seq<string>): Result<seq<Assignment>>
    decreases |flags|
  {
    if flags == [] then Ok([])
    else
      var n := Width(t, flags);
      if (TakesValue(t, flags[0]) && n == 1) || !Assigns(t, flags[..n]) then Err
      else match Parse(t, flags[n..])
        case Err => Err
        case Ok(rest) => Ok([Assignment(Canonical(t, HeadName(flags[0])), GroupValue(flags[..n]))] + rest)
  }

  function GroupAssignments(groups: seq<FlagGroup>): seq<Assignment>
    requires forall i :: 0 <= i < |groups| ==> groups[i].tokens != []
  {
    if groups == [] then []
    else [Assignment(groups[0].name, GroupValue(groups[0].tokens))] + GroupAssignments(groups[1..])
  }

  /** Parsing well-formed groups succeeds exactly when each of them assigns, whatever their order. */
  lemma {:induction false} ParseGroups(t: Table, groups: seq<FlagGroup>)
    requires AllGood(t, groups)
    ensures Parse(t, Flatten(groups)).Ok? <==> forall i :: 0 <= i < |groups| ==> Assigns(t, groups[i].tokens)
    ensures Parse(t, Flatten(groups)).Ok? ==> Parse(t, Flatten(groups)).value == GroupAssignments(groups)
    decreases |groups|
  {
    if groups != [] {
      hide Settled, HeadName, IsHelp, TakesValue, Assigns, GroupValue;
      ParseGroups(t, groups[1..]);
      var g := groups[0];
      var flags := Flatten(groups);
      assert flags[0] == g.tokens[0] && Width(t, flags) == |g.tokens|;
      assert flags[..|g.tokens|] == g.tokens && flags[|g.tokens|..] == Flatten(groups[1..]);
      assert forall i :: 0 <= i < |groups| ==> groups[i] == if i == 0 then g else groups[1..][i - 1];
    }
  }

  /** A vector behind a complete one is parsed on its own. */
  lemma {:induction false} ParseConcat(t: Table, a: seq<string>, b: seq<string>)
    requires EndOf(t, a) == Complete
    ensures Parse(t, a + b).Ok? <==> Parse(t, a).Ok? && Parse(t, b).Ok?
    ensures Parse(t, a + b).Ok? ==> Parse(t, a + b).value == Parse(t, a).value + Parse(t, b).value
    decreases |a|
  {
    hide Settled, HeadName, TakesValue, Assigns, GroupValue, IsHelp;
    if a == [] {
      assert a + b == b;
    } else {
      assert !IsHelp(a[0]) by { FirstGroupGood(t, a); }
      EndOfRest(t, a);
      var n := Width(t, a);
      assert Width(t, a + b) == n && (a + b)[..n] == a[..n] && (a + b)[n..] == a[n..] + b;
      ParseConcat(t, a[n..], b);
    }
  }

  lemma {:induction false} HelpDoesNotParse(t: Table)
    requires "help" !in t.flags
    ensures Parse(t, ["--help"]) == Err
  {
    HelpIsFlag();
    assert Bare("--help") == "help" && Equals("help") == 4;
  }

  /** A vector that comes out of `Partition` and parses is not cut short. */
  lemma {:induction false} ParsedIsComplete(t: Table, flags: seq<string>)
    requires ValidTable(t) && "help" !in t.flags && EndOf(t, flags) != Malformed && Parse(t, flags).Ok?
    ensures EndOf(t, flags) == Complete
    decreases |flags|
  {
    if flags != [] {
      hide Settled, HeadName, TakesValue, Assigns, GroupValue, IsHelp;
      if IsHelp(flags[0]) {
        HelpDoesNotParse(t);
      } else {
        EndOfRest(t, flags);
        ParsedIsComplete(t, flags[Width(t, flags)..]);
      }
    }
  }

  /** The values assigned to one flag, in order. */
  function Values(assignments: seq<Assignment>, name: string): seq<string> {
    if assignments == [] then []
    else (if assignments[0].name == name then [assignments[0].value] else []) + Values(assignments[1..], name)
  }

  lemma {:induction false} ValuesConcat(a: seq<Assignment>, b: seq<Assignment>, name: string)
    ensures Values(a + b, name) == Values(a, name) + Values(b, name)
    decreases |a|
  {
    if a == [] {
      assert a + b == b;
    } else {
      assert (a + b)[1..] == a[1..] + b;
      ValuesConcat(a[1..], b, name);
    }
  }

  lemma {:induction false} ValuesOfOccurrences(groups: seq<FlagGroup>, name: string)
    requires forall i :: 0 <= i < |groups| ==> groups[i].tokens != []
    ensures forall i :: 0 <= i < |Occurrences(groups, name)| ==>
      Occurrences(groups, name)[i].tokens != [] && Occurrences(groups, name)[i].name == name
    ensures Values(GroupAssignments(groups), name) == Values(GroupAssignments(Occurrences(groups, name)), name)
    decreases |groups|
  {
    if groups != [] {
      ValuesOfOccurrences(groups[1..], name);
      var rest := Occurrences(groups[1..], name);
      if groups[0].name == name {
        assert ([groups[0]] + rest)[1..] == rest;
      } else {
        assert Occurrences(groups, name) == rest;
      }
    }
  }
}
