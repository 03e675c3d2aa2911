/** Merging edited input flags into the arguments of a running workflow (cmd/upbrr/cli_options.go). */
module EditMerge {
  import opened Text
  import opened FlagArgs
  import opened FlagMeaning

  /**
   * `trim` is strings.TrimSpace and `isCorrection` is isCLIInputCorrectionFlag. `normalize` is normalizeCLIOptions:
   * an error, or the names that it adds to the changed ones.
   */
  datatype Rules = Rules(
    trim: string -> string, isCorrection: string -> bool, normalize: seq<Assignment> -> Option<set<string>>)

  /** The flag whose explicit choice an identity reset stands for. */
  function IdentityFlag(field: string): string {
    match field
    case "identity.tmdb" => "tmdb"
    case "identity.imdb" => "imdb"
    case "identity.tvdb" => "tvdb"
    case "identity.tvmaze" => "tvmaze"
    case "identity.mal" => "mal"
    case "release_name.category" => "category"
    case _ => ""
  }

  // ---- Duplicate corrections ----

  /** An occurrence of a correction flag that may be given only once. */
  predicate OnceOnly(t: Table, r: Rules, g: FlagGroup)
    requires g.tokens != []
  {
    HeadName(g.tokens[0]) in t.flags && r.isCorrection(g.name) && !t.flags[HeadName(g.tokens[0])].repeats
  }

  ghost predicate NoDuplicates(t: Table, r: Rules, groups: seq<FlagGroup>)
    requires forall i :: 0 <= i < |groups| ==> groups[i].tokens != []
  {
    forall i, j :: 0 <= i < j < |groups| && OnceOnly(t, r, groups[i]) && OnceOnly(t, r, groups[j]) ==>
      groups[i].name != groups[j].name
  }

  /** validateCLIInputFlagOccurrences on the groups of a flag vector: `ok` when no correction is repeated. */
  method ValidateOccurrences(t: Table, r: Rules, groups: seq<FlagGroup>) returns (ok: bool)
    requires forall i :: 0 <= i < |groups| ==> groups[i].tokens != []
    ensures ok <==> NoDuplicates(t, r, groups)
  {
    hide Settled, IsHelp, TakesValue, HeadName;
    var seen: set<string> := {};
    for k := 0 to |groups|
      invariant forall n :: n in seen <==> exists i :: 0 <= i < k && OnceOnly(t, r, groups[i]) && groups[i].name == n
      invariant forall i, j :: 0 <= i < j < k && OnceOnly(t, r, groups[i]) && OnceOnly(t, r, groups[j]) ==>
        groups[i].name != groups[j].name
    {
      if OnceOnly(t, r, groups[k]) {
        if groups[k].name in seen { return false; }
        seen := seen + {groups[k].name};
      }
    }
    return true;
  }

  // ---- The merge ----

  function Names(groups: seq<FlagGroup>): set<string> { set i | 0 <= i < |groups| :: groups[i].name }

  /** The field that a reset occurrence names, attached or separate; a reset without a value names itself. */
  function ResetField(g: FlagGroup): string
    requires g.tokens != []
  {
    if '=' in g.tokens[0] then AttachedValue(g.tokens[0]) else g.tokens[|g.tokens| - 1]
  }

  /** The flags an edit changes: those it sets, those that normalization sets with them, and the choices it resets. */
  function Changed(r: Rules, edit: seq<FlagGroup>, implied: set<string>): set<string>
    requires forall i :: 0 <= i < |edit| ==> edit[i].tokens != []
  {
    Names(edit) + implied
    + (set i |
         0 <= i < |edit| && edit[i].name == "reset-input" && IdentityFlag(r.trim(GroupValue(edit[i].tokens))) != "" ::
         IdentityFlag(r.trim(GroupValue(edit[i].tokens))))
  }

  /** Whether a current occurrence stays: not changed by the edit, nor a reset of a choice that the edit makes. */
  predicate Stays(r: Rules, changed: set<string>, g: FlagGroup)
    requires g.tokens != []
  {
    g.name !in changed && !(g.name == "reset-input" && IdentityFlag(r.trim(ResetField(g))) in changed)
  }

  function Kept(r: Rules, changed: set<string>, groups: seq<FlagGroup>): seq<FlagGroup>
    requires forall i :: 0 <= i < |groups| ==> groups[i].tokens != []
  {
    if groups == [] then []
    else (if Stays(r, changed, groups[0]) then [groups[0]] else []) + Kept(r, changed, groups[1..])
  }

  lemma {:induction false} KeptStays(r: Rules, changed: set<string>, groups: seq<FlagGroup>)
    requires forall i :: 0 <= i < |groups| ==> groups[i].tokens != []
    ensures forall g :: g in Kept(r, changed, groups) ==> g in groups && g.tokens != [] && Stays(r, changed, g)
    decreases |groups|
  {
    hide Stays;
    if groups != [] {
      assert groups == [groups[0]] + groups[1..];
      KeptStays(r, changed, groups[1..]);
    }
  }

  ghost function KeptFrom(t: Table, r: Rules, changed: set<string>, flags: seq<string>): seq<FlagGroup> {
    GroupsHaveTokens(t, flags);
    Kept(r, changed, Groups(t, flags))
  }

  lemma {:induction false} KeptStep(t: Table, r: Rules, changed: set<string>, flags: seq<string>, i: nat)
    requires i < |flags|
    ensures var end := i + Width(t, flags[i..]);
      var g := FlagGroup(Canonical(t, HeadName(flags[i])), flags[i..end]);
      && Flatten(KeptFrom(t, r, changed, flags[i..]))
         == (if Stays(r, changed, g) then flags[i..end] else []) + Flatten(KeptFrom(t, r, changed, flags[end..]))
  {
    hide HeadName, Stays;
    var rest := flags[i..];
    var n := Width(t, rest);
    GroupsHaveTokens(t, rest);
    assert rest[n..] == flags[i + n..] && rest[..n] == flags[i..i + n];
    var groups := Groups(t, rest);
    assert groups[1..] == Groups(t, rest[n..]);
    var tail := Kept(r, changed, groups[1..]);
    if Stays(r, changed, groups[0]) {
      assert ([groups[0]] + tail)[1..] == tail;
    } else {
      assert Kept(r, changed, groups) == tail;
    }
  }

  /**
   * parseCLIOptions on a split vector: the names that it changes, unless it does not parse, repeats a correction or is
   * refused.
   */
  ghost function ParsedNames(t: Table, r: Rules, flags: seq<string>): Result<set<string>> {
    GroupsHaveTokens(t, flags);
    var parsed := Parse(t, flags);
    if parsed.Err? || !NoDuplicates(t, r, Groups(t, flags)) || r.normalize(parsed.value).None? then Err
    else Ok(Changed(r, Groups(t, flags), r.normalize(parsed.value).value))
  }

  /**
   * mergeCLIInputEditArgs. The current arguments have been parsed before, so no value flag in them lacks its value.
   */
  method MergeEditArgs(t: Table, r: Rules, currentArgs: seq<string>, editArgs: seq<string>)
    returns (merged: Result<seq<string>>)
    requires EndOf(t, Partition(t, currentArgs).0) != Lacking
    ensures merged == Merged(t, r, currentArgs, editArgs)
  {
    hide Partition, Groups, Parse, Changed, NoDuplicates;
    var editFlags, editPaths := PartitionUploadArgs(t, editArgs);
    var parsed := Parse(t, editFlags);
    if parsed.Err? { return Err; }
    GroupsHaveTokens(t, editFlags);
    var valid := ValidateOccurrences(t, r, Groups(t, editFlags));
    if !valid || r.normalize(parsed.value).None? { return Err; }
    var changed := Changed(r, Groups(t, editFlags), r.normalize(parsed.value).value);
    var flags, paths := PartitionUploadArgs(t, currentArgs);
    var kept := KeepUnchanged(t, r, changed, flags);
    return Ok(kept + editArgs + ["--"] + paths);
  }

  method KeepUnchanged(t: Table, r: Rules, changed: set<string>, flags: seq<string>) returns (kept: seq<string>)
    ensures kept == Flatten(KeptFrom(t, r, changed, flags))
  {
    hide Stays, HeadName, Width, KeptFrom, Flatten;
    kept := [];
    var i := 0;
    assert flags[0..] == flags;
    while i < |flags|
      invariant 0 <= i <= |flags|
      invariant Flatten(KeptFrom(t, r, changed, flags)) == kept + Flatten(KeptFrom(t, r, changed, flags[i..]))
    {
      KeptStep(t, r, changed, flags, i);
      var end := i + Width(t, flags[i..]);
      if Stays(r, changed, FlagGroup(Canonical(t, HeadName(flags[i])), flags[i..end])) {
        kept := kept + flags[i..end];
      }
      i := end;
    }
    assert flags[i..] == [];
    NothingKept(t, r, changed);
  }

  lemma NothingKept(t: Table, r: Rules, changed: set<string>)
    ensures Flatten(KeptFrom(t, r, changed, [])) == []
  {
  }

  ghost function Merged(t: Table, r: Rules, currentArgs: seq<string>, editArgs: seq<string>): Result<seq<string>> {
    var changed := ParsedNames(t, r, Partition(t, editArgs).0);
    if changed.Err? then Err
    else
      var (flags, paths) := Partition(t, currentArgs);
      Ok(Flatten(KeptFrom(t, r, changed.value, flags)) + editArgs + ["--"] + paths)
  }

  // ---- What the merged arguments mean ----

  /** An edit of flags only: nothing positional, and no end of options. */
  predicate FlagsOnly(t: Table, editArgs: seq<string>) {
    Partition(t, editArgs).1 == [] && "--" !in editArgs
  }

  /** An end of options directly after `args` does not change what -hc takes from them. */
  lemma {:induction false} LookaheadStands(t: Table, args: seq<string>, rest: seq<string>)
    requires args != [] && rest != [] && rest[0] == "--"
    ensures HardcodedLanguage(t, args + rest) == HardcodedLanguage(t, args)
  {
    var all := args + rest;
    if |args| > 1 { assert all[1] == args[1]; } else { assert all[1] == rest[0]; }
    if |args| > 2 { assert all[2] == args[2]; }
    if |args| == 2 {
      assert all[2] == "--";
      assert !IsCoverage(TrimParens("--"));
    }
  }

  /** The first group of `args` does not depend on an end of options after them, unless its value is missing. */
  lemma {:induction false} GroupStands(t: Table, args: seq<string>, rest: seq<string>)
    requires args != [] && IsFlag(args[0]) && rest != [] && rest[0] == "--"
    requires !(TakesValue(t, args[0]) && |args| == 1)
    ensures Group(t, args + rest) == Group(t, args)
  {
    hide HardcodedLanguage, IsFlag, HeadName, Normalized, TakesValue, LooksAhead;
    LookaheadStands(t, args, rest);
    var all := args + rest;
    assert all[0] == args[0];
    if |args| > 1 { assert all[1] == args[1]; }
  }

  lemma {:induction false} EditStartsWithFlag(t: Table, editArgs: seq<string>)
    requires FlagsOnly(t, editArgs) && editArgs != [] && EndOf(t, Partition(t, editArgs).0) == Complete
    ensures IsFlag(editArgs[0]) && !IsHelp(editArgs[0]) && editArgs[0] != "--"
  {
    hide IsFlag, IsHelp, Group, Settled, TakesValue;
    HelpIsFlag();
  }

  /** After its first group, a complete flags-only edit is again one. */
  lemma {:induction false} EditRest(t: Table, editArgs: seq<string>)
    requires ValidTable(t) && FlagsOnly(t, editArgs) && editArgs != [] && EndOf(t, Partition(t, editArgs).0) == Complete
    ensures IsFlag(editArgs[0]) && !IsHelp(editArgs[0]) && editArgs[0] != "--"
    ensures !(TakesValue(t, editArgs[0]) && |editArgs| == 1)
    ensures var rest := editArgs[Group(t, editArgs).1..];
      FlagsOnly(t, rest) && EndOf(t, Partition(t, rest).0) == Complete
  {
    hide IsFlag, IsHelp, Group, TakesValue, EndOf, Partition;
    EditStartsWithFlag(t, editArgs);
    PartitionFlag(t, editArgs);
    var (tokens, used) := Group(t, editArgs);
    var rest := editArgs[used..];
    PartitionEndsWell(t, rest);
    if |editArgs| == 1 { assert rest == []; PartitionNothing(t); }
    GroupSettles(t, editArgs, Partition(t, rest).0);
  }

  /** Partitioning a complete flags-only edit takes all of it, up to the end of options after it. */
  lemma {:induction false} PartitionAfterEdit(t: Table, editArgs: seq<string>, paths: seq<string>)
    requires ValidTable(t) && FlagsOnly(t, editArgs) && EndOf(t, Partition(t, editArgs).0) == Complete
    ensures Partition(t, editArgs + (["--"] + paths)) == (Partition(t, editArgs).0, paths)
    decreases |editArgs|
  {
    hide IsFlag, IsHelp, Group, TakesValue, EndOf, Partition, FlagsOnly;
    var rest := ["--"] + paths;
    var all := editArgs + rest;
    PartitionNothing(t);
    PartitionPaths(t, paths);
    if editArgs == [] {
      assert all == rest;
    } else {
      assert all[0] == editArgs[0];
      EditRest(t, editArgs);
      var (tokens, used) := Group(t, editArgs);
      PartitionFlag(t, editArgs);
      GroupStands(t, editArgs, rest);
      PartitionFlag(t, all);
      assert all[used..] == editArgs[used..] + rest;
      PartitionAfterEdit(t, editArgs[used..], paths);
    }
  }

  /** The merged arguments split into the kept groups, the edit's groups and the current paths. */
  lemma {:induction false} MergedSplits(t: Table, r: Rules, currentArgs: seq<string>, editArgs: seq<string>)
    requires ValidTable(t) && "help" !in t.flags && FlagsOnly(t, editArgs)
    requires EndOf(t, Partition(t, currentArgs).0) == Complete && Merged(t, r, currentArgs, editArgs).Ok?
    ensures ParsedNames(t, r, Partition(t, editArgs).0).Ok?
    ensures var (currentFlags, paths) := Partition(t, currentArgs);
      var editFlags := Partition(t, editArgs).0;
      var (flags, mergedPaths) := Partition(t, Merged(t, r, currentArgs, editArgs).value);
      && mergedPaths == paths && EndOf(t, flags) == Complete && EndOf(t, editFlags) == Complete
      && Groups(t, flags) == KeptFrom(t, r, ParsedNames(t, r, editFlags).value, currentFlags) + Groups(t, editFlags)
  {
    hide Partition, EndOf, Groups, Flatten, KeptFrom, Changed, Parse, Good, NoDuplicates;
    var (currentFlags, paths) := Partition(t, currentArgs);
    var editFlags := Partition(t, editArgs).0;
    PartitionEndsWell(t, editArgs);
    ParsedIsComplete(t, editFlags);
    GroupsOfComplete(t, editFlags);
    var changed := ParsedNames(t, r, editFlags).value;
    KeptIsGood(t, r, changed, currentFlags);
    PartitionMerged(t, KeptFrom(t, r, changed, currentFlags), editArgs, paths);
    MergedGroups(t, KeptFrom(t, r, changed, currentFlags), Groups(t, editFlags));
  }

  /** The occurrences of a flag that the edit does not change: all of them, except resets of choices that it makes. */
  function Surviving(r: Rules, changed: set<string>, occurrences: seq<FlagGroup>): seq<FlagGroup>
    requires forall i :: 0 <= i < |occurrences| ==> occurrences[i].tokens != []
  {
    if occurrences == [] then []
    else
      (if IdentityFlag(r.trim(ResetField(occurrences[0]))) in changed then [] else [occurrences[0]])
      + Surviving(r, changed, occurrences[1..])
  }

  /**
   * Parsing the merged arguments: the edit's occurrences for every flag it changes or resets, all current
   * occurrences of every other flag, except for identity resets that the edit overrides, and the same paths.
   */
  lemma {:induction false} MergedOccurrences(t: Table, r: Rules, currentArgs: seq<string>, editArgs: seq<string>,
          name: string)
    requires ValidTable(t) && "help" !in t.flags && FlagsOnly(t, editArgs)
    requires EndOf(t, Partition(t, currentArgs).0) == Complete && Merged(t, r, currentArgs, editArgs).Ok?
    ensures ParsedNames(t, r, Partition(t, editArgs).0).Ok?
    ensures var (currentFlags, paths) := Partition(t, currentArgs);
      var editFlags := Partition(t, editArgs).0;
      var merged := Partition(t, Merged(t, r, currentArgs, editArgs).value);
      var changed := ParsedNames(t, r, editFlags).value;
      && merged.1 == paths
      && (forall i :: 0 <= i < |Occurrences(Groups(t, currentFlags), name)| ==>
            Occurrences(Groups(t, currentFlags), name)[i].tokens != [])
      && Occurrences(Groups(t, merged.0), name)
         == if name in changed then Occurrences(Groups(t, editFlags), name)
            else if name == "reset-input" then Surviving(r, changed, Occurrences(Groups(t, currentFlags), name))
            else Occurrences(Groups(t, currentFlags), name)
  {
    hide Partition, EndOf, Groups, Occurrences, Kept, ParsedNames, Merged, Surviving;
    var currentFlags, editFlags := Partition(t, currentArgs).0, Partition(t, editArgs).0;
    MergedSplits(t, r, currentArgs, editArgs);
    var changed := ParsedNames(t, r, editFlags).value;
    GroupsHaveTokens(t, currentFlags);
    var kept := KeptFrom(t, r, changed, currentFlags);
    OccurrencesConcat(kept, Groups(t, editFlags), name);
    SplitOccurrences(t, r, currentFlags, editFlags, name);
    KeptOccurrences(r, changed, Groups(t, currentFlags), name);
    assert [] + Occurrences(Groups(t, editFlags), name) == Occurrences(Groups(t, editFlags), name);
    assert Occurrences(kept, name) + [] == Occurrences(kept, name);
  }

  // ---- Resets ----

  /** A choice of a provider or of the category, and the name under which a reset asks to forget it. */
  predicate StandsFor(field: string, flag: string) {
    || (flag in ["tmdb", "imdb", "tvdb", "tvmaze", "mal"] && field == "identity." + flag)
    || (flag == "category" && field == "release_name.category")
  }

  lemma {:induction false} IdentityFlagExactly(field: string, flag: string)
    ensures flag != "" ==> (IdentityFlag(field) == flag <==> StandsFor(field, flag))
  {
    assert "identity." + "tmdb" == "identity.tmdb" && "identity." + "imdb" == "identity.imdb"
      && "identity." + "tvdb" == "identity.tvdb" && "identity." + "tvmaze" == "identity.tvmaze"
      && "identity." + "mal" == "identity.mal";
  }

  /** The occurrence asks, with an attached or a separate value, to forget the choice that `flag` makes. */
  predicate Resets(r: Rules, g: FlagGroup, flag: string)
    requires g.tokens != []
  {
    && g.name == "reset-input" && ('=' in g.tokens[0] || |g.tokens| == 2)
    && StandsFor(r.trim(if '=' in g.tokens[0] then AttachedValue(g.tokens[0]) else g.tokens[1]), flag)
  }

  /**
   * Which flags an edit changes: those that it gives, those that normalizing its values sets as well, and the choices
   * that it resets.
   */
  lemma {:induction false} ChangedExactly(t: Table, r: Rules, flags: seq<string>, name: string)
    requires ParsedNames(t, r, flags).Ok? && name != ""
    ensures var groups := Groups(t, flags);
      && (forall i :: 0 <= i < |groups| ==> groups[i].tokens != [])
      && Parse(t, flags).Ok? && r.normalize(Parse(t, flags).value).Some?
      && (name in ParsedNames(t, r, flags).value <==>
            || (exists i :: 0 <= i < |groups| && groups[i].name == name)
            || name in r.normalize(Parse(t, flags).value).value
            || (exists i :: 0 <= i < |groups| && groups[i].name == "reset-input"
                            && StandsFor(r.trim(GroupValue(groups[i].tokens)), name)))
  {
    hide Groups, Parse, NoDuplicates, StandsFor, IdentityFlag, GroupValue;
    GroupsHaveTokens(t, flags);
    var groups := Groups(t, flags);
    forall i | 0 <= i < |groups|
      ensures IdentityFlag(r.trim(GroupValue(groups[i].tokens))) == name
        <==> StandsFor(r.trim(GroupValue(groups[i].tokens)), name)
    {
      IdentityFlagExactly(r.trim(GroupValue(groups[i].tokens)), name);
    }
  }

  /**
   * A merge is refused exactly when the edit does not parse, when its values are not accepted together, or when it
   * gives a correction twice that cannot be repeated.
   */
  lemma {:induction false} MergesExactly(t: Table, r: Rules, currentArgs: seq<string>, editArgs: seq<string>)
    ensures var edit := Partition(t, editArgs).0;
      var groups := Groups(t, edit);
      && (forall i :: 0 <= i < |groups| ==> groups[i].tokens != [])
      && (Merged(t, r, currentArgs, editArgs).Ok? <==>
            && Parse(t, edit).Ok? && r.normalize(Parse(t, edit).value).Some?
            && forall i, j ::
                 (0 <= i < j < |groups| && groups[i].name == groups[j].name && r.isCorrection(groups[i].name)) ==>
                 var a, b := HeadName(groups[i].tokens[0]), HeadName(groups[j].tokens[0]);
                 a !in t.flags || t.flags[a].repeats || b !in t.flags || t.flags[b].repeats)
  {
    hide Groups, Parse, Partition, Changed, HeadName, KeptFrom;
    GroupsHaveTokens(t, Partition(t, editArgs).0);
  }

  /**
   * The edit has the last word between a choice and its reset: where the edit resets a choice, no current choice is
   * left, and where it makes one, no current reset of it is left.
   */
  lemma {:induction false} ResetsAndChoices(t: Table, r: Rules, currentArgs: seq<string>, editArgs: seq<string>,
          flag: string)
    requires ValidTable(t) && "help" !in t.flags && FlagsOnly(t, editArgs) && flag != ""
    requires EndOf(t, Partition(t, currentArgs).0) == Complete && Merged(t, r, currentArgs, editArgs).Ok?
    ensures var edit := Groups(t, Partition(t, editArgs).0);
      var merged := Groups(t, Partition(t, Merged(t, r, currentArgs, editArgs).value).0);
      && (forall i :: 0 <= i < |edit| ==> edit[i].tokens != [])
      && (forall i :: 0 <= i < |merged| ==> merged[i].tokens != [])
      && ((exists i :: 0 <= i < |edit| && Resets(r, edit[i], flag)) ==>
            Occurrences(merged, flag) == Occurrences(edit, flag))
      && ((exists i :: 0 <= i < |edit| && edit[i].name == flag) ==>
            forall i :: 0 <= i < |merged| && Resets(r, merged[i], flag) ==> merged[i] in edit)
  {
    hide Partition, EndOf, Groups, Occurrences, Kept, Merged, Parse, IdentityFlag, NoDuplicates, StandsFor;
    var current, edit := Partition(t, currentArgs).0, Groups(t, Partition(t, editArgs).0);
    MergedSplits(t, r, currentArgs, editArgs);
    MergedOccurrences(t, r, currentArgs, editArgs, flag);
    var changed := ParsedNames(t, r, Partition(t, editArgs).0).value;
    var kept := KeptFrom(t, r, changed, current);
    var merged := Groups(t, Partition(t, Merged(t, r, currentArgs, editArgs).value).0);
    GroupsHaveTokens(t, current);
    GroupsHaveTokens(t, Partition(t, editArgs).0);
    GroupsHaveTokens(t, Partition(t, Merged(t, r, currentArgs, editArgs).value).0);
    KeptStays(r, changed, Groups(t, current));
    if i :| 0 <= i < |edit| && Resets(r, edit[i], flag) {
      IdentityFlagExactly(r.trim(GroupValue(edit[i].tokens)), flag);
      assert flag in changed;
    }
    if i :| 0 <= i < |edit| && edit[i].name == flag {
      assert flag in changed;
      assert forall k :: 0 <= k < |kept| ==> kept[k] in kept && merged[k] == kept[k];
      forall j | 0 <= j < |merged| && Resets(r, merged[j], flag) ensures merged[j] in edit {
        IdentityFlagExactly(r.trim(ResetField(merged[j])), flag);
        assert j >= |kept|;
        assert merged[j] == edit[j - |kept|];
      }
    }
  }

  /** Parsing a complete vector is parsing its groups, each of which assigns. */
  lemma {:induction false} ParseOfGroups(t: Table, flags: seq<string>)
    requires EndOf(t, flags) == Complete
    ensures AllGood(t, Groups(t, flags)) && forall i :: 0 <= i < |Groups(t, flags)| ==> Groups(t, flags)[i].tokens != []
    ensures Parse(t, flags).Ok? <==>
      forall i :: 0 <= i < |Groups(t, flags)| ==> Assigns(t, Groups(t, flags)[i].tokens)
    ensures Parse(t, flags).Ok? ==> Parse(t, flags).value == GroupAssignments(Groups(t, flags))
  {
    hide Good, EndOf, Parse, Groups, GroupAssignments;
    GroupsHaveTokens(t, flags);
    GroupsOfComplete(t, flags);
    ParseGroups(t, Groups(t, flags));
  }

  /**
   * The merged arguments parse if the current ones did, and assign to every flag that the edit changes the values of
   * the edit and to every other flag its current values. Which resets stay `MergedOccurrences` says.
   */
  lemma {:induction false} MergedParses(t: Table, r: Rules, currentArgs: seq<string>, editArgs: seq<string>)
    requires ValidTable(t) && "help" !in t.flags && FlagsOnly(t, editArgs)
    requires Parse(t, Partition(t, currentArgs).0).Ok? && Merged(t, r, currentArgs, editArgs).Ok?
    ensures ParsedNames(t, r, Partition(t, editArgs).0).Ok?
    ensures var current, edit := Partition(t, currentArgs).0, Partition(t, editArgs).0;
      var merged := Partition(t, Merged(t, r, currentArgs, editArgs).value).0;
      var changed := ParsedNames(t, r, edit).value;
      && EndOf(t, current) == Complete && Parse(t, edit).Ok? && Parse(t, merged).Ok?
      && forall name :: name != "reset-input" || name in changed ==>
           Values(Parse(t, merged).value, name)
           == Values(Parse(t, if name in changed then edit else current).value, name)
  {
    hide Partition, EndOf, Groups, Occurrences, Kept, Merged, Surviving, Parse, Assigns, GroupAssignments, Values, Good,
      Changed;
    var current, edit := Partition(t, currentArgs).0, Partition(t, editArgs).0;
    PartitionEndsWell(t, currentArgs);
    ParsedIsComplete(t, current);
    MergedSplits(t, r, currentArgs, editArgs);
    var merged := Partition(t, Merged(t, r, currentArgs, editArgs).value).0;
    var changed := ParsedNames(t, r, edit).value;
    ParseOfGroups(t, current);
    ParseOfGroups(t, edit);
    ParseOfGroups(t, merged);
    KeptStays(r, changed, Groups(t, current));
    var kept := KeptFrom(t, r, changed, current);
    assert forall i :: 0 <= i < |kept| ==> kept[i] in kept;
    forall name | name != "reset-input" || name in changed
      ensures Values(Parse(t, merged).value, name)
        == Values(Parse(t, if name in changed then edit else current).value, name)
    {
      MergedOccurrences(t, r, currentArgs, editArgs, name);
      ValuesOfOccurrences(Groups(t, current), name);
      ValuesOfOccurrences(Groups(t, edit), name);
      ValuesOfOccurrences(Groups(t, merged), name);
    }
  }

  /** What the filter keeps of an unchanged flag. */
  lemma {:induction false} KeptOccurrences(r: Rules, changed: set<string>, groups: seq<FlagGroup>, name: string)
    requires forall i :: 0 <= i < |groups| ==> groups[i].tokens != []
    ensures forall i :: 0 <= i < |Occurrences(groups, name)| ==> Occurrences(groups, name)[i].tokens != []
    ensures name !in changed ==>
      Occurrences(Kept(r, changed, groups), name)
      == if name == "reset-input" then Surviving(r, changed, Occurrences(groups, name)) else Occurrences(groups, name)
    decreases |groups|
  {
    hide Occurrences, Kept, Surviving, Stays;
    OneOccurrence([], name);
    NoneSurvives(r, changed, groups);
    if groups != [] {
      var g, rest := groups[0], groups[1..];
      KeptOccurrences(r, changed, rest, name);
      OneOccurrence(groups, name);
      OneOccurrence([g] + Kept(r, changed, rest), name);
      assert ([g] + Kept(r, changed, rest))[1..] == Kept(r, changed, rest);
      assert [] + Occurrences(rest, name) == Occurrences(rest, name);
      assert [] + Occurrences(Kept(r, changed, rest), name) == Occurrences(Kept(r, changed, rest), name);
      assert [] + Kept(r, changed, rest) == Kept(r, changed, rest);
      StaysExactly(r, changed, g);
      if g.name == name {
        OneSurvives(r, changed, g, Occurrences(rest, name));
        var survivors := Surviving(r, changed, Occurrences(rest, name));
        assert [] + survivors == survivors;
      }
    }
  }

  lemma OneOccurrence(groups: seq<FlagGroup>, name: string)
    ensures groups == [] ==> Occurrences(groups, name) == []
    ensures groups != [] ==>
      Occurrences(groups, name) == (if groups[0].name == name then [groups[0]] else []) + Occurrences(groups[1..], name)
  {
  }

  lemma NoneSurvives(r: Rules, changed: set<string>, groups: seq<FlagGroup>)
    requires forall i :: 0 <= i < |groups| ==> groups[i].tokens != []
    ensures Surviving(r, changed, []) == [] && (groups == [] ==> Kept(r, changed, groups) == [])
    ensures groups != [] ==>
      Kept(r, changed, groups) == (if Stays(r, changed, groups[0]) then [groups[0]] else [])
        + Kept(r, changed, groups[1..])
  {
    hide Stays;
  }

  lemma {:induction false} OneSurvives(r: Rules, changed: set<string>, g: FlagGroup, rest: seq<FlagGroup>)
    requires g.tokens != [] && forall i :: 0 <= i < |rest| ==> rest[i].tokens != []
    ensures Surviving(r, changed, [g] + rest)
      == (if IdentityFlag(r.trim(ResetField(g))) in changed then [] else [g]) + Surviving(r, changed, rest)
  {
    hide IdentityFlag, ResetField;
    assert ([g] + rest)[1..] == rest;
  }

  lemma StaysExactly(r: Rules, changed: set<string>, g: FlagGroup)
    requires g.tokens != []
    ensures Stays(r, changed, g) <==>
      g.name !in changed && (g.name != "reset-input" || IdentityFlag(r.trim(ResetField(g))) !in changed)
  {
  }

  lemma {:induction false} KeptIsGood(t: Table, r: Rules, changed: set<string>, flags: seq<string>)
    requires EndOf(t, flags) == Complete
    ensures AllGood(t, KeptFrom(t, r, changed, flags))
  {
    hide Good, EndOf, Groups, Kept;
    GroupsHaveTokens(t, flags);
    GroupsOfComplete(t, flags);
    KeptStays(r, changed, Groups(t, flags));
    assert forall i :: 0 <= i < |KeptFrom(t, r, changed, flags)| ==>
      KeptFrom(t, r, changed, flags)[i] in KeptFrom(t, r, changed, flags);
  }

  /** Kept groups, edit and paths come apart again where they were put together. */
  lemma {:induction false} PartitionMerged(t: Table, kept: seq<FlagGroup>, editArgs: seq<string>, paths: seq<string>)
    requires ValidTable(t) && AllGood(t, kept) && FlagsOnly(t, editArgs)
      && EndOf(t, Partition(t, editArgs).0) == Complete
    ensures Partition(t, Flatten(kept) + editArgs + ["--"] + paths) == (Flatten(kept) + Partition(t, editArgs).0, paths)
  {
    hide Partition, EndOf, Good, Flatten, FlagsOnly, IsHelp;
    var rest := editArgs + (["--"] + paths);
    GroupsOfFlattened(t, kept);
    if editArgs != [] {
      EditStartsWithFlag(t, editArgs);
      FlagStartsWithDash(editArgs[0]);
    }
    assert rest[0] == if editArgs == [] then "--" else editArgs[0];
    PartitionComplete(t, Flatten(kept), rest);
    PartitionAfterEdit(t, editArgs, paths);
    assert Flatten(kept) + editArgs + ["--"] + paths == Flatten(kept) + rest;
  }

  lemma {:induction false} MergedGroups(t: Table, kept: seq<FlagGroup>, edit: seq<FlagGroup>)
    requires AllGood(t, kept) && AllGood(t, edit)
    ensures var flags := Flatten(kept) + Flatten(edit);
      Groups(t, flags) == kept + edit && EndOf(t, flags) == Complete && AllGood(t, kept + edit)
  {
    hide Good, Groups, EndOf, Flatten;
    FlattenConcat(kept, edit);
    GroupsOfFlattened(t, kept + edit);
  }

  lemma {:induction false} NoOccurrence(groups: seq<FlagGroup>, name: string)
    requires forall i :: 0 <= i < |groups| ==> groups[i].name != name
    ensures Occurrences(groups, name) == []
    decreases |groups|
  {
    if groups != [] { NoOccurrence(groups[1..], name); }
  }

  /** A flag's occurrences come from one side only: kept groups are unchanged, and every edited flag is changed. */
  lemma {:induction false} SplitOccurrences(t: Table, r: Rules, currentFlags: seq<string>, editFlags: seq<string>,
          name: string)
    requires ParsedNames(t, r, editFlags).Ok?
    ensures var changed := ParsedNames(t, r, editFlags).value;
      if name in changed then Occurrences(KeptFrom(t, r, changed, currentFlags), name) == []
      else Occurrences(Groups(t, editFlags), name) == []
  {
    hide Groups, Occurrences, Kept, Parse, NoDuplicates;
    var changed := ParsedNames(t, r, editFlags).value;
    GroupsHaveTokens(t, currentFlags);
    GroupsHaveTokens(t, editFlags);
    KeptStays(r, changed, Groups(t, currentFlags));
    if name in changed {
      NoOccurrence(KeptFrom(t, r, changed, currentFlags), name);
    } else {
      NoOccurrence(Groups(t, editFlags), name);
    }
  }

  /**
   * Merging introduces no duplicate correction when the current arguments had none; an edit that has one is refused.
   */
  lemma {:induction false} MergedHasNoDuplicates(t: Table, r: Rules, currentArgs: seq<string>, editArgs: seq<string>)
    requires ValidTable(t) && "help" !in t.flags && FlagsOnly(t, editArgs)
    requires EndOf(t, Partition(t, currentArgs).0) == Complete && Merged(t, r, currentArgs, editArgs).Ok?
    requires NoRepeatedCorrections(t, r, Partition(t, currentArgs).0)
    ensures NoRepeatedCorrections(t, r, Partition(t, Merged(t, r, currentArgs, editArgs).value).0)
  {
    hide Partition, Good, Groups, EndOf, Kept, OnceOnly, Parse, Merged;
    var currentFlags, editFlags := Partition(t, currentArgs).0, Partition(t, editArgs).0;
    MergedSplits(t, r, currentArgs, editArgs);
    var changed := ParsedNames(t, r, editFlags).value;
    var kept, edit := KeptFrom(t, r, changed, currentFlags), Groups(t, editFlags);
    GroupsHaveTokens(t, currentFlags);
    GroupsHaveTokens(t, editFlags);
    GroupsOfComplete(t, editFlags);
    KeptIsGood(t, r, changed, currentFlags);
    KeptStays(r, changed, Groups(t, currentFlags));
    KeptHasNoDuplicates(t, r, changed, Groups(t, currentFlags));
    assert forall i :: 0 <= i < |edit| ==> edit[i].name in changed;
    assert forall i :: 0 <= i < |kept| ==> kept[i] in kept && kept[i].name !in changed;
  }

  ghost predicate NoRepeatedCorrections(t: Table, r: Rules, flags: seq<string>) {
    AllGood(t, Groups(t, flags)) && NoDuplicates(t, r, Groups(t, flags))
  }

  lemma {:induction false} KeptHasNoDuplicates(t: Table, r: Rules, changed: set<string>, groups: seq<FlagGroup>)
    requires AllGood(t, groups) && NoDuplicates(t, r, groups)
    ensures AllGood(t, Kept(r, changed, groups)) && NoDuplicates(t, r, Kept(r, changed, groups))
    decreases |groups|
  {
    hide Settled, IsHelp, TakesValue, HeadName, Stays;
    if groups != [] {
      assert forall i :: 0 <= i < |groups[1..]| ==> groups[1..][i] == groups[i + 1];
      KeptHasNoDuplicates(t, r, changed, groups[1..]);
      KeptStays(r, changed, groups[1..]);
      var tail := Kept(r, changed, groups[1..]);
      forall j | 0 <= j < |tail| && OnceOnly(t, r, groups[0]) && OnceOnly(t, r, tail[j])
        ensures tail[j].name != groups[0].name
      {
        assert tail[j] in groups[1..];
      }
    }
  }
}
