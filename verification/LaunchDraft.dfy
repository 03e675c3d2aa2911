/** Editing an invocation before launch: protected options stay with the driver (cmd/upbrr/tui_launcher.go). */
module LaunchDraft {
  import opened Text
  import opened ArgumentText
  import opened FlagArgs
  import opened FlagMeaning

  /** What a launch looks at in the options. `elsewhere` stands for the options that leave the upload command. */
  datatype Options = Options(
    ui: string, keepOpen: bool, unattended: bool, unattendedConfirm: bool, elsewhere: bool, queue: string,
    trackLanguages: seq<string>, trackAudioOrigins: seq<string>)
  {
    function InteractionMode(): Mode {
      if unattendedConfirm then UnattendedConfirm else if unattended then Unattended else Interactive
    }
  }

  datatype Mode = Interactive | Unattended | UnattendedConfirm

  /**
   * Decisions taken elsewhere: which values are sensitive, which text the terminal may show, which sources are blank,
   * and which options the assigned values make, if they are accepted.
   */
  datatype Policy = Policy(
    sensitive: (string, string) -> bool, safeText: string -> bool, blank: string -> bool,
    options: seq<Assignment> -> Option<Options>)

  function DraftValue(tokens: seq<string>): string
    requires tokens != []
  {
    if '=' in tokens[0] then AttachedValue(tokens[0]) else if |tokens| > 1 then tokens[1] else ""
  }

  predicate MustProtect(p: Policy, tokens: seq<string>)
    requires tokens != []
  {
    p.sensitive(HeadName(tokens[0]), DraftValue(tokens)) || ('"' in DraftValue(tokens) && '\'' in DraftValue(tokens))
  }

  function ProtectedNames(p: Policy, groups: seq<FlagGroup>): set<string>
    requires forall i :: 0 <= i < |groups| ==> groups[i].tokens != []
  {
    if groups == [] then {}
    else (if MustProtect(p, groups[0].tokens) then {groups[0].name} else {}) + ProtectedNames(p, groups[1..])
  }

  ghost function Protected(t: Table, p: Policy, flags: seq<string>): set<string> {
    GroupsHaveTokens(t, flags);
    ProtectedNames(p, Groups(t, flags))
  }

  /** The tokens of all flags in `names`, or with `keep` false of all others, in their original order. */
  ghost function Part(t: Table, flags: seq<string>, names: set<string>, keep: bool): seq<string> {
    Flatten(Selected(Groups(t, flags), names, keep))
  }

  ghost function SafePart(t: Table, p: Policy, flags: seq<string>): seq<string> {
    Part(t, flags, Protected(t, p, flags), false)
  }

  ghost function OpaquePart(t: Table, p: Policy, flags: seq<string>): seq<string> {
    Part(t, flags, Protected(t, p, flags), true)
  }

  lemma {:induction false} ProtectedStep(t: Table, p: Policy, flags: seq<string>, index: nat)
    requires index < |flags|
    ensures var end := index + Width(t, flags[index..]);
      Protected(t, p, flags[index..])
      == (if MustProtect(p, flags[index..end]) then {Canonical(t, HeadName(flags[index]))} else {})
        + Protected(t, p, flags[end..])
  {
    hide HeadName, MustProtect;
    var rest := flags[index..];
    var n := Width(t, rest);
    assert rest[n..] == flags[index + n..] && rest[..n] == flags[index..index + n];
    GroupsHaveTokens(t, rest);
    assert Groups(t, rest)[1..] == Groups(t, rest[n..]);
  }

  lemma {:induction false} PartStep(t: Table, flags: seq<string>, index: nat, names: set<string>, keep: bool)
    requires index < |flags|
    ensures var end := index + Width(t, flags[index..]);
      Part(t, flags[index..], names, keep)
      == (if (Canonical(t, HeadName(flags[index])) in names) == keep then flags[index..end] else [])
        + Part(t, flags[end..], names, keep)
  {
    hide HeadName;
    var rest := flags[index..];
    var n := Width(t, rest);
    assert rest[n..] == flags[index + n..] && rest[..n] == flags[index..index + n];
    var groups := Groups(t, rest);
    var tail := Selected(groups[1..], names, keep);
    assert groups[1..] == Groups(t, rest[n..]);
    if (groups[0].name in names) == keep {
      assert ([groups[0]] + tail)[1..] == tail;
    } else {
      assert Selected(groups, names, keep) == tail;
    }
  }

  lemma NothingLeft(t: Table, p: Policy, names: set<string>)
    ensures Protected(t, p, []) == {} && Part(t, [], names, true) == [] && Part(t, [], names, false) == []
  {
  }

  /** The first pass: the canonical names of all protected options. */
  method FindProtected(t: Table, p: Policy, flags: seq<string>) returns (protected: set<string>)
    ensures protected == Protected(t, p, flags)
  {
    hide Protected, Width, MustProtect, HeadName;
    protected := {};
    var index := 0;
    assert flags[0..] == flags;
    while index < |flags|
      invariant 0 <= index <= |flags|
      invariant Protected(t, p, flags) == protected + Protected(t, p, flags[index..])
    {
      ProtectedStep(t, p, flags, index);
      var end := index + Width(t, flags[index..]);
      if MustProtect(p, flags[index..end]) {
        protected := protected + {Canonical(t, HeadName(flags[index]))};
      }
      index := end;
    }
    assert flags[index..] == [];
    NothingLeft(t, p, {});
  }

  /** The second pass: every occurrence and alias of a protected option goes to `opaqueArgs`, in original order. */
  method SplitProtected(t: Table, p: Policy, flags: seq<string>, protected: set<string>)
    returns (safe: seq<string>, opaqueArgs: seq<string>)
    ensures safe == Part(t, flags, protected, false) && opaqueArgs == Part(t, flags, protected, true)
  {
    hide Part, Width, HeadName;
    safe, opaqueArgs := [], [];
    var index := 0;
    assert flags[0..] == flags;
    while index < |flags|
      invariant 0 <= index <= |flags|
      invariant Part(t, flags, protected, false) == safe + Part(t, flags[index..], protected, false)
      invariant Part(t, flags, protected, true) == opaqueArgs + Part(t, flags[index..], protected, true)
    {
      PartStep(t, flags, index, protected, false);
      PartStep(t, flags, index, protected, true);
      var end := index + Width(t, flags[index..]);
      if Canonical(t, HeadName(flags[index])) in protected {
        opaqueArgs := opaqueArgs + flags[index..end];
      } else {
        safe := safe + flags[index..end];
      }
      index := end;
    }
    assert flags[index..] == [];
    NothingLeft(t, p, protected);
  }

  /** cliDraftArguments */
  method CliDraftArguments(t: Table, p: Policy, args: seq<string>)
    returns (text: string, opaqueArgs: seq<string>, protected: set<string>)
    ensures var flags := Partition(t, args).0;
      text == Joined(SafePart(t, p, flags)) && opaqueArgs == OpaquePart(t, p, flags)
        && protected == Protected(t, p, flags)
  {
    var flags, paths := PartitionUploadArgs(t, args);
    protected := FindProtected(t, p, flags);
    var safe;
    safe, opaqueArgs := SplitProtected(t, p, flags, protected);
    text := Join(safe);
  }

  // ---- Moving protected options ----

  /** `b` assigns every flag the same values in the same order as `a`. */
  ghost predicate SameMeaning(a: seq<Assignment>, b: seq<Assignment>) {
    forall name :: Values(a, name) == Values(b, name)
  }

  /** The part of a vector that some flags make up assigns them all their values, and nothing else. */
  lemma {:induction false} PartMeaning(t: Table, flags: seq<string>, names: set<string>, keep: bool)
    requires EndOf(t, flags) == Complete && Parse(t, flags).Ok?
    ensures var part := Part(t, flags, names, keep);
      && EndOf(t, part) == Complete && Parse(t, part).Ok?
      && forall name :: Values(Parse(t, part).value, name)
                        == if (name in names) == keep then Values(Parse(t, flags).value, name) else []
  {
    hide Good, Assigns, EndOf, Parse, Flatten, GroupAssignments, Values, Groups, Selected;
    var groups := Groups(t, flags);
    var selected := Selected(groups, names, keep);
    GroupsOfComplete(t, flags);
    SelectedGood(t, groups, names, keep);
    SelectedFrom(groups, names, keep);
    GroupsOfFlattened(t, selected);
    GoodHasTokens(t, groups);
    GoodHasTokens(t, selected);
    ParseGroups(t, groups);
    ParseGroups(t, selected);
    assert forall i :: 0 <= i < |selected| ==> selected[i] in selected;
    forall name ensures Values(GroupAssignments(selected), name)
      == if (name in names) == keep then Values(GroupAssignments(groups), name) else [] {
      SelectedOccurrences(groups, names, keep, name);
      ValuesOfOccurrences(groups, name);
      ValuesOfOccurrences(selected, name);
      NoValues(name);
    }
  }

  lemma NoValues(name: string)
    ensures GroupAssignments([]) == [] && Values([], name) == []
  {
  }

  lemma {:induction false} SelectedFrom(groups: seq<FlagGroup>, names: set<string>, keep: bool)
    ensures forall g :: g in Selected(groups, names, keep) ==> g in groups
    decreases |groups|
  {
    if groups != [] {
      SelectedFrom(groups[1..], names, keep);
      assert groups == [groups[0]] + groups[1..];
    }
  }

  lemma {:induction false} ConcatValues(a: seq<Assignment>, b: seq<Assignment>)
    ensures forall name :: Values(a + b, name) == Values(a, name) + Values(b, name)
  {
    forall name ensures Values(a + b, name) == Values(a, name) + Values(b, name) { ValuesConcat(a, b, name); }
  }

  /** A complete vector with another one behind it is complete, parses, and assigns the values of both. */
  lemma {:induction false} ConcatMeaning(t: Table, a: seq<string>, b: seq<string>)
    requires EndOf(t, a) == Complete && Parse(t, a).Ok? && EndOf(t, b) == Complete && Parse(t, b).Ok?
    ensures EndOf(t, a + b) == Complete && Parse(t, a + b).Ok?
    ensures forall name :: Values(Parse(t, a + b).value, name)
                           == Values(Parse(t, a).value, name) + Values(Parse(t, b).value, name)
  {
    hide Good, EndOf, Parse, Flatten, Values, Groups;
    ParseConcat(t, a, b);
    GroupsOfComplete(t, a);
    GroupsOfComplete(t, b);
    FlattenConcat(Groups(t, a), Groups(t, b));
    GroupsOfFlattened(t, Groups(t, a) + Groups(t, b));
    ConcatValues(Parse(t, a).value, Parse(t, b).value);
  }

  /** Moving all occurrences of some flags behind the others keeps every flag's values in order. */
  lemma {:induction false} MovingKeepsMeaning(t: Table, flags: seq<string>, names: set<string>)
    requires EndOf(t, flags) == Complete && Parse(t, flags).Ok?
    ensures var moved := Part(t, flags, names, false) + Part(t, flags, names, true);
      EndOf(t, moved) == Complete && Parse(t, moved).Ok? && SameMeaning(Parse(t, flags).value, Parse(t, moved).value)
  {
    hide EndOf, Parse, Values, Part;
    PartMeaning(t, flags, names, false);
    PartMeaning(t, flags, names, true);
    ConcatMeaning(t, Part(t, flags, names, false), Part(t, flags, names, true));
  }

  lemma GoodHasTokens(t: Table, groups: seq<FlagGroup>)
    requires AllGood(t, groups)
    ensures forall i :: 0 <= i < |groups| ==> groups[i].tokens != []
  {
  }

  // ---- Launching an edited draft ----

  /** Every token that looks like a flag is checked, with the following token where it carries no value itself. */
  predicate HasSensitive(p: Policy, flags: seq<string>) {
    exists i :: 0 <= i < |flags| && HasPrefix(flags[i], "-")
      && p.sensitive(HeadName(flags[i]),
           if AttachedValue(flags[i]) == "" && i + 1 < |flags| then flags[i + 1] else AttachedValue(flags[i]))
  }

  ghost predicate TouchesProtected(t: Table, flags: seq<string>, protected: set<string>) {
    exists i :: 0 <= i < |Groups(t, flags)| && Groups(t, flags)[i].name in protected
  }

  /** The flags that the edited text stands for, with the protected ones behind them, or an error. */
  ghost function EditedFlags(t: Table, p: Policy, original: seq<string>, text: string): Result<seq<string>> {
    var originalFlags := Partition(t, original).0;
    if !p.safeText(text) then Err
    else match Tokens(text)
      case Err => Err
      case Ok(tokens) =>
        var (flags, positional) := Partition(t, tokens);
        if positional != [] || "--" in tokens || HasSensitive(p, flags) || Parse(t, flags).Err? then Err
        else if TouchesProtected(t, flags, Protected(t, p, originalFlags)) then Err
        else Ok(flags + OpaquePart(t, p, originalFlags))
  }

  /** parseCLIOptions on a split vector. */
  function OptionsOf(t: Table, p: Policy, flags: seq<string>): Result<Options> {
    match Parse(t, flags)
    case Err => Err
    case Ok(assignments) => match p.options(assignments) case None => Err case Some(options) => Ok(options)
  }

  /** Presentation, interaction mode and command stay as they are. */
  predicate SameRoute(prior: Options, next: Options) {
    && next.ui == prior.ui && next.keepOpen == prior.keepOpen && next.InteractionMode() == prior.InteractionMode()
    && !next.elsewhere
  }

  /** A queue has one root; corrections of tracks need one source that is not a queue. */
  predicate Launchable(options: Options, sources: seq<string>) {
    && options.InteractionMode() == Interactive
    && (options.queue != "" ==> |sources| == 1)
    && (options.trackLanguages != [] || options.trackAudioOrigins != [] ==> |sources| == 1 && options.queue == "")
  }

  /** The flags to run with: the edited ones if they keep the route, the original ones for an unchanged draft. */
  ghost function LaunchFlags(t: Table, p: Policy, original: seq<string>, draft: Option<string>, sources: seq<string>)
    : Result<seq<string>>
  {
    var originalFlags := Partition(t, original).0;
    match draft
    case None => Ok(originalFlags)
    case Some(text) =>
      match EditedFlags(t, p, original, text)
      case Err => Err
      case Ok(flags) =>
        var next, prior := OptionsOf(t, p, Partition(t, flags + ["--"] + sources).0), OptionsOf(t, p, originalFlags);
        if next.Err? || prior.Err? || !SameRoute(prior.value, next.value) then Err else Ok(flags)
  }

  /** validateCLILaunch: the argument vector to run, or an error. `draft` is the edited text, if it was changed. */
  ghost function Launch(t: Table, p: Policy, original: seq<string>, draft: Option<string>, sources: seq<string>)
    : Result<seq<string>>
  {
    if sources == [] || exists i :: 0 <= i < |sources| && p.blank(sources[i]) then Err
    else match LaunchFlags(t, p, original, draft, sources)
      case Err => Err
      case Ok(flags) =>
        var args := flags + ["--"] + sources;
        var options := OptionsOf(t, p, Partition(t, args).0);
        if options.Err? || !Launchable(options.value, sources) then Err else Ok(args)
  }

  method EditFlags(t: Table, p: Policy, original: seq<string>, text: string) returns (r: Result<seq<string>>)
    ensures r == EditedFlags(t, p, original, text)
  {
    hide Partition, Groups, Parse, Tokens, Part, Protected, MustProtect;
    if !p.safeText(text) { return Err; }
    var tokens := Split(text);
    if tokens.Err? { return Err; }
    var flags, positional := PartitionUploadArgs(t, tokens.value);
    if positional != [] || "--" in tokens.value || HasSensitive(p, flags) || Parse(t, flags).Err? { return Err; }
    var _, opaqueArgs, protected := CliDraftArguments(t, p, original);
    var groups := Groups(t, flags);
    if exists i :: 0 <= i < |groups| && groups[i].name in protected { return Err; }
    return Ok(flags + opaqueArgs);
  }

  /** validateCLILaunch */
  method ValidateLaunch(t: Table, p: Policy, original: seq<string>, draft: Option<string>, sources: seq<string>)
    returns (r: Result<seq<string>>)
    ensures r == Launch(t, p, original, draft, sources)
  {
    hide Partition, Parse, EditedFlags;
    if sources == [] || exists i :: 0 <= i < |sources| && p.blank(sources[i]) { return Err; }
    var originalFlags, _ := PartitionUploadArgs(t, original);
    var flags := originalFlags;
    if draft.Some? {
      var edited := EditFlags(t, p, original, draft.value);
      if edited.Err? { return Err; }
      flags := edited.value;
      var nextFlags, _ := PartitionUploadArgs(t, flags + ["--"] + sources);
      var next, prior := OptionsOf(t, p, nextFlags), OptionsOf(t, p, originalFlags);
      if next.Err? || prior.Err? || !SameRoute(prior.value, next.value) { return Err; }
    }
    var args := flags + ["--"] + sources;
    var launchFlags, _ := PartitionUploadArgs(t, args);
    var options := OptionsOf(t, p, launchFlags);
    if options.Err? || options.value.InteractionMode() != Interactive { return Err; }
    if options.value.queue != "" && |sources| != 1 { return Err; }
    if (|options.value.trackLanguages| > 0 || |options.value.trackAudioOrigins| > 0)
      && (|sources| != 1 || options.value.queue != "") {
      return Err;
    }
    return Ok(args);
  }

  /** An unchanged draft runs the original flags, unmoved, with the given sources. */
  lemma {:induction false} UnchangedDraftRunsOriginal(t: Table, p: Policy, original: seq<string>, sources: seq<string>)
    requires ValidTable(t) && "help" !in t.flags && Parse(t, Partition(t, original).0).Ok?
    ensures var launched := Launch(t, p, original, None, sources);
      launched.Ok? ==> Partition(t, launched.value) == (Partition(t, original).0, sources)
  {
    hide EndOf, Partition, Parse;
    var flags := Partition(t, original).0;
    PartitionEndsWell(t, original);
    ParsedIsComplete(t, flags);
    PartitionComplete(t, flags, ["--"] + sources);
    PartitionPaths(t, sources);
    assert flags + ["--"] + sources == flags + (["--"] + sources) && flags + [] == flags;
  }

  /**
   * What any accepted edit runs: the given sources, and for every flag the values that the original gave it if the flag
   * is protected, and those that the edited text gives it otherwise.
   */
  lemma {:induction false} AcceptedEditMeans(t: Table, p: Policy, original: seq<string>, text: string,
          sources: seq<string>)
    requires ValidTable(t) && "help" !in t.flags && Launch(t, p, original, Some(text), sources).Ok?
    ensures Tokens(text).Ok?
    ensures var flags := Partition(t, original).0;
      var (edited, positional) := Partition(t, Tokens(text).value);
      var launched := Launch(t, p, original, Some(text), sources).value;
      && positional == [] && EndOf(t, flags) == Complete && EndOf(t, edited) == Complete
      && Partition(t, launched) == (edited + OpaquePart(t, p, flags), sources)
      && Parse(t, flags).Ok? && Parse(t, edited).Ok? && Parse(t, Partition(t, launched).0).Ok?
      && (forall name :: name in Protected(t, p, flags) ==> Values(Parse(t, edited).value, name) == [])
      && forall name :: Values(Parse(t, Partition(t, launched).0).value, name)
           == Values(Parse(t, if name in Protected(t, p, flags) then flags else edited).value, name)
  {
    hide EndOf, Partition, Parse, Tokens, HasSensitive, TouchesProtected, Part, Values, Protected, SameRoute,
      Launchable;
    var flags, edited := Partition(t, original).0, Partition(t, Tokens(text).value).0;
    var names := Protected(t, p, flags);
    var kept := OpaquePart(t, p, flags);
    PartitionEndsWell(t, original);
    PartitionEndsWell(t, Tokens(text).value);
    ParsedIsComplete(t, flags);
    ParsedIsComplete(t, edited);
    PartMeaning(t, flags, names, true);
    ConcatMeaning(t, edited, kept);
    PartitionComplete(t, edited + kept, ["--"] + sources);
    PartitionPaths(t, sources);
    assert edited + kept + ["--"] + sources == edited + kept + (["--"] + sources);
    assert (edited + kept) + [] == edited + kept;
    forall name | name in names ensures Values(Parse(t, edited).value, name) == [] {
      UntouchedHasNoValues(t, edited, names, name);
    }
  }

  lemma {:induction false} UntouchedHasNoValues(t: Table, flags: seq<string>, names: set<string>, name: string)
    requires EndOf(t, flags) == Complete && Parse(t, flags).Ok? && !TouchesProtected(t, flags, names) && name in names
    ensures Values(Parse(t, flags).value, name) == []
  {
    hide Good, EndOf, Parse, Flatten, GroupAssignments, Values, Groups;
    var groups := Groups(t, flags);
    GroupsOfComplete(t, flags);
    GoodHasTokens(t, groups);
    ParseGroups(t, groups);
    ValuesOfOccurrences(groups, name);
    if Occurrences(groups, name) != [] {
      OccurrenceIsThere(groups, name);
    }
    NoValues(name);
  }

  lemma {:induction false} OccurrenceIsThere(groups: seq<FlagGroup>, name: string)
    requires Occurrences(groups, name) != []
    ensures exists i :: 0 <= i < |groups| && groups[i].name == name
    decreases |groups|
  {
    if groups[0].name != name {
      OccurrenceIsThere(groups[1..], name);
      var i :| 0 <= i < |groups[1..]| && groups[1..][i].name == name;
      assert groups[i + 1].name == name;
    }
  }

  /** The draft, cut between two flags, with tokens behind it, and accepted. */
  ghost predicate AcceptedAppend(t: Table, p: Policy, original: seq<string>, front: seq<string>, back: seq<string>,
          more: seq<string>, sources: seq<string>)
  {
    && ValidTable(t) && "help" !in t.flags && SafePart(t, p, Partition(t, original).0) == front + back
    && EndOf(t, front) == Complete && EndOf(t, back) == Complete && Follows(t, front, back + more)
    && (forall token :: token in front + (back + more) ==> Representable(token))
    && Launch(t, p, original, Some(Joined(front + (back + more))), sources).Ok?
  }

  /** What is read of an accepted draft with tokens behind it: the front as it was, and the rest together. */
  lemma {:induction false} AppendMeans(t: Table, p: Policy, original: seq<string>, front: seq<string>,
          back: seq<string>, more: seq<string>, sources: seq<string>)
    requires AcceptedAppend(t, p, original, front, back, more, sources)
    ensures var flags := Partition(t, original).0;
      var (read, positional) := Partition(t, back + more);
      var launched := Partition(t, Launch(t, p, original, Some(Joined(front + (back + more))), sources).value);
      && positional == [] && launched.1 == sources && EndOf(t, flags) == Complete
      && Parse(t, flags).Ok? && Parse(t, front).Ok? && Parse(t, back).Ok? && Parse(t, read).Ok?
      && Parse(t, launched.0).Ok?
    ensures var flags := Partition(t, original).0;
      var read := Partition(t, back + more).0;
      var launched := Partition(t, Launch(t, p, original, Some(Joined(front + (back + more))), sources).value).0;
      forall name ::
        var ahead, rest := Values(Parse(t, front).value, name), Values(Parse(t, read).value, name);
        if name in Protected(t, p, flags) then
          && ahead == rest == []
          && Values(Parse(t, launched).value, name) == Values(Parse(t, flags).value, name)
        else
          && ahead + Values(Parse(t, back).value, name) == Values(Parse(t, flags).value, name)
          && Values(Parse(t, launched).value, name) == ahead + rest
  {
    hide EndOf, Partition, Parse, Tokens, Representable, Launch, Part, Joined, Values, Protected, Follows;
    var flags := Partition(t, original).0;
    JoinThenSplit(front + (back + more));
    AcceptedEditMeans(t, p, original, Joined(front + (back + more)), sources);
    PartMeaning(t, flags, Protected(t, p, flags), false);
    PartitionComplete(t, front, back + more);
    ParseConcat(t, front, back);
    ParseConcat(t, front, Partition(t, back + more).0);
    ConcatValues(Parse(t, front).value, Parse(t, back).value);
    ConcatValues(Parse(t, front).value, Parse(t, Partition(t, back + more).0).value);
  }

  /**
   * An accepted edit that appends tokens to the draft gives every flag the values of the original, followed by those of
   * the appended tokens: what these do not name is as it was. The editor text must be able to carry all the tokens, and
   * what is appended must not be read as the value of an -hc at the end of the draft.
   */
  lemma {:induction false} AppendedEditKeepsMeaning(t: Table, p: Policy, original: seq<string>, more: seq<string>,
          sources: seq<string>)
    requires ValidTable(t) && "help" !in t.flags
    requires var safe := SafePart(t, p, Partition(t, original).0);
      && (forall token :: token in safe + more ==> Representable(token)) && Follows(t, safe, more)
      && Launch(t, p, original, Some(Joined(safe + more)), sources).Ok?
    ensures var flags := Partition(t, original).0;
      var (appended, positional) := Partition(t, more);
      var launched := Partition(t, Launch(t, p, original, Some(Joined(SafePart(t, p, flags) + more)), sources).value);
      && positional == [] && launched.1 == sources
      && Parse(t, flags).Ok? && Parse(t, appended).Ok? && Parse(t, launched.0).Ok?
      && forall name :: Values(Parse(t, launched.0).value, name)
           == Values(Parse(t, flags).value, name) + Values(Parse(t, appended).value, name)
  {
    hide EndOf, Partition, Parse, Tokens, Representable, Launch, Part, Joined, Values, Protected, Follows;
    var safe := SafePart(t, p, Partition(t, original).0);
    assert safe + [] == safe && [] + more == more;
    AcceptedEditMeans(t, p, original, Joined(safe + more), sources);
    PartMeaning(t, Partition(t, original).0, Protected(t, p, Partition(t, original).0), false);
    EmptyIsComplete(t);
    AppendMeans(t, p, original, safe, [], more, sources);
  }

  lemma EmptyIsComplete(t: Table)
    ensures EndOf(t, []) == Complete && Parse(t, []) == Ok([]) && forall name :: Values([], name) == []
  {
  }

  /**
   * Whatever is appended, also a value to an -hc at the end, every flag keeps its values that neither the last flag of
   * the draft nor the appended tokens, read together, assign.
   */
  lemma {:induction false} AppendedEditKeepsOthers(t: Table, p: Policy, original: seq<string>, front: seq<string>,
          back: seq<string>, more: seq<string>, sources: seq<string>, name: string)
    requires AcceptedAppend(t, p, original, front, back, more, sources)
    requires Parse(t, back).Ok? && Parse(t, Partition(t, back + more).0).Ok?
    requires Values(Parse(t, back).value, name) == Values(Parse(t, Partition(t, back + more).0).value, name) == []
    ensures var launched := Partition(t, Launch(t, p, original, Some(Joined(front + (back + more))), sources).value).0;
      && Parse(t, launched).Ok? && Parse(t, Partition(t, original).0).Ok?
      && Values(Parse(t, launched).value, name) == Values(Parse(t, Partition(t, original).0).value, name)
  {
    hide EndOf, Partition, Parse, Representable, Launch, Part, Joined, Values, Protected, Follows;
    AppendMeans(t, p, original, front, back, more, sources);
  }

  // ---- An edit that changes what it does not touch ----

  const TAGGED := "--tag=a\U{00A0}--debug"
  const SCREENS := "--screens=0"
  const BROKEN: seq<string> := ["--tag=a", "--debug", SCREENS]

  function ExampleTable(): Table {
    Table(map["hc" := Flag(true, false), "tag" := Flag(false, false), "debug" := Flag(true, false),
              "screens" := Flag(false, false)], map[], (n, v) => true, s => false)
  }

  function ExamplePolicy(): Policy {
    Policy((n, v) => false, s => true, s => false, a => Some(Options("tui", false, false, false, false, "", [], [])))
  }

  /** A plain piece before white space is a token, and the tokenizer starts afresh behind it. */
  lemma {:induction false} PlainPiece(args: seq<string>, piece: string, space: char, rest: string)
    requires piece != "" && IsSpace(space) && forall c :: c in piece ==> !IsSpace(c) && c != '"' && c != '\''
    ensures ScanText(CLEAN.(args := args), piece + ([space] + rest)) == ScanText(CLEAN.(args := args + [piece]), rest)
  {
    hide IsSpace, ScanText;
    var start := CLEAN.(args := args);
    ScanConcat(start, piece, [space] + rest);
    ScanPlain(start, piece);
    ScanCons(ScanText(start, piece), space, rest);
    assert "" + piece == piece;
  }

  /** The draft of the example, with another option typed behind it, comes back as three flags. */
  lemma {:induction false} TaggedTokens()
    ensures Joined([TAGGED]) == TAGGED && Tokens(TAGGED + " " + SCREENS) == Ok(BROKEN)
  {
    hide ScanText;
    assert !NeedsQuotes(TAGGED);
    var rest := "--debug" + ([' '] + SCREENS);
    assert TAGGED + " " + SCREENS == "--tag=a" + (['\U{00A0}'] + rest);
    assert CLEAN.(args := []) == CLEAN;
    PlainPiece([], "--tag=a", '\U{00A0}', rest);
    PlainPiece(["--tag=a"], "--debug", ' ', SCREENS);
    assert [] + ["--tag=a"] == ["--tag=a"] && ["--tag=a"] + ["--debug"] == ["--tag=a", "--debug"];
    var last := CLEAN.(args := ["--tag=a", "--debug"]);
    ScanPlain(last, SCREENS);
    assert "" + SCREENS == SCREENS && ["--tag=a", "--debug"] + [SCREENS] == BROKEN;
  }

  /** A flag of the table that stands alone, with an attached value or as a boolean. */
  lemma {:induction false} LoneFlag(t: Table, name: string, suffix: string)
    requires ValidTable(t) && name in t.flags && name !in ["hc", "help", "h"]
    requires name != "" && name[0] != '-' && '=' !in name
      && (if suffix == "" then t.flags[name].isBool else suffix[0] == '=')
    ensures var token := "--" + name + suffix;
      && Good(t, FlagGroup(Canonical(t, name), [token])) && HeadName(token) == name && Dashes(token) == 2
      && GroupValue([token]) == if suffix == "" then "true" else suffix[1..]
  {
    hide Bare, HeadName, Normalized, IsFlag, AttachedValue, HasPrefix;
    LongToken(name, suffix);
    var token := "--" + name + suffix;
    assert token[0] == '-' && token[1] == '-' && token[2] == name[0];
  }

  /** How lone flags are split, grouped and parsed. */
  lemma {:induction false} LoneFlags(t: Table, groups: seq<FlagGroup>)
    requires ValidTable(t) && AllGood(t, groups)
    requires forall i :: 0 <= i < |groups| ==> Assigns(t, groups[i].tokens)
    ensures var flags := Flatten(groups);
      && EndOf(t, flags) == Complete && Partition(t, flags) == (flags, [])
      && Groups(t, flags) == groups && Parse(t, flags) == Ok(GroupAssignments(groups))
  {
    hide Good, Assigns, Partition, GroupAssignments;
    var flags := Flatten(groups);
    GroupsOfFlattened(t, groups);
    ParseGroups(t, groups);
    PartitionComplete(t, flags, []);
    PartitionNothing(t);
    assert flags + [] == flags;
  }

  lemma {:induction false} ExampleFlags(t: Table)
    requires t == ExampleTable()
    ensures Partition(t, [TAGGED]) == ([TAGGED], []) && Partition(t, BROKEN) == (BROKEN, [])
    ensures Partition(t, [SCREENS]) == ([SCREENS], []) && EndOf(t, BROKEN) == Complete
    ensures Groups(t, [TAGGED]) == [FlagGroup("tag", [TAGGED])]
    ensures Parse(t, [TAGGED]) == Ok([Assignment("tag", "a\U{00A0}--debug")])
    ensures Parse(t, [SCREENS]) == Ok([Assignment("screens", "0")])
    ensures Parse(t, BROKEN) == Ok([Assignment("tag", "a"), Assignment("debug", "true"), Assignment("screens", "0")])
  {
    hide Settled, IsHelp, TakesValue, HeadName, Dashes, GroupValue, EndOf, Partition, Groups, Parse, Bare;
    assert TAGGED == "--" + "tag" + "=a\U{00A0}--debug" && "--tag=a" == "--" + "tag" + "=a"
      && "--debug" == "--" + "debug" + "" && SCREENS == "--" + "screens" + "=0";
    LoneFlag(t, "tag", "=a\U{00A0}--debug");
    LoneFlag(t, "tag", "=a");
    LoneFlag(t, "debug", "");
    LoneFlag(t, "screens", "=0");
    var whole, tag := FlagGroup("tag", [TAGGED]), FlagGroup("tag", ["--tag=a"]);
    var debug, screens := FlagGroup("debug", ["--debug"]), FlagGroup("screens", [SCREENS]);
    LoneFlags(t, [whole]);
    LoneFlags(t, [screens]);
    LoneFlags(t, [tag, debug, screens]);
    assert "=a\U{00A0}--debug"[1..] == "a\U{00A0}--debug" && "=a"[1..] == "a" && "=0"[1..] == "0";
    OneGroup(whole);
    OneGroup(screens);
    ThreeGroups(tag, debug, screens);
    assert ["--tag=a"] + ["--debug"] + [SCREENS] == BROKEN;
  }

  lemma OneGroup(g: FlagGroup)
    requires g.tokens != []
    ensures Flatten([g]) == g.tokens && GroupAssignments([g]) == [Assignment(g.name, GroupValue(g.tokens))]
  {
    assert [g][1..] == [];
  }

  lemma ThreeGroups(a: FlagGroup, b: FlagGroup, c: FlagGroup)
    requires a.tokens != [] && b.tokens != [] && c.tokens != []
    ensures Flatten([a, b, c]) == a.tokens + b.tokens + c.tokens
    ensures GroupAssignments([a, b, c]) == [Assignment(a.name, GroupValue(a.tokens)),
      Assignment(b.name, GroupValue(b.tokens)), Assignment(c.name, GroupValue(c.tokens))]
  {
    hide GroupValue;
    assert [a, b, c][1..] == [b, c] && [b, c][1..] == [c];
    OneGroup(c);
  }

  /** The example's draft is the whole command line: nothing in it is protected. */
  lemma {:induction false} ExampleIsSafe(t: Table, p: Policy)
    requires t == ExampleTable() && p == ExamplePolicy()
    ensures Protected(t, p, [TAGGED]) == {}
    ensures SafePart(t, p, [TAGGED]) == [TAGGED] && OpaquePart(t, p, [TAGGED]) == []
  {
    hide Parse, Partition, EndOf, Groups, AttachedValue, HeadName;
    ExampleFlags(t);
    assert AttachedValue(TAGGED) == "a\U{00A0}--debug" by {
      assert TAGGED == "--" + "tag" + "=a\U{00A0}--debug";
      LongToken("tag", "=a\U{00A0}--debug");
    }
    assert TAGGED[5] == '=' && '"' !in "a\U{00A0}--debug";
    var whole := FlagGroup("tag", [TAGGED]);
    assert !MustProtect(p, [TAGGED]);
    assert [whole][1..] == [];
    assert ProtectedNames(p, [whole]) == {};
    assert Selected([whole], {}, false) == [whole] && Selected([whole], {}, true) == [];
    assert Flatten([whole]) == [TAGGED];
  }

  /**
   * Not so for a value with a no-break space: it is neither quoted in the draft nor kept together when the draft is
   * read back, so that an edit of something else launches with a flag that neither the original nor the edit sets.
   */
  lemma {:induction false} AppendedEditCanChangeMeaning(t: Table, p: Policy)
    requires t == ExampleTable() && p == ExamplePolicy()
    ensures Launch(t, p, [TAGGED], Some(Joined(SafePart(t, p, Partition(t, [TAGGED]).0)) + " " + SCREENS), ["x"])
      == Ok(BROKEN + ["--", "x"])
    ensures Partition(t, BROKEN + ["--", "x"]) == (BROKEN, ["x"])
    ensures Parse(t, [TAGGED]).Ok? && Parse(t, [SCREENS]).Ok? && Parse(t, BROKEN).Ok?
    ensures Values(Parse(t, [TAGGED]).value, "debug") == Values(Parse(t, [SCREENS]).value, "debug") == []
    ensures Values(Parse(t, BROKEN).value, "debug") == ["true"]
  {
    hide Parse, Partition, EndOf, Groups, Tokens, Joined, SafePart, OpaquePart, Protected, AttachedValue, HeadName;
    TaggedTokens();
    ExampleFlags(t);
    ExampleIsSafe(t, p);
    assert !HasSensitive(p, BROKEN) && !TouchesProtected(t, BROKEN, {});
    PartitionComplete(t, BROKEN, ["--", "x"]);
    PartitionPaths(t, ["x"]);
    assert ["--"] + ["x"] == ["--", "x"] && BROKEN + [] == BROKEN;
    assert BROKEN + ["--"] + ["x"] == BROKEN + ["--", "x"];
    ThreeValues(Assignment("tag", "a"), Assignment("debug", "true"), Assignment("screens", "0"), "debug");
  }

  lemma ThreeValues(a: Assignment, b: Assignment, c: Assignment, name: string)
    requires a.name != name && b.name == name && c.name != name
    ensures Values([a], name) == Values([c], name) == [] && Values([a, b, c], name) == [b.value]
  {
    assert [a, b, c][1..] == [b, c] && [b, c][1..] == [c] && [c][1..] == [];
  }
}
