/** What a draft shows, what stays with the driver, and what an accepted launch may do (cmd/upbrr/tui_launcher.go). */
module LaunchSecrets {
  import opened Text
  import opened ArgumentText
  import opened FlagArgs
  import opened FlagMeaning
  import opened LaunchDraft

  /** The value that an option is written with, attached or as an argument of its own. */
  function WrittenValue(tokens: seq<string>): string
    requires tokens != []
  {
    if |tokens| == 2 then tokens[1] else AttachedValue(tokens[0])
  }

  /** The option must not be shown: it is sensitive as it is written, or no quotes can hold its value. */
  predicate HoldsSecret(p: Policy, tokens: seq<string>)
    requires tokens != []
  {
    || p.sensitive(HeadName(tokens[0]), WrittenValue(tokens))
    || ('"' in WrittenValue(tokens) && '\'' in WrittenValue(tokens))
  }

  /** Two spellings of one flag: the same name, a name and its alias, or two aliases. */
  predicate SameFlag(t: Table, a: string, b: string) {
    || a == b
    || (a in t.aliases && b !in t.aliases && t.aliases[a] == b)
    || (b in t.aliases && a !in t.aliases && t.aliases[b] == a)
    || (a in t.aliases && b in t.aliases && t.aliases[a] == t.aliases[b])
  }

  lemma WrittenIsDraftValue(t: Table, g: FlagGroup)
    requires Good(t, g)
    ensures WrittenValue(g.tokens) == DraftValue(g.tokens)
  {
    if '=' !in g.tokens[0] { NoEqualsNoValue(g.tokens[0]); }
  }

  lemma NoEqualsNoValue(token: string)
    requires '=' !in token
    ensures AttachedValue(token) == ""
  {
    assert token == token[..Dashes(token)] + Bare(token);
  }

  lemma {:induction false} SecretsAreProtected(t: Table, p: Policy, groups: seq<FlagGroup>, i: nat)
    requires AllGood(t, groups) && i < |groups| && groups[i].tokens != []
    requires forall k :: 0 <= k < |groups| ==> groups[k].tokens != []
    ensures HoldsSecret(p, groups[i].tokens) ==> groups[i].name in ProtectedNames(p, groups)
    decreases |groups|
  {
    hide Good, HeadName, AttachedValue, DraftValue, WrittenValue;
    WrittenIsDraftValue(t, groups[i]);
    if i > 0 {
      assert groups[1..][i - 1] == groups[i];
      SecretsAreProtected(t, p, groups[1..], i - 1);
    }
  }

  lemma {:induction false} SelectedIsOutside(groups: seq<FlagGroup>, names: set<string>)
    ensures forall g :: g in Selected(groups, names, false) ==> g in groups && g.name !in names
    decreases |groups|
  {
    if groups != [] {
      SelectedIsOutside(groups[1..], names);
      assert groups == [groups[0]] + groups[1..];
    }
  }

  /** What the editor is given is made of options none of which holds a secret. */
  lemma {:induction false} DraftShowsNoSecret(t: Table, p: Policy, flags: seq<string>)
    requires EndOf(t, flags) == Complete
    ensures var shown := Groups(t, SafePart(t, p, flags));
      && Flatten(shown) == SafePart(t, p, flags)
      && forall g :: g in shown ==> g in Groups(t, flags) && g.tokens != [] && !HoldsSecret(p, g.tokens)
  {
    hide Good, EndOf, Groups, Flatten, Selected, HoldsSecret, ProtectedNames;
    var groups, names := Groups(t, flags), Protected(t, p, flags);
    GroupsHaveTokens(t, flags);
    GroupsOfComplete(t, flags);
    SelectedGood(t, groups, names, false);
    GroupsOfFlattened(t, Selected(groups, names, false));
    SelectedIsOutside(groups, names);
    forall g | g in Selected(groups, names, false) ensures g.tokens != [] && !HoldsSecret(p, g.tokens) {
      var i :| 0 <= i < |groups| && groups[i] == g;
      SecretsAreProtected(t, p, groups, i);
    }
  }

  lemma SameFlagSameName(t: Table, a: string, b: string)
    requires SameFlag(t, a, b)
    ensures Canonical(t, a) == Canonical(t, b)
  {
  }

  lemma {:induction false} NameOfGroup(t: Table, flags: seq<string>, i: nat)
    requires EndOf(t, flags) == Complete && i < |Groups(t, flags)|
    ensures var g := Groups(t, flags)[i]; g.tokens != [] && g.name == Canonical(t, HeadName(g.tokens[0]))
  {
    hide EndOf, Groups, Settled, IsHelp, TakesValue, HeadName;
    GroupsOfComplete(t, flags);
    assert Good(t, Groups(t, flags)[i]);
  }

  /** All occurrences of a flag with a secret, under any of its spellings, stay with the driver, in order. */
  lemma {:induction false} SecretsStayOpaque(t: Table, p: Policy, flags: seq<string>, i: nat, j: nat)
    requires EndOf(t, flags) == Complete && i < |Groups(t, flags)| && j < |Groups(t, flags)|
    requires Groups(t, flags)[i].tokens != [] && Groups(t, flags)[j].tokens != []
    requires HoldsSecret(p, Groups(t, flags)[i].tokens)
    requires SameFlag(t, HeadName(Groups(t, flags)[i].tokens[0]), HeadName(Groups(t, flags)[j].tokens[0]))
    ensures var name := Groups(t, flags)[j].name;
      && name in Protected(t, p, flags) && name == Groups(t, flags)[i].name
      && Occurrences(Groups(t, OpaquePart(t, p, flags)), name) == Occurrences(Groups(t, flags), name)
      && Occurrences(Groups(t, SafePart(t, p, flags)), name) == []
  {
    hide Good, EndOf, Groups, Flatten, Selected, HoldsSecret, HeadName, Occurrences, ProtectedNames, SameFlag;
    var groups, names := Groups(t, flags), Protected(t, p, flags);
    GroupsHaveTokens(t, flags);
    GroupsOfComplete(t, flags);
    SecretsAreProtected(t, p, groups, i);
    NameOfGroup(t, flags, i);
    NameOfGroup(t, flags, j);
    SameFlagSameName(t, HeadName(groups[i].tokens[0]), HeadName(groups[j].tokens[0]));
    SelectedGood(t, groups, names, true);
    SelectedGood(t, groups, names, false);
    GroupsOfFlattened(t, Selected(groups, names, true));
    GroupsOfFlattened(t, Selected(groups, names, false));
    SelectedOccurrences(groups, names, true, groups[j].name);
    SelectedOccurrences(groups, names, false, groups[j].name);
  }

  /** Whatever the draft is edited to, an accepted launch gives a flag with a secret exactly its original values. */
  lemma {:induction false} AcceptedEditKeepsSecrets(t: Table, p: Policy, original: seq<string>, text: string,
          sources: seq<string>, i: nat)
    requires ValidTable(t) && "help" !in t.flags && Launch(t, p, original, Some(text), sources).Ok?
    requires var flags := Partition(t, original).0;
      i < |Groups(t, flags)| && Groups(t, flags)[i].tokens != [] && HoldsSecret(p, Groups(t, flags)[i].tokens)
    ensures var flags := Partition(t, original).0;
      var launched := Partition(t, Launch(t, p, original, Some(text), sources).value).0;
      && Parse(t, flags).Ok? && Parse(t, launched).Ok?
      && Values(Parse(t, launched).value, Groups(t, flags)[i].name)
         == Values(Parse(t, flags).value, Groups(t, flags)[i].name)
  {
    hide EndOf, Partition, Parse, Groups, Launch, Tokens, Values, HoldsSecret, Protected, OpaquePart, SafePart,
      HeadName;
    AcceptedEditMeans(t, p, original, text, sources);
    SameAsItself(t, HeadName(Groups(t, Partition(t, original).0)[i].tokens[0]));
    SecretsStayOpaque(t, p, Partition(t, original).0, i, i);
  }

  lemma SameAsItself(t: Table, name: string)
    ensures SameFlag(t, name, name)
  {
  }

  // ---- What an edit cannot bring in ----

  lemma GroupsUnfold(t: Table, flags: seq<string>)
    ensures flags == [] ==> Groups(t, flags) == []
    ensures flags != [] ==>
      var n := Width(t, flags);
      Groups(t, flags) == [FlagGroup(Canonical(t, HeadName(flags[0])), flags[..n])] + Groups(t, flags[n..])
  {
    hide HeadName;
  }

  /** Where a group stands in its vector. */
  lemma {:induction false} GroupIsThere(t: Table, flags: seq<string>, i: nat) returns (k: nat)
    requires EndOf(t, flags) == Complete && i < |Groups(t, flags)|
    ensures var g := Groups(t, flags)[i];
      k + |g.tokens| <= |flags| && g.tokens != [] && flags[k..k + |g.tokens|] == g.tokens && HasPrefix(flags[k], "-")
    decreases |flags|
  {
    GroupsUnfold(t, flags);
    hide HeadName, TakesValue, EndOf, HasPrefix, IsHelp, Groups, Good, Width, Canonical;
    FirstGroupGood(t, flags);
    var n := Width(t, flags);
    if i == 0 {
      k := 0;
      GoodStartsWithDash(t, Groups(t, flags)[0]);
    } else {
      var rest := GroupIsThere(t, flags[n..], i - 1);
      k := n + rest;
      assert flags[n..][rest..rest + |Groups(t, flags)[i].tokens|] == flags[k..k + |Groups(t, flags)[i].tokens|];
      assert flags[n..][rest] == flags[k];
    }
  }

  lemma GoodStartsWithDash(t: Table, g: FlagGroup)
    requires Good(t, g)
    ensures HasPrefix(g.tokens[0], "-")
  {
  }

  lemma NotSensitive(p: Policy, flags: seq<string>, k: nat)
    requires k < |flags| && HasPrefix(flags[k], "-") && !HasSensitive(p, flags)
    ensures !p.sensitive(HeadName(flags[k]),
      if AttachedValue(flags[k]) == "" && k + 1 < |flags| then flags[k + 1] else AttachedValue(flags[k]))
  {
  }

  /** An accepted edit has no option with a value that makes it sensitive, and none that is sensitive with any value. */
  lemma {:induction false} AcceptedEditAddsNoSecret(t: Table, p: Policy, original: seq<string>, text: string,
          sources: seq<string>, i: nat)
    requires ValidTable(t) && "help" !in t.flags && Launch(t, p, original, Some(text), sources).Ok? && Tokens(text).Ok?
    requires var edited := Partition(t, Tokens(text).value).0;
      i < |Groups(t, edited)| && Groups(t, edited)[i].tokens != []
    ensures var tokens := Groups(t, Partition(t, Tokens(text).value).0)[i].tokens;
      && (WrittenValue(tokens) != "" ==> !p.sensitive(HeadName(tokens[0]), WrittenValue(tokens)))
      && exists v :: !p.sensitive(HeadName(tokens[0]), v)
  {
    hide EndOf, Partition, Parse, Groups, Tokens, Part, Protected, HeadName, AttachedValue, HasPrefix, OptionsOf,
      TouchesProtected, Launchable, SameRoute;
    AcceptedEditMeans(t, p, original, text, sources);
    var edited := Partition(t, Tokens(text).value).0;
    assert !HasSensitive(p, edited);
    var tokens := Groups(t, edited)[i].tokens;
    var k := GroupIsThere(t, edited, i);
    assert tokens[0] == edited[k] && (|tokens| == 2 ==> tokens[1] == edited[k + 1]);
    NotSensitive(p, edited, k);
    PairHasNoAttached(t, edited, i);
  }

  lemma {:induction false} PairHasNoAttached(t: Table, flags: seq<string>, i: nat)
    requires EndOf(t, flags) == Complete && i < |Groups(t, flags)|
    ensures var tokens := Groups(t, flags)[i].tokens; |tokens| == 2 ==> AttachedValue(tokens[0]) == ""
  {
    hide EndOf, Groups, Settled, IsHelp, HeadName, AttachedValue;
    GroupsOfComplete(t, flags);
    assert Good(t, Groups(t, flags)[i]);
    if |Groups(t, flags)[i].tokens| == 2 { NoEqualsNoValue(Groups(t, flags)[i].tokens[0]); }
  }

  // ---- What a launch may be ----

  lemma {:induction false} ProtectedExactly(t: Table, p: Policy, groups: seq<FlagGroup>, name: string)
    requires AllGood(t, groups) && forall k :: 0 <= k < |groups| ==> groups[k].tokens != []
    ensures name in ProtectedNames(p, groups) <==>
      exists i :: 0 <= i < |groups| && groups[i].name == name && HoldsSecret(p, groups[i].tokens)
    decreases |groups|
  {
    hide Good, HeadName, AttachedValue, DraftValue, WrittenValue;
    if groups != [] {
      WrittenIsDraftValue(t, groups[0]);
      ProtectedExactly(t, p, groups[1..], name);
      assert forall k :: 0 <= k < |groups[1..]| ==> groups[1..][k] == groups[k + 1];
      assert forall k :: 0 < k < |groups| ==> groups[k] == groups[1..][k - 1];
    }
  }

  /** No token that looks like a flag is sensitive with its attached value or, for want of one, with the next token. */
  ghost predicate NoSensitiveToken(p: Policy, edited: seq<string>) {
    forall k :: 0 <= k < |edited| && HasPrefix(edited[k], "-") ==>
      var attached := AttachedValue(edited[k]);
      !p.sensitive(HeadName(edited[k]), if attached == "" && k + 1 < |edited| then edited[k + 1] else attached)
  }

  /** The edit has no flag of which the original has an occurrence that holds a secret. */
  ghost predicate LeavesSecrets(t: Table, p: Policy, flags: seq<string>, edited: seq<string>) {
    GroupsHaveTokens(t, flags);
    forall i, j ::
      (&& 0 <= i < |Groups(t, flags)| && 0 <= j < |Groups(t, edited)|
       && Groups(t, flags)[i].name == Groups(t, edited)[j].name) ==>
        !HoldsSecret(p, Groups(t, flags)[i].tokens)
  }

  /**
   * The edited text stands for flags: it may be shown, splits into flags that parse, and has neither a sensitive token
   * nor a flag that the original has a secret for.
   */
  ghost predicate EditStands(t: Table, p: Policy, flags: seq<string>, text: string) {
    && p.safeText(text) && Tokens(text).Ok? && "--" !in Tokens(text).value
    && var (edited, positional) := Partition(t, Tokens(text).value);
       && positional == [] && Parse(t, edited).Ok? && NoSensitiveToken(p, edited) && LeavesSecrets(t, p, flags, edited)
  }

  lemma SensitiveExactly(p: Policy, edited: seq<string>)
    ensures NoSensitiveToken(p, edited) <==> !HasSensitive(p, edited)
  {
    hide HasPrefix, HeadName, AttachedValue;
  }

  lemma {:induction false} TouchesExactly(t: Table, p: Policy, flags: seq<string>, edited: seq<string>)
    requires EndOf(t, flags) == Complete
    ensures LeavesSecrets(t, p, flags, edited) <==> !TouchesProtected(t, edited, Protected(t, p, flags))
  {
    hide Groups, EndOf, HoldsSecret, ProtectedNames, Good;
    GroupsHaveTokens(t, flags);
    GroupsOfComplete(t, flags);
    var groups := Groups(t, flags);
    forall name
      ensures name in Protected(t, p, flags)
        <==> exists i :: 0 <= i < |groups| && groups[i].name == name && HoldsSecret(p, groups[i].tokens)
    {
      ProtectedExactly(t, p, groups, name);
    }
  }

  /** The options that flags stand for, if they parse and their values are accepted together. */
  function Meant(t: Table, p: Policy, flags: seq<string>): Option<Options> {
    if Parse(t, flags).Ok? then p.options(Parse(t, flags).value) else None
  }

  /** The options ask for interaction, and their queue and track corrections go with the sources. */
  predicate SuitsSources(o: Options, sources: seq<string>) {
    && !o.unattended && !o.unattendedConfirm && (o.queue == "" || |sources| == 1)
    && (|o.trackLanguages| + |o.trackAudioOrigins| == 0 || (|sources| == 1 && o.queue == ""))
  }

  /** Presentation and interaction are as before, and the command is still the upload. */
  predicate StaysOnCourse(prior: Options, next: Options) {
    && next.ui == prior.ui && next.keepOpen == prior.keepOpen && next.InteractionMode() == prior.InteractionMode()
    && !next.elsewhere
  }

  lemma {:induction false} EditsExactly(t: Table, p: Policy, original: seq<string>, text: string)
    requires EndOf(t, Partition(t, original).0) == Complete
    ensures EditedFlags(t, p, original, text) ==
      if EditStands(t, p, Partition(t, original).0, text)
      then Ok(Partition(t, Tokens(text).value).0 + OpaquePart(t, p, Partition(t, original).0)) else Err
  {
    if Tokens(text).Ok? {
      var edited := Partition(t, Tokens(text).value).0;
      SensitiveExactly(p, edited);
      TouchesExactly(t, p, Partition(t, original).0, edited);
      hide Partition, Tokens, Parse, Part, Protected, NoSensitiveToken, LeavesSecrets, HasSensitive, TouchesProtected,
        EndOf;
    }
  }

  /**
   * Which launches are accepted: sources, none of them blank; an edit that stands for flags and stays on course, if the
   * draft was edited; and options that suit the sources. Such a launch runs the original flags, or the edited ones with
   * the protected ones behind them.
   */
  lemma {:induction false} LaunchesExactly(t: Table, p: Policy, original: seq<string>, draft: Option<string>,
          sources: seq<string>)
    requires EndOf(t, Partition(t, original).0) == Complete
    ensures var flags := Partition(t, original).0;
      var stands := draft.None? || EditStands(t, p, flags, draft.value);
      var run := if draft.None? || !stands then flags
                 else Partition(t, Tokens(draft.value).value).0 + OpaquePart(t, p, flags);
      var options := Meant(t, p, Partition(t, run + ["--"] + sources).0);
      && (Launch(t, p, original, draft, sources).Ok? <==>
            && sources != [] && (forall s :: s in sources ==> !p.blank(s)) && stands
            && options.Some? && SuitsSources(options.value, sources)
            && (draft.Some? ==> Meant(t, p, flags).Some? && StaysOnCourse(Meant(t, p, flags).value, options.value)))
      && (Launch(t, p, original, draft, sources).Ok? ==>
            Launch(t, p, original, draft, sources).value == run + ["--"] + sources)
  {
    RouteStays(t, p, original, draft, sources);
    hide Partition, Parse, LaunchFlags, EditStands, Part, Protected, Tokens, EndOf, OptionsOf, Meant, StaysOnCourse,
      Launchable, SuitsSources;
    forall run ensures OptionsOf(t, p, run) == if Meant(t, p, run).None? then Err else Ok(Meant(t, p, run).value) {
      OptionsExactly(t, p, run);
    }
    forall options ensures Launchable(options, sources) <==> SuitsSources(options, sources) {
      SuitsExactly(options, sources);
    }
    assert forall i :: 0 <= i < |sources| ==> sources[i] in sources;
  }

  lemma {:induction false} RouteStays(t: Table, p: Policy, original: seq<string>, draft: Option<string>,
          sources: seq<string>)
    requires EndOf(t, Partition(t, original).0) == Complete
    ensures var flags := Partition(t, original).0;
      var stands := draft.None? || EditStands(t, p, flags, draft.value);
      var run := if draft.None? || !stands then flags
                 else Partition(t, Tokens(draft.value).value).0 + OpaquePart(t, p, flags);
      var prior, next := Meant(t, p, flags), Meant(t, p, Partition(t, run + ["--"] + sources).0);
      LaunchFlags(t, p, original, draft, sources) ==
        if stands && (draft.Some? ==> prior.Some? && next.Some? && StaysOnCourse(prior.value, next.value)) then Ok(run)
        else Err
  {
    if draft.Some? {
      EditsExactly(t, p, original, draft.value);
      hide Partition, Parse, EditedFlags, EditStands, Part, Protected, Tokens, EndOf, OptionsOf, Meant, SameRoute,
        StaysOnCourse;
      forall run ensures OptionsOf(t, p, run) == if Meant(t, p, run).None? then Err else Ok(Meant(t, p, run).value) {
        OptionsExactly(t, p, run);
      }
      forall prior, next ensures SameRoute(prior, next) <==> StaysOnCourse(prior, next) { RouteExactly(prior, next); }
    }
  }

  lemma OptionsExactly(t: Table, p: Policy, flags: seq<string>)
    ensures OptionsOf(t, p, flags) == if Meant(t, p, flags).None? then Err else Ok(Meant(t, p, flags).value)
  {
    hide Parse;
  }

  lemma RouteExactly(prior: Options, next: Options)
    ensures SameRoute(prior, next) <==> StaysOnCourse(prior, next)
  {
  }

  lemma SuitsExactly(options: Options, sources: seq<string>)
    ensures Launchable(options, sources) <==> SuitsSources(options, sources)
  {
  }
}
