/** Decrypting, encrypting and rewrapping a stored configuration, and rewraps that race with other writers. */
module SecretRuns {
  import opened Text
  import opened SecretRewrap

  // ---- Decryption and encryption of one secret ----

  /** The text under the first helper that opens the envelope. */
  function OpenWithAny(a: Cipher, helpers: seq<string>, e: string): Option<string> {
    if helpers == [] then None
    else if OpenSecret(a, e, helpers[0]).Some? then OpenSecret(a, e, helpers[0])
    else OpenWithAny(a, helpers[1..], e)
  }

  function Decrypted(a: Cipher, helpers: seq<string>, value: string): Option<string> {
    if IsEnvelope(TrimSpace(value)) then OpenWithAny(a, helpers, TrimSpace(value)) else Some(value)
  }

  function Encrypted(a: Cipher, helper: string, salt: nat, value: string): Option<string> {
    var trimmed := TrimSpace(value);
    if trimmed == "" || IsEnvelope(trimmed) then Some(value) else SealSecret(a, trimmed, helper, salt)
  }

  function Decrypting(a: Cipher, helpers: seq<string>): Visit {
    (_: Slot, value: string) => Decrypted(a, helpers, value)
  }

  function Encrypting(a: Cipher, helper: string, salts: Slot -> nat): Visit {
    (s: Slot, value: string) => Encrypted(a, helper, salts(s), value)
  }

  function Rewrapping(a: Cipher, sources: seq<string>, target: string, salts: Slot -> nat): Visit {
    (s: Slot, value: string) =>
      var text := Decrypted(a, sources, value);
      if text.None? then None else Encrypted(a, target, salts(s), text.value)
  }

  /** An envelope is marked as such, and a helper of fewer than eight characters neither seals nor opens one. */
  lemma {:induction false} MarksAndHelpers(a: Cipher, helpers: seq<string>, helper: string, text: string, salt: nat)
    ensures IsEnvelope("upbrr-enc:v1:" + text)
    ensures IsEnvelope(text) ==> exists rest :: text == "upbrr-enc:v1:" + rest
    ensures |TrimSpace(helper)| < 8 ==>
      && OpenWithAny(a, [helper] + helpers, text) == OpenWithAny(a, helpers, text)
      && (TrimSpace(text) != "" && !IsEnvelope(TrimSpace(text)) ==> Encrypted(a, helper, salt, text).None?)
    ensures |TrimSpace(helper)| >= 8 && a.open(text, TrimSpace(helper)).Some? ==>
      OpenWithAny(a, [helper] + helpers, text) == a.open(text, TrimSpace(helper))
  {
    hide TrimSpace;
    assert ("upbrr-enc:v1:" + text)[..|PREFIX|] == PREFIX;
    if IsEnvelope(text) { assert text == "upbrr-enc:v1:" + text[|PREFIX|..]; }
    assert ([helper] + helpers)[1..] == helpers;
  }

  // ---- The operations on a configuration ----

  /** The helpers that are tried: trimmed, not blank, each once. */
  method CleanHelpers(helpers: seq<string>) returns (clean: seq<string>)
    ensures forall h :: h in clean <==> h != "" && exists i :: 0 <= i < |helpers| && TrimSpace(helpers[i]) == h
    ensures forall i, j :: 0 <= i < j < |clean| ==> clean[i] != clean[j]
  {
    clean := [];
    for i := 0 to |helpers|
      invariant forall h :: h in clean <==> h != "" && exists k :: 0 <= k < i && TrimSpace(helpers[k]) == h
      invariant forall k, j :: 0 <= k < j < |clean| ==> clean[k] != clean[j]
    {
      var helper := TrimSpace(helpers[i]);
      if helper != "" && helper !in clean {
        clean := clean + [helper];
      }
    }
  }

  lemma {:induction false} OpensExactly(a: Cipher, helpers: seq<string>, e: string)
    requires Lawful(a)
    ensures OpenWithAny(a, helpers, e).Some? <==> exists h :: h in helpers && OpenSecret(a, e, h).Some?
    ensures forall h :: OpenWithAny(a, helpers, e).Some? && OpenSecret(a, e, h).Some? ==>
      OpenSecret(a, e, h) == OpenWithAny(a, helpers, e)
  {
    if helpers != [] {
      OpensExactly(a, helpers[1..], e);
      assert helpers == [helpers[0]] + helpers[1..];
    }
  }

  /** Only which helpers there are matters, not their order, repetition or surrounding space. */
  lemma {:induction false} CleaningKeepsOpening(a: Cipher, helpers: seq<string>, clean: seq<string>, e: string)
    requires Lawful(a)
    requires forall h :: h in clean <==> h != "" && exists i :: 0 <= i < |helpers| && TrimSpace(helpers[i]) == h
    ensures OpenWithAny(a, clean, e) == OpenWithAny(a, helpers, e)
  {
    hide Lawful, OpenWithAny, TrimSpace;
    OpensExactly(a, helpers, e);
    OpensExactly(a, clean, e);
    forall i | 0 <= i < |helpers| ensures OpenSecret(a, e, TrimSpace(helpers[i])) == OpenSecret(a, e, helpers[i]) {
      TrimSpaceTrims(helpers[i]);
    }
    if h :| h in helpers && OpenSecret(a, e, h).Some? {
      assert TrimSpace(h) in clean && OpenSecret(a, e, TrimSpace(h)).Some?;
    }
    if h :| h in clean && OpenSecret(a, e, h).Some? {
      var i :| 0 <= i < |helpers| && TrimSpace(helpers[i]) == h;
      assert OpenSecret(a, e, helpers[i]).Some?;
    }
  }

  /** decryptConfigSecretsWithHelpersFrom, on the clone. */
  method DecryptSecrets(settings: Settings, a: Cipher, helpers: seq<string>) returns (ok: bool)
    requires Lawful(a)
    modifies settings
    ensures ok <==> Succeeds(old(settings.Value()), Decrypting(a, helpers))
    ensures ok ==> Walked(old(settings.Value()), settings.Value(), Decrypting(a, helpers))
  {
    hide Lawful, OpenWithAny, TrimSpace;
    ghost var c := settings.Value();
    var probe := new Settings(Config.Config(settings.fixed, settings.trackers, settings.clients, settings.rest));
    var plain := probe.WalkSecretFields((_: Slot, value: string) =>
      if IsEnvelope(TrimSpace(value)) then None else Some(value));
    if plain {
      return true;
    }
    var clean := CleanHelpers(helpers);
    forall s | HasSlot(c, s)
      ensures Decrypting(a, clean)(s, SecretAt(c, s)) == Decrypting(a, helpers)(s, SecretAt(c, s))
    {
      CleaningKeepsOpening(a, helpers, clean, TrimSpace(SecretAt(c, s)));
    }
    if clean == [] {
      ghost var s :| HasSlot(c, s) && IsEnvelope(TrimSpace(SecretAt(c, s)));
      OpensExactly(a, clean, TrimSpace(SecretAt(c, s)));
      return false;
    }
    ok := settings.WalkSecretFields(Decrypting(a, clean));
  }

  class Repository {
    var stored: Config

    method LoadFullConfig() returns (snapshot: Config)
      ensures snapshot == stored
    {
      snapshot := stored;
    }

    method SaveFullConfigIfUnchanged(c: Config, expected: Config) returns (ok: bool)
      modifies this
      ensures ok <==> old(stored) == expected
      ensures stored == if ok then c else old(stored)
    {
      ok := stored == expected;
      if ok {
        stored := c;
      }
    }

    /** RewrapSecretsInDatabaseWithFallback, when nothing else writes between the load and the save. */
    method RewrapSecrets(a: Cipher, sources: seq<string>, target: string, salts: Slot -> nat) returns (ok: bool)
      requires Lawful(a)
      modifies this
      ensures ok <==> Succeeds(old(stored), Rewrapping(a, sources, target, salts))
      ensures if ok then Walked(old(stored), stored, Rewrapping(a, sources, target, salts)) else stored == old(stored)
    {
      hide Lawful, Decrypted, Encrypted;
      var snapshot := LoadFullConfig();
      var settings := new Settings(snapshot);
      ok := DecryptSecrets(settings, a, sources);
      if !ok {
        return;
      }
      ghost var decrypted := settings.Value();
      ok := settings.WalkSecretFields(Encrypting(a, target, salts));
      if !ok {
        return;
      }
      ok := SaveFullConfigIfUnchanged(Config.Config(settings.fixed, settings.trackers, settings.clients, settings.rest),
        snapshot);
    }
  }

  // ---- What rewrapping does to one secret ----

  /**
   * `text` is what the stored value stands for: itself, or what its envelope holds under some helper, without
   * surrounding space.
   */
  ghost predicate StandsFor(a: Cipher, value: string, text: string) {
    var v := TrimSpace(value);
    if IsEnvelope(v) then exists h :: OpenSecret(a, v, h).Some? && TrimSpace(OpenSecret(a, v, h).value) == text
    else v == text
  }

  /**
   * A successful rewrap leaves a secret that is not blank as an envelope of the same text for the new helper, exactly
   * unless the text under an old envelope looks like an envelope itself.
   */
  lemma {:induction false} RewrappedExactly(a: Cipher, sources: seq<string>, target: string, salts: Slot -> nat,
          s: Slot, value: string, text: string)
    requires Lawful(a) && StandsFor(a, value, text) && text != ""
    requires Rewrapping(a, sources, target, salts)(s, value).Some?
    ensures var r := TrimSpace(Rewrapping(a, sources, target, salts)(s, value).value);
      IsEnvelope(r) && OpenSecret(a, r, target) == Some(text) <==> !IsEnvelope(text)
  {
    hide TrimSpace, IsEnvelope;
    TextUnderEnvelope(a, sources, value, text);
    var plain := Decrypted(a, sources, value).value;
    if IsEnvelope(text) {
      assert Encrypted(a, target, salts(s), plain) == Some(plain) && TrimSpace(plain) == text;
    } else {
      assert SealSecret(a, text, target, salts(s)).Some?;
    }
  }

  /** Decryption yields the text, up to surrounding space. */
  lemma {:induction false} TextUnderEnvelope(a: Cipher, sources: seq<string>, value: string, text: string)
    requires Lawful(a) && StandsFor(a, value, text) && Decrypted(a, sources, value).Some?
    ensures TrimSpace(Decrypted(a, sources, value).value) == text
  {
    hide TrimSpace, IsEnvelope, Lawful, OpenWithAny;
    OpensExactly(a, sources, TrimSpace(value));
  }

  /** A rewrap fails exactly when some envelope opens under no source helper, or sealing fails. */
  lemma {:induction false} RewrapSucceedsExactly(a: Cipher, sources: seq<string>, target: string, salts: Slot -> nat,
          s: Slot, value: string)
    requires Lawful(a)
    ensures Rewrapping(a, sources, target, salts)(s, value).Some? <==>
      && (IsEnvelope(TrimSpace(value)) ==> exists h :: h in sources && OpenSecret(a, TrimSpace(value), h).Some?)
      && (forall text ::
          Decrypted(a, sources, value) == Some(text) && TrimSpace(text) != "" && !IsEnvelope(TrimSpace(text)) ==>
          SealSecret(a, TrimSpace(text), target, salts(s)).Some?)
  {
    hide TrimSpace, IsEnvelope, Lawful, OpenWithAny, SealSecret;
    OpensExactly(a, sources, TrimSpace(value));
    var decrypted := Decrypted(a, sources, value);
    if decrypted.Some? {
      var text := TrimSpace(decrypted.value);
      assert Rewrapping(a, sources, target, salts)(s, value) == Encrypted(a, target, salts(s), decrypted.value);
      assert Encrypted(a, target, salts(s), decrypted.value).Some? <==>
        text == "" || IsEnvelope(text) || SealSecret(a, text, target, salts(s)).Some?;
    } else {
      assert Rewrapping(a, sources, target, salts)(s, value) == None;
      assert IsEnvelope(TrimSpace(value)) && OpenWithAny(a, sources, TrimSpace(value)).None?;
    }
  }

  // ---- What it does to a configuration ----

  /** No envelope of the configuration holds a text that looks like an envelope. */
  ghost predicate Plain(a: Cipher, c: Config) {
    forall s, text :: HasSlot(c, s) && IsEnvelope(TrimSpace(SecretAt(c, s))) && StandsFor(a, SecretAt(c, s), text) ==>
      !IsEnvelope(text)
  }

  /** The same secrets stand there, and everything else is the same. */
  ghost predicate SameSecrets(a: Cipher, c: Config, d: Config) {
    SameOutside(c, d) && forall s, text ::
      HasSlot(c, s) && StandsFor(a, SecretAt(c, s), text) ==> StandsFor(a, SecretAt(d, s), text)
  }

  /** What stands in a rewrapped slot, given what stood there. */
  lemma {:induction false} SlotKeepsText(a: Cipher, sources: seq<string>, target: string, salts: Slot -> nat, s: Slot,
          value: string, text: string)
    requires Lawful(a) && StandsFor(a, value, text) && Rewrapping(a, sources, target, salts)(s, value).Some?
    requires IsEnvelope(TrimSpace(value)) ==> !IsEnvelope(text)
    ensures var r := Rewrapping(a, sources, target, salts)(s, value).value;
      && StandsFor(a, r, text)
      && (forall other :: StandsFor(a, r, other) ==> other == text)
  {
    hide TrimSpace, OpenSecret, Lawful;
    var r := Rewrapping(a, sources, target, salts)(s, value).value;
    TextUnderEnvelope(a, sources, value, text);
    TextIsTrimmed(a, value, text);
    assert !IsEnvelope(text);
    if text == "" {
      var plain := Decrypted(a, sources, value).value;
      assert Encrypted(a, target, salts(s), plain) == Some(plain) && r == plain;
    } else {
      RewrappedExactly(a, sources, target, salts, s, value, text);
      assert IsEnvelope(TrimSpace(r)) && OpenSecret(a, TrimSpace(r), target).Some?;
      OnlyOneText(a, TrimSpace(r), target, text);
    }
  }

  lemma {:induction false} TextIsTrimmed(a: Cipher, value: string, text: string)
    requires StandsFor(a, value, text)
    ensures TrimSpace(text) == text
  {
    hide OpenSecret;
    TrimSpaceTrims(value);
    if IsEnvelope(TrimSpace(value)) {
      var h :| OpenSecret(a, TrimSpace(value), h).Some? && TrimSpace(OpenSecret(a, TrimSpace(value), h).value) == text;
      TrimSpaceTrims(OpenSecret(a, TrimSpace(value), h).value);
    }
  }

  lemma OnlyOneText(a: Cipher, e: string, helper: string, text: string)
    requires Lawful(a) && OpenSecret(a, e, helper) == Some(text)
    ensures forall h :: OpenSecret(a, e, h).Some? ==> OpenSecret(a, e, h) == Some(text)
  {
  }

  /** A successful rewrap keeps what every secret stands for, and everything else. */
  lemma {:induction false} RewrapKeepsSecrets(a: Cipher, sources: seq<string>, target: string, salts: Slot -> nat,
          c: Config, d: Config)
    requires Lawful(a) && Plain(a, c) && Walked(c, d, Rewrapping(a, sources, target, salts))
    ensures SameSecrets(a, c, d) && Plain(a, d)
  {
    hide Lawful, StandsFor, IsEnvelope, TrimSpace, Rewrapping;
    var visit := Rewrapping(a, sources, target, salts);
    forall s | HasSlot(c, s) ensures HasSlot(d, s)
    {
      assert HasGroup(c, s.group) && |SecretsOf(c, s.group)| == |SecretsOf(d, s.group)|;
    }
    forall s, text | HasSlot(c, s) && StandsFor(a, SecretAt(c, s), text) ensures StandsFor(a, SecretAt(d, s), text) {
      PlainSlot(a, c, s, text);
      SlotKeepsText(a, sources, target, salts, s, SecretAt(c, s), text);
    }
    forall s, other | HasSlot(d, s) && StandsFor(a, SecretAt(d, s), other) ensures !IsEnvelope(other) {
      assert HasGroup(d, s.group) && HasSlot(c, s);
      var text := SomethingStands(a, sources, target, salts, s, SecretAt(c, s));
      PlainSlot(a, c, s, text);
      SlotKeepsText(a, sources, target, salts, s, SecretAt(c, s), text);
      assert other == text;
    }
  }

  lemma {:induction false} PlainSlot(a: Cipher, c: Config, s: Slot, text: string)
    requires Plain(a, c) && HasSlot(c, s) && StandsFor(a, SecretAt(c, s), text)
    ensures !IsEnvelope(text)
  {
    hide TrimSpace, IsEnvelope;
  }

  lemma {:induction false} SomethingStands(a: Cipher, sources: seq<string>, target: string, salts: Slot -> nat, s: Slot,
          value: string) returns (text: string)
    requires Lawful(a) && Rewrapping(a, sources, target, salts)(s, value).Some?
    ensures StandsFor(a, value, text)
  {
    hide TrimSpace, IsEnvelope;
    text := TrimSpace(Decrypted(a, sources, value).value);
    OpensExactly(a, sources, TrimSpace(value));
  }

  // ---- Rewraps and other writers ----

  /** A rewrap loads the configuration, and later saves if it is unchanged; a writer activates another configuration. */
  datatype Event = Load(who: nat) | Save(who: nat) | Activate(config: Config)

  /** `written` is the last configuration that was activated rather than rewrapped. */
  datatype System = System(stored: Config, loaded: map<nat, Config>, written: Config)

  /** The rewrap of a loaded configuration, if it succeeds. */
  type Rewraps = (nat, Config) -> Option<Config>

  ghost predicate AreRewraps(a: Cipher, rewrap: Rewraps, sources: nat -> seq<string>, target: nat -> string,
          salts: nat -> Slot -> nat) { forall who, c :: rewrap(who, c).Some? ==> Walked(c, rewrap(who, c).value,
          Rewrapping(a, sources(who), target(who), salts(who))) }

  function Next(s: System, e: Event, rewrap: Rewraps): System {
    match e
    case Load(who) => s.(loaded := s.loaded[who := s.stored])
    case Save(who) =>
      if who in s.loaded && s.stored == s.loaded[who] && rewrap(who, s.loaded[who]).Some? then
        s.(stored := rewrap(who, s.loaded[who]).value)
      else s
    case Activate(config) => s.(stored := config, written := config)
  }

  function Run(s: System, events: seq<Event>, rewrap: Rewraps): System
    decreases |events|
  {
    if events == [] then s else Run(Next(s, events[0], rewrap), events[1..], rewrap)
  }

  /**
   * However rewraps and writers interleave, no activated configuration is lost: the stored secrets and settings are
   * those of the last one.
   */
  lemma {:induction false} NoWriteIsLost(a: Cipher, rewrap: Rewraps, sources: nat -> seq<string>, target: nat -> string,
          salts: nat -> Slot -> nat, s: System, events: seq<Event>)
    requires Lawful(a) && AreRewraps(a, rewrap, sources, target, salts)
    requires SameSecrets(a, s.written, s.stored) && Plain(a, s.stored)
    requires forall i :: 0 <= i < |events| && events[i].Activate? ==> Plain(a, events[i].config)
    ensures var r := Run(s, events, rewrap); SameSecrets(a, r.written, r.stored) && Plain(a, r.stored)
    decreases |events|
  {
    hide Lawful, StandsFor, Plain, Rewrapping, Walked;
    if events != [] {
      var e := events[0];
      var n := Next(s, e, rewrap);
      if e.Save? && n != s {
        RewrapKeepsSecrets(a, sources(e.who), target(e.who), salts(e.who), s.stored, n.stored);
        SameSecretsTransitive(a, s.written, s.stored, n.stored);
      }
      NoWriteIsLost(a, rewrap, sources, target, salts, n, events[1..]);
    }
  }

  lemma {:induction false} SameSecretsTransitive(a: Cipher, c: Config, d: Config, e: Config)
    requires SameSecrets(a, c, d) && SameSecrets(a, d, e)
    ensures SameSecrets(a, c, e)
  {
    hide StandsFor;
    forall s | HasSlot(c, s) ensures HasSlot(d, s) {
      assert HasGroup(c, s.group) && |SecretsOf(c, s.group)| == |SecretsOf(d, s.group)|;
    }
  }

  /** The laws can be met: a cipher that hides nothing meets them. */
  lemma {:induction false} SomeCipherIsLawful() returns (a: Cipher)
    ensures Lawful(a)
  {
    a := Cipher.Cipher((text: string, _: string, _: nat) => Some(PREFIX + text + "."),
                       (e: string, _: string) =>
                         if IsEnvelope(e) && |e| > |PREFIX| then Some(e[|PREFIX|..|e| - 1]) else None);
    forall text: string ensures TrimSpace(PREFIX + text + ".") == PREFIX + text + "." {
      TrimmedStays(PREFIX + text + ".");
    }
  }
}
