/**
 * Rewrapping the secrets of the stored configuration (internal/config/secrets.go), over an abstract authenticated
 * cipher.
 */
module SecretRewrap {
  import opened Text

  const PREFIX := "upbrr-enc:v1:"
  const MIN_HELPER: nat := 8

  predicate IsEnvelope(value: string) { HasPrefix(value, PREFIX) }

  /**
   * `seal` turns a text, a helper and a salt into an envelope, `open` reads an envelope with a helper; both may fail.
   */
  datatype Cipher = Cipher(seal: (string, string, nat) -> Option<string>, open: (string, string) -> Option<string>)

  /** What an authenticated cipher promises; an envelope is longer than its text because it contains it, encrypted. */
  ghost predicate Lawful(a: Cipher) {
    && (forall text, helper, salt :: a.seal(text, helper, salt).Some? ==>
          var e := a.seal(text, helper, salt).value;
          IsEnvelope(e) && TrimSpace(e) == e && a.open(e, helper) == Some(text))
    && (forall e, helper :: a.open(e, helper).Some? ==> |a.open(e, helper).value| < |e|)
    && (forall e, h1, h2 :: a.open(e, h1).Some? && a.open(e, h2).Some? ==> a.open(e, h1) == a.open(e, h2))
  }

  function SealSecret(a: Cipher, text: string, helper: string, salt: nat): Option<string> {
    if |TrimSpace(helper)| < MIN_HELPER then None else a.seal(text, TrimSpace(helper), salt)
  }

  function OpenSecret(a: Cipher, e: string, helper: string): Option<string> {
    if |TrimSpace(helper)| < MIN_HELPER then None else a.open(e, TrimSpace(helper))
  }

  // ---- The configuration and its secrets ----

  datatype Entry = Entry(secrets: seq<string>, rest: string)

  /** The secrets outside the maps, the trackers and clients by name, and everything else. */
  datatype Config = Config(fixed: seq<string>, trackers: map<string, Entry>, clients: map<string, Entry>, rest: string)

  /** A struct that holds secrets, and one of its secret fields. */
  datatype Group = Fixed | Tracker(name: string) | Client(name: string)

  datatype Slot = Slot(group: Group, index: nat)

  predicate HasGroup(c: Config, g: Group) {
    g.Fixed? || (g.Tracker? && g.name in c.trackers) || (g.Client? && g.name in c.clients)
  }

  function SecretsOf(c: Config, g: Group): seq<string>
    requires HasGroup(c, g)
  {
    match g
    case Fixed => c.fixed
    case Tracker(name) => c.trackers[name].secrets
    case Client(name) => c.clients[name].secrets
  }

  predicate HasSlot(c: Config, s: Slot) { HasGroup(c, s.group) && s.index < |SecretsOf(c, s.group)| }

  function SecretAt(c: Config, s: Slot): string
    requires HasSlot(c, s)
  {
    SecretsOf(c, s.group)[s.index]
  }

  /** Everything but the secrets agrees. */
  ghost predicate SameOutside(c: Config, d: Config) {
    && c.rest == d.rest && c.trackers.Keys == d.trackers.Keys && c.clients.Keys == d.clients.Keys
    && (forall g :: HasGroup(c, g) ==> |SecretsOf(c, g)| == |SecretsOf(d, g)|)
    && (forall name :: name in c.trackers ==> c.trackers[name].rest == d.trackers[name].rest)
    && (forall name :: name in c.clients ==> c.clients[name].rest == d.clients[name].rest)
  }

  /** What a visit makes of a secret; none is a failure. */
  type Visit = (Slot, string) -> Option<string>

  ghost predicate Succeeds(c: Config, visit: Visit) {
    forall s :: HasSlot(c, s) ==> visit(s, SecretAt(c, s)).Some?
  }

  ghost predicate Walked(c: Config, d: Config, visit: Visit) {
    SameOutside(c, d) && forall s :: HasSlot(c, s) ==> visit(s, SecretAt(c, s)) == Some(SecretAt(d, s))
  }

  ghost predicate FieldsWalked(before: seq<string>, after: seq<string>, g: Group, visit: Visit) {
    |before| == |after| && forall i :: 0 <= i < |before| ==> visit(Slot.Slot(g, i), before[i]) == Some(after[i])
  }

  ghost predicate FieldsSucceed(fields: seq<string>, g: Group, visit: Visit) {
    forall i :: 0 <= i < |fields| ==> visit(Slot.Slot(g, i), fields[i]).Some?
  }

  /** The fields of one struct, through their pointers, up to the first failure. */
  method VisitFields(fields: seq<string>, g: Group, visit: Visit) returns (ok: bool, result: seq<string>)
    ensures ok <==> FieldsSucceed(fields, g, visit)
    ensures ok ==> FieldsWalked(fields, result, g, visit)
  {
    result := [];
    for i := 0 to |fields|
      invariant FieldsWalked(fields[..i], result, g, visit)
    {
      var visited := visit(Slot.Slot(g, i), fields[i]);
      if visited.None? {
        return false, result;
      }
      result := result + [visited.value];
    }
    assert fields[..|fields|] == fields;
    ok := true;
  }

  function GroupOf(trackers: bool, name: string): Group { if trackers then Tracker(name) else Client(name) }

  /** The entries of a map in the order of their names, each written back. */
  method VisitEntries(entries: map<string, Entry>, trackers: bool, visit: Visit)
      returns (ok: bool, result: map<string, Entry>)
    ensures ok <==> forall name ::
      name in entries ==> FieldsSucceed(entries[name].secrets, GroupOf(trackers, name), visit)
    ensures ok ==> result.Keys == entries.Keys
    ensures ok ==> forall name :: name in entries ==>
      result[name].rest == entries[name].rest
        && FieldsWalked(entries[name].secrets, result[name].secrets, GroupOf(trackers, name), visit)
  {
    hide FieldsSucceed, FieldsWalked, GroupOf;
    result := entries;
    var names := SortedNames(entries.Keys);
    for k := 0 to |names|
      invariant result.Keys == entries.Keys
      invariant forall name :: name in entries ==> result[name].rest == entries[name].rest
      invariant forall name :: name in names[..k] ==>
        && FieldsSucceed(entries[name].secrets, GroupOf(trackers, name), visit)
        && FieldsWalked(entries[name].secrets, result[name].secrets, GroupOf(trackers, name), visit)
    {
      var name := names[k];
      var fields;
      ok, fields := VisitFields(entries[name].secrets, GroupOf(trackers, name), visit);
      if !ok {
        return;
      }
      result := result[name := entries[name].(secrets := fields)];
      assert names[..k + 1] == names[..k] + [name];
    }
    ok := true;
  }

  method SortedNames(names: set<string>) returns (sorted: seq<string>)
    ensures forall name :: name in sorted <==> name in names
    ensures Ordered(sorted)
  {
    var found: seq<string> := [];
    var left := names;
    while left != {}
      invariant forall name :: name in names <==> name in left || name in found
      decreases left
    {
      var name :| name in left;
      left := left - {name};
      found := found + [name];
    }
    sorted := SortStrings(found);
    assert forall name :: name in sorted <==> name in multiset(sorted);
    assert forall name :: name in found <==> name in multiset(found);
  }

  /** The configuration object that the walk edits. */
  class Settings {
    var fixed: seq<string>
    var trackers: map<string, Entry>
    var clients: map<string, Entry>
    var rest: string

    constructor (c: Config)
      ensures Value() == c
    {
      fixed, trackers, clients, rest := c.fixed, c.trackers, c.clients, c.rest;
    }

    ghost function Value(): Config
      reads this
    {
      Config.Config(fixed, trackers, clients, rest)
    }

    /** walkSecretFields */
    method WalkSecretFields(visit: Visit) returns (ok: bool)
      modifies this
      ensures ok <==> Succeeds(old(Value()), visit)
      ensures ok ==> Walked(old(Value()), Value(), visit)
    {
      hide FieldsSucceed, FieldsWalked;
      ghost var c := Value();
      var fields, entries;
      ok, fields := VisitFields(fixed, Fixed, visit);
      if !ok {
        FailsIn(c, Fixed, visit);
        return;
      }
      fixed := fields;
      ok, entries := VisitEntries(trackers, true, visit);
      if !ok {
        ghost var name :| name in c.trackers && !FieldsSucceed(c.trackers[name].secrets, GroupOf(true, name), visit);
        FailsIn(c, Tracker(name), visit);
        return;
      }
      trackers := entries;
      ok, entries := VisitEntries(clients, false, visit);
      if !ok {
        ghost var name :| name in c.clients && !FieldsSucceed(c.clients[name].secrets, GroupOf(false, name), visit);
        FailsIn(c, Client(name), visit);
        return;
      }
      clients := entries;
      forall g | HasGroup(c, g)
        ensures HasGroup(Value(), g) && FieldsWalked(SecretsOf(c, g), SecretsOf(Value(), g), g, visit)
      {
        assert g.Tracker? ==> GroupOf(true, g.name) == g;
        assert g.Client? ==> GroupOf(false, g.name) == g;
      }
      AllWalked(c, Value(), visit);
    }
  }

  lemma {:induction false} FailsIn(c: Config, g: Group, visit: Visit)
    requires HasGroup(c, g) && !FieldsSucceed(SecretsOf(c, g), g, visit)
    ensures !Succeeds(c, visit)
  {
    var i :| 0 <= i < |SecretsOf(c, g)| && visit(Slot.Slot(g, i), SecretsOf(c, g)[i]).None?;
    assert HasSlot(c, Slot.Slot(g, i));
  }

  lemma {:induction false} AllWalked(c: Config, d: Config, visit: Visit)
    requires c.rest == d.rest && c.trackers.Keys == d.trackers.Keys && c.clients.Keys == d.clients.Keys
    requires forall name :: name in c.trackers ==> c.trackers[name].rest == d.trackers[name].rest
    requires forall name :: name in c.clients ==> c.clients[name].rest == d.clients[name].rest
    requires forall g :: HasGroup(c, g) ==> HasGroup(d, g) && FieldsWalked(SecretsOf(c, g), SecretsOf(d, g), g, visit)
    ensures Walked(c, d, visit) && Succeeds(c, visit)
  {
    forall s | HasSlot(c, s) ensures HasSlot(d, s) && visit(s, SecretAt(c, s)) == Some(SecretAt(d, s)) {
      assert FieldsWalked(SecretsOf(c, s.group), SecretsOf(d, s.group), s.group, visit);
      assert s == Slot.Slot(s.group, s.index);
    }
  }
}
