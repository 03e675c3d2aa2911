/** Issuing and authenticating API tokens (internal/apitoken/service.go). */
module ApiTokens {
  import opened Text

  const MIN_TOKEN: nat := 24
  const MAX_NAME: nat := 100
  const MAX_OWNER: nat := 100
  const READ := "workflow:read"
  const WRITE := "workflow:write"
  const EXECUTE := "workflow:execute"
  const ALL_SCOPES: seq<string> := [READ, WRITE, EXECUTE]

  const DIGEST_SIZE: nat := 32

  type Digest = seq<bv8>

  /** Metadata of a token; the persistence adds the digest. */
  datatype Token = Token(id: string, name: string, owner: string, scopes: seq<string>, createdAt: int,
    revokedAt: Option<int>)

  datatype Principal = Principal(owner: string, scopes: seq<string>)

  // ---- Scopes ----

  /** The supported scopes that are wanted, in display order. */
  function Canonical(wanted: set<string>): seq<string> {
    (if READ in wanted then [READ] else []) + (if WRITE in wanted then [WRITE] else [])
      + (if EXECUTE in wanted then [EXECUTE] else [])
  }

  function Wanted(scopes: seq<string>): set<string> { set i | 0 <= i < |scopes| :: TrimSpace(scopes[i]) }

  predicate Supported(scopes: seq<string>) { forall i :: 0 <= i < |scopes| ==> TrimSpace(scopes[i]) in ALL_SCOPES }

  function Normalized(scopes: seq<string>): Result<seq<string>> {
    if scopes == [] then Ok(ALL_SCOPES) else if Supported(scopes) then Ok(Canonical(Wanted(scopes))) else Err
  }

  method NormalizeScopes(scopes: seq<string>) returns (r: Result<seq<string>>)
    ensures r == Normalized(scopes)
  {
    hide TrimSpace;
    if scopes == [] {
      return Ok(ALL_SCOPES);
    }
    var wanted: set<string> := {};
    for i := 0 to |scopes|
      invariant wanted == Wanted(scopes[..i]) && Supported(scopes[..i])
    {
      var scope := TrimSpace(scopes[i]);
      if scope !in ALL_SCOPES {
        return Err;
      }
      assert Wanted(scopes[..i + 1]) == Wanted(scopes[..i]) + {scope};
      wanted := wanted + {scope};
    }
    assert scopes[..|scopes|] == scopes;
    var normalized: seq<string> := [];
    for i := 0 to |ALL_SCOPES|
      invariant normalized == Canonical(set s | s in ALL_SCOPES[..i] && s in wanted)
    {
      if ALL_SCOPES[i] in wanted {
        normalized := normalized + [ALL_SCOPES[i]];
      }
    }
    return Ok(normalized);
  }

  lemma {:induction false} ScopesAreTrimmed()
    ensures forall s :: s in ALL_SCOPES ==> TrimSpace(s) == s
  {
    TrimmedStays(READ);
    TrimmedStays(WRITE);
    TrimmedStays(EXECUTE);
  }

  lemma CanonicalMembers(wanted: set<string>)
    ensures forall s :: s in Canonical(wanted) <==> s in ALL_SCOPES && s in wanted
  {
  }

  lemma {:induction false} WantedMembers(scopes: seq<string>)
    requires forall i :: 0 <= i < |scopes| ==> scopes[i] in ALL_SCOPES
    ensures Supported(scopes) && forall s :: s in Wanted(scopes) <==> s in scopes
  {
    hide TrimSpace;
    ScopesAreTrimmed();
  }

  lemma AllIsCanonical()
    ensures Canonical({READ, WRITE, EXECUTE}) == ALL_SCOPES
  {
  }

  lemma CanonicalOfSupported(wanted: set<string>)
    ensures Canonical(set s | s in ALL_SCOPES && s in wanted) == Canonical(wanted)
  {
  }

  lemma {:induction false} CanonicalIsStable(wanted: set<string>)
    requires exists s :: s in ALL_SCOPES && s in wanted
    ensures Canonical(wanted) != [] && Normalized(Canonical(wanted)) == Ok(Canonical(wanted))
  {
    hide TrimSpace, Canonical;
    var r := Canonical(wanted);
    CanonicalMembers(wanted);
    WantedMembers(r);
    assert Wanted(r) == set s | s in ALL_SCOPES && s in wanted;
    CanonicalOfSupported(wanted);
  }

  /** Normalized scopes are the wanted ones, and normalizing them again changes nothing. */
  lemma {:induction false} NormalizedIsStable(scopes: seq<string>)
    requires Normalized(scopes).Ok?
    ensures var r := Normalized(scopes).value;
      && Normalized(r) == Ok(r) && r != []
      && (scopes != [] ==> forall s :: s in r <==> s in Wanted(scopes))
  {
    hide TrimSpace, Canonical;
    if scopes == [] {
      hide Normalized;
      AllIsCanonical();
      CanonicalIsStable({READ, WRITE, EXECUTE});
      assert Normalized(scopes) == Ok(ALL_SCOPES) by { NormalizedOfNone(); }
    } else {
      assert TrimSpace(scopes[0]) in ALL_SCOPES && TrimSpace(scopes[0]) in Wanted(scopes);
      CanonicalMembers(Wanted(scopes));
      CanonicalIsStable(Wanted(scopes));
    }
  }

  lemma NormalizedOfNone()
    ensures Normalized([]) == Ok(ALL_SCOPES)
  {
  }
}
