/**
 * What every run of store operations keeps, and which tokens authenticate afterwards (internal/authmaterial/store.go,
 * internal/apitoken/service.go).
 */
module AuthRuns {
  import opened Text
  import opened ApiTokens
  import opened AuthStore

  /** The record after some operations; one that fails leaves it. */
  function Run(r: Record, ops: seq<Operation>): Record
    decreases |ops|
  {
    if ops == [] then r else Run(if Applied(ops[0], r).Ok? then Applied(ops[0], r).value else r, ops[1..])
  }

  ghost predicate Unique(keys: seq<Key>) {
    forall i, j :: 0 <= i < j < |keys| ==> keys[i].token.id != keys[j].token.id && keys[i].hash != keys[j].hash
  }

  /** The same key, possibly revoked since; one that is revoked never changes. */
  predicate KeyKept(k: Key, l: Key) {
    && l.hash == k.hash && l.token == k.token.(revokedAt := l.token.revokedAt)
    && (k.token.revokedAt.Some? ==> l == k)
  }

  /** The list only grows at its end. */
  ghost predicate KeysKept(before: seq<Key>, after: seq<Key>) {
    |before| <= |after| && forall i :: 0 <= i < |before| ==> KeyKept(before[i], after[i])
  }

  lemma {:induction false} OperationKeepsKeys(op: Operation, r: Record)
    requires Unique(r.keys) && Applied(op, r).Ok?
    ensures var s := Applied(op, r).value; Unique(s.keys) && KeysKept(r.keys, s.keys) && s.createdAt == r.createdAt
  {
    hide TrimSpace;
  }

  /** In every run the keys stay, unique, in their places; a revoked key stays revoked; the time of creation stays. */
  lemma {:induction false} RunKeepsKeys(r: Record, ops: seq<Operation>)
    requires Unique(r.keys)
    ensures var s := Run(r, ops); Unique(s.keys) && KeysKept(r.keys, s.keys) && s.createdAt == r.createdAt
    decreases |ops|
  {
    hide Applied;
    if ops != [] {
      if Applied(ops[0], r).Ok? {
        OperationKeepsKeys(ops[0], r);
        RunKeepsKeys(Applied(ops[0], r).value, ops[1..]);
      } else {
        RunKeepsKeys(r, ops[1..]);
      }
    }
  }

  // ---- Settings ----

  /** The operations that leave the settings of a pending upgrade as they are, up to a browse policy set meanwhile. */
  predicate LeavesUpgrade(op: Operation) {
    op.UpdatePasswordHash? || op.InitializeBrowsePolicy? || op.AdvanceUpgrade? || op.CreateToken? || op.RevokeToken?
  }

  /** The pending settings are those of `target`, except for a browse policy that `r` got meanwhile. */
  ghost predicate Pends(r: Record, target: Record, policySet: bool) {
    && r.pending.Some?
    && var t := r.pending.value.target;
       && t.username == target.username && t.passwordHash == target.passwordHash && t.seed == target.seed
       && t.allowExport == target.allowExport
       && (if policySet then t.browseRoot == r.browseRoot && t.allowBrowse == r.allowBrowse
           else t.browseRoot == target.browseRoot && t.allowBrowse == target.allowBrowse)
  }

  lemma {:induction false} OperationKeepsPending(op: Operation, r: Record, target: Record, policySet: bool)
    requires Pends(r, target, policySet) && LeavesUpgrade(op) && Applied(op, r).Ok?
    ensures Pends(Applied(op, r).value, target, policySet)
      || (op.InitializeBrowsePolicy? && Pends(Applied(op, r).value, target, true))
  {
    hide TrimSpace;
  }

  lemma {:induction false} RunKeepsPending(r: Record, ops: seq<Operation>, target: Record, policySet: bool)
    requires Pends(r, target, policySet) && forall i :: 0 <= i < |ops| ==> LeavesUpgrade(ops[i])
    ensures Pends(Run(r, ops), target, policySet)
      || (Pends(Run(r, ops), target, true) && exists i :: 0 <= i < |ops| && ops[i].InitializeBrowsePolicy?)
    decreases |ops|
  {
    hide Applied, Pends;
    if ops != [] {
      var s := if Applied(ops[0], r).Ok? then Applied(ops[0], r).value else r;
      if Applied(ops[0], r).Ok? { OperationKeepsPending(ops[0], r, target, policySet); }
      var set0 := if Pends(s, target, policySet) then policySet else true;
      RunKeepsPending(s, ops[1..], target, set0);
      if i :| 0 <= i < |ops[1..]| && ops[1..][i].InitializeBrowsePolicy? {
        assert ops[i + 1].InitializeBrowsePolicy?;
      }
    }
  }

  /**
   * A finalized upgrade brings the settings that it was begun with, whatever the password became meanwhile; only a
   * browse policy that was chosen meanwhile stays. Keys and time of creation stay in any case.
   */
  lemma {:induction false} UpgradeTakesOver(r: Record, expected: Record, target: Record, now: int, ops: seq<Operation>,
          username: string)
    requires Applied(BeginUpgrade(expected, target, now), r).Ok?
    requires forall i :: 0 <= i < |ops| ==> LeavesUpgrade(ops[i])
    requires var before := Run(Applied(BeginUpgrade(expected, target, now), r).value, ops);
      Applied(FinalizeUpgrade(username), before).Ok?
    ensures var before := Run(Applied(BeginUpgrade(expected, target, now), r).value, ops);
      var s := Applied(FinalizeUpgrade(username), before).value;
      && s.username == target.username && s.passwordHash == target.passwordHash && s.seed == target.seed
      && s.allowExport == target.allowExport && s.pending == None && s.keys == before.keys
      && s.createdAt == before.createdAt
      && (|| (s.browseRoot == target.browseRoot && s.allowBrowse == target.allowBrowse)
          || (&& s.browseRoot == before.browseRoot && s.allowBrowse == before.allowBrowse
              && exists i :: 0 <= i < |ops| && ops[i].InitializeBrowsePolicy?))
  {
    hide TrimSpace, Run;
    RunKeepsPending(Applied(BeginUpgrade(expected, target, now), r).value, ops, target, false);
  }

  predicate HasPolicy(r: Record) { TrimSpace(r.browseRoot) != "" || r.allowBrowse }

  /** Once there is a browse policy, only an update of the whole record or a finalized upgrade changes it. */
  lemma {:induction false} PolicyIsSetOnce(r: Record, ops: seq<Operation>)
    requires HasPolicy(r) && forall i :: 0 <= i < |ops| ==> !ops[i].UpdateRecord? && !ops[i].FinalizeUpgrade?
    ensures Run(r, ops).browseRoot == r.browseRoot && Run(r, ops).allowBrowse == r.allowBrowse
    decreases |ops|
  {
    hide TrimSpace;
    if ops != [] {
      PolicyIsSetOnce(if Applied(ops[0], r).Ok? then Applied(ops[0], r).value else r, ops[1..]);
    }
  }

  /** The first choice of a policy is the one that is stored: either a root, or none for unrestricted browsing. */
  lemma {:induction false} FirstPolicyCounts(r: Record, username: string, root: string, unrestricted: bool)
    requires !HasPolicy(r) && Applied(InitializeBrowsePolicy(username, root, unrestricted), r).Ok?
    ensures var s := Applied(InitializeBrowsePolicy(username, root, unrestricted), r).value;
      && HasPolicy(s) && s.browseRoot == TrimSpace(root) && s.allowBrowse == unrestricted
      && (unrestricted <==> s.browseRoot == "")
  {
    TrimSpaceTrims(root);
    hide TrimSpace;
  }

  /**
   * Changes are made against the settings that their author has seen: after a change of the password, neither another
   * change of the old one nor an upgrade of the old settings goes through.
   */
  lemma {:induction false} StaleChangesAreRefused(r: Record, username: string, current: string, next: string,
          other: string, target: Record, now: int)
    requires Applied(UpdatePasswordHash(username, current, next), r).Ok? && TrimSpace(next) != TrimSpace(current)
    ensures var s := Applied(UpdatePasswordHash(username, current, next), r).value;
      && s.passwordHash == TrimSpace(next) && s == r.(passwordHash := s.passwordHash)
      && Applied(UpdatePasswordHash(username, current, other), s).Err?
      && Applied(BeginUpgrade(r, target, now), s).Err?
  {
    TrimSpaceTrims(next);
    hide TrimSpace;
  }

  /** An upgrade can only begin from settings that are still the stored ones. */
  lemma {:induction false} UpgradeBeginsFromCurrent(r: Record, expected: Record, target: Record, now: int)
    requires Applied(BeginUpgrade(expected, target, now), r).Ok?
    ensures && TrimSpace(r.passwordHash) == TrimSpace(expected.passwordHash)
      && TrimSpace(r.seed) == TrimSpace(expected.seed) && r.allowExport == expected.allowExport
      && TrimSpace(r.browseRoot) == TrimSpace(expected.browseRoot) && r.allowBrowse == expected.allowBrowse
  {
  }

  /** Revoking sets the time of the one active key with the id, and touches no other key. */
  lemma {:induction false} RevokesOnlyItsKey(r: Record, id: string, now: int, i: nat)
    requires Unique(r.keys) && Applied(RevokeToken(id, now), r).Ok? && i < |r.keys|
    ensures var keys := Applied(RevokeToken(id, now), r).value.keys;
      && |keys| == |r.keys| && keys[i].hash == r.keys[i].hash
      && keys[i].token == if r.keys[i].token.id == id && r.keys[i].token.revokedAt.None?
                          then r.keys[i].token.(revokedAt := Some(now)) else r.keys[i].token
  {
    hide TrimSpace;
  }

  // ---- Authentication ----

  ghost predicate Encodes(e: Encoding, key: Key) { exists d :: |d| == DIGEST_SIZE && key.hash == e.encode(d) }

  ghost predicate AllEncoded(e: Encoding, keys: seq<Key>) { forall i :: 0 <= i < |keys| ==> Encodes(e, keys[i]) }

  /** The hashes in the created keys come from digests. */
  ghost predicate HashesDigests(e: Encoding, op: Operation) {
    op.CreateToken? ==> exists d :: |d| == DIGEST_SIZE && op.hash == e.encode(d)
  }

  lemma {:induction false} RunKeepsEncoded(e: Encoding, r: Record, ops: seq<Operation>)
    requires AllEncoded(e, r.keys) && forall i :: 0 <= i < |ops| ==> HashesDigests(e, ops[i])
    ensures AllEncoded(e, Run(r, ops).keys)
    decreases |ops|
  {
    if ops != [] {
      assert HashesDigests(e, ops[0]);
      var s := if Applied(ops[0], r).Ok? then Applied(ops[0], r).value else r;
      OperationKeepsEncoded(e, ops[0], r);
      RunKeepsEncoded(e, s, ops[1..]);
    }
  }

  lemma {:induction false} OperationKeepsEncoded(e: Encoding, op: Operation, r: Record)
    requires AllEncoded(e, r.keys) && HashesDigests(e, op)
    ensures Applied(op, r).Ok? ==> AllEncoded(e, Applied(op, r).value.keys)
  {
    hide TrimSpace;
    if op.RevokeToken? {
      var i := ActiveIndex(r.keys, op.id);
      assert i < |r.keys| ==> Encodes(e, Revoked(r.keys[i], op.now)) by {
        assert i < |r.keys| ==> Encodes(e, r.keys[i]);
      }
    }
  }

  /** The operation created the key, which may have been revoked since. */
  predicate Created(op: Operation, key: Key) {
    op.CreateToken? && KeyKept(Key(op.token.(revokedAt := None), op.hash), key)
  }

  ghost predicate CreatedByOne(ops: seq<Operation>, key: Key) { exists j :: 0 <= j < |ops| && Created(ops[j], key) }

  /** Every key of a run was there before or was created by one of its operations. */
  lemma {:induction false} KeysComeFromOperations(r: Record, ops: seq<Operation>, i: nat)
    requires Unique(r.keys) && |r.keys| <= i < |Run(r, ops).keys|
    ensures CreatedByOne(ops, Run(r, ops).keys[i])
    decreases |ops|
  {
    hide Applied, KeyKept;
    if ops != [] {
      var applied := Applied(ops[0], r);
      var s := if applied.Ok? then applied.value else r;
      if applied.Ok? { OperationKeepsKeys(ops[0], r); }
      if i < |s.keys| {
        OperationAddsItsKey(ops[0], r);
        RunKeepsKeys(s, ops[1..]);
        KeptFromCreation(ops[0], s.keys[i], Run(s, ops[1..]).keys[i]);
        assert Created(ops[0], Run(r, ops).keys[i]);
      } else {
        KeysComeFromOperations(s, ops[1..], i);
        var j :| 0 <= j < |ops[1..]| && Created(ops[1..][j], Run(r, ops).keys[i]);
        assert Created(ops[j + 1], Run(r, ops).keys[i]);
      }
    }
  }

  lemma {:induction false} OperationAddsItsKey(op: Operation, r: Record)
    requires Applied(op, r).Ok?
    ensures var keys := Applied(op, r).value.keys;
      |keys| > |r.keys| ==>
        && op.CreateToken? && |keys| == |r.keys| + 1
        && keys[|r.keys|] == Key(op.token.(revokedAt := None), op.hash)
  {
    hide TrimSpace;
  }

  lemma KeptFromCreation(op: Operation, key: Key, later: Key)
    requires op.CreateToken? && key == Key(op.token.(revokedAt := None), op.hash) && KeyKept(key, later)
    ensures Created(op, later)
  {
  }

  /** From its bootstrap on, a record has exactly distinct keys that were created for it, and its time of creation. */
  lemma {:induction false} RunFromBootstrap(e: Encoding, username: string, passwordHash: string, seed: string, now: int,
          ops: seq<Operation>)
    requires forall i :: 0 <= i < |ops| ==> HashesDigests(e, ops[i])
    ensures var s := Run(Bootstrapped(username, passwordHash, seed, now), ops);
      && Unique(s.keys) && AllEncoded(e, s.keys) && s.createdAt == now
      && forall i :: 0 <= i < |s.keys| ==> CreatedByOne(ops, s.keys[i])
  {
    hide Run, CreatedByOne;
    var r := Bootstrapped(username, passwordHash, seed, now);
    RunKeepsKeys(r, ops);
    RunKeepsEncoded(e, r, ops);
    forall i | 0 <= i < |Run(r, ops).keys| ensures CreatedByOne(ops, Run(r, ops).keys[i]) {
      KeysComeFromOperations(r, ops, i);
    }
  }

  /** A digest is found exactly at the active key that has it. */
  lemma {:induction false} FoundExactly(e: Encoding, keys: seq<Key>, digest: Digest, i: nat)
    requires Faithful(e) && Unique(keys) && AllEncoded(e, keys)
    requires i < |keys| && keys[i].hash == e.encode(digest) && |digest| == DIGEST_SIZE
    ensures FoundKey(e, keys, digest) == Ok(if keys[i].token.revokedAt.None? then Some(keys[i].token) else None)
    decreases |keys|
  {
    hide TrimSpace;
    var d :| |d| == DIGEST_SIZE && keys[0].hash == e.encode(d);
    assert e.decode(TrimSpace(keys[0].hash)) == Some(d);
    if i > 0 {
      assert d != digest by { assert keys[0].hash != keys[i].hash; }
      FoundExactly(e, keys[1..], digest, i - 1);
    } else {
      NotFoundElsewhere(e, keys[1..], digest);
    }
  }

  lemma {:induction false} NotFoundElsewhere(e: Encoding, keys: seq<Key>, digest: Digest)
    requires Faithful(e) && AllEncoded(e, keys) && forall i :: 0 <= i < |keys| ==> keys[i].hash != e.encode(digest)
    ensures FoundKey(e, keys, digest) == Ok(None)
    decreases |keys|
  {
    hide TrimSpace;
    if keys != [] {
      assert Encodes(e, keys[0]);
      var d :| |d| == DIGEST_SIZE && keys[0].hash == e.encode(d);
      assert e.decode(TrimSpace(keys[0].hash)) == Some(d);
      NotFoundElsewhere(e, keys[1..], digest);
    }
  }

  // ---- The token service ----

  const ID_PREFIX := "tok_"
  const TOKEN_PREFIX := "upbrr_api_"

  /** unicode.IsControl */
  predicate IsControl(c: char) { c < ' ' || '\U{7F}' <= c <= '\U{9F}' }

  predicate Readable(s: string, limit: nat) { |s| <= limit && forall i :: 0 <= i < |s| ==> !IsControl(s[i]) }

  /** What base64.RawURLEncoding gives for 32 random bytes. */
  predicate IsRandomValue(s: string) {
    |s| == 43 && forall i :: 0 <= i < |s| ==>
      'a' <= s[i] <= 'z' || 'A' <= s[i] <= 'Z' || '0' <= s[i] <= '9' || s[i] in "-_"
  }

  /** Who bears a token, as the stored record says. */
  function Authenticated(e: Encoding, digest: string -> Digest, file: Option<Record>, token: string)
    : Result<Option<Principal>>
  {
    var t := TrimSpace(token);
    if |t| < MIN_TOKEN then Ok(None)
    else if file.None? || !Usable(file.value) then Err
    else match FoundKey(e, file.value.keys, digest(t))
         case Err => Err
         case Ok(None) => Ok(None)
         case Ok(Some(found)) =>
           match Normalized(found.scopes)
           case Err => Err
           case Ok(scopes) => Ok(Some(Principal("api:" + found.owner, scopes)))
  }

  function OwnerOf(owner: string): string { if TrimSpace(owner) == "" then "default" else TrimSpace(owner) }

  predicate Acceptable(name: string, owner: string, scopes: seq<string>) {
    && TrimSpace(name) != "" && Readable(TrimSpace(name), MAX_NAME)
    && Readable(OwnerOf(owner), MAX_OWNER)
    && Normalized(scopes).Ok?
  }

  function Issued(name: string, owner: string, scopes: seq<string>, idSuffix: string, now: int): Token
    requires Acceptable(name, owner, scopes)
  {
    Token.Token(ID_PREFIX + idSuffix, TrimSpace(name), OwnerOf(owner), Normalized(scopes).value, now, None)
  }

  class Service {
    const store: Store
    const digest: string -> Digest

    constructor (store: Store, digest: string -> Digest)
      ensures this.store == store && this.digest == digest
    {
      this.store, this.digest := store, digest;
    }

    method Create(name: string, owner: string, scopes: seq<string>, idSuffix: string, secret: string, now: int,
            saves: bool)
      returns (r: Result<(Token, string)>)
      requires IsRandomValue(secret)
      modifies store
      ensures !Acceptable(name, owner, scopes) ==> r.Err? && store.file == old(store.file)
      ensures Acceptable(name, owner, scopes) ==>
        var token := Issued(name, owner, scopes, idSuffix, now);
        && store.Outcome(CreateToken(token, store.encoding.encode(digest(TOKEN_PREFIX + secret))), old(store.file),
          saves, r.Ok?)
        && (r.Ok? ==> r.value == (token, TOKEN_PREFIX + secret))
    {
      hide TrimSpace, Applied, Canonical, Supported;
      var trimmed := TrimSpace(name);
      if trimmed == "" || !Readable(trimmed, MAX_NAME) {
        return Err;
      }
      var ownerId := TrimSpace(owner);
      if ownerId == "" {
        ownerId := "default";
      }
      if !Readable(ownerId, MAX_OWNER) {
        return Err;
      }
      var granted := NormalizeScopes(scopes);
      if granted.Err? {
        return Err;
      }
      var token := Token.Token(ID_PREFIX + idSuffix, trimmed, ownerId, granted.value, now, None);
      var text := TOKEN_PREFIX + secret;
      var ok := store.CreateAPIToken(token, digest(text), saves);
      return if ok then Ok((token, text)) else Err;
    }

    method Authenticate(token: string) returns (r: Result<Option<Principal>>)
      ensures r == Authenticated(store.encoding, digest, store.file, token)
    {
      hide TrimSpace, FoundKey, Normalized;
      var t := TrimSpace(token);
      if |t| < MIN_TOKEN {
        return Ok(None);
      }
      var found := store.FindActiveAPITokenByHash(digest(t));
      if found.Err? {
        return Err;
      }
      if found.value.None? {
        return Ok(None);
      }
      var scopes := NormalizeScopes(found.value.value.scopes);
      if scopes.Err? {
        return Err;
      }
      return Ok(Some(Principal("api:" + found.value.value.owner, scopes.value)));
    }
  }

  // ---- The main results ----

  /** The text of a created token is what authentication looks for. */
  lemma {:induction false} TokenIsTrimmed(secret: string)
    requires IsRandomValue(secret)
    ensures TrimSpace(TOKEN_PREFIX + secret) == TOKEN_PREFIX + secret && |TOKEN_PREFIX + secret| >= MIN_TOKEN
  {
    TrimmedStays(TOKEN_PREFIX + secret);
  }

  /**
   * After any run, a created token authenticates with its owner and its normalized scopes exactly while the record is
   * usable and the token is not revoked.
   */
  lemma {:induction false} AuthenticatesExactly(e: Encoding, digest: string -> Digest, r: Record, token: Token,
          secret: string, scopes: seq<string>, ops: seq<Operation>)
    requires Faithful(e) && (forall t :: |digest(t)| == DIGEST_SIZE) && IsRandomValue(secret)
    requires Unique(r.keys) && AllEncoded(e, r.keys) && forall i :: 0 <= i < |ops| ==> HashesDigests(e, ops[i])
    requires Normalized(scopes) == Ok(token.scopes)
    requires Applied(CreateToken(token, e.encode(digest(TOKEN_PREFIX + secret))), r).Ok?
    ensures var s := Run(Applied(CreateToken(token, e.encode(digest(TOKEN_PREFIX + secret))), r).value, ops);
      && |r.keys| < |s.keys|
      && (Authenticated(e, digest, Some(s), TOKEN_PREFIX + secret)
          == Ok(Some(Principal("api:" + token.owner, token.scopes)))
          <==>
          Usable(s) && s.keys[|r.keys|].token.revokedAt.None?)
  {
    hide TrimSpace, FoundKey, Normalized;
    var text := TOKEN_PREFIX + secret;
    var op := CreateToken(token, e.encode(digest(text)));
    var created := Applied(op, r).value;
    OperationKeepsKeys(op, r);
    OperationKeepsEncoded(e, op, r);
    RunKeepsKeys(created, ops);
    RunKeepsEncoded(e, created, ops);
    hide Applied, Run;
    var s := Run(created, ops);
    assert KeyKept(created.keys[|r.keys|], s.keys[|r.keys|]);
    FoundExactly(e, s.keys, digest(text), |r.keys|);
    TokenIsTrimmed(secret);
    NormalizedIsStable(scopes);
  }

  /** A record without a user or a password neither issues nor accepts any token. */
  lemma {:induction false} UnusableExactly(e: Encoding, digest: string -> Digest, r: Record, text: string,
          op: Operation)
    requires Faithful(e) && AllEncoded(e, r.keys)
    requires forall i :: 0 <= i < |r.keys| ==> Normalized(r.keys[i].token.scopes).Ok?
    ensures Authenticated(e, digest, Some(r), text).Err? <==>
      |TrimSpace(text)| >= 24 && (TrimSpace(r.username) == "" || TrimSpace(r.passwordHash) == "")
    ensures |TrimSpace(text)| < 24 ==> Authenticated(e, digest, Some(r), text) == Ok(None)
    ensures (TrimSpace(r.username) == "" || TrimSpace(r.passwordHash) == "") && (op.CreateToken? || op.RevokeToken?) ==>
      Applied(op, r).Err?
  {
    hide TrimSpace, FoundKey, Normalized;
    SearchSucceeds(e, r.keys, digest(TrimSpace(text)));
  }

  lemma {:induction false} SearchSucceeds(e: Encoding, keys: seq<Key>, digest: Digest)
    requires Faithful(e) && AllEncoded(e, keys)
    ensures var found := FoundKey(e, keys, digest);
      found.Ok? && (found.value.Some? ==> exists i :: 0 <= i < |keys| && keys[i].token == found.value.value)
    decreases |keys|
  {
    hide TrimSpace;
    if keys != [] {
      assert Encodes(e, keys[0]);
      var d :| |d| == DIGEST_SIZE && keys[0].hash == e.encode(d);
      assert e.decode(TrimSpace(keys[0].hash)) == Some(d);
      SearchSucceeds(e, keys[1..], digest);
      if i :| 0 <= i < |keys[1..]| && FoundKey(e, keys[1..], digest) == Ok(Some(keys[1..][i].token)) {
        assert keys[i + 1].token == keys[1..][i].token;
      }
    }
  }

  /** A label that can be shown: at most 100 characters, none of them a C0 or C1 control or a delete. */
  ghost predicate IsLabel(s: string) {
    |s| < 101 && !exists c :: c in s && (c as int < 32 || 127 <= c as int < 160)
  }

  /** A token is only issued under a label, for an owner who is a label or left blank, with supported scopes. */
  lemma {:induction false} AcceptableExactly(name: string, owner: string, scopes: seq<string>, suffix: string, now: int)
    ensures Acceptable(name, owner, scopes) <==>
      && TrimSpace(name) != "" && IsLabel(TrimSpace(name)) && IsLabel(TrimSpace(owner))
      && forall s :: s in scopes ==> TrimSpace(s) in ["workflow:read", "workflow:write", "workflow:execute"]
    ensures Acceptable(name, owner, scopes) ==>
      var token := Issued(name, owner, scopes, suffix, now);
      && token.name == TrimSpace(name) && token.id == "tok_" + suffix && token.revokedAt == None
      && token.owner == (if TrimSpace(owner) == "" then "default" else TrimSpace(owner))
  {
    hide TrimSpace, Canonical;
    assert !exists c :: c in "default" && (c as int < 32 || 127 <= c as int < 160);
    assert forall i :: 0 <= i < |scopes| ==> scopes[i] in scopes;
    ReadableExactly(TrimSpace(name));
    ReadableExactly(OwnerOf(owner));
    ReadableExactly(TrimSpace(owner));
  }

  lemma {:induction false} ReadableExactly(s: string)
    ensures Readable(s, MAX_NAME) <==> IsLabel(s)
  {
    if !Readable(s, MAX_NAME) && |s| <= MAX_NAME {
      var i :| 0 <= i < |s| && IsControl(s[i]);
      assert s[i] in s;
    }
    if c :| c in s && (c as int < 32 || 127 <= c as int < 160) {
      var i :| 0 <= i < |s| && s[i] == c;
      assert IsControl(s[i]);
    }
  }

  /** Once revoked, a token never authenticates again, whatever happens to the record. */
  lemma {:induction false} RevokedNeverAuthenticates(e: Encoding, digest: string -> Digest, r: Record, i: nat,
          text: string, ops: seq<Operation>)
    requires Faithful(e) && (forall t :: |digest(t)| == DIGEST_SIZE)
    requires Unique(r.keys) && AllEncoded(e, r.keys) && forall j :: 0 <= j < |ops| ==> HashesDigests(e, ops[j])
    requires i < |r.keys| && r.keys[i].token.revokedAt.Some? && r.keys[i].hash == e.encode(digest(TrimSpace(text)))
    ensures var a := Authenticated(e, digest, Some(Run(r, ops)), text); a == Err || a == Ok(None)
  {
    hide TrimSpace, FoundKey, Normalized, Applied;
    RunKeepsKeys(r, ops);
    RunKeepsEncoded(e, r, ops);
    hide Run;
    var s := Run(r, ops);
    assert KeyKept(r.keys[i], s.keys[i]);
    FoundExactly(e, s.keys, digest(TrimSpace(text)), i);
  }
}
