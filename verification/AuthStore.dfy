/**
 * The web-auth record and its store (internal/authmaterial/store.go). Times are numbers, hashes and encodings
 * parameters.
 */
module AuthStore {
  import opened Text
  import opened ApiTokens

  datatype Key = Key(token: Token, hash: string)

  datatype Stage = Prepared | CookiesRewrapped | DataRewrapped

  datatype Record = Record(username: string, passwordHash: string, seed: string, keys: seq<Key>, allowExport: bool,
                           browseRoot: string, allowBrowse: bool, pending: Option<Pending>, createdAt: int)

  datatype Pending = Pending(stage: Stage, target: Record, updatedAt: int)

  /** base64.RawStdEncoding */
  datatype Encoding = Encoding(encode: Digest -> string, decode: string -> Option<Digest>)

  ghost predicate Faithful(e: Encoding) { forall d :: e.decode(TrimSpace(e.encode(d))) == Some(d) }

  predicate Usable(r: Record) { TrimSpace(r.username) != "" && TrimSpace(r.passwordHash) != "" }

  datatype Operation =
    | UpdatePasswordHash(username: string, current: string, next: string)
    | InitializeBrowsePolicy(username: string, root: string, unrestricted: bool)
    | UpdateRecord(updated: Record)
    | BeginUpgrade(expected: Record, target: Record, now: int)
    | AdvanceUpgrade(username: string, stage: Stage, now: int)
    | FinalizeUpgrade(username: string)
    | ClearUpgrade(username: string)
    | CreateToken(token: Token, hash: string)
    | RevokeToken(id: string, now: int)

  /** The record that the first user gets. */
  function Bootstrapped(username: string, passwordHash: string, seed: string, now: int): Record {
    Record.Record(TrimSpace(username), passwordHash, seed, [], false, "", false, None, now)
  }

  predicate SameSettings(r: Record, c: Record) {
    && TrimSpace(r.passwordHash) == TrimSpace(c.passwordHash) && TrimSpace(r.seed) == TrimSpace(c.seed)
    && r.allowExport == c.allowExport && TrimSpace(r.browseRoot) == TrimSpace(c.browseRoot)
    && r.allowBrowse == c.allowBrowse
  }

  function ActiveIndex(keys: seq<Key>, id: string): (i: nat)
    ensures i <= |keys|
    ensures i < |keys| ==> keys[i].token.id == id && keys[i].token.revokedAt.None?
    ensures forall k :: 0 <= k < i ==> !(keys[k].token.id == id && keys[k].token.revokedAt.None?)
  {
    if keys == [] || (keys[0].token.id == id && keys[0].token.revokedAt.None?) then 0
    else 1 + ActiveIndex(keys[1..], id)
  }

  function Revoked(key: Key, now: int): Key { key.(token := key.token.(revokedAt := Some(now))) }

  /** What an operation makes of the record, or an error. */
  function Applied(op: Operation, r: Record): Result<Record> {
    match op
    case UpdatePasswordHash(username, current, next) =>
      if r.username != TrimSpace(username) || TrimSpace(r.passwordHash) != TrimSpace(current) then Err
      else Ok(r.(passwordHash := TrimSpace(next)))
    case InitializeBrowsePolicy(username, root, unrestricted) =>
      if (TrimSpace(root) == "") != unrestricted || r.username != TrimSpace(username) then Err
      else if TrimSpace(r.browseRoot) != "" || r.allowBrowse then Ok(r)
      else
        var pending := if r.pending.None? then None
                       else Some(r.pending.value.(target :=
                         r.pending.value.target.(browseRoot := TrimSpace(root), allowBrowse := unrestricted)));
        Ok(r.(browseRoot := TrimSpace(root), allowBrowse := unrestricted, pending := pending))
    case UpdateRecord(u) =>
      if r.username != TrimSpace(u.username) then Err
      else Ok(r.(passwordHash := TrimSpace(u.passwordHash), seed := TrimSpace(u.seed), allowExport := u.allowExport,
                 browseRoot := TrimSpace(u.browseRoot), allowBrowse := u.allowBrowse, pending := u.pending))
    case BeginUpgrade(expected, target, now) =>
      if r.username != TrimSpace(expected.username) || !SameSettings(r, expected) then Err
      else Ok(r.(pending := Some(Pending.Pending(Prepared, target.(pending := None, keys := []), now))))
    case AdvanceUpgrade(username, stage, now) =>
      if r.username != TrimSpace(username) || r.pending.None? then Err
      else Ok(r.(pending := Some(r.pending.value.(stage := stage, updatedAt := now))))
    case FinalizeUpgrade(username) =>
      if r.username != TrimSpace(username) || r.pending.None? then Err
      else Ok(r.pending.value.target.(pending := None, keys := r.keys, createdAt := r.createdAt))
    case ClearUpgrade(username) =>
      if r.username != TrimSpace(username) then Err else Ok(r.(pending := None))
    case CreateToken(token, hash) =>
      if !Usable(r) || exists i :: 0 <= i < |r.keys| && (r.keys[i].token.id == token.id || r.keys[i].hash == hash)
      then Err
      else Ok(r.(keys := r.keys + [Key(token.(revokedAt := None), hash)]))
    case RevokeToken(id, now) =>
      var i := ActiveIndex(r.keys, id);
      if !Usable(r) then Err else if i == |r.keys| then Ok(r) else Ok(r.(keys := r.keys[i := Revoked(r.keys[i], now)]))
  }

  /** The first active key with this digest; an error if a stored hash before it is not an encoded digest. */
  function FoundKey(e: Encoding, keys: seq<Key>, digest: Digest): Result<Option<Token>> {
    if keys == [] then Ok(None)
    else
      var decoded := e.decode(TrimSpace(keys[0].hash));
      if decoded.None? || |decoded.value| != DIGEST_SIZE then Err
      else if keys[0].token.revokedAt.None? && decoded.value == digest then Ok(Some(keys[0].token))
      else FoundKey(e, keys[1..], digest)
  }

  class Store {
    const encoding: Encoding
    var file: Option<Record>

    constructor (encoding: Encoding)
      ensures file == None && this.encoding == encoding
    {
      this.encoding, file := encoding, None;
    }

    /** The file after an operation that loaded `before`; `saves` says that nothing outside the record stops it. */
    ghost predicate Outcome(op: Operation, before: Option<Record>, saves: bool, ok: bool)
      reads this
    {
      && (ok <==> before.Some? && saves && Applied(op, before.value).Ok?)
      && file == if ok then Some(Applied(op, before.value).value) else before
    }

    method Bootstrap(username: string, passwordHash: string, seed: string, now: int, saves: bool) returns (ok: bool)
      modifies this
      ensures ok <==> old(file).None? && saves
      ensures file == if ok then Some(Bootstrapped(username, passwordHash, seed, now)) else old(file)
    {
      if file.Some? || !saves {
        return false;
      }
      file := Some(Record.Record(TrimSpace(username), passwordHash, seed, [], false, "", false, None, now));
      ok := true;
    }

    method UpdatePasswordHash(username: string, current: string, next: string, saves: bool) returns (ok: bool)
      modifies this
      ensures Outcome(Operation.UpdatePasswordHash(username, current, next), old(file), saves, ok)
    {
      if file.None? || !saves || file.value.username != TrimSpace(username)
         || TrimSpace(file.value.passwordHash) != TrimSpace(current) {
        return false;
      }
      file := Some(file.value.(passwordHash := TrimSpace(next)));
      ok := true;
    }

    method InitializeBrowsePolicy(username: string, root: string, unrestricted: bool, saves: bool) returns (ok: bool,
            initialized: bool)
      modifies this
      ensures Outcome(Operation.InitializeBrowsePolicy(username, root, unrestricted), old(file), saves, ok)
      ensures initialized <==> ok && TrimSpace(old(file).value.browseRoot) == "" && !old(file).value.allowBrowse
    {
      hide TrimSpace;
      var trimmed := TrimSpace(root);
      if (unrestricted && trimmed != "") || (!unrestricted && trimmed == "") {
        return false, false;
      }
      if file.None? || !saves || file.value.username != TrimSpace(username) {
        return false, false;
      }
      var record := file.value;
      if TrimSpace(record.browseRoot) != "" || record.allowBrowse {
        return true, false;
      }
      record := record.(browseRoot := trimmed, allowBrowse := unrestricted);
      if record.pending.Some? {
        var pending := record.pending.value;
        record := record.(pending := Some(pending.(target :=
          pending.target.(browseRoot := trimmed, allowBrowse := unrestricted))));
      }
      file := Some(record);
      return true, true;
    }

    method UpdateRecord(updated: Record, saves: bool) returns (ok: bool)
      modifies this
      ensures Outcome(Operation.UpdateRecord(updated), old(file), saves, ok)
    {
      if file.None? || !saves || file.value.username != TrimSpace(updated.username) {
        return false;
      }
      file := Some(file.value.(passwordHash := TrimSpace(updated.passwordHash), seed := TrimSpace(updated.seed),
                               allowExport := updated.allowExport, browseRoot := TrimSpace(updated.browseRoot),
                               allowBrowse := updated.allowBrowse, pending := updated.pending));
      ok := true;
    }

    method BeginPendingUpgrade(expected: Record, target: Record, now: int, saves: bool) returns (ok: bool)
      modifies this
      ensures Outcome(BeginUpgrade(expected, target, now), old(file), saves, ok)
    {
      if file.None? || !saves || file.value.username != TrimSpace(expected.username)
        || !SameSettings(file.value, expected) {
        return false;
      }
      file := Some(file.value.(pending := Some(Pending.Pending(Prepared, target.(pending := None, keys := []), now))));
      ok := true;
    }

    method AdvancePendingUpgrade(username: string, stage: Stage, now: int, saves: bool) returns (ok: bool)
      modifies this
      ensures Outcome(AdvanceUpgrade(username, stage, now), old(file), saves, ok)
    {
      if file.None? || !saves || file.value.username != TrimSpace(username) || file.value.pending.None? {
        return false;
      }
      file := Some(file.value.(pending := Some(file.value.pending.value.(stage := stage, updatedAt := now))));
      ok := true;
    }

    method FinalizePendingUpgrade(username: string, saves: bool) returns (r: Result<Record>)
      modifies this
      ensures Outcome(FinalizeUpgrade(username), old(file), saves, r.Ok?)
      ensures r.Ok? ==> file == Some(r.value)
    {
      if file.None? || !saves || file.value.username != TrimSpace(username) || file.value.pending.None? {
        return Err;
      }
      var target := file.value.pending.value.target;
      target := target.(pending := None);
      target := target.(keys := file.value.keys);
      target := target.(createdAt := file.value.createdAt);
      file := Some(target);
      return Ok(target);
    }

    method ClearPendingUpgrade(username: string, saves: bool) returns (ok: bool)
      modifies this
      ensures Outcome(ClearUpgrade(username), old(file), saves, ok)
    {
      if file.None? || !saves || file.value.username != TrimSpace(username) {
        return false;
      }
      file := Some(file.value.(pending := None));
      ok := true;
    }

    method CreateAPIToken(token: Token, digest: Digest, saves: bool) returns (ok: bool)
      modifies this
      ensures Outcome(CreateToken(token, encoding.encode(digest)), old(file), saves, ok)
    {
      hide TrimSpace;
      var hash := encoding.encode(digest);
      if file.None? || !saves || !Usable(file.value) {
        return false;
      }
      var keys := file.value.keys;
      for i := 0 to |keys|
        invariant forall k :: 0 <= k < i ==> keys[k].token.id != token.id && keys[k].hash != hash
      {
        if keys[i].token.id == token.id || keys[i].hash == hash {
          return false;
        }
      }
      file := Some(file.value.(keys := keys + [Key(token.(revokedAt := None), hash)]));
      ok := true;
    }

    method RevokeAPIToken(id: string, now: int, saves: bool) returns (ok: bool, revoked: bool)
      modifies this
      ensures Outcome(RevokeToken(id, now), old(file), saves, ok)
      ensures revoked <==> ok && ActiveIndex(old(file).value.keys, id) < |old(file).value.keys|
    {
      hide TrimSpace;
      if file.None? || !saves || !Usable(file.value) {
        return false, false;
      }
      var keys := file.value.keys;
      for i := 0 to |keys|
        invariant forall k :: 0 <= k < i ==> !(keys[k].token.id == id && keys[k].token.revokedAt.None?)
        invariant file == old(file)
      {
        if keys[i].token.id == id && keys[i].token.revokedAt.None? {
          assert ActiveIndex(keys, id) == i;
          file := Some(file.value.(keys := keys[i := Revoked(keys[i], now)]));
          return true, true;
        }
      }
      return true, false;
    }

    /** Newest first, without the hashes. */
    method ListAPITokens() returns (r: Result<seq<Token>>)
      ensures r.Ok? <==> file.Some? && Usable(file.value)
      ensures r.Ok? ==> |r.value| == |file.value.keys|
      ensures r.Ok? ==> forall i :: 0 <= i < |r.value| ==> r.value[i] == file.value.keys[|r.value| - 1 - i].token
    {
      hide TrimSpace;
      if file.None? || !Usable(file.value) {
        return Err;
      }
      var tokens: seq<Token> := [];
      var i := |file.value.keys|;
      while i > 0
        invariant 0 <= i <= |file.value.keys| && |tokens| == |file.value.keys| - i
        invariant forall k :: 0 <= k < |tokens| ==> tokens[k] == file.value.keys[|file.value.keys| - 1 - k].token
      {
        i := i - 1;
        tokens := tokens + [file.value.keys[i].token];
      }
      return Ok(tokens);
    }

    method FindActiveAPITokenByHash(digest: Digest) returns (r: Result<Option<Token>>)
      ensures r == if file.Some? && Usable(file.value) then FoundKey(encoding, file.value.keys, digest) else Err
    {
      hide TrimSpace;
      if file.None? || !Usable(file.value) {
        return Err;
      }
      var keys := file.value.keys;
      for i := 0 to |keys|
        invariant FoundKey(encoding, keys[i..], digest) == FoundKey(encoding, keys, digest)
      {
        var decoded := encoding.decode(TrimSpace(keys[i].hash));
        if decoded.None? || |decoded.value| != DIGEST_SIZE {
          return Err;
        }
        if keys[i].token.revokedAt.None? && decoded.value == digest {
          return Ok(Some(keys[i].token));
        }
      }
      return Ok(None);
    }
  }
}
