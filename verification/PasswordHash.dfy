/** The text form of password hashes (internal/authmaterial/store.go). Argon2id and base64 are parameters. */
module PasswordHash {
  import opened Text
  import opened ApiTokens
  import opened AuthStore

  const MIN_PASSWORD: nat := 12
  const VERSION: nat := 19
  const MAX_32: nat := 0xFFFF_FFFF
  const MAX_8: nat := 0xFF
  const MAX_INT: nat := 0x7FFF_FFFF_FFFF_FFFF

  datatype Params = Params(time: nat, memory: nat, parallelism: nat, keyLen: nat)

  const CURRENT := Params.Params(2, 19 * 1024, 1, 32)
  const LEGACY := Params.Params(1, 64 * 1024, 4, 32)

  // ---- strings.Split and strings.Cut with a separator of one character ----

  function IndexOf(s: string, sep: char): (i: nat)
    ensures i <= |s| && (i < |s| ==> s[i] == sep) && (forall k :: 0 <= k < i ==> s[k] != sep)
  {
    if s == "" || s[0] == sep then 0 else 1 + IndexOf(s[1..], sep)
  }

  function SplitOn(s: string, sep: char): (parts: seq<string>)
    ensures parts != []
    decreases |s|
  {
    var i := IndexOf(s, sep);
    if i == |s| then [s] else [s[..i]] + SplitOn(s[i + 1..], sep)
  }

  lemma {:induction false} SplitFirst(part: string, rest: string, sep: char)
    requires sep !in part
    ensures SplitOn(part + [sep] + rest, sep) == [part] + SplitOn(rest, sep)
  {
    var s := part + [sep] + rest;
    var i := IndexOf(s, sep);
    assert s[|part|] == sep;
    assert forall k :: 0 <= k < |part| ==> s[k] == part[k];
    assert s[..i] == part && s[i + 1..] == rest;
  }

  lemma SplitLast(part: string, sep: char)
    requires sep !in part
    ensures SplitOn(part, sep) == [part]
  {
  }

  // ---- The cost parameters ----

  /** strconv.ParseUint in base 10 */
  function ParseUint(s: string, max: nat): Option<nat> {
    if IsDigits(s) && NatOf(s) <= max then Some(NatOf(s)) else None
  }

  /** strconv.Atoi */
  function Atoi(s: string): Option<int> {
    if s != "" && s[0] in "+-" then
      if IsDigits(s[1..]) && NatOf(s[1..]) <= (if s[0] == '-' then MAX_INT + 1 else MAX_INT)
      then Some(if s[0] == '-' then 0 - NatOf(s[1..]) else NatOf(s[1..])) else None
    else if IsDigits(s) && NatOf(s) <= MAX_INT then Some(NatOf(s)) else None
  }

  /** The positive number that a field gives to `key`. */
  function Given(field: string, key: char, max: nat): Option<nat> {
    if |field| > 2 && field[0] == key && field[1] == '=' && IsDigits(field[2..]) && 0 < NatOf(field[2..]) <= max
    then Some(NatOf(field[2..])) else None
  }

  /** One turn of the loop over the fields. */
  function WithField(p: Params, field: string): Option<Params> {
    var cut := IndexOf(field, '=');
    if cut == |field| || field[cut + 1..] == "" then None
    else
      var key, value := field[..cut], field[cut + 1..];
      if key != "m" && key != "t" && key != "p" then None
      else
        var parsed := ParseUint(value, if key == "p" then MAX_8 else MAX_32);
        if parsed.None? || parsed.value == 0 then None
        else Some(if key == "m" then p.(memory := parsed.value) else if key == "t" then p.(time := parsed.value)
                  else p.(parallelism := parsed.value))
  }

  function WithFields(p: Params, fields: seq<string>): Option<Params>
    decreases |fields|
  {
    if fields == [] then Some(p)
    else var q := WithField(p, fields[0]); if q.None? then None else WithFields(q.value, fields[1..])
  }

  function ParsedConfig(part: string): Option<Params> {
    var fields := SplitOn(part, ',');
    if |fields| != 3 then None
    else
      var p := WithFields(Params.Params(0, 0, 0, 0), fields);
      if p.None? || p.value.memory == 0 || p.value.time == 0 || p.value.parallelism == 0 then None
      else Some(p.value.(keyLen := CURRENT.keyLen))
  }

  method ParseAuthHashConfig(part: string) returns (r: Option<Params>)
    ensures r == ParsedConfig(part)
  {
    hide SplitOn, IndexOf, NatOf, IsDigits;
    var fields := SplitOn(part, ',');
    if |fields| != 3 {
      return None;
    }
    var params := Params.Params(0, 0, 0, 0);
    for i := 0 to 3
      invariant WithFields(params, fields[i..]) == WithFields(Params.Params(0, 0, 0, 0), fields)
    {
      var field := fields[i];
      assert fields[i..][1..] == fields[i + 1..];
      var cut := IndexOf(field, '=');
      if cut == |field| || field[cut + 1..] == "" {
        return None;
      }
      var key, value := field[..cut], field[cut + 1..];
      if key == "m" {
        var parsed := ParseUint(value, MAX_32);
        if parsed.None? || parsed.value == 0 {
          return None;
        }
        params := params.(memory := parsed.value);
      } else if key == "t" {
        var parsed := ParseUint(value, MAX_32);
        if parsed.None? || parsed.value == 0 {
          return None;
        }
        params := params.(time := parsed.value);
      } else if key == "p" {
        var parsed := ParseUint(value, MAX_8);
        if parsed.None? || parsed.value == 0 {
          return None;
        }
        params := params.(parallelism := parsed.value);
      } else {
        return None;
      }
    }
    if params.memory == 0 || params.time == 0 || params.parallelism == 0 {
      return None;
    }
    return Some(params.(keyLen := CURRENT.keyLen));
  }

  /**
   * A field sets the parameter it names, and is an error if it names none or its number is not positive and in range.
   */
  lemma {:induction false} FieldExactly(p: Params, field: string)
    ensures WithField(p, field) ==
      if Given(field, 'm', MAX_32).Some? then Some(p.(memory := Given(field, 'm', MAX_32).value))
      else if Given(field, 't', MAX_32).Some? then Some(p.(time := Given(field, 't', MAX_32).value))
      else if Given(field, 'p', MAX_8).Some? then Some(p.(parallelism := Given(field, 'p', MAX_8).value))
      else None
  {
    hide NatOf;
    var cut := IndexOf(field, '=');
    if cut == 1 {
      assert field[..1] == [field[0]];
    }
  }

  ghost predicate GivenAt(fields: seq<string>, i: nat, j: nat, k: nat, q: Params)
    requires i < |fields| && j < |fields| && k < |fields|
  {
    && Given(fields[i], 'm', MAX_32) == Some(q.memory)
    && Given(fields[j], 't', MAX_32) == Some(q.time)
    && Given(fields[k], 'p', MAX_8) == Some(q.parallelism)
  }

  /** Each of m, t and p is given by exactly one of three fields, in any order. */
  ghost predicate Gives(fields: seq<string>, q: Params) {
    && |fields| == 3 && q.keyLen == CURRENT.keyLen
    && exists i: nat, j: nat, k: nat ::
      i < 3 && j < 3 && k < 3 && i != j && j != k && i != k && GivenAt(fields, i, j, k, q)
  }

  ghost predicate GivenInSomeOrder(fields: seq<string>, q: Params)
    requires |fields| == 3
  {
    || GivenAt(fields, 0, 1, 2, q) || GivenAt(fields, 0, 2, 1, q) || GivenAt(fields, 1, 0, 2, q)
    || GivenAt(fields, 1, 2, 0, q) || GivenAt(fields, 2, 0, 1, q) || GivenAt(fields, 2, 1, 0, q)
  }

  lemma {:induction false} GivesInSomeOrder(fields: seq<string>, q: Params)
    requires |fields| == 3
    ensures Gives(fields, q) == (q.keyLen == CURRENT.keyLen && GivenInSomeOrder(fields, q))
  {
    hide GivenAt;
  }

  /** The parameters that three fields leave behind. */
  lemma {:induction false} ThreeFields(fields: seq<string>, q: Params)
    requires |fields| == 3 && q.memory > 0 && q.time > 0 && q.parallelism > 0 && q.keyLen == 0
    ensures WithFields(Params.Params(0, 0, 0, 0), fields) == Some(q) <==> Gives(fields, q.(keyLen := CURRENT.keyLen))
  {
    hide WithField, NatOf, IsDigits;
    var zero := Params.Params(0, 0, 0, 0);
    GivesInSomeOrder(fields, q.(keyLen := CURRENT.keyLen));
    assert fields[1..][0] == fields[1] && fields[1..][1..][0] == fields[2] && fields[1..][1..][1..] == [];
    FieldExactly(zero, fields[0]);
    var first := WithField(zero, fields[0]);
    if first.Some? {
      FieldExactly(first.value, fields[1]);
      var second := WithField(first.value, fields[1]);
      if second.Some? {
        FieldExactly(second.value, fields[2]);
        var third := WithField(second.value, fields[2]);
        assert WithFields(second.value, fields[1..][1..]) == third;
      }
      assert WithFields(first.value, fields[1..])
        == if second.None? then None else WithFields(second.value, fields[1..][1..]);
    }
  }

  /** Parsing accepts exactly the texts that give each of m, t and p once, positive and in range, in any order. */
  lemma {:induction false} ConfigExactly(part: string, q: Params)
    ensures ParsedConfig(part) == Some(q) <==> Gives(SplitOn(part, ','), q)
  {
    hide SplitOn, WithFields, NatOf, IsDigits;
    var fields := SplitOn(part, ',');
    if |fields| == 3 {
      GivesInSomeOrder(fields, q);
      var p := WithFields(Params.Params(0, 0, 0, 0), fields);
      KeyLenStays(Params.Params(0, 0, 0, 0), fields);
      if q.memory > 0 && q.time > 0 && q.parallelism > 0 {
        ThreeFields(fields, q.(keyLen := 0));
      }
    }
  }

  lemma {:induction false} KeyLenStays(p: Params, fields: seq<string>)
    ensures WithFields(p, fields).Some? ==> WithFields(p, fields).value.keyLen == p.keyLen
    decreases |fields|
  {
    hide IndexOf, ParseUint;
    if fields != [] && WithField(p, fields[0]).Some? { KeyLenStays(WithField(p, fields[0]).value, fields[1..]); }
  }

  // ---- The whole hash ----

  datatype Parsed = Parsed(salt: string, digest: string, params: Params, legacy: bool)

  function ParsedHash(parts: seq<string>): Option<Parsed> {
    if |parts| == 3 then Some(Parsed.Parsed(parts[1], parts[2], LEGACY, true))
    else if |parts| != 5 || !HasPrefix(parts[1], "v=") then None
    else
      var version, params := Atoi(parts[1][2..]), ParsedConfig(parts[2]);
      if version.None? || version.value <= 0 || params.None? then None
      else Some(Parsed.Parsed(parts[3], parts[4], params.value, false))
  }

  /** The layout that HashPassword writes. */
  function ConfigText(p: Params): string {
    FieldText('m', p.memory) + [','] + (FieldText('t', p.time) + [','] + FieldText('p', p.parallelism))
  }

  function FieldText(key: char, n: nat): string { [key] + "=" + NatText(n) }

  function HashText(p: Params, salt: string, digest: string): string {
    "argon2id" + ['$'] + ("v=" + NatText(VERSION) + ['$'] + (ConfigText(p) + ['$'] + (salt + ['$'] + digest)))
  }

  lemma {:induction false} NumberGiven(key: char, n: nat, max: nat)
    requires 0 < n <= max && key != ',' && key != '$'
    ensures Given(FieldText(key, n), key, max) == Some(n)
    ensures ',' !in FieldText(key, n) && '$' !in FieldText(key, n)
  {
    hide NatText, NatOf;
    assert FieldText(key, n)[2..] == NatText(n);
  }

  predicate InRange(p: Params) {
    0 < p.memory <= MAX_32 && 0 < p.time <= MAX_32 && 0 < p.parallelism <= MAX_8 && p.keyLen == CURRENT.keyLen
  }

  lemma {:induction false} ConfigRoundTrip(p: Params)
    requires InRange(p)
    ensures ParsedConfig(ConfigText(p)) == Some(p) && '$' !in ConfigText(p)
  {
    hide Given, FieldText, ParsedConfig, SplitOn;
    var m, t, q := FieldText('m', p.memory), FieldText('t', p.time), FieldText('p', p.parallelism);
    NumberGiven('m', p.memory, MAX_32);
    NumberGiven('t', p.time, MAX_32);
    NumberGiven('p', p.parallelism, MAX_8);
    SplitFirst(m, t + [','] + q, ',');
    SplitFirst(t, q, ',');
    SplitLast(q, ',');
    assert [m] + ([t] + [q]) == [m, t, q];
    GivesInSomeOrder([m, t, q], p);
    ConfigExactly(ConfigText(p), p);
  }

  /** Parsing a written hash gives back the salt, the digest text and the costs. */
  lemma {:induction false} HashRoundTrip(p: Params, salt: string, digest: string)
    requires InRange(p) && '$' !in salt && '$' !in digest
    ensures SplitOn(HashText(p, salt, digest), '$')[0] == "argon2id"
    ensures ParsedHash(SplitOn(HashText(p, salt, digest), '$')) == Some(Parsed.Parsed(salt, digest, p, false))
  {
    hide SplitOn, ConfigText, ParsedConfig;
    ConfigRoundTrip(p);
    VersionParses();
    var version := "v=" + NatText(VERSION);
    SplitFirst("argon2id", version + ['$'] + (ConfigText(p) + ['$'] + (salt + ['$'] + digest)), '$');
    SplitFirst(version, ConfigText(p) + ['$'] + (salt + ['$'] + digest), '$');
    SplitFirst(ConfigText(p), salt + ['$'] + digest, '$');
    SplitFirst(salt, digest, '$');
    SplitLast(digest, '$');
    assert SplitOn(HashText(p, salt, digest), '$') == ["argon2id", version, ConfigText(p), salt, digest];
  }

  lemma {:induction false} VersionParses()
    ensures var version := "v=" + NatText(VERSION);
      '$' !in version && HasPrefix(version, "v=") && Atoi(version[2..]) == Some(VERSION)
  {
    hide NatText, NatOf;
    assert ("v=" + NatText(VERSION))[2..] == NatText(VERSION);
  }

  // ---- Hashing and verifying ----

  /** Argon2id: password, salt and costs to a digest. */
  type Argon = (string, string, Params) -> Digest

  /**
   * The characters of the URL alphabet, for salts, and of the standard alphabet, for digests (sections 4 and 5 of RFC
   * 4648).
   */
  predicate Alphanumeric(c: char) { 'a' <= c <= 'z' || 'A' <= c <= 'Z' || '0' <= c <= '9' }

  predicate IsSalt(s: string) { |s| == 16 && forall i :: 0 <= i < |s| ==> Alphanumeric(s[i]) || s[i] in "-_" }

  ghost predicate WritesBase64(e: Encoding) {
    forall d :: e.decode(e.encode(d)) == Some(d) && forall c :: c in e.encode(d) ==> Alphanumeric(c) || c in "+/"
  }

  /** Whether the password matches, and whether the hash has the legacy form. */
  function Verified(argon: Argon, e: Encoding, password: string, encoded: string): (bool, bool) {
    var parts := SplitOn(encoded, '$');
    if |parts| < 3 || parts[0] != "argon2id" then (false, false)
    else
      var parsed := ParsedHash(parts);
      if parsed.None? then (false, false)
      else
        var expected := e.decode(parsed.value.digest);
        if expected.None? then (false, false)
        else (argon(password, parsed.value.salt, parsed.value.params) == expected.value, parsed.value.legacy)
  }

  /**
   * A password verifies against the hash of another exactly when its digest is that of the other one trimmed:
   * hashing trims, verifying does not.
   */
  lemma {:induction false} VerifiesExactly(argon: Argon, e: Encoding, password: string, other: string, salt: string)
    requires WritesBase64(e) && IsSalt(salt)
    ensures var hash := HashText(CURRENT, salt, e.encode(argon(TrimSpace(other), salt, CURRENT)));
      Verified(argon, e, password, hash)
        == (argon(password, salt, CURRENT) == argon(TrimSpace(other), salt, CURRENT), false)
  {
    hide SplitOn, ParsedHash, HashText, TrimSpace;
    var digest := e.encode(argon(TrimSpace(other), salt, CURRENT));
    HashRoundTrip(CURRENT, salt, digest);
    LongEnough(CURRENT, salt, digest);
  }

  lemma {:induction false} LongEnough(p: Params, salt: string, digest: string)
    requires InRange(p) && '$' !in salt && '$' !in digest
    ensures |SplitOn(HashText(p, salt, digest), '$')| >= 3
  {
    hide SplitOn, HashText;
    HashRoundTrip(p, salt, digest);
  }

  /** The hash of `password` with this salt. */
  function Hashed(argon: Argon, e: Encoding, password: string, salt: string): string {
    HashText(CURRENT, salt, e.encode(argon(TrimSpace(password), salt, CURRENT)))
  }

  /** Passwords that are long enough are hashed; the hash parses to its parts and admits the trimmed password. */
  method HashPassword(argon: Argon, e: Encoding, password: string, salt: string) returns (r: Result<string>)
    requires WritesBase64(e) && IsSalt(salt)
    ensures r.Ok? <==> |TrimSpace(password)| >= 12
    ensures r.Ok? ==> r.value == Hashed(argon, e, password, salt)
    ensures r.Ok? ==>
      ParsedHash(SplitOn(r.value, '$'))
        == var costs := Params.Params(2, 19456, 1, 32);
           Some(Parsed.Parsed(salt, e.encode(argon(TrimSpace(password), salt, costs)), costs, false))
    ensures r.Ok? ==> Verified(argon, e, TrimSpace(password), r.value) == (true, false)
  {
    hide SplitOn, ParsedHash, Verified, TrimSpace, HashText;
    var trimmed := TrimSpace(password);
    if |trimmed| < MIN_PASSWORD {
      return Err;
    }
    var digest := e.encode(argon(trimmed, salt, CURRENT));
    HashRoundTrip(CURRENT, salt, digest);
    VerifiesExactly(argon, e, trimmed, password, salt);
    return Ok(HashText(CURRENT, salt, digest));
  }

  /** The digest tells the two passwords apart. */
  predicate Distinguishes(argon: Argon, salt: string, p: string, q: string) {
    argon(p, salt, CURRENT) == argon(q, salt, CURRENT) ==> p == q
  }

  /** A password verifies against its own hash exactly when it has no surrounding space. */
  lemma {:induction false} OwnPasswordVerifiesExactly(argon: Argon, e: Encoding, password: string, salt: string)
    requires WritesBase64(e) && IsSalt(salt) && Distinguishes(argon, salt, password, TrimSpace(password))
    ensures Verified(argon, e, password, Hashed(argon, e, password, salt)).0 <==> TrimSpace(password) == password
  {
    hide Verified, TrimSpace, HashText;
    VerifiesExactly(argon, e, password, password, salt);
  }

  /** A hash in the old form of three parts is checked with the old costs, and reported as legacy. */
  lemma {:induction false} LegacyVerifies(argon: Argon, e: Encoding, password: string, salt: string, digest: string)
    requires '$' !in salt && '$' !in digest
    ensures var expected := e.decode(digest);
      Verified(argon, e, password, "argon2id" + ['$'] + (salt + ['$'] + digest))
      == if expected.None? then (false, false)
         else (argon(password, salt, Params.Params(1, 65536, 4, 32)) == expected.value, true)
  {
    hide SplitOn;
    SplitFirst("argon2id", salt + ['$'] + digest, '$');
    SplitFirst(salt, digest, '$');
    SplitLast(digest, '$');
    assert ["argon2id"] + ([salt] + [digest]) == ["argon2id", salt, digest];
  }

  /** A positive decimal number that fits, with or without a plus sign. */
  ghost predicate IsVersion(s: string) {
    exists digits :: IsDigits(digits) && 0 < NatOf(digits) <= MAX_INT && (s == digits || s == "+" + digits)
  }

  lemma {:induction false} VersionExactly(s: string)
    ensures Atoi(s).Some? && Atoi(s).value > 0 <==> IsVersion(s)
  {
    hide NatOf;
    if Atoi(s).Some? && Atoi(s).value > 0 {
      if s[0] == '+' { assert s == "+" + s[1..]; } else { assert IsDigits(s); }
    }
    if digits :| IsDigits(digits) && 0 < NatOf(digits) <= MAX_INT && (s == digits || s == "+" + digits) {
      assert s == "+" + digits ==> s[1..] == digits;
    }
  }

  /**
   * Only these texts can verify: three parts after the old form, or five with a version and costs, each beginning with
   * the name of the algorithm; no other text does, nor is it legacy.
   */
  lemma {:induction false} OnlyHashesVerify(argon: Argon, e: Encoding, password: string, encoded: string)
    ensures var parts := SplitOn(encoded, '$');
      Verified(argon, e, password, encoded) != (false, false) ==>
        && parts[0] == "argon2id"
        && (|parts| == 3
            || (&& |parts| == 5 && HasPrefix(parts[1], "v=") && IsVersion(parts[1][2..])
                && exists q :: Gives(SplitOn(parts[2], ','), q)))
  {
    hide SplitOn, WithFields, NatOf, Gives;
    var parts := SplitOn(encoded, '$');
    if |parts| == 5 && HasPrefix(parts[1], "v=") {
      VersionExactly(parts[1][2..]);
      hide ParsedConfig;
      if ParsedConfig(parts[2]).Some? { ConfigExactly(parts[2], ParsedConfig(parts[2]).value); }
    }
  }

  /** Whatever the digest does, a password without surrounding space verifies against its own hash. */
  lemma {:induction false} TrimmedPasswordVerifies(argon: Argon, e: Encoding, password: string, salt: string)
    requires WritesBase64(e) && IsSalt(salt) && TrimSpace(password) == password
    ensures Verified(argon, e, password, Hashed(argon, e, password, salt)) == (true, false)
  {
    hide Verified, TrimSpace, HashText;
    VerifiesExactly(argon, e, password, password, salt);
  }

  const PADDED := " correct horse"

  /** A password with a leading space is accepted for hashing, and then refused. */
  lemma {:induction false} PaddedPasswordIsRefused(argon: Argon, e: Encoding, salt: string)
    requires WritesBase64(e) && IsSalt(salt) && Distinguishes(argon, salt, PADDED, "correct horse")
    ensures |TrimSpace(PADDED)| >= MIN_PASSWORD
    ensures !Verified(argon, e, PADDED, Hashed(argon, e, PADDED, salt)).0
  {
    hide Verified, HashText;
    assert PADDED[1..] == "correct horse";
    TrimmedStays("correct horse");
    assert TrimLeft(PADDED) == "correct horse";
    assert TrimSpace(PADDED) == "correct horse";
    hide TrimSpace;
    OwnPasswordVerifiesExactly(argon, e, PADDED, salt);
  }
}
