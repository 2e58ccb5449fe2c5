/** TokenService: issues signed tokens whose subject is a user's identifier
    and decides whether a token belongs to a user of a given role.

    The JWT encoding and the HMAC are not modelled: a token is either a
    well-formed signed token, recording its claims and the key it was signed
    with, or a malformed string. Verification succeeds exactly when the
    token is well formed, was signed with the configured key, and has not
    expired. HS256 needs a key of at least 256 bits (section 3.2 of
    RFC 7518), so a shorter secret makes both issuing and parsing throw. */
module TokenService {
  import opened Wrappers
  import opened Text
  import opened Times
  import opened Models
  import opened Database
  import DoctorRepository

  /** Seven days in milliseconds: 1000 * 60 * 60 * 24 * 7. */
  const LifetimeMillis: int := 604_800_000
  const MinKeyLength: nat := 32

  datatype Token =
    | Jws(subject: Option<string>, issuedAt: int, expiration: int, signedWith: string)
    | Malformed(text: string)

  /** What the services read from outside: the configured secret, the
      millisecond clock tokens are checked against, and the local date-time
      entity validation compares with. */
  datatype Env = Env(secret: string, nowMillis: int, now: LocalDateTime)

  predicate WeakKey(env: Env) {
    |env.secret| < MinKeyLength
  }

  /** generateToken: subject = identifier, issued now, expiring seven days
      later, signed with the configured key; a null identifier leaves the
      subject unset. */
  function GenerateToken(identifier: Option<string>, env: Env): (r: Result<Token>)
    ensures r.Throws? <==> WeakKey(env)
    ensures r.Returns? ==>
      && r.value.Jws? && r.value.subject == identifier && r.value.signedWith == env.secret
      && r.value.issuedAt == env.nowMillis && r.value.expiration == env.nowMillis + LifetimeMillis
  {
    if WeakKey(env) then Throws("WeakKeyException")
    else Returns(Jws(identifier, env.nowMillis, env.nowMillis + LifetimeMillis, env.secret))
  }

  /** extractIdentifier: the subject of a token that parses, verifies and is
      not expired at the clock; otherwise the exception the parser throws. */
  function ExtractIdentifier(token: Token, env: Env): (r: Result<Option<string>>)
    ensures r.Returns? <==>
      !WeakKey(env) && token.Jws? && token.signedWith == env.secret && env.nowMillis <= token.expiration
    ensures r.Returns? ==> r.value == token.subject
  {
    if WeakKey(env) then Throws("WeakKeyException")
    else if token.Malformed? then Throws("MalformedJwtException")
    else if token.signedWith != env.secret then Throws("SignatureException")
    else if env.nowMillis > token.expiration then Throws("ExpiredJwtException")
    else Returns(token.subject)
  }

  /** A token issued now is accepted for as long as its lifetime lasts and
      yields back the identifier; afterwards it is rejected. */
  lemma IssueThenExtract(identifier: Option<string>, issue: Env, check: Env)
    requires GenerateToken(identifier, issue).Returns? && check.secret == issue.secret
    ensures issue.nowMillis <= check.nowMillis <= issue.nowMillis + LifetimeMillis ==>
      ExtractIdentifier(GenerateToken(identifier, issue).value, check) == Returns(identifier)
    ensures check.nowMillis > issue.nowMillis + LifetimeMillis ==>
      ExtractIdentifier(GenerateToken(identifier, issue).value, check).Throws?
  {
  }

  /** The record lookup validateToken performs for a role name already
      lower-cased: true when the role's table holds the identifier, false
      when it does not or the role is unknown; a finder meeting two rows
      throws. */
  function RoleLookup(db: Db, role: string, identifier: string): (r: Result<bool>)
    ensures role != "admin" && role != "doctor" && role != "patient" ==> r == Returns(false)
    ensures r == Returns(true) ==>
      || (role == "admin" && exists a :: a in db.admins && a.username == Some(identifier))
      || (role == "doctor" && exists d :: d in db.doctors && d.email == identifier)
      || (role == "patient" && exists p :: p in db.patients && p.email == Some(identifier))
    ensures r == Returns(false) <==>
      || (role == "admin" && forall a :: a in db.admins ==> a.username != Some(identifier))
      || (role == "doctor" && forall d :: d in db.doctors ==> d.email != identifier)
      || (role == "patient" && forall p :: p in db.patients ==> p.email != Some(identifier))
      || (role != "admin" && role != "doctor" && role != "patient")
    ensures r.Throws? <==>
      || (role == "admin"
          && exists i, j :: 0 <= i < j < |db.admins| && db.admins[i].username == Some(identifier) && db.admins[j].username == Some(identifier))
      || (role == "doctor"
          && exists i, j :: 0 <= i < j < |db.doctors| && db.doctors[i].email == identifier && db.doctors[j].email == identifier)
      || (role == "patient"
          && exists i, j :: 0 <= i < j < |db.patients| && db.patients[i].email == Some(identifier) && db.patients[j].email == Some(identifier))
  {
    if role == "admin" then
      var found := FindAdminByUsername(db.admins, Some(identifier));
      if found.Throws? then Throws(found.exception) else Returns(found.value.Some?)
    else if role == "doctor" then
      var found := DoctorRepository.FindByEmail(db.doctors, identifier);
      if found.Throws? then Throws(found.exception) else Returns(found.value.Some?)
    else if role == "patient" then
      var found := FindPatientByEmail(db.patients, Some(identifier));
      if found.Throws? then Throws(found.exception) else Returns(found.value.Some?)
    else Returns(false)
  }

  /** validateToken: true exactly when the token verifies, carries a
      non-empty subject, and the table of the role named (ignoring case)
      holds a record for it; every exception gives false. */
  function ValidateToken(db: Db, token: Token, userType: string, env: Env): (r: bool)
    ensures r <==>
      && ExtractIdentifier(token, env).Returns?
      && ExtractIdentifier(token, env).value.Some?
      && ExtractIdentifier(token, env).value.value != ""
      && RoleLookup(db, ToLower(userType), ExtractIdentifier(token, env).value.value) == Returns(true)
  {
    var extracted := ExtractIdentifier(token, env);
    if extracted.Throws? then false
    else if extracted.value.None? || extracted.value.value == "" then false
    else
      var found := RoleLookup(db, ToLower(userType), extracted.value.value);
      found.Returns? && found.value
  }

  /** getPatientIdFromToken: the id of the patient whose email is the
      token's subject; null when parsing fails or no single patient has it. */
  function GetPatientIdFromToken(db: Db, token: Token, env: Env): (r: Option<nat>)
    ensures ExtractIdentifier(token, env).Throws? ==> r.None?
    ensures ExtractIdentifier(token, env).Returns? && FindPatientByEmail(db.patients, ExtractIdentifier(token, env).value).Throws?
      ==> r.None?
    ensures r.Some? ==> ExtractIdentifier(token, env).Returns?
    ensures r.Some? ==> exists p :: p in db.patients && p.id == r && p.email == ExtractIdentifier(token, env).value
    ensures ExtractIdentifier(token, env).Returns?
      && FindPatientByEmail(db.patients, ExtractIdentifier(token, env).value).Returns?
      && FindPatientByEmail(db.patients, ExtractIdentifier(token, env).value).value.Some?
      ==> r == FindPatientByEmail(db.patients, ExtractIdentifier(token, env).value).value.value.id
    ensures ExtractIdentifier(token, env).Returns? ==>
      forall i :: 0 <= i < |db.patients| && db.patients[i].email == ExtractIdentifier(token, env).value
        && (forall j :: 0 <= j < |db.patients| && j != i ==> db.patients[j].email != db.patients[i].email)
        ==> r == db.patients[i].id
  {
    var extracted := ExtractIdentifier(token, env);
    if extracted.Throws? then None
    else
      var found := FindPatientByEmail(db.patients, extracted.value);
      if found.Throws? || found.value.None? then None else found.value.value.id
  }
}
