/** Service.hashPassword and Service.checkPassword. They sit in a module of
    their own because DoctorService calls them while Service calls
    DoctorService, and Dafny modules may not import each other in a cycle. */
module Passwords {
  import opened Wrappers

  /** checkPassword(raw, hashed): equality; a null stored hash never matches. */
  predicate CheckPassword(raw: string, hashed: Option<string>) {
    hashed == Some(raw)
  }

  /** hashPassword: the placeholder hash, which every check accepts for the
      password it came from and for no other. */
  function HashPassword(password: string): (h: string)
    ensures CheckPassword(password, Some(h))
    ensures forall other: string :: CheckPassword(other, Some(h)) ==> other == password
  {
    password
  }

  /** hashPassword applied to a possibly null password (null stays null). */
  function HashStored(password: Option<string>): (h: Option<string>)
    ensures h.None? <==> password.None?
    ensures password.Some? ==> CheckPassword(password.value, h)
  {
    if password.Some? then Some(HashPassword(password.value)) else None
  }
}
