/**
 * A stand-in for golang.org/x/crypto/bcrypt. The digest keeps the "$2a$10$" header
 * (version and DefaultCost) and the 22-character salt of a real bcrypt digest; the
 * rest is the password itself rather than its one-way hash, so the model captures
 * which passwords a digest accepts, not the cryptography.
 */
module Bcrypt {
  import opened Wrappers
  import opened Errors

  const Header: string := "$2a$10$"

  type Salt = s: string | |s| == 22 witness "......................"

  function Hash(salt: Salt, password: string): (h: string)
    ensures |h| == 29 + |password|
  {
    Header + salt + password
  }

  /** bcrypt.CompareHashAndPassword(hash, password) == nil */
  predicate CompareHashAndPassword(hash: string, password: string) {
    |hash| >= 29 && hash[..7] == Header && hash[29..] == password
  }

  /** A digest accepts exactly the password it was generated from. */
  lemma CompareHash(salt: Salt, password: string, attempt: string)
    ensures CompareHashAndPassword(Hash(salt, password), attempt) <==> attempt == password
  {
    var h := Hash(salt, password);
    assert h[..7] == Header;
    assert h[29..] == password;
  }

  /**
   * bcrypt.GenerateFromPassword(password, DefaultCost) with the random salt and the
   * library's own failure (e.g. an over-long password) supplied by the caller.
   */
  function GenerateFromPassword(password: string, salt: Salt, fault: Option<string>): (r: Result<string, Error>)
    ensures r.Success? <==> fault.None?
    ensures r.Success? ==> CompareHashAndPassword(r.value, password)
    ensures r.Failure? ==> r.error == Text(fault.value)
  {
    CompareHash(salt, password, password);
    if fault.Some? then Failure(Text(fault.value)) else Success(Hash(salt, password))
  }
}
