/**
 * The one-way password scheme, seen from outside. The server calls a bcrypt
 * library (`hashSync` with cost factor 10, `compareSync`); what the store
 * relies on is only that a digest carries its salt and cost, that it is not
 * the plaintext (it is a different type), and that a password verifies
 * against the digest made from it. The tag computed here is a stand-in for
 * bcrypt's key derivation, which is not part of this model.
 */
module Crypt {

  /** The cost factor the server passes to every `hashSync` call. */
  const Rounds: nat := 10

  const TagModulus: nat := 0x1_0000_0000_0000_0000

  /** A stored credential: cost factor, salt and derived tag, never the password. */
  datatype Digest = Digest(cost: nat, salt: nat, tag: nat)

  /** Stand-in key derivation: a polynomial fold of the password over the salt. */
  function Derive(cost: nat, salt: nat, password: string): (tag: nat)
    ensures tag < TagModulus
  {
    if password == [] then (salt + cost) % TagModulus
    else (Derive(cost, salt, password[..|password| - 1]) * 31 + password[|password| - 1] as int) % TagModulus
  }

  /** `hashSync(password, 10)` with the randomly drawn `salt` made a parameter. */
  function Hash(password: string, salt: nat): (d: Digest)
    ensures d.cost == Rounds && d.salt == salt
    ensures Verify(d, password)
  {
    Digest(Rounds, salt, Derive(Rounds, salt, password))
  }

  /** `compareSync(password, d)`: re-derive with the digest's own salt and cost and compare. */
  predicate Verify(d: Digest, password: string) {
    Derive(d.cost, d.salt, password) == d.tag
  }
}
