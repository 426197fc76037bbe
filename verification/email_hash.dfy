/** Fingerprinting of an email: the deduplication key of the service.
    The digest itself (SHA-256 rendered as hex) is a parameter of the model,
    so nothing here depends on which digest is used. */
module EmailHash {

  /** An email as the caller submits it: three strings, no identity beyond them. */
  datatype Email = Email(to: string, subject: string, body: string)

  /** A fingerprint, the hex digest of an email. */
  type Hash = string

  /** The text that is digested: the three fields glued together with no separator. */
  function Concatenated(e: Email): (s: string)
    ensures |s| == |e.to| + |e.subject| + |e.body|
    ensures s[..|e.to|] == e.to
    ensures s[|e.to|..|e.to| + |e.subject|] == e.subject
    ensures s[|e.to| + |e.subject|..] == e.body
  {
    e.to + e.subject + e.body
  }

  /** The fingerprint of an email under the given digest. */
  function HashEmail(digest: string -> Hash, e: Email): (h: Hash)
    ensures h == digest(e.to + e.subject + e.body)
  {
    digest(Concatenated(e))
  }

  /** The fingerprint sees only the concatenation: emails whose concatenations agree
      get the same fingerprint, whatever the digest. */
  lemma HashDependsOnlyOnConcatenation(digest: string -> Hash, e1: Email, e2: Email)
    requires Concatenated(e1) == Concatenated(e2)
    ensures HashEmail(digest, e1) == HashEmail(digest, e2)
  {
  }

  /** Because the fields are joined without a separator, two different emails can share
      a fingerprint under every digest; the service then treats the second as a duplicate. */
  lemma DistinctEmailsCanShareHash(digest: string -> Hash)
    ensures Email("a", "b", "") != Email("ab", "", "")
    ensures HashEmail(digest, Email("a", "b", "")) == HashEmail(digest, Email("ab", "", ""))
  {
    assert Concatenated(Email("a", "b", "")) == "ab" == Concatenated(Email("ab", "", ""));
  }
}
