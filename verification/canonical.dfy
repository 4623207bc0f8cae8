/**
  Canonical email: the submitted email lower-cased and stripped of
  surrounding whitespace (`email.lower().strip()`). It is both the key of
  the contact store and the email recorded after acceptance.
 */
module Canonical {
  import opened Text
  import opened Leads

  /** The canonical form of an email: no upper-case letter, no surrounding
      whitespace, and every `@` of the original kept. */
  function Canon(email: string): (c: string)
    ensures IsLower(c) && Stripped(c)
    ensures |c| <= |email|
    ensures '@' in email ==> '@' in c
  {
    LowerIsLower(email);
    StripKeepsLower(Lower(email));
    // Both branches return the same value; the test only guards the proof
    // that the `@` survives.
    if '@' in email then
      assert Lower(email)[IndexOf(email, '@')] == '@';
      StripKeeps(Lower(email), '@');
      Strip(Lower(email))
    else
      Strip(Lower(email))
  }

  /** What the canonical email is: the lower-cased email with its leading
      and trailing whitespace cut off, every other character kept in
      place. */
  lemma CanonIsStrippedLower(email: string)
    ensures AllSpace(LeadingSpace(Lower(email))) && AllSpace(TrailingSpace(Lower(email)))
    ensures Lower(email) == LeadingSpace(Lower(email)) + Canon(email) + TrailingSpace(Lower(email))
  {
    StripDecomposes(Lower(email));
  }

  /** Canonicalising twice is canonicalising once. */
  lemma CanonIdempotent(email: string)
    ensures Canon(Canon(email)) == Canon(email)
  {
    var c := Canon(email);
    LowerOfLower(c);
    StripCharacterised("", c, "");
    assert "" + c + "" == c;
  }

  /** Case and surrounding whitespace do not matter: padding the email with
      whitespace on either side, or lower-casing it, gives the same canonical
      email. */
  lemma {:induction false} CanonIgnoresCaseAndPadding(front: string, email: string, back: string)
    requires AllSpace(front) && AllSpace(back)
    ensures Canon(front + email + back) == Canon(email)
    ensures Canon(Lower(email)) == Canon(email)
  {
    LowerIdempotent(email);
    LowerConcat(front + email, back);
    LowerConcat(front, email);
    LowerKeepsSpace(front);
    LowerKeepsSpace(back);
    StripPadded(Lower(front), Lower(email), Lower(back));
  }

  /** Python's `canonicalize(data)`: replaces the `email` field by its
      canonical form and leaves every other field as it was. */
  function Canonicalize(data: Submission): (d: Submission)
    requires "email" in data
    ensures d.Keys == data.Keys
    ensures d["email"] == Canon(data["email"])
    ensures forall k :: k in data && k != "email" ==> d[k] == data[k]
  {
    data["email" := Canon(data["email"])]
  }

  lemma CanonicalizeIdempotent(data: Submission)
    requires "email" in data
    ensures Canonicalize(Canonicalize(data)) == Canonicalize(data)
  {
    var d := Canonicalize(data);
    CanonIdempotent(data["email"]);
    UpdateWithSame(d, "email");
  }

  lemma UpdateWithSame(d: Submission, k: string)
    requires k in d
    ensures d[k := d[k]] == d
  {
  }

  /** The key `lookup_email` reads the store with: `email.lower().strip()`
      applied once more to the already canonical email. */
  function DedupKey(data: Submission): string
    requires "email" in data
  {
    Canon(data["email"])
  }

  /** Because canonicalisation is idempotent, the dedup key of the
      canonicalised submission is its email field, which is the canonical
      form of the original email. */
  lemma DedupKeyIsCanonicalEmail(data: Submission)
    requires "email" in data
    ensures DedupKey(Canonicalize(data)) == Canonicalize(data)["email"] == Canon(data["email"])
  {
    CanonIdempotent(data["email"]);
  }
}
