/**
  The two validators that run before anything is stored: the structural
  check against the campaign's required fields, and the disposable-domain
  check on the submitted email.
 */
module Validation {
  import opened Text
  import opened Leads

  const REQUIRED_MSG := "This field is required"
  const MISSING_REASON := "Missing field(s)"
  const DISPOSABLE_PREFIX := "Disposable email address detected: "
  const REJECTED := "rejected"

  /** The campaign's required-field names as a set. */
  function GetRequiredFields(campaign: Campaign): (fields: set<string>)
    ensures forall f :: f in fields <==> f in campaign.requiredFields
  {
    set f | f in campaign.requiredFields
  }

  /** The `data` object of a missing-fields response: `reason` first, then one
      entry per missing field, which overwrites `reason` if a campaign
      requires a field of that name. */
  function MissingFieldsData(missing: set<string>): map<string, string> {
    map["reason" := MISSING_REASON] + map f | f in missing :: REQUIRED_MSG
  }

  /** Succeeds exactly when every required field is a key of the submission;
      otherwise the response is a `fail` whose data holds exactly one
      "This field is required" entry per missing field, next to the overall
      reason. */
  function HasRequiredFields(data: Submission, campaign: Campaign): (v: Verdict)
    ensures v.Pass? <==> forall f :: f in campaign.requiredFields ==> f in data
    ensures v.Stop? ==> v.response.status == FAIL
    ensures v.Stop? ==>
      v.response.data.Keys == {"reason"} + set f | f in campaign.requiredFields && f !in data
    ensures v.Stop? ==> forall k :: k in v.response.data ==>
      (v.response.data[k] == REQUIRED_MSG <==> k in campaign.requiredFields && k !in data)
    ensures v.Stop? && ("reason" !in campaign.requiredFields || "reason" in data) ==>
      v.response.data["reason"] == MISSING_REASON
  {
    var missing := GetRequiredFields(campaign) - data.Keys;
    assert forall f :: f in campaign.requiredFields && f !in data ==> f in missing;
    if missing == {} then Pass else Stop(Response(FAIL, MissingFieldsData(missing)))
  }

  /** Hands the structural verdict on unchanged. */
  function ValidateStructure(data: Submission, campaign: Campaign): (v: Verdict)
    ensures v == HasRequiredFields(data, campaign)
  {
    var result := HasRequiredFields(data, campaign);
    if result.Stop? then result else Pass
  }

  /** The text after the first `@` up to the next `@` or the end: a direct
      statement of what the pipeline treats as the email's domain. */
  function DomainOf(email: string): string
    requires '@' in email
  {
    var rest := email[IndexOf(email, '@') + 1..];
    if '@' in rest then rest[..IndexOf(rest, '@')] else rest
  }

  /** `email.split('@')[1]` is `DomainOf(email)`, and it exists exactly when
      the email holds an `@`. */
  lemma SecondSegment(email: string)
    requires '@' in email
    ensures |Split(email, '@')| >= 2 && Split(email, '@')[1] == DomainOf(email)
  {
    var parts := Split(email, '@');
    JoinSplit(email, '@');
    var tail := Join(parts[1..], '@');
    assert email == parts[0] + ['@'] + tail;
    assert email[..|parts[0]|] == parts[0];
    IndexOfFirst(email, '@', |parts[0]|);
    var rest := email[|parts[0]| + 1..];
    assert rest == tail;
    if |parts| > 2 {
      assert tail == parts[1] + ['@'] + Join(parts[2..], '@') by {
        assert parts[1..][1..] == parts[2..];
      }
      assert rest[..|parts[1]|] == parts[1];
      IndexOfFirst(rest, '@', |parts[1]|);
    }
  }

  function DisposableResponse(domain: string, email: string): Response {
    Response(FAIL, map["lead" := REJECTED, "reason" := DISPOSABLE_PREFIX + domain, "email" := email])
  }

  /** The disposable-domain check on the raw submitted email. It faults when
      there is no `email` field or the email holds no `@`; otherwise it
      rejects exactly when the lower-cased domain is in the disposable list,
      naming the domain as submitted and echoing the email as submitted. */
  function ValidateData(data: Submission, disposable: set<string>): (r: Result<Verdict>)
    ensures "email" !in data ==> r == Err(MissingEmailField)
    ensures "email" in data && '@' !in data["email"] ==> r == Err(NoAtSign)
    ensures r.Ok? <==> "email" in data && '@' in data["email"]
    ensures r.Ok? ==> (r.value.Stop? <==> Lower(DomainOf(data["email"])) in disposable)
    ensures r.Ok? && r.value.Stop? ==> r.value.response == Response(FAIL, map[
      "lead" := REJECTED,
      "reason" := DISPOSABLE_PREFIX + DomainOf(data["email"]),
      "email" := data["email"]])
  {
    if "email" !in data then Err(MissingEmailField)
    else
      var email := data["email"];
      var parts := Split(email, '@');
      JoinSplit(email, '@');
      if |parts| < 2 then Err(NoAtSign)
      else
        SecondSegment(email);
        if Lower(parts[1]) in disposable then Ok(Stop(DisposableResponse(parts[1], email)))
        else Ok(Pass)
  }

  /** The domain comparison ignores case: lower-casing the whole email first
      leaves the lower-cased domain unchanged. */
  lemma DomainIgnoresCase(email: string)
    requires '@' in email
    ensures '@' in Lower(email)
    ensures Lower(DomainOf(Lower(email))) == Lower(DomainOf(email))
  {
    var i := IndexOf(email, '@');
    assert Lower(email)[i] == '@';
    SplitLower(email, '@');
    SecondSegment(email);
    SecondSegment(Lower(email));
    LowerIdempotent(DomainOf(email));
  }

  /** Changing only the case of the email never changes whether the
      disposable check passes, faults or rejects. */
  lemma DisposableCheckIgnoresCase(data: Submission, disposable: set<string>)
    requires "email" in data
    ensures var lowered := data["email" := Lower(data["email"])];
      && ValidateData(lowered, disposable).Ok? == ValidateData(data, disposable).Ok?
      && (ValidateData(data, disposable).Ok? ==>
            ValidateData(lowered, disposable).value.Stop? == ValidateData(data, disposable).value.Stop?)
  {
    var email := data["email"];
    if '@' in email {
      DomainIgnoresCase(email);
    } else {
      assert '@' !in Lower(email);
    }
  }
}
