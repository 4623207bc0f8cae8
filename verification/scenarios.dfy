/**
  Worked cases for one campaign that requires `email` and `firstname`, with
  `mailinator.com` on the disposable list, and the places where the code
  behaves differently from what a reader might expect.
 */
module Scenarios {
  import opened Text
  import opened Leads
  import opened Validation
  import opened Canonical
  import opened Contacts
  import opened Archive
  import opened Pipeline

  const CAMPAIGN := Campaign("spring", "42", ["email", "firstname"])
  const DISPOSABLE: set<string> := {"mailinator.com"}
  const META := RequestMeta(map[], map[])
  const ENV := Env("2017-03-01T10:00:00.000000Z", "2017-03-01T10:00:00.000001Z", true)

  /** For an email `local@domain` with no other `@`, the domain is what
      follows the `@`. */
  lemma DomainOfSimple(local: string, domain: string)
    requires '@' !in local && '@' !in domain
    ensures '@' in local + "@" + domain
    ensures DomainOf(local + "@" + domain) == domain
  {
    var email := local + "@" + domain;
    assert email[|local|] == '@';
    assert email[..|local|] == local;
    IndexOfFirst(email, '@', |local|);
    assert email[|local| + 1..] == domain;
  }

  lemma MailinatorDomain()
    ensures '@' in "john@mailinator.com"
    ensures DomainOf("john@mailinator.com") == "mailinator.com"
  {
    assert "john@mailinator.com" == "john" + "@" + "mailinator.com";
    DomainOfSimple("john", "mailinator.com");
  }

  lemma MailinatorListed()
    ensures Lower("mailinator.com") in DISPOSABLE
  {
    LowerOfLower("mailinator.com");
  }

  /** Disposable domain: a listed domain is rejected, naming the domain; the
      table and the bucket are untouched. */
  lemma ScenarioDisposable(store: Store, archive: seq<ArchiveRecord>)
    ensures HandleData(map["firstname" := "John", "email" := "john@mailinator.com"],
                       CAMPAIGN, store, archive, DISPOSABLE, META, ENV)
         == Ok(Outcome(DisposableResponse("mailinator.com", "john@mailinator.com"), store, archive))
  {
    var data := map["firstname" := "John", "email" := "john@mailinator.com"];
    assert StructureOk(data, CAMPAIGN);
    MailinatorDomain();
    MailinatorListed();
  }

  lemma MissingFirstname()
    ensures HasRequiredFields(map["email" := "john@example.com"], CAMPAIGN)
         == Stop(Response(FAIL, MissingFieldsData({"firstname"})))
  {
    var data := map["email" := "john@example.com"];
    assert GetRequiredFields(CAMPAIGN) - data.Keys == {"firstname"};
  }

  /** Missing field: a missing `firstname` is reported by name, next to the
      overall reason. */
  lemma ScenarioMissingField(store: Store, archive: seq<ArchiveRecord>)
    ensures HandleData(map["email" := "john@example.com"], CAMPAIGN, store, archive, DISPOSABLE, META, ENV)
         == Ok(Outcome(Response(FAIL, MissingFieldsData({"firstname"})), store, archive))
    ensures MissingFieldsData({"firstname"}) == map["reason" := MISSING_REASON, "firstname" := REQUIRED_MSG]
  {
    MissingFirstname();
  }

  lemma PaddedExampleDomain()
    ensures '@' in "John@Example.com "
    ensures DomainOf("John@Example.com ") == "Example.com "
  {
    assert "John@Example.com " == "John" + "@" + "Example.com ";
    DomainOfSimple("John", "Example.com ");
  }

  lemma PaddedExampleNotListed()
    ensures Lower("Example.com ") !in DISPOSABLE
  {
    assert Lower("Example.com ")[0] == 'e';
  }

  lemma CanonOfPaddedExample()
    ensures Canon("John@Example.com ") == "john@example.com"
  {
    assert Lower("John@Example.com ") == "john@example.com" + " ";
    assert AllSpace(" ");
    StripCharacterised("", "john@example.com", " ");
    assert "" + "john@example.com" + " " == "john@example.com" + " ";
  }

  /** Accepted contact: mixed case and a trailing space are canonicalised away;
      the canonical email is accepted, becomes a key, and is archived. */
  lemma ScenarioAccept(store: Store, archive: seq<ArchiveRecord>)
    requires "john@example.com" !in store
    ensures var r := HandleData(map["firstname" := "John", "email" := "John@Example.com "],
                                CAMPAIGN, store, archive, DISPOSABLE, META, ENV);
            && r.Ok?
            && r.value.response == AcceptResponse("john@example.com")
            && r.value.store == store["john@example.com" := ContactItem("john@example.com", ENV.timeStamp)]
            && |r.value.archive| == |archive| + 1
  {
    var data := map["firstname" := "John", "email" := "John@Example.com "];
    assert StructureOk(data, CAMPAIGN);
    PaddedExampleDomain();
    PaddedExampleNotListed();
    CanonOfPaddedExample();
    AcceptCase(data, CAMPAIGN, store, archive, DISPOSABLE, META, ENV);
    ArchivedOnce(data, CAMPAIGN, store, archive, DISPOSABLE, META, ENV);
  }

  lemma ExampleDomain()
    ensures '@' in "john@example.com"
    ensures DomainOf("john@example.com") == "example.com"
  {
    assert "john@example.com" == "john" + "@" + "example.com";
    DomainOfSimple("john", "example.com");
  }

  lemma ExampleNotListed()
    ensures Lower("example.com") !in DISPOSABLE
  {
    LowerOfLower("example.com");
  }

  lemma CanonOfExample()
    ensures Canon("john@example.com") == "john@example.com"
  {
    var e := "john@example.com";
    assert IsLower(e);
    LowerOfLower(e);
    assert !IsSpace(e[0]) && !IsSpace(e[|e| - 1]);
    StripCharacterised("", e, "");
    assert "" + "john@example.com" + "" == "john@example.com";
  }

  /** Duplicate contact: once the canonical email is a key, resubmitting it is a
      duplicate that echoes the stored email and leaves the table alone. */
  lemma ScenarioDuplicate(store: Store, archive: seq<ArchiveRecord>)
    requires "john@example.com" in store && KeyedByEmail(store)
    ensures var r := HandleData(map["firstname" := "John", "email" := "john@example.com"],
                                CAMPAIGN, store, archive, DISPOSABLE, META, ENV);
            && r.Ok?
            && r.value.store == store
            && r.value.response == DuplicateResponse("john@example.com")
  {
    var data := map["firstname" := "John", "email" := "john@example.com"];
    assert StructureOk(data, CAMPAIGN);
    ExampleDomain();
    ExampleNotListed();
    CanonOfExample();
    DuplicateCase(data, CAMPAIGN, store, archive, DISPOSABLE, META, ENV);
    ItemCarriesKey(store, "john@example.com");
  }

  lemma PaddedMailinatorDomain()
    ensures '@' in "john@mailinator.com "
    ensures DomainOf("john@mailinator.com ") == "mailinator.com "
  {
    assert "john@mailinator.com " == "john" + "@" + "mailinator.com ";
    DomainOfSimple("john", "mailinator.com ");
  }

  lemma PaddedMailinatorNotListed()
    ensures Lower("mailinator.com ") !in DISPOSABLE
  {
    assert |Lower("mailinator.com ")| == 15;
  }

  lemma CanonOfPaddedMailinator()
    ensures Canon("john@mailinator.com ") == "john@mailinator.com"
  {
    LowerOfLower("john@mailinator.com ");
    assert AllSpace(" ");
    StripCharacterised("", "john@mailinator.com", " ");
    assert "" + "john@mailinator.com" + " " == "john@mailinator.com ";
  }

  /** The disposable check runs on the email as submitted, before
      canonicalisation: a trailing space after a disposable domain gets the
      submission past it, while the canonical email it is then stored
      under is the disposable address. */
  lemma TrailingSpaceEvadesDisposableCheck()
    ensures ValidateData(map["email" := "john@mailinator.com"], DISPOSABLE).Ok?
    ensures ValidateData(map["email" := "john@mailinator.com"], DISPOSABLE).value.Stop?
    ensures ValidateData(map["email" := "john@mailinator.com "], DISPOSABLE) == Ok(Pass)
    ensures Canon("john@mailinator.com ") == "john@mailinator.com"
  {
    MailinatorDomain();
    MailinatorListed();
    PaddedMailinatorDomain();
    PaddedMailinatorNotListed();
    CanonOfPaddedMailinator();
  }

  /** For an email `local@domain@more` with no `@` in `local` or `domain`,
      the domain is the text between the first two `@`. */
  lemma DomainOfTwoAts(local: string, domain: string, more: string)
    requires '@' !in local && '@' !in domain
    ensures '@' in local + "@" + domain + "@" + more
    ensures DomainOf(local + "@" + domain + "@" + more) == domain
  {
    var email := local + "@" + domain + "@" + more;
    var rest := domain + "@" + more;
    assert email == local + "@" + rest;
    assert email[|local|] == '@';
    assert email[..|local|] == local;
    IndexOfFirst(email, '@', |local|);
    assert email[|local| + 1..] == rest;
    assert rest[|domain|] == '@';
    assert rest[..|domain|] == domain;
    IndexOfFirst(rest, '@', |domain|);
  }

  lemma TwoAtDomain()
    ensures '@' in "john@mailinator.com@example.com"
    ensures DomainOf("john@mailinator.com@example.com") == "mailinator.com"
  {
    assert "john@mailinator.com@example.com" == "john" + "@" + "mailinator.com" + "@" + "example.com";
    DomainOfTwoAts("john", "mailinator.com", "example.com");
  }

  /** An email with two `@` is judged by the text between them. */
  lemma SecondAtSegmentIsTheDomain()
    ensures ValidateData(map["email" := "john@mailinator.com@example.com"], DISPOSABLE).Ok?
    ensures ValidateData(map["email" := "john@mailinator.com@example.com"], DISPOSABLE).value.Stop?
  {
    TwoAtDomain();
    MailinatorListed();
  }

  /** A campaign that requires a field called `reason` and does not get it
      loses the overall "Missing field(s)" reason: the per-field entry
      overwrites it. */
  lemma ReasonFieldOverwritesReason()
    ensures var c := Campaign("spring", "42", ["reason"]);
            HasRequiredFields(map[], c) == Stop(Response(FAIL, map["reason" := REQUIRED_MSG]))
  {
    var c := Campaign("spring", "42", ["reason"]);
    var none: Submission := map[];
    assert GetRequiredFields(c) - none.Keys == {"reason"};
    assert MissingFieldsData({"reason"}) == map["reason" := REQUIRED_MSG];
  }
}
