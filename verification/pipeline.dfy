/**
  Python's `handle_data`: structural check, disposable-domain check,
  canonicalisation, duplicate lookup, then either nothing or one store
  write, and finally one archive put for every submission that got past
  validation.
 */
module Pipeline {
  import opened Text
  import opened Leads
  import opened Validation
  import opened Canonical
  import opened Contacts
  import opened Archive

  const DUPLICATE_REASON := "Duplicate contact"
  const ACCEPTED := "accepted"

  /** What the outside world supplies to one invocation: the time stamp
      taken when the pipeline starts, the second time stamp taken when the
      S3 key is built, and whether the S3 put goes through. */
  datatype Env = Env(timeStamp: string, archiveStamp: string, archivePutSucceeds: bool)

  /** The response handed back, and both stores afterwards. */
  datatype Outcome = Outcome(response: Response, store: Store, archive: seq<ArchiveRecord>)

  predicate StructureOk(data: Submission, campaign: Campaign) {
    forall f :: f in campaign.requiredFields ==> f in data
  }

  predicate EmailWellFormed(data: Submission) {
    "email" in data && '@' in data["email"]
  }

  predicate Disposable(data: Submission, disposable: set<string>)
    requires EmailWellFormed(data)
  {
    Lower(DomainOf(data["email"])) in disposable
  }

  /** Gets past both validators. */
  predicate Admitted(data: Submission, campaign: Campaign, disposable: set<string>) {
    StructureOk(data, campaign) && EmailWellFormed(data) && !Disposable(data, disposable)
  }

  function DuplicateResponse(storedEmail: string): Response {
    Response(FAIL, map["lead" := REJECTED, "reason" := DUPLICATE_REASON, "email" := storedEmail])
  }

  function AcceptResponse(email: string): Response {
    Response(SUCCESS, map["lead" := ACCEPTED, "email" := email])
  }

  /** Python's `handle_data` from the duplicate lookup on, given the
      canonicalised submission. When the canonical email is already a key,
      the store is unchanged and the response is a duplicate rejection
      echoing the stored item's email; otherwise the store gains exactly
      that key with the pipeline's time stamp and the response accepts the
      canonical email. Either way one archive record (canonical data, the
      response, the campaign, the time stamp, the request metadata) is put
      under a key built from the second time stamp, and only a failed put
      keeps it out of the bucket. */
  function RecordLead(canon: Submission, campaign: Campaign, store: Store, archive: seq<ArchiveRecord>,
                      meta: RequestMeta, env: Env): (o: Outcome)
    requires "email" in canon
    ensures Canon(canon["email"]) in store ==>
      && o.store == store
      && o.response == Response(FAIL, map[
           "lead" := REJECTED,
           "reason" := DUPLICATE_REASON,
           "email" := store[Canon(canon["email"])].email])
    ensures Canon(canon["email"]) !in store ==>
      && o.store == store[Canon(canon["email"]) := ContactItem(Canon(canon["email"]), env.timeStamp)]
      && o.response == Response(SUCCESS, map["lead" := ACCEPTED, "email" := canon["email"]])
    ensures o.archive == archive + (if env.archivePutSucceeds then [ArchiveRecord(
      ArchiveKey(campaign.shortName, env.archiveStamp, canon["email"]),
      ArchiveBody(canon, o.response,
                  CampaignRef(campaign.shortName, campaign.decimal),
                  ArchiveMeta(env.timeStamp, meta.context, meta.headers)))] else [])
  {
    var found := LookupEmail(store, canon);
    var lead := if found.Some? then DuplicateResponse(found.value) else AcceptResponse(canon["email"]);
    var after := if found.Some? then store else AddToDynamodb(store, DedupKey(canon), env.timeStamp);
    var body := ArchiveBody(canon, lead, CampaignRef(campaign.shortName, campaign.decimal),
                            ArchiveMeta(env.timeStamp, meta.context, meta.headers));
    Outcome(lead, after, PostToS3(archive, body, env.archiveStamp, env.archivePutSucceeds))
  }

  /** One invocation of the pipeline. A structural failure returns the
      validator's response, and a disposable domain returns the disposable
      rejection, in both cases with nothing stored or archived; with the
      structure right, a missing `email` field or an email without `@` is
      a fault; a submission that gets past both validators is
      canonicalised and recorded. */
  function HandleData(data: Submission, campaign: Campaign, store: Store, archive: seq<ArchiveRecord>,
                      disposable: set<string>, meta: RequestMeta, env: Env): (r: Result<Outcome>)
    ensures r.Err? <==> StructureOk(data, campaign) && !EmailWellFormed(data)
    ensures r.Err? ==> r.fault == (if "email" in data then NoAtSign else MissingEmailField)
    ensures !StructureOk(data, campaign) ==>
      r == Ok(Outcome(HasRequiredFields(data, campaign).response, store, archive))
    ensures StructureOk(data, campaign) && EmailWellFormed(data) && Disposable(data, disposable) ==>
      r == Ok(Outcome(Response(FAIL, map[
             "lead" := REJECTED,
             "reason" := DISPOSABLE_PREFIX + DomainOf(data["email"]),
             "email" := data["email"]]), store, archive))
    ensures Admitted(data, campaign, disposable) ==>
      r == Ok(RecordLead(Canonicalize(data), campaign, store, archive, meta, env))
  {
    var structure := ValidateStructure(data, campaign);
    if structure.Stop? then Ok(Outcome(structure.response, store, archive))
    else
      match ValidateData(data, disposable)
      case Err(fault) => Err(fault)
      case Ok(Stop(response)) => Ok(Outcome(response, store, archive))
      case Ok(Pass) => Ok(RecordLead(Canonicalize(data), campaign, store, archive, meta, env))
  }

  /** Duplicate case, in terms of the submission as received: when its
      canonical email is already a key, the store is unchanged and the
      response is the duplicate rejection. */
  lemma DuplicateCase(data: Submission, campaign: Campaign, store: Store, archive: seq<ArchiveRecord>,
                      disposable: set<string>, meta: RequestMeta, env: Env)
    requires Admitted(data, campaign, disposable) && Canon(data["email"]) in store
    ensures var r := HandleData(data, campaign, store, archive, disposable, meta, env);
            && r.Ok?
            && r.value.store == store
            && r.value.response == Response(FAIL, map[
                 "lead" := REJECTED,
                 "reason" := DUPLICATE_REASON,
                 "email" := store[Canon(data["email"])].email])
  {
    DedupKeyIsCanonicalEmail(data);
  }

  /** Accept case, in terms of the submission as received: when its
      canonical email is not a key, the store gains exactly that key mapped
      to the pipeline's time stamp, and the response accepts the canonical
      email. */
  lemma AcceptCase(data: Submission, campaign: Campaign, store: Store, archive: seq<ArchiveRecord>,
                   disposable: set<string>, meta: RequestMeta, env: Env)
    requires Admitted(data, campaign, disposable) && Canon(data["email"]) !in store
    ensures var r := HandleData(data, campaign, store, archive, disposable, meta, env);
            && r.Ok?
            && r.value.store == store[Canon(data["email"]) := ContactItem(Canon(data["email"]), env.timeStamp)]
            && r.value.response == Response(SUCCESS, map["lead" := ACCEPTED, "email" := Canon(data["email"])])
  {
    DedupKeyIsCanonicalEmail(data);
  }

  /** Every admitted submission, accepted or rejected as a duplicate, puts
      exactly one archive record holding the canonical data and the
      returned response, under `leads/<ShortName>/<stamp>_<canonical
      email>.json`. */
  lemma ArchivedOnce(data: Submission, campaign: Campaign, store: Store, archive: seq<ArchiveRecord>,
                     disposable: set<string>, meta: RequestMeta, env: Env)
    requires Admitted(data, campaign, disposable) && env.archivePutSucceeds
    ensures var r := HandleData(data, campaign, store, archive, disposable, meta, env);
            && r.Ok?
            && |r.value.archive| == |archive| + 1
            && r.value.archive[..|archive|] == archive
            && r.value.archive[|archive|].body.data == Canonicalize(data)
            && r.value.archive[|archive|].body.lead == r.value.response
            && r.value.archive[|archive|].body.campaign == CampaignRef(campaign.shortName, campaign.decimal)
            && r.value.archive[|archive|].body.meta.timeStamp == env.timeStamp
            && r.value.archive[|archive|].key == ArchiveKey(campaign.shortName, env.archiveStamp, Canon(data["email"]))
  {
    var r := HandleData(data, campaign, store, archive, disposable, meta, env);
    assert r.value.archive[..|archive|] == archive;
  }

  /** Only an accepted submission gets a `success` response, and the email
      it names is the new key of the store. */
  lemma SuccessMeansAccepted(data: Submission, campaign: Campaign, store: Store, archive: seq<ArchiveRecord>,
                             disposable: set<string>, meta: RequestMeta, env: Env)
    ensures var r := HandleData(data, campaign, store, archive, disposable, meta, env);
            r.Ok? && r.value.response.status == SUCCESS ==>
              && Admitted(data, campaign, disposable)
              && Canon(data["email"]) !in store
              && "email" in r.value.response.data
              && r.value.response.data["email"] == Canon(data["email"])
              && r.value.response.data["email"] in r.value.store
  {
    var r := HandleData(data, campaign, store, archive, disposable, meta, env);
    if Admitted(data, campaign, disposable) {
      DedupKeyIsCanonicalEmail(data);
    }
  }

  /** A failed archive put is invisible to the caller: the response and the
      contact store are the same whether or not the put went through. */
  lemma ArchiveFailureInvisible(data: Submission, campaign: Campaign, store: Store, archive: seq<ArchiveRecord>,
                                disposable: set<string>, meta: RequestMeta, env: Env)
    ensures var up := HandleData(data, campaign, store, archive, disposable, meta, env.(archivePutSucceeds := true));
            var down := HandleData(data, campaign, store, archive, disposable, meta, env.(archivePutSucceeds := false));
            && up.Ok? == down.Ok?
            && (up.Ok? ==> up.value.response == down.value.response && up.value.store == down.value.store)
            && (down.Ok? ==> down.value.archive == archive)
  {
    if Admitted(data, campaign, disposable) {
      RecordIgnoresPut(Canonicalize(data), campaign, store, archive, meta, env);
    }
  }

  lemma RecordIgnoresPut(canon: Submission, campaign: Campaign, store: Store, archive: seq<ArchiveRecord>,
                         meta: RequestMeta, env: Env)
    requires "email" in canon
    ensures var up := RecordLead(canon, campaign, store, archive, meta, env.(archivePutSucceeds := true));
            var down := RecordLead(canon, campaign, store, archive, meta, env.(archivePutSucceeds := false));
            up.response == down.response && up.store == down.store && down.archive == archive
  {
  }

  /** Contact records are never updated or removed, and at most one key is
      added, namely the canonical email; the bucket only grows, by at most
      one record. */
  lemma StoresOnlyGrow(data: Submission, campaign: Campaign, store: Store, archive: seq<ArchiveRecord>,
                       disposable: set<string>, meta: RequestMeta, env: Env)
    ensures var r := HandleData(data, campaign, store, archive, disposable, meta, env);
            r.Ok? ==>
              && (forall k :: k in store ==> k in r.value.store && r.value.store[k] == store[k])
              && (forall k :: k in r.value.store && k !in store ==> "email" in data && k == Canon(data["email"]))
              && |archive| <= |r.value.archive| <= |archive| + 1
              && r.value.archive[..|archive|] == archive
  {
    var r := HandleData(data, campaign, store, archive, disposable, meta, env);
    if Admitted(data, campaign, disposable) {
      if Canon(data["email"]) in store {
        DuplicateCase(data, campaign, store, archive, disposable, meta, env);
      } else {
        AcceptCase(data, campaign, store, archive, disposable, meta, env);
      }
    }
    assert r.Ok? ==> r.value.archive[..|archive|] == archive;
  }

  /** Both table invariants survive an invocation: items carry their own
      key, and every key is a canonical email. */
  lemma InvariantsPreserved(data: Submission, campaign: Campaign, store: Store, archive: seq<ArchiveRecord>,
                            disposable: set<string>, meta: RequestMeta, env: Env)
    requires KeyedByEmail(store) && CanonicalKeys(store)
    ensures var r := HandleData(data, campaign, store, archive, disposable, meta, env);
            r.Ok? ==> KeyedByEmail(r.value.store) && CanonicalKeys(r.value.store)
  {
    if Admitted(data, campaign, disposable) && Canon(data["email"]) !in store {
      AcceptCase(data, campaign, store, archive, disposable, meta, env);
      CanonIdempotent(data["email"]);
      AddKeepsInvariants(store, Canon(data["email"]), env.timeStamp);
    }
  }

  /** On a table whose items carry their own key, the email a duplicate
      rejection echoes is the submission's canonical email. */
  lemma DuplicateEchoesCanonicalEmail(data: Submission, campaign: Campaign, store: Store, archive: seq<ArchiveRecord>,
                                      disposable: set<string>, meta: RequestMeta, env: Env)
    requires KeyedByEmail(store)
    requires Admitted(data, campaign, disposable) && Canon(data["email"]) in store
    ensures var r := HandleData(data, campaign, store, archive, disposable, meta, env);
            r.Ok? && "email" in r.value.response.data && r.value.response.data["email"] == Canon(data["email"])
  {
    DuplicateCase(data, campaign, store, archive, disposable, meta, env);
    ItemCarriesKey(store, Canon(data["email"]));
  }

  /** Once a submission is accepted, any later admitted submission whose
      email has the same canonical form (for example the same address with
      different case or surrounding whitespace) is a duplicate and leaves
      the store alone. */
  lemma ResubmitIsDuplicate(data: Submission, again: Submission, campaign: Campaign, store: Store,
                            archive: seq<ArchiveRecord>, disposable: set<string>,
                            meta: RequestMeta, env: Env, env2: Env)
    requires Admitted(data, campaign, disposable) && Canon(data["email"]) !in store
    requires Admitted(again, campaign, disposable) && Canon(again["email"]) == Canon(data["email"])
    ensures var first := HandleData(data, campaign, store, archive, disposable, meta, env).value;
            var second := HandleData(again, campaign, first.store, first.archive, disposable, meta, env2);
            && second.Ok?
            && second.value.store == first.store
            && second.value.response == Response(FAIL, map[
                 "lead" := REJECTED, "reason" := DUPLICATE_REASON, "email" := Canon(data["email"])])
  {
    AcceptCase(data, campaign, store, archive, disposable, meta, env);
    var first := HandleData(data, campaign, store, archive, disposable, meta, env).value;
    DuplicateCase(again, campaign, first.store, first.archive, disposable, meta, env2);
  }

  lemma ItemCarriesKey(store: Store, key: string)
    requires KeyedByEmail(store) && key in store
    ensures store[key].email == key
  {
  }

  /** One call in a sequence of invocations. */
  datatype Invocation = Invocation(data: Submission, campaign: Campaign, meta: RequestMeta, env: Env)

  /** The results of running the invocations one after another against the
      same contact table and bucket; a faulting invocation changes neither. */
  function Replay(calls: seq<Invocation>, store: Store, archive: seq<ArchiveRecord>,
                  disposable: set<string>): (results: seq<Result<Outcome>>)
    ensures |results| == |calls|
  {
    if |calls| == 0 then []
    else
      var c := calls[0];
      var r := HandleData(c.data, c.campaign, store, archive, disposable, c.meta, c.env);
      [r] + Replay(calls[1..], StoreAfter(r, store), ArchiveAfter(r, archive), disposable)
  }

  predicate Accepted(r: Result<Outcome>) {
    r.Ok? && r.value.response.status == SUCCESS && "email" in r.value.response.data
  }

  function AcceptedEmail(r: Result<Outcome>): string
    requires Accepted(r)
  {
    r.value.response.data["email"]
  }

  /** No accepted result names an email the table held at the start. */
  ghost predicate AcceptsFresh(rs: seq<Result<Outcome>>, store: Store) {
    forall i :: 0 <= i < |rs| && Accepted(rs[i]) ==> AcceptedEmail(rs[i]) !in store
  }

  /** No two accepted results name the same email. */
  ghost predicate AcceptsDistinct(rs: seq<Result<Outcome>>) {
    forall i, j :: 0 <= i < j < |rs| && Accepted(rs[i]) && Accepted(rs[j]) ==>
      AcceptedEmail(rs[i]) != AcceptedEmail(rs[j])
  }

  /** What one step of a run contributes: the table keeps its keys, and an
      accepted email was new before the step and is a key after it. */
  lemma AcceptedStep(c: Invocation, store: Store, archive: seq<ArchiveRecord>, disposable: set<string>)
    ensures var r := HandleData(c.data, c.campaign, store, archive, disposable, c.meta, c.env);
            && (r.Ok? ==> store.Keys <= r.value.store.Keys)
            && (Accepted(r) ==> AcceptedEmail(r) !in store && AcceptedEmail(r) in r.value.store)
  {
    StoresOnlyGrow(c.data, c.campaign, store, archive, disposable, c.meta, c.env);
    SuccessMeansAccepted(c.data, c.campaign, store, archive, disposable, c.meta, c.env);
  }

  /** The table after the first call of a run. */
  function StoreAfter(r: Result<Outcome>, store: Store): Store {
    if r.Ok? then r.value.store else store
  }

  function ArchiveAfter(r: Result<Outcome>, archive: seq<ArchiveRecord>): seq<ArchiveRecord> {
    if r.Ok? then r.value.archive else archive
  }

  /** A run never accepts an email the table held when it started. */
  lemma {:induction false} AcceptsAreFresh(calls: seq<Invocation>, store: Store, archive: seq<ArchiveRecord>,
                                           disposable: set<string>)
    ensures AcceptsFresh(Replay(calls, store, archive, disposable), store)
    decreases |calls|
  {
    if |calls| > 0 {
      var c := calls[0];
      var r := HandleData(c.data, c.campaign, store, archive, disposable, c.meta, c.env);
      AcceptedStep(c, store, archive, disposable);
      var store', archive' := StoreAfter(r, store), ArchiveAfter(r, archive);
      var rest := Replay(calls[1..], store', archive', disposable);
      AcceptsAreFresh(calls[1..], store', archive', disposable);
      assert Replay(calls, store, archive, disposable) == [r] + rest;
      FreshCons(r, rest, store, store');
    }
  }

  /** Prepending a result that accepts nothing already in `store` to a
      run that accepts nothing in a larger table keeps the run fresh. */
  lemma FreshCons(r: Result<Outcome>, rest: seq<Result<Outcome>>, store: Store, store': Store)
    requires Accepted(r) ==> AcceptedEmail(r) !in store
    requires store.Keys <= store'.Keys && AcceptsFresh(rest, store')
    ensures AcceptsFresh([r] + rest, store)
  {
    var rs := [r] + rest;
    forall i | 0 <= i < |rs| && Accepted(rs[i]) ensures AcceptedEmail(rs[i]) !in store {
      if i > 0 {
        assert rs[i] == rest[i - 1];
      }
    }
  }

  /** Prepending a result whose accepted email is in `store'` to a run
      that is distinct and accepts nothing in `store'` keeps it distinct. */
  lemma DistinctCons(r: Result<Outcome>, rest: seq<Result<Outcome>>, store': Store)
    requires Accepted(r) ==> AcceptedEmail(r) in store'
    requires AcceptsFresh(rest, store') && AcceptsDistinct(rest)
    ensures AcceptsDistinct([r] + rest)
  {
    var rs := [r] + rest;
    forall i, j | 0 <= i < j < |rs| && Accepted(rs[i]) && Accepted(rs[j])
      ensures AcceptedEmail(rs[i]) != AcceptedEmail(rs[j])
    {
      assert rs[j] == rest[j - 1];
      if i > 0 {
        assert rs[i] == rest[i - 1];
      }
    }
  }

  /** Run one after another against a table that returns every write to
      the next read, invocations accept each canonical email at most once.
      The real table's default `get_item` is eventually consistent, so a
      read may miss a recent write even in a sequential run; this lemma
      holds under the read-your-writes map the model uses. */
  lemma {:induction false} AcceptedAtMostOnce(calls: seq<Invocation>, store: Store, archive: seq<ArchiveRecord>,
                                              disposable: set<string>)
    ensures AcceptsDistinct(Replay(calls, store, archive, disposable))
    decreases |calls|
  {
    if |calls| > 0 {
      var c := calls[0];
      var r := HandleData(c.data, c.campaign, store, archive, disposable, c.meta, c.env);
      AcceptedStep(c, store, archive, disposable);
      var store', archive' := StoreAfter(r, store), ArchiveAfter(r, archive);
      var rest := Replay(calls[1..], store', archive', disposable);
      AcceptedAtMostOnce(calls[1..], store', archive', disposable);
      AcceptsAreFresh(calls[1..], store', archive', disposable);
      assert Replay(calls, store, archive, disposable) == [r] + rest;
      DistinctCons(r, rest, store');
    }
  }
}
