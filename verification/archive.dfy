/**
  The S3 audit trail: every submission that gets past validation is
  written as one JSON object under `leads/<CampaignShortName>/`. The bucket
  is modelled as the append-only sequence of objects put into it.
 */
module Archive {
  import opened Text
  import opened Leads

  datatype CampaignRef = CampaignRef(shortName: string, decimal: string)

  /** The `meta` member: the pipeline's time stamp and the request's
      context and headers. */
  datatype ArchiveMeta = ArchiveMeta(timeStamp: string, context: map<string, string>, headers: map<string, string>)

  /** The JSON body written to S3: `data`, `lead`, `campaign`, `meta`. */
  datatype ArchiveBody = ArchiveBody(data: Submission, lead: Response, campaign: CampaignRef, meta: ArchiveMeta)

  datatype ArchiveRecord = ArchiveRecord(key: string, body: ArchiveBody)

  /** What `add_contact_to_S3` returns (whether the put succeeded) together
      with the bucket afterwards. */
  datatype PutResult = PutResult(ok: bool, log: seq<ArchiveRecord>)

  const LEADS := "leads/"
  const JSON_SUFFIX := ".json"

  function CampaignPrefix(shortName: string): string {
    LEADS + shortName + "/"
  }

  /** The object key `leads/<shortName>/<stamp>_<email>.json`. */
  function ArchiveKey(shortName: string, stamp: string, email: string): (key: string)
    ensures |key| == |CampaignPrefix(shortName)| + |stamp| + 1 + |email| + |JSON_SUFFIX|
    ensures key[..|CampaignPrefix(shortName)|] == CampaignPrefix(shortName)
    ensures key[|CampaignPrefix(shortName)|..|CampaignPrefix(shortName)| + |stamp|] == stamp
    ensures key[|key| - (1 + |email| + |JSON_SUFFIX|)..] == "_" + email + JSON_SUFFIX
  {
    var key := CampaignPrefix(shortName) + stamp + "_" + email + JSON_SUFFIX;
    assert key == CampaignPrefix(shortName) + stamp + ("_" + email + JSON_SUFFIX);
    key
  }

  /** Within one campaign, and for time stamps without `_` (the
      `%Y-%m-%dT%H:%M:%S.%fZ` format has none), two archive keys collide
      exactly when both the time stamp and the email coincide. */
  lemma ArchiveKeyInjective(shortName: string, stamp1: string, email1: string, stamp2: string, email2: string)
    requires '_' !in stamp1 && '_' !in stamp2
    requires ArchiveKey(shortName, stamp1, email1) == ArchiveKey(shortName, stamp2, email2)
    ensures stamp1 == stamp2 && email1 == email2
  {
    var p := CampaignPrefix(shortName);
    var k1 := ArchiveKey(shortName, stamp1, email1);
    var k2 := ArchiveKey(shortName, stamp2, email2);
    var m1 := stamp1 + "_" + email1;
    var m2 := stamp2 + "_" + email2;
    assert k1 == p + m1 + JSON_SUFFIX;
    assert k2 == p + m2 + JSON_SUFFIX;
    assert m1 == k1[|p|..|k1| - |JSON_SUFFIX|];
    assert m2 == k2[|p|..|k2| - |JSON_SUFFIX|];
    assert m1 == m2;
    assert m1[..|stamp1|] == stamp1 && m1[|stamp1|] == '_';
    assert m2[..|stamp2|] == stamp2 && m2[|stamp2|] == '_';
    IndexOfFirst(m1, '_', |stamp1|);
    IndexOfFirst(m2, '_', |stamp2|);
    assert |stamp1| == |stamp2|;
    assert email1 == m1[|stamp1| + 1..];
    assert email2 == m2[|stamp2| + 1..];
  }

  /** Python's `add_contact_to_S3`: one put of the record under its key. The
      put may fail; that is reported to the caller as `False` and the bucket
      is left as it was. */
  function AddContactToS3(log: seq<ArchiveRecord>, body: ArchiveBody, stamp: string, putSucceeds: bool): (r: PutResult)
    requires "email" in body.data
    ensures r.ok == putSucceeds
    ensures |r.log| == |log| + (if putSucceeds then 1 else 0) && r.log[..|log|] == log
    ensures putSucceeds ==> r.log[|log|].body == body
    ensures putSucceeds ==> r.log[|log|].key == ArchiveKey(body.campaign.shortName, stamp, body.data["email"])
  {
    if putSucceeds then PutResult(true, log + [ArchiveRecord(ArchiveKey(body.campaign.shortName, stamp, body.data["email"]), body)])
    else PutResult(false, log)
  }

  /** Python's `post_to_S3`: the put's outcome is dropped, so nothing about
      it reaches the caller beyond the bucket itself. */
  function PostToS3(log: seq<ArchiveRecord>, body: ArchiveBody, stamp: string, putSucceeds: bool): (after: seq<ArchiveRecord>)
    requires "email" in body.data
    ensures putSucceeds ==> after == log + [ArchiveRecord(ArchiveKey(body.campaign.shortName, stamp, body.data["email"]), body)]
    ensures !putSucceeds ==> after == log
  {
    AddContactToS3(log, body, stamp, putSucceeds).log
  }
}
