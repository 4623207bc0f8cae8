# Campaign entries: the lead-intake pipeline in Dafny

This project models the core of the Chalice application `campaign_entries`
(`app.py`). A landing page POSTs one contact as `{"data": {...}}` with the
campaign's API token in `x-api-key`. The route looks up the campaign and
hands the contact to `handle_data`, which runs these steps:

- it checks the campaign's required fields;
- it rejects emails whose domain is on the disposable-address list;
- it lower-cases and strips the email;
- it looks the canonical email up in the DynamoDB `Emails` table, and adds it
  when the email is new;
- it archives the submission, whether it is accepted or rejected as a
  duplicate, as one JSON object under `leads/<CampaignShortName>/` in S3;
- it returns a `{"status", "data"}` response.

The model is a set of pure functions over immutable values:

- The `Emails` table is a map from its key to the stored item.
- The bucket is the append-only sequence of records put into it.
- The disposable-domain list, the two time stamps and the success of the S3
  put are parameters.
- Python exceptions that escape the pipeline become `Err` faults:
  - `KeyError` on a missing `email` field;
  - `IndexError` on an email without `@`;
  - the exception for an unknown campaign token.

Modules:

- `Text`: Python's `str.lower()`, `str.strip()` and `str.split(sep)` on ASCII.
- `Leads`: submissions, responses, verdicts, faults and campaigns.
- `Validation`: the two validators.
- `Canonical`: the canonical email.
- `Contacts`: the DynamoDB table.
- `Archive`: the S3 record and key.
- `Pipeline`: `handle_data`, and runs of several invocations.
- `Entry`: the decisions of `post_contacts`.
- `Scenarios`: worked examples, and places where the code behaves in a way a
  reader might not expect.

Where a reader might expect otherwise, the model follows the code:

- The disposable check reads the email as submitted, before canonicalisation.
  A disposable domain followed by whitespace therefore passes the check
  (`Scenarios.TrailingSpaceEvadesDisposableCheck`).
- An email with several `@` is judged by the text between the first two
  (`Scenarios.SecondAtSegmentIsTheDomain`).
- An email with no `@` is an `IndexError`, not a validation response.
- A request without a `data` root is answered with a
  `{"success": false, "response": ...}` envelope, not a bare response. Its
  message quotes `"data"` with double quotes.
- The S3 key uses a second time stamp taken when the key is built, not the
  pipeline's time stamp.

## Model

| member | source | states |
|---|---|---|
| `Validation.GetRequiredFields` | app.py:79-80 | A field name is in the result exactly when the campaign lists it as required. |
| `Validation.HasRequiredFields` | app.py:82-97 | The check passes exactly when every required field is a key of the submission. Otherwise it returns a `fail` response whose keys are `reason` plus exactly the missing fields, and whose value is "This field is required" exactly on the missing fields. `reason` keeps "Missing field(s)" unless a required field called `reason` is itself missing. |
| `Validation.ValidateStructure` | app.py:168-173 | Hands on the verdict of the required-fields check unchanged. |
| `Validation.SecondSegment` | app.py:176 | If the email holds an `@`, `email.split('@')[1]` exists and is the text after the first `@`, up to the next `@` or the end. The converse, that without an `@` there is no second part, is the second ensures of `Text.JoinSplit`. |
| `Validation.ValidateData` | app.py:175-188 | A missing `email` field or an email without `@` is a fault, and these are the only faults. Otherwise the submission is rejected exactly when the lower-cased domain is on the disposable list. The rejection names the domain as submitted and echoes the email as submitted. |
| `Validation.DomainIgnoresCase` | app.py:176 | Lower-casing the whole email first does not change the lower-cased domain. |
| `Validation.DisposableCheckIgnoresCase` | app.py:175-188 | Changing only the case of the email never changes whether the disposable check faults, passes or rejects. |
| `Canonical.Canon` | app.py:191 | The canonical email has no upper-case letter and no surrounding whitespace. It is no longer than the original, and it keeps the original's `@`. |
| `Canonical.CanonIsStrippedLower` | app.py:191 | The canonical email is the lower-cased email with its leading and trailing whitespace cut off. The lower-cased email is whitespace, then the canonical email, then whitespace, so every other character is kept in place. |
| `Canonical.CanonIdempotent` | app.py:190-192 | Canonicalising twice is canonicalising once. |
| `Canonical.CanonIgnoresCaseAndPadding` | app.py:190-192 | Surrounding whitespace and letter case do not change the canonical email. |
| `Canonical.Canonicalize` | app.py:190-192 | The submission keeps its keys and every field except `email`, which becomes its canonical form. |
| `Canonical.CanonicalizeIdempotent` | app.py:190-192 | Canonicalising a submission twice is canonicalising it once. |
| `Canonical.DedupKeyIsCanonicalEmail` | app.py:194-197 | The key `lookup_email` reads the table with is the canonicalised submission's own email. It equals the canonical form of the email as submitted. |
| `Contacts.GetContact` | app.py:99-112 | Finds an item exactly when the key is in the table, and then returns the item's `Email` attribute. |
| `Contacts.LookupEmail` | app.py:194-197 | Finds an item exactly when the submission's canonical email is a key. On a table whose items carry their own key, a hit returns that canonical email. |
| `Contacts.AddToDynamodb` | app.py:114-121 | The table gains exactly the given key, mapped to an item with that email and time stamp. No other key changes. |
| `Contacts.AddKeepsInvariants` | app.py:114-121 | Adding a canonical email keeps both table invariants: every item carries its own key, and every key is canonical. |
| `Archive.ArchiveKey` | app.py:142-149 | The key starts with `leads/<shortName>/`, then holds the stamp, and ends with `_<email>.json`. Its length is the sum of these parts. |
| `Archive.ArchiveKeyInjective` | app.py:146-149 | Within one campaign, and for time stamps without `_`, two keys are equal only when their time stamps and emails are equal. |
| `Archive.AddContactToS3` | app.py:140-166 | Reports exactly whether the put went through. On success the bucket grows by one record: the given body, under the key built from the campaign, the stamp and the email. On failure the bucket is unchanged. |
| `Archive.PostToS3` | app.py:199-200 | Drops the put's outcome. The bucket either gains that one record or stays as it was. |
| `Pipeline.RecordLead` | app.py:216-253 | If the canonical email is a key, the table is unchanged and the response is a duplicate rejection echoing the stored item's email. Otherwise the table gains that key with the pipeline's time stamp, and the response accepts the canonical email. In both cases one record is put: the canonical data, the response, the campaign and the metadata. |
| `Pipeline.HandleData` | app.py:202-254 | A fault happens exactly when the structure is right and the email field is missing or holds no `@`. A structural failure returns the required-fields response, and a disposable domain returns the disposable rejection. In both cases neither store changes. An admitted submission is canonicalised and recorded. |
| `Pipeline.DuplicateCase` | app.py:217-228 | An admitted submission whose canonical email is a key leaves the table alone and gets the duplicate rejection with the stored email. |
| `Pipeline.AcceptCase` | app.py:229-238 | An admitted submission whose canonical email is new adds exactly that key with the pipeline's time stamp. The response accepts the canonical email. |
| `Pipeline.ArchivedOnce` | app.py:239-253 | When the put succeeds, every admitted submission, duplicate or not, appends exactly one record. The record holds the canonical data, the returned response, the campaign, the time stamp and the key built from the canonical email. |
| `Pipeline.SuccessMeansAccepted` | app.py:229-238 | A `success` response comes only from an admitted submission whose canonical email was not a key. It names that email, which is a key afterwards. |
| `Pipeline.ArchiveFailureInvisible` | app.py:199-200 | Whether the put succeeds changes neither the response nor the table. A failed put leaves the bucket as it was. |
| `Pipeline.StoresOnlyGrow` | app.py:202-254 | Existing items are never changed or removed. The only key that can be added is the canonical email. The bucket keeps its records and grows by at most one. |
| `Pipeline.InvariantsPreserved` | app.py:229-231 | Both table invariants survive an invocation. |
| `Pipeline.DuplicateEchoesCanonicalEmail` | app.py:217-227 | On a table whose items carry their own key, a duplicate rejection echoes the submission's canonical email. |
| `Pipeline.ResubmitIsDuplicate` | app.py:194-238 | After an email is accepted, any admitted submission with the same canonical email is a duplicate that leaves the table alone. |
| `Pipeline.AcceptedStep` | app.py:217-238 | One invocation keeps every key of the table. An email it accepts was not a key before and is one after. |
| `Pipeline.AcceptsAreFresh` | app.py:217-238 | A sequential run never accepts an email that the table held when the run started. |
| `Pipeline.AcceptedAtMostOnce` | app.py:217-238 | A sequential run accepts each canonical email at most once. |
| `Entry.PostContacts` | app.py:280-311 | Without a `data` root the reply is the `fail` envelope and no store changes. With one, an unknown token is a fault. Otherwise the reply is exactly the pipeline's response for the token's campaign, with the stores the pipeline leaves. |
| `Entry.NoRootIgnoresCampaigns` | app.py:284-295 | A request without a `data` root gets the same answer whatever the campaigns table holds. |
| `Text.TrimLeft` | app.py:191 | `lstrip` keeps a suffix and removes only whitespace. What is left does not start with whitespace. |
| `Text.TrimRight` | app.py:191 | `rstrip` keeps a prefix and removes only whitespace. What is left does not end with whitespace. |
| `Text.Strip` | app.py:191 | `strip` leaves a string that neither starts nor ends with whitespace, and is no longer than the original. What it keeps is stated by `Text.StripDecomposes` and `Text.StripCharacterised`. |
| `Text.LowerPointwise` | app.py:176 | `lower` (also used at line 191) keeps the length and works character by character: an upper-case ASCII letter becomes its lower-case counterpart, 32 code points above it, and every other character is kept. |
| `Text.StripDecomposes` | app.py:191 | Every string is leading whitespace, then its stripped form, then trailing whitespace. |
| `Text.StripCharacterised` | app.py:191 | Whitespace around a string with no surrounding whitespace strips to exactly that string. |
| `Text.StripPadded` | app.py:191 | Extra whitespace around a string does not change what it strips to. |
| `Text.StripIdempotent` | app.py:191 | Stripping twice is stripping once. |
| `Text.StripKeeps` | app.py:191 | Stripping never removes a non-whitespace character. |
| `Text.Split` | app.py:176 | `split` returns at least one part, and no part contains the separator. |
| `Text.JoinSplit` | app.py:176 | Joining the parts with the separator gives back the string. There are at least two parts exactly when the separator occurs. |
| `Text.SplitJoin` | app.py:176 | Splitting parts joined by a separator they do not contain gives the parts back. |
| `Text.SplitLower` | app.py:176 | Splitting on a non-letter and lower-casing commute. |
| `Scenarios.ScenarioDisposable` | app.py:175-187 | `john@mailinator.com` is rejected as disposable, naming `mailinator.com`. Neither store changes. |
| `Scenarios.ScenarioMissingField` | app.py:82-97 | A submission without the required `firstname` gets `{"reason": "Missing field(s)", "firstname": "This field is required"}`. |
| `Scenarios.ScenarioAccept` | app.py:190-238 | `John@Example.com ` is accepted as `john@example.com`. That email becomes a key, and one record is archived. |
| `Scenarios.ScenarioDuplicate` | app.py:217-228 | Resubmitting `john@example.com` once it is a key is a duplicate that echoes it. |
| `Scenarios.TrailingSpaceEvadesDisposableCheck` | app.py:175-192 | `john@mailinator.com` is rejected, but `john@mailinator.com ` passes the disposable check. It is then canonicalised to `john@mailinator.com`. |
| `Scenarios.SecondAtSegmentIsTheDomain` | app.py:176 | `john@mailinator.com@example.com` is judged by `mailinator.com` and rejected. |
| `Scenarios.ReasonFieldOverwritesReason` | app.py:89-90 | A missing required field called `reason` overwrites the overall "Missing field(s)" reason. |

## Left out

- boto3, the DynamoDB and S3 clients, and `ClientError` are not modelled. The
  table and the bucket are values, and an S3 put failure is a boolean
  parameter. A failing DynamoDB read or write is not modelled: such an
  exception would escape the pipeline.
- `datetime.utcnow()` and the `%Y-%m-%dT%H:%M:%S.%fZ` format are not modelled.
  The two time stamps are opaque string parameters.
- The bucket is modelled as the log of puts, not as the set of stored
  objects. S3's `put_object` (app.py:161) under a key that already exists
  replaces the earlier object rather than adding a second one. Such a clash
  needs the same campaign, archive stamp and canonical email
  (`Archive.ArchiveKeyInjective`), and the archive stamp is a free parameter.
  "Grows by one" and "keeps its records" in `Archive.AddContactToS3`,
  `Archive.PostToS3` and `Pipeline.StoresOnlyGrow` are statements about the
  log.
- The JSON serialisation of the S3 body and the put's constant parameters
  (bucket, ACL, content type, encoding) are not modelled.
- The contents of `DEA_DOMAIN_LIST` (from `chalicelib`) are not modelled. The
  list is a set parameter.
- The request's `context` and `headers` are opaque string maps. A missing
  `x-api-key` header, a body that is not JSON or not an object, and non-string
  field values are not modelled: the route and the model both assume a JSON
  object of strings.
- `Text.Lower` models `str.lower()` on ASCII letters only, and `Text.IsSpace`
  models `str.isspace()` on ASCII only. Non-ASCII case mappings and Unicode
  whitespace are left out.
- The campaigns table is a map from token to the three attributes the
  pipeline reads. Its DynamoDB wire types are not modelled.
- `lookup_email_in_simpledb` is not modelled: no code path calls it.
- The `index` route, the custom error classes, the unused `Response` class and
  all logging are not modelled.
- Concurrency is not modelled. Two invocations racing between the lookup and
  the put can both accept the same email.
- Pipeline.AcceptedAtMostOnce: assumes that every read sees all earlier
  writes, because the table is a map. `get_item` at app.py:100-103 does not
  ask for a consistent read, and DynamoDB's default read is eventually
  consistent. Even a strictly sequential run can therefore miss a
  just-written key and accept the same email twice. The lemma covers
  sequential runs against a read-your-writes table only.
- HTTP status codes chosen by Chalice are not modelled. Escaping faults are
  `Err` values.
- `canonicalize` and the `result['success']` test after it cannot fail in the
  code. The model has no branch for them.
