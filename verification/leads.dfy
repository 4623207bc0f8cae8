/**
  The values that flow through the campaign-entries intake pipeline: the
  submitted contact, the campaign it belongs to, the JSON response handed
  back to the landing page, and the faults Python raises instead of
  answering.
 */
module Leads {

  /** The `data` object of a request: field name to submitted value. */
  type Submission = map<string, string>

  /** The `status` values of a response. */
  const FAIL := "fail"
  const SUCCESS := "success"

  /** A response body `{"status": ..., "data": {...}}`; every `data` value the
      pipeline produces is a string. */
  datatype Response = Response(status: string, data: map<string, string>)

  /** What a validator returns: `{'success': True}` lets the pipeline go
      on, `{'success': False, 'response': ...}` stops it with that response. */
  datatype Verdict = Pass | Stop(response: Response)

  /** The exceptions that escape the pipeline instead of a response:
      a `KeyError` when the submission has no `email` field, an `IndexError`
      when the email holds no `@`, and the plain `Exception` raised for a
      campaign token the campaigns table does not know. */
  datatype Fault = MissingEmailField | NoAtSign | UnknownCampaign(token: string)

  datatype Result<T> = Ok(value: T) | Err(fault: Fault)

  datatype Option<T> = None | Some(value: T)

  /** The campaigns-table item for one token, reduced to the attributes the
      pipeline reads: `CampaignShortName` (S), `CampaignDecimal` (N, a
      decimal string on the wire) and `RequiredFields` (SS, listed here in
      the order the table returns them). */
  datatype Campaign = Campaign(shortName: string, decimal: string, requiredFields: seq<string>)

  /** The request's `context` and `headers`, copied into the archive record
      and otherwise opaque. */
  datatype RequestMeta = RequestMeta(context: map<string, string>, headers: map<string, string>)
}
