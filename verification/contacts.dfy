/**
  The DynamoDB `Emails` table, as a map from its key (the `Email`
  attribute) to the stored item. The pipeline reads it with one point get
  and writes it with one put.
 */
module Contacts {
  import opened Leads
  import opened Canonical

  /** One item of the table: its `Email` key attribute and the `TimeStamp`
      of first acceptance. */
  datatype ContactItem = ContactItem(email: string, timeStamp: string)

  type Store = map<string, ContactItem>

  /** DynamoDB's own guarantee: an item's key attribute is the key it is
      stored under. */
  ghost predicate KeyedByEmail(store: Store) {
    forall k :: k in store ==> store[k].email == k
  }

  /** The pipeline's guarantee: every key it writes is a canonical email. */
  ghost predicate CanonicalKeys(store: Store) {
    forall k :: k in store ==> Canon(k) == k
  }

  /** Python's `get_contact_from_dynamodb`: the `Email` attribute of the item
      stored under `email`, or nothing when there is none. */
  function GetContact(store: Store, email: string): (found: Option<string>)
    ensures found.Some? <==> email in store
    ensures found.Some? ==> found.value == store[email].email
  {
    if email in store then Some(store[email].email) else None
  }

  /** Python's `lookup_email`: reads the store under the submission's email,
      lower-cased and stripped once more. On a table whose items carry
      their own key, a hit returns that canonical email. */
  function LookupEmail(store: Store, data: Submission): (found: Option<string>)
    requires "email" in data
    ensures found.Some? <==> Canon(data["email"]) in store
    ensures KeyedByEmail(store) && found.Some? ==> found.value == Canon(data["email"])
  {
    GetContact(store, DedupKey(data))
  }

  /** Python's `add_to_dynamodb`: the table gains the item for `email`, and
      no other key changes. */
  function AddToDynamodb(store: Store, email: string, timeStamp: string): (after: Store)
    ensures after.Keys == store.Keys + {email}
    ensures after[email] == ContactItem(email, timeStamp)
    ensures forall k :: k in store && k != email ==> after[k] == store[k]
  {
    store[email := ContactItem(email, timeStamp)]
  }

  /** Adding a canonical email keeps both table invariants. */
  lemma AddKeepsInvariants(store: Store, email: string, timeStamp: string)
    requires KeyedByEmail(store) && CanonicalKeys(store) && Canon(email) == email
    ensures KeyedByEmail(AddToDynamodb(store, email, timeStamp))
    ensures CanonicalKeys(AddToDynamodb(store, email, timeStamp))
  {
    var after := AddToDynamodb(store, email, timeStamp);
    forall k | k in after ensures after[k].email == k && Canon(k) == k {
      if k != email {
        assert after[k] == store[k];
      }
    }
  }
}
