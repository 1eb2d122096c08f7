/** The wire-to-domain transform: the repository's snake_case record becomes
    the camelCase contact.  Its inverse is the snake_case renaming of the
    fields that the create and update calls put in their request bodies. */
module ContactMapping {
  import opened ContactTypes

  function MapContact(data: ContactApiResponse): Contact {
    Contact(data.id, data.first_name, data.last_name, data.job, data.description)
  }

  /** The snake_case field renaming of a contact.  The update call sends the
      four text fields renamed this way inside an `info` object, the create
      call inside a `contact` object; the id travels in the update's request
      path, not in the body.  The wire record carries all five. */
  function EncodeContact(c: Contact): ContactApiResponse {
    ContactApiResponse(c.id, c.firstName, c.lastName, c.job, c.description)
  }

  /** Every field is carried over under its renamed key, values untouched,
      empty strings included. */
  lemma MapContactFields(data: ContactApiResponse)
    ensures MapContact(data).id == data.id
    ensures MapContact(data).firstName == data.first_name
    ensures MapContact(data).lastName == data.last_name
    ensures MapContact(data).job == data.job
    ensures MapContact(data).description == data.description
  {
  }

  lemma MapContactInvertsEncoding(c: Contact)
    ensures MapContact(EncodeContact(c)) == c
  {
  }

  lemma EncodingInvertsMapContact(data: ContactApiResponse)
    ensures EncodeContact(MapContact(data)) == data
  {
  }

  lemma MapContactInjective(d1: ContactApiResponse, d2: ContactApiResponse)
    requires d1 != d2
    ensures MapContact(d1) != MapContact(d2)
  {
    EncodingInvertsMapContact(d1);
    EncodingInvertsMapContact(d2);
  }
}
