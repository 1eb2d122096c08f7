/** The records the contact list works with: the domain contact, its wire
    form, the form fields a user edits, and the outcome of a remote call. */
module ContactTypes {

  datatype Option<T> = None | Some(value: T)

  /** How an awaited call settled: resolved with a value, or rejected. */
  datatype Outcome<R> = Resolved(value: R) | Rejected

  datatype Contact = Contact(id: int, firstName: string, lastName: string, job: string, description: string)

  /** The repository's snake_case wire record. */
  datatype ContactApiResponse = ContactApiResponse(id: int, first_name: string, last_name: string, job: string, description: string)

  /** A contact without its id: what the create form collects. */
  datatype ContactInfo = ContactInfo(firstName: string, lastName: string, job: string, description: string)

  /** The four named inputs of the create and update forms. */
  datatype Field = FirstName | LastName | Job | Description

  function FieldOf(info: ContactInfo, f: Field): string {
    match f
    case FirstName => info.firstName
    case LastName => info.lastName
    case Job => info.job
    case Description => info.description
  }

  /** A copy of the form with one named field replaced: that field takes the
      value, the other three keep theirs. */
  function WithField(info: ContactInfo, f: Field, value: string): (r: ContactInfo)
    ensures FieldOf(r, f) == value
    ensures forall g :: g != f ==> FieldOf(r, g) == FieldOf(info, g)
  {
    match f
    case FirstName => info.(firstName := value)
    case LastName => info.(lastName := value)
    case Job => info.(job := value)
    case Description => info.(description := value)
  }

  function InfoOf(c: Contact): ContactInfo {
    ContactInfo(c.firstName, c.lastName, c.job, c.description)
  }

  function WithId(id: int, info: ContactInfo): Contact {
    Contact(id, info.firstName, info.lastName, info.job, info.description)
  }

  /** The submit gate of both forms: every one of the four fields is a
      non-empty string. */
  predicate AllFieldsFilled(info: ContactInfo) {
    forall f :: FieldOf(info, f) != ""
  }

  lemma AllFieldsFilledExactly(info: ContactInfo)
    ensures AllFieldsFilled(info) <==>
      info.firstName != "" && info.lastName != "" && info.job != "" && info.description != ""
  {
    if !AllFieldsFilled(info) {
      var f :| FieldOf(info, f) == "";
    }
    assert FieldOf(info, FirstName) == info.firstName;
    assert FieldOf(info, LastName) == info.lastName;
    assert FieldOf(info, Job) == info.job;
    assert FieldOf(info, Description) == info.description;
  }
}
