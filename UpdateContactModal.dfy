/** The update form: starts as the contact being edited, lets the user change
    one named field at a time, and hands the whole record, id included, to
    `onUpdate` only when every text field is filled. */
module UpdateContactModal {
  import opened ContactTypes

  const RequiredFieldsAlert: string := "All fields are required."

  class UpdateForm {
    const contact: Contact
    var loading: bool
    var formData: Contact

    constructor (contact: Contact)
      ensures this.contact == contact && formData == contact && !loading
    {
      this.contact := contact;
      formData := contact;
      loading := false;
    }

    /** An input's change event: the named field takes the new value; the
        id and the other fields keep theirs. */
    method HandleChange(name: Field, value: string)
      modifies this
      ensures formData.id == old(formData).id
      ensures FieldOf(InfoOf(formData), name) == value
      ensures forall f :: f != name ==> FieldOf(InfoOf(formData), f) == FieldOf(InfoOf(old(formData)), f)
      ensures loading == old(loading)
    {
      formData := WithId(formData.id, WithField(InfoOf(formData), name, value));
    }

    /** Confirm.  A complete form is passed to `onUpdate` exactly once with
        the original id; `loading` is cleared afterwards either way and a
        rejection is logged and swallowed.  An incomplete form alerts and
        calls nothing. */
    method HandleSubmit(onUpdate: Outcome<()>) returns (invoked: Option<Contact>, alert: Option<string>, logged: bool)
      modifies this
      ensures formData == old(formData)
      ensures AllFieldsFilled(InfoOf(formData)) ==>
        invoked == Some(formData) && alert == None && !loading && logged == onUpdate.Rejected?
      ensures !AllFieldsFilled(InfoOf(formData)) ==>
        invoked == None && alert == Some(RequiredFieldsAlert) && loading == old(loading) && !logged
    {
      AllFieldsFilledExactly(InfoOf(formData));
      logged := false;
      if formData.firstName != "" && formData.lastName != "" && formData.job != "" && formData.description != "" {
        loading := true;
        invoked := Some(formData);
        alert := None;
        if onUpdate.Rejected? {
          logged := true;
        }
        loading := false;
      } else {
        invoked := None;
        alert := Some(RequiredFieldsAlert);
      }
    }
  }

  /** Changing all four fields of John Doe's record and confirming calls
      `onUpdate` once with the new fields under the original id; clearing
      only the first name of a fresh form makes confirm alert instead. */
  method UpdateFormScenario() returns (edited: Option<Contact>, cleared: Option<string>)
    ensures edited == Some(Contact(1, "Jane", "Smith", "Designer", "Creates designs"))
    ensures cleared == Some(RequiredFieldsAlert)
  {
    var john := Contact(1, "John", "Doe", "Developer", "Writes code");
    var form := new UpdateForm(john);
    form.HandleChange(FirstName, "Jane");
    form.HandleChange(LastName, "Smith");
    form.HandleChange(Job, "Designer");
    form.HandleChange(Description, "Creates designs");
    assert form.formData == Contact(1, "Jane", "Smith", "Designer", "Creates designs") by {
      assert FieldOf(InfoOf(form.formData), FirstName) == "Jane";
      assert FieldOf(InfoOf(form.formData), LastName) == "Smith";
      assert FieldOf(InfoOf(form.formData), Job) == "Designer";
    }
    AllFieldsFilledExactly(InfoOf(form.formData));
    var call, _, _ := form.HandleSubmit(Resolved(()));
    edited := call;
    var second := new UpdateForm(john);
    second.HandleChange(FirstName, "");
    AllFieldsFilledExactly(InfoOf(second.formData));
    var _, a, _ := second.HandleSubmit(Resolved(()));
    cleared := a;
  }
}
