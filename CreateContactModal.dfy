/** The create form: four text fields edited one at a time, and a submit
    that hands the form to `onCreate` only when every field is filled. */
module CreateContactModal {
  import opened ContactTypes

  const RequiredFieldsAlert: string := "All fields are required."

  class CreateForm {
    var loading: bool
    var formData: ContactInfo

    constructor ()
      ensures !loading && formData == ContactInfo("", "", "", "")
      ensures forall f :: FieldOf(formData, f) == ""
    {
      loading := false;
      formData := ContactInfo("", "", "", "");
    }

    /** An input's change event: the field named by the input takes the new
        value, the other three keep theirs. */
    method HandleChange(name: Field, value: string)
      modifies this
      ensures FieldOf(formData, name) == value
      ensures forall f :: f != name ==> FieldOf(formData, f) == FieldOf(old(formData), f)
      ensures loading == old(loading)
    {
      formData := WithField(formData, name, value);
    }

    /** Confirm.  A complete form is passed to `onCreate` exactly once, and
        `loading`, set while the callback is awaited, is cleared afterwards
        whether it resolved or rejected; a rejection is logged, not
        rethrown.  An incomplete form raises the alert instead and leaves
        `loading` alone.  `onCreate` is the way the awaited callback
        settles; `invoked` is the argument it was called with, if any. */
    method HandleSubmit(onCreate: Outcome<()>) returns (invoked: Option<ContactInfo>, alert: Option<string>, logged: bool)
      modifies this
      ensures formData == old(formData)
      ensures AllFieldsFilled(formData) ==>
        invoked == Some(formData) && alert == None && !loading && logged == onCreate.Rejected?
      ensures !AllFieldsFilled(formData) ==>
        invoked == None && alert == Some(RequiredFieldsAlert) && loading == old(loading) && !logged
    {
      AllFieldsFilledExactly(formData);
      logged := false;
      if formData.firstName != "" && formData.lastName != "" && formData.job != "" && formData.description != "" {
        loading := true;
        invoked := Some(formData);
        alert := None;
        if onCreate.Rejected? {
          logged := true;
        }
        loading := false;
      } else {
        invoked := None;
        alert := Some(RequiredFieldsAlert);
      }
    }
  }

  /** Filling the four fields and confirming calls `onCreate` once with
      them; confirming an untouched form alerts instead. */
  method CreateFormScenario() returns (filled: Option<ContactInfo>, untouched: Option<string>)
    ensures filled == Some(ContactInfo("John", "Doe", "Developer", "Writes code"))
    ensures untouched == Some(RequiredFieldsAlert)
  {
    var form := new CreateForm();
    form.HandleChange(FirstName, "John");
    form.HandleChange(LastName, "Doe");
    form.HandleChange(Job, "Developer");
    form.HandleChange(Description, "Writes code");
    assert form.formData == ContactInfo("John", "Doe", "Developer", "Writes code") by {
      assert FieldOf(form.formData, FirstName) == "John";
      assert FieldOf(form.formData, LastName) == "Doe";
      assert FieldOf(form.formData, Job) == "Developer";
    }
    AllFieldsFilledExactly(form.formData);
    var call, _, _ := form.HandleSubmit(Resolved(()));
    filled := call;
    var empty := new CreateForm();
    AllFieldsFilledExactly(empty.formData);
    var _, a, _ := empty.HandleSubmit(Resolved(()));
    untouched := a;
  }
}
