/**
 * hackathon-fe/src/components/projects/project-form.tsx: the project form's
 * state, initial values, validation, submission gate and per-field error
 * clearing. React's `setState` is an assignment to the form's fields here.
 */
module ProjectForm {
  import opened Common
  import Text

  /** The form's values (`CreateProjectForm`). */
  datatype Data = Data(name: string, description: string, status: string)

  /** The error message of each field; `""` is no error. */
  datatype Errors = Errors(name: string, description: string, status: string)

  /** The fields `handleInputChange` edits. */
  datatype Field = Name | Description | Status

  const NoErrors: Errors := Errors("", "", "")
  const Active: string := "active"
  const NameRequired: string := "Please enter a project name."
  const DescriptionRequired: string := "Please enter a project description."
  const StatusRequired: string := "Please select a project status."

  /** `initialData?.field || default`: empty name and description, status `active`. */
  function InitialFormData(name: Option<string>, description: Option<string>, status: Option<string>): (d: Data)
    ensures status.None? ==> d.status == Active
    ensures d.status != ""
  {
    Data(OrElse(name, ""), OrElse(description, ""), OrElse(status, Active))
  }

  /** The errors `validateForm` finds in `d`. */
  function ErrorsFor(d: Data): Errors
  {
    Errors(if Text.Strip(d.name) == "" then NameRequired else "",
           if Text.Strip(d.description) == "" then DescriptionRequired else "",
           if d.status == "" then StatusRequired else "")
  }

  predicate Clean(e: Errors)
  {
    e.name == "" && e.description == "" && e.status == ""
  }

  /**
   * A name or description error appears exactly when the field is blank after
   * trimming, a status error exactly when no status is chosen; the form is
   * valid exactly when all three are filled.
   */
  lemma ValidationMeaning(d: Data)
    ensures ErrorsFor(d).name != "" <==> Text.Strip(d.name) == ""
    ensures ErrorsFor(d).description != "" <==> Text.Strip(d.description) == ""
    ensures ErrorsFor(d).status != "" <==> d.status == ""
    ensures Clean(ErrorsFor(d)) <==> Text.Strip(d.name) != "" && Text.Strip(d.description) != "" && d.status != ""
  {
  }

  function WithField(d: Data, field: Field, value: string): Data
  {
    match field
    case Name => d.(name := value)
    case Description => d.(description := value)
    case Status => d.(status := value)
  }

  function ErrorOf(e: Errors, field: Field): string
  {
    match field
    case Name => e.name
    case Description => e.description
    case Status => e.status
  }

  function Cleared(e: Errors, field: Field): Errors
  {
    match field
    case Name => e.(name := "")
    case Description => e.(description := "")
    case Status => e.(status := "")
  }

  /** Editing a field clears that field's error and leaves the others as they were. */
  lemma ClearedOnlyThat(e: Errors, field: Field, other: Field)
    ensures ErrorOf(Cleared(e, field), other) == if other == field then "" else ErrorOf(e, other)
  {
  }

  /** The form component's state. */
  class ProjectFormState {
    var data: Data
    var errors: Errors

    constructor (name: Option<string>, description: Option<string>, status: Option<string>)
      ensures data == InitialFormData(name, description, status) && errors == NoErrors
    {
      data := InitialFormData(name, description, status);
      errors := NoErrors;
    }

    /** `validateForm`: records the errors of the current data and reports whether there are none. */
    method ValidateForm() returns (valid: bool)
      modifies this
      ensures data == old(data)
      ensures errors == ErrorsFor(data)
      ensures valid <==> Clean(errors)
    {
      var newErrors := NoErrors;
      if Text.Strip(data.name) == "" {
        newErrors := newErrors.(name := NameRequired);
      }
      if Text.Strip(data.description) == "" {
        newErrors := newErrors.(description := DescriptionRequired);
      }
      if data.status == "" {
        newErrors := newErrors.(status := StatusRequired);
      }
      errors := newErrors;
      valid := newErrors.name == "" && newErrors.description == "" && newErrors.status == "";
    }

    /** `handleSubmit`: `onSubmit` receives the data only when the form is valid. */
    method HandleSubmit() returns (submitted: Option<Data>)
      modifies this
      ensures data == old(data) && errors == ErrorsFor(data)
      ensures submitted.Some? <==> Clean(ErrorsFor(data))
      ensures submitted.Some? ==> submitted.value == data
    {
      var valid := ValidateForm();
      submitted := if valid then Some(data) else None;
    }

    /** `handleInputChange`: stores the new value and clears the field's error. */
    method HandleInputChange(field: Field, value: string)
      modifies this
      ensures data == WithField(old(data), field, value)
      ensures errors == Cleared(old(errors), field)
    {
      data := WithField(data, field, value);
      if ErrorOf(errors, field) != "" {
        errors := Cleared(errors, field);
      } else {
        assert Cleared(errors, field) == errors;
      }
    }
  }
}
