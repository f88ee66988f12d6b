/**
 * hackathon-fe/src/components/tasks/task-form.tsx: the task form's state
 * (the field values and one error message per validated field), its initial
 * values, its validation, what it submits, and how editing a field clears
 * that field's error. React's `setState` is an assignment to the form's
 * fields here.
 */
module TaskForm {
  import opened Common
  import Text

  /** The form's values (`CreateTaskForm` as the form holds it). */
  datatype Data = Data(
    name: string, description: string, priority: string, difficulty: string,
    projectId: string, assignedUserId: string, estimatedHours: int)

  /** The error message of each validated field; `""` is no error. */
  datatype Errors = Errors(name: string, description: string, priority: string, difficulty: string, projectId: string)

  /** The optional `initialData` the form is opened with. */
  datatype InitialData = InitialData(
    name: Option<string>, description: Option<string>, priority: Option<string>, difficulty: Option<string>,
    projectId: Option<string>, assignedUserId: Option<string>, estimatedHours: Option<int>)

  /** What `onSubmit` receives: an unassigned task and zero hours are left undefined. */
  datatype Submission = Submission(
    name: string, description: string, priority: string, difficulty: string,
    projectId: string, assignedUserId: Option<string>, estimatedHours: Option<int>)

  /** The text fields `handleInputChange` edits. */
  datatype TextField = Name | Description | Priority | Difficulty | ProjectId | AssignedUserId

  const NoErrors: Errors := Errors("", "", "", "", "")
  const NameRequired: string := "Please enter a task name."
  const DescriptionRequired: string := "Please enter a task description."
  const ProjectRequired: string := "Please select a project."

  /** `initialData?.field || default` for every field. */
  function InitialFormData(init: InitialData): Data
  {
    Data(OrElse(init.name, ""), OrElse(init.description, ""), OrElse(init.priority, "medium"),
         OrElse(init.difficulty, "medium"), OrElse(init.projectId, ""), OrElse(init.assignedUserId, "unassigned"),
         if init.estimatedHours.Some? then init.estimatedHours.value else 0)
  }

  /** The errors `validateForm` finds in `d`. */
  function ErrorsFor(d: Data): Errors
  {
    Errors(if Text.Strip(d.name) == "" then NameRequired else "",
           if Text.Strip(d.description) == "" then DescriptionRequired else "",
           "", "",
           if d.projectId == "" then ProjectRequired else "")
  }

  /** No field has an error message. */
  predicate Clean(e: Errors)
  {
    e.name == "" && e.description == "" && e.priority == "" && e.difficulty == "" && e.projectId == ""
  }

  /**
   * A name or description error appears exactly when that field is blank
   * after trimming, a project error exactly when no project is chosen, and
   * priority and difficulty never have one; the form is valid exactly when
   * all three required fields are filled.
   */
  lemma ValidationMeaning(d: Data)
    ensures ErrorsFor(d).name != "" <==> Text.Strip(d.name) == ""
    ensures ErrorsFor(d).description != "" <==> Text.Strip(d.description) == ""
    ensures ErrorsFor(d).projectId != "" <==> d.projectId == ""
    ensures ErrorsFor(d).priority == "" && ErrorsFor(d).difficulty == ""
    ensures Clean(ErrorsFor(d)) <==> Text.Strip(d.name) != "" && Text.Strip(d.description) != "" && d.projectId != ""
  {
  }

  /** The data `handleSubmit` hands over. */
  function Submitted(d: Data): Submission
  {
    Submission(d.name, d.description, d.priority, d.difficulty, d.projectId,
               if d.assignedUserId == "unassigned" then None else Some(d.assignedUserId),
               if d.estimatedHours == 0 then None else Some(d.estimatedHours))
  }

  /** The submission drops exactly the `'unassigned'` marker and zero hours, and keeps every other value. */
  lemma SubmittedMeaning(d: Data)
    ensures var s := Submitted(d);
            s.name == d.name && s.description == d.description && s.priority == d.priority
            && s.difficulty == d.difficulty && s.projectId == d.projectId
            && (s.assignedUserId.None? <==> d.assignedUserId == "unassigned")
            && (s.assignedUserId.Some? ==> s.assignedUserId.value == d.assignedUserId)
            && (s.estimatedHours.None? <==> d.estimatedHours == 0)
            && (s.estimatedHours.Some? ==> s.estimatedHours.value == d.estimatedHours)
  {
  }

  /** The form data with one text field replaced. */
  function WithField(d: Data, field: TextField, value: string): Data
  {
    match field
    case Name => d.(name := value)
    case Description => d.(description := value)
    case Priority => d.(priority := value)
    case Difficulty => d.(difficulty := value)
    case ProjectId => d.(projectId := value)
    case AssignedUserId => d.(assignedUserId := value)
  }

  /** The error message of a text field; the assignee has none. */
  function ErrorOf(e: Errors, field: TextField): string
  {
    match field
    case Name => e.name
    case Description => e.description
    case Priority => e.priority
    case Difficulty => e.difficulty
    case ProjectId => e.projectId
    case AssignedUserId => ""
  }

  /** The errors with the message of `field` cleared. */
  function Cleared(e: Errors, field: TextField): Errors
  {
    match field
    case Name => e.(name := "")
    case Description => e.(description := "")
    case Priority => e.(priority := "")
    case Difficulty => e.(difficulty := "")
    case ProjectId => e.(projectId := "")
    case AssignedUserId => e
  }

  /** Editing a field clears that field's error and leaves every other error as it was. */
  lemma ClearedOnlyThat(e: Errors, field: TextField, other: TextField)
    ensures ErrorOf(Cleared(e, field), field) == ""
    ensures other != field ==> ErrorOf(Cleared(e, other), field) == ErrorOf(e, field)
    ensures ErrorOf(Cleared(e, field), other) == if other == field then "" else ErrorOf(e, other)
  {
  }

  /** The form component's state. */
  class TaskFormState {
    var data: Data
    var errors: Errors

    /** The form as it opens: `initialData` or the defaults, and no errors. */
    constructor (init: InitialData)
      ensures data == InitialFormData(init) && errors == NoErrors
    {
      data := InitialFormData(init);
      errors := NoErrors;
    }

    /** `validateForm`: records the errors of the current data and reports whether there are none. */
    method ValidateForm() returns (valid: bool)
      modifies this
      ensures data == old(data)
      ensures errors == ErrorsFor(data)
      ensures valid <==> Clean(errors)
    {
      var newErrors := NoErrors;
      if Text.Strip(data.name) == "" {
        newErrors := newErrors.(name := NameRequired);
      }
      if Text.Strip(data.description) == "" {
        newErrors := newErrors.(description := DescriptionRequired);
      }
      if data.projectId == "" {
        newErrors := newErrors.(projectId := ProjectRequired);
      }
      errors := newErrors;
      valid := newErrors.name == "" && newErrors.description == "" && newErrors.priority == ""
               && newErrors.difficulty == "" && newErrors.projectId == "";
    }

    /** `handleSubmit`: validates, and submits only a valid form. */
    method HandleSubmit() returns (submitted: Option<Submission>)
      modifies this
      ensures data == old(data) && errors == ErrorsFor(data)
      ensures submitted.Some? <==> Clean(ErrorsFor(data))
      ensures submitted.Some? ==> submitted.value == Submitted(data)
    {
      var valid := ValidateForm();
      if valid {
        submitted := Some(Submitted(data));
      } else {
        submitted := None;
      }
    }

    /** `handleInputChange`: stores the new value and clears the field's error. */
    method HandleInputChange(field: TextField, value: string)
      modifies this
      ensures data == WithField(old(data), field, value)
      ensures errors == Cleared(old(errors), field)
    {
      data := WithField(data, field, value);
      if ErrorOf(errors, field) != "" {
        errors := Cleared(errors, field);
      } else {
        assert Cleared(errors, field) == errors;
      }
    }

    /** `handleNumberChange` for the estimated hours: an absent or zero number is stored as 0. */
    method HandleNumberChange(value: Option<int>)
      modifies this
      ensures data == old(data).(estimatedHours := if value.Some? then value.value else 0)
      ensures errors == old(errors)
    {
      var safeValue := if value.Some? && value.value != 0 then value.value else 0;
      data := data.(estimatedHours := safeValue);
    }
  }

  /** Initial values: what `initialData` gives, else empty text, medium priority and difficulty, unassigned, 0 hours. */
  lemma InitialDefaults(init: InitialData)
    ensures var d := InitialFormData(init);
            (init.name.None? ==> d.name == "") && (init.description.None? ==> d.description == "")
            && (init.priority.None? ==> d.priority == "medium") && (init.difficulty.None? ==> d.difficulty == "medium")
            && (init.projectId.None? ==> d.projectId == "") && (init.assignedUserId.None? ==> d.assignedUserId == "unassigned")
            && (init.estimatedHours.None? ==> d.estimatedHours == 0)
            && (init.name.Some? ==> d.name == init.name.value)
            && (init.priority.Some? && init.priority.value != "" ==> d.priority == init.priority.value)
    ensures !Clean(ErrorsFor(InitialFormData(InitialData(None, None, None, None, None, None, None))))
  {
    var d := InitialFormData(InitialData(None, None, None, None, None, None, None));
    assert ErrorsFor(d).projectId == ProjectRequired;
  }
}
