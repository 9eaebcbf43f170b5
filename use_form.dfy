/** The `useForm` hook: a map of field values and a map of field errors, updated one key at a time. */
module UseForm {
  import opened Js

  /**
   * The error map after a field was typed into: a truthy error on `name` becomes '',
   * every other entry, and a key that was missing or already empty, stays as it was.
   */
  function ClearError(errors: map<string, string>, name: string): (r: map<string, string>)
    ensures r.Keys == errors.Keys
    ensures forall k :: k in errors && k != name ==> r[k] == errors[k]
    ensures name in r ==> r[name] == ""
    ensures name !in errors || errors[name] == "" ==> r == errors
  {
    if name in errors && errors[name] != "" then errors[name := ""] else errors
  }

  /** Typing into the same field again clears nothing more. */
  lemma ClearErrorIdempotent(errors: map<string, string>, name: string)
    ensures ClearError(ClearError(errors, name), name) == ClearError(errors, name)
  {
  }

  class FormState {
    const initialValues: map<string, Value>
    var values: map<string, Value>
    var errors: map<string, string>

    /** The hook's first render: the initial values and no errors. */
    constructor (initial: map<string, Value>)
      ensures initialValues == initial && values == initial && errors == map[]
    {
      initialValues := initial;
      values := initial;
      errors := map[];
    }

    /** `handleChange`: the field takes the typed value, and its error is cleared if it had one. */
    method HandleChange(name: string, value: Value)
      modifies this
      ensures values == old(values)[name := value]
      ensures errors == ClearError(old(errors), name)
    {
      values := values[name := value];
      if name in errors && errors[name] != "" {
        errors := errors[name := ""];
      }
    }

    /** `resetForm`: back to the initial values, with no errors. */
    method ResetForm()
      modifies this
      ensures values == initialValues && errors == map[]
    {
      values := initialValues;
      errors := map[];
    }

    /** `setFieldValue`: one value replaced; the errors are not touched. */
    method SetFieldValue(name: string, value: Value)
      modifies this
      ensures values == old(values)[name := value]
      ensures errors == old(errors)
    {
      values := values[name := value];
    }
  }
}
