/**
 Validation of the two fields of a submitted feedback form.

 A form field read from the request body is either absent, something other
 than text (a file upload), or a string. A field is accepted only when it is a
 string with at least one character; otherwise the field gets a fixed
 Portuguese error message.
 */
module Validation {

  datatype Option<+T> = None | Some(value: T)

  /** The outcome of reading one named field from the submitted form data. */
  datatype FormValue = Missing | NonString | Str(text: string)

  const TitleRequired: string := "O título é obrigatório."
  const DescriptionRequired: string := "A descrição é obrigatória."

  /** A field passes validation: it was submitted as text and that text is not empty. */
  predicate Filled(v: FormValue) {
    v.Str? && |v.text| >= 1
  }

  /** Per-field error messages; `None` plays the role of TypeScript's `null`. */
  datatype ValidationErrors = ValidationErrors(title: Option<string>, description: Option<string>)

  /** The error slot of one field: the message when the field is not a
      non-empty string, nothing otherwise. */
  function FieldError(v: FormValue, message: string): (r: Option<string>)
    ensures r.None? <==> Filled(v)
    ensures r.Some? ==> r.value == message
  {
    match v
    case Str(s) => if |s| == 0 then Some(message) else None
    case _ => Some(message)
  }

  /** Validates a submission. `None` means both fields were accepted;
      otherwise the per-field error record of a rejected submission. */
  function Validate(title: FormValue, description: FormValue): (r: Option<ValidationErrors>)
    ensures r.None? <==> Filled(title) && Filled(description)
    ensures r.Some? ==> (r.value.title == Some(TitleRequired) <==> !Filled(title))
    ensures r.Some? ==> (r.value.title == None <==> Filled(title))
    ensures r.Some? ==> (r.value.description == Some(DescriptionRequired) <==> !Filled(description))
    ensures r.Some? ==> (r.value.description == None <==> Filled(description))
    ensures r.Some? ==> r.value.title.Some? || r.value.description.Some?
  {
    if !title.Str? || !description.Str? || |title.text| == 0 || |description.text| == 0 then
      Some(ValidationErrors(FieldError(title, TitleRequired), FieldError(description, DescriptionRequired)))
    else
      None
  }
}
