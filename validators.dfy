/** The project's own `required_if` rule, registered in place of the validator
    library's rule of the same name (internal/validators/validators.go). */
module Validators {

  /** What the rule can see of a struct field through reflection: a string, a
      []string, or a value of some other kind (whose String() is a type description
      such as "<int Value>", never "quiz"). */
  datatype FieldValue = Text(text: string) | Strings(items: seq<string>) | OtherKind

  /** The rule's verdict. Panic is the failed type assertion `.([]string)` when the
      validated field is not a []string. */
  datatype RuleOutcome = Pass | Fail | Panic

  /** requiredIf: `param` is taken whole as the name of a sibling field of `parent`.
      An empty param, or one that names no field, passes. When the sibling's string
      value is "quiz" the field must be a []string with at least two elements; any
      other sibling value passes. */
  function RequiredIf(param: string, parent: map<string, FieldValue>, field: FieldValue): (r: RuleOutcome)
    ensures param == "" ==> r == Pass
    ensures param !in parent ==> r == Pass
    ensures param in parent && parent[param] != Text("quiz") ==> r == Pass
    ensures param != "" && param in parent && parent[param] == Text("quiz") ==>
      (r == Pass <==> field.Strings? && |field.items| >= 2) &&
      (r == Panic <==> !field.Strings?)
  {
    if param == "" then Pass
    else if param !in parent then Pass
    else if parent[param].Text? && parent[param].text == "quiz" then
      match field
      case Strings(items) => if |items| >= 2 then Pass else Fail
      case _ => Panic
    else Pass
  }
}
