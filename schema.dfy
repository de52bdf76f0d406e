/** What both schemas share: the validation failures the document mapper reports, one per
    path, and the messages it attaches to them. */
module Schema {
  import opened Text

  datatype FieldError =
    | Required(path: string)                    // `required: true` on an unset or empty value
    | NotInEnum(path: string, value: string)    // `enum: [...]` on a value outside the list
    | Invalid(path: string, message: string)    // a custom `validate` with its own message

  function PathOf(e: FieldError): string {
    match e
    case Required(p) => p
    case NotInEnum(p, _) => p
    case Invalid(p, _) => p
  }

  /** The message of one failure, as the mapper words it. */
  function Message(e: FieldError): string {
    match e
    case Required(p) => "Path `" + p + "` is required."
    case NotInEnum(p, v) => "`" + v + "` is not a valid enum value for path `" + p + "`."
    case Invalid(_, m) => m
  }

  /** The messages of several failures, in order. */
  function Messages(errors: seq<FieldError>): (ms: seq<string>)
  {
    seq(|errors|, k requires 0 <= k < |errors| => Message(errors[k]))
  }

  /** A `required` string path fails on "" (and on a missing value, which the model writes as ""). */
  function RequiredString(path: string, value: string): (errs: seq<FieldError>)
    ensures errs == [] <==> value != ""
  {
    if value == "" then [Required(path)] else []
  }

  /** A `required` path with an `enum`: the `required` check comes first, and a path reports only
      its first failure. */
  function RequiredEnum(path: string, value: string, allowed: seq<string>): (errs: seq<FieldError>)
    ensures errs == [] <==> value != "" && value in allowed
    ensures |errs| <= 1
  {
    if value == "" then [Required(path)]
    else if value !in allowed then [NotInEnum(path, value)]
    else []
  }

  /** An optional path with an `enum`: an unset value passes. */
  function OptionalEnum(path: string, value: Option<string>, allowed: seq<string>): (errs: seq<FieldError>)
    ensures errs == [] <==> value.None? || value.value in allowed
  {
    if value.Some? && value.value !in allowed then [NotInEnum(path, value.value)] else []
  }

  /** The message of a `ValidationError` for a document of `model`:
      "<model> validation failed: <path>: <message>, <path>: <message>". */
  function ValidationMessage(model: string, errors: seq<FieldError>): string {
    model + " validation failed: "
      + Join(seq(|errors|, k requires 0 <= k < |errors| => PathOf(errors[k]) + ": " + Message(errors[k])), ", ")
  }
}
