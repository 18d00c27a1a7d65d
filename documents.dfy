/** What the two schemas share: document identifiers and the failures of
    their path validators. */
module Documents {

  /** Document identifiers, for items and users alike. */
  type ObjectId = nat

  /** One failed validator on one path. */
  datatype Violation =
    | Required(path: string, message: string)
    | NotInEnum(path: string, value: string)
    | Mismatch(path: string, message: string)
    | TooShort(path: string, message: string)

  /** The text Mongoose gives one failed validator inside a validation
      error: the path, then the validator's message; an enumeration
      failure uses the built-in enum message. */
  function ViolationText(v: Violation): string {
    match v
    case Required(p, m) => p + ": " + m
    case NotInEnum(p, x) => p + ": `" + x + "` is not a valid enum value for path `" + p + "`."
    case Mismatch(p, m) => p + ": " + m
    case TooShort(p, m) => p + ": " + m
  }

  /** The failed validators, separated by `", "`. */
  function JoinViolations(vs: seq<Violation>): string {
    if vs == [] then ""
    else if |vs| == 1 then ViolationText(vs[0])
    else ViolationText(vs[0]) + ", " + JoinViolations(vs[1..])
  }

  /** The message of a validation error: `prefix` is `"Item validation
      failed"` for a document being created and `"Validation failed"` for
      the validators of an update. */
  function ValidationMessage(prefix: string, vs: seq<Violation>): string {
    prefix + ": " + JoinViolations(vs)
  }
}
