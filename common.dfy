/** Values shared by every part of the firewall rule engine. */
module Common {

  /** A value that may be absent; `None` stands for Java's null. */
  datatype Option<+T> = None | Some(value: T)

  /** The outcome of an operation that may throw. */
  datatype Result<+T, +E> = Ok(value: T) | Err(error: E)

  /** The three actions of a rule (the RuleActions enumeration). */
  datatype RuleAction = ACCEPT | DENY | REJECT

  /** The exceptions that can escape building, parsing or rendering a rule. */
  datatype Failure =
    | UnhandledFieldName(text: string)   // UnhandledFieldNameException: unknown field name or action literal
    | InvalidFieldValue(text: string)    // InvalidFieldValueException: malformed port or port range
    | IllegalArgument(text: string)      // IllegalArgumentException: malformed CIDR or unknown rule type
    | IndexOutOfBounds                   // ArrayIndexOutOfBoundsException while reading the token array
    | NullPointer                        // NullPointerException
}
