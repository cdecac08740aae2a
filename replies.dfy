/**
 * What an operation of the bot ends with: a reply string it returns, or one
 * of the four exception kinds it raises. `InputError` is the decorator that
 * wraps the command handler and turns each exception kind into its reply.
 */
module Replies {

  datatype Outcome =
    | Ok(msg: string)       // a value returned normally
    | KeyErr                // KeyError: the name is not in the store
    | ValErr(msg: string)   // ValueError carrying its own message
    | IdxErr                // IndexError: a token the command needs is missing
    | TypeErr               // TypeError: the phone is not a string of digits

  const NoContactReply := "No such contact found."
  const MissingArgsReply := "Enter user name and phone number."
  const BadTypesReply :=
    "Invalid input types. Name should be a string and phone number should be a number or a string of digits."

  /** The `input_error` decorator: a returned string passes through, a
      ValueError shows its message, and each other exception kind has a fixed
      reply. */
  function InputError(o: Outcome): (reply: string)
    ensures o.Ok? || o.ValErr? ==> reply == o.msg
    ensures o.KeyErr? <==> reply == NoContactReply && !(o.Ok? || o.ValErr?)
    ensures o.IdxErr? <==> reply == MissingArgsReply && !(o.Ok? || o.ValErr?)
    ensures o.TypeErr? <==> reply == BadTypesReply && !(o.Ok? || o.ValErr?)
  {
    match o
    case Ok(msg) => msg
    case ValErr(msg) => msg
    case KeyErr => NoContactReply
    case IdxErr => MissingArgsReply
    case TypeErr => BadTypesReply
  }
}
