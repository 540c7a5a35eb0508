/** Shared result types: an optional value, and the errors and results of the bus. */
module Basics {

  datatype Option<+T> = None | Some(value: T)

  datatype BusError =
    | UnknownAgent(agent: string)
    | NotFound(id: string)
    | NotDeliverable(letter: string, status: string)
    | MailboxFull(receiver: string, limit: nat)
    | Storage(reason: string)

  datatype Result<+T> = Ok(value: T) | Err(error: BusError)

  function Min(a: nat, b: nat): nat { if a <= b then a else b }

  function Max(a: nat, b: nat): nat { if a <= b then b else a }

  function One(b: bool): nat { if b then 1 else 0 }

  function Without<T>(s: seq<T>, i: nat): seq<T>
    requires i < |s|
  {
    s[..i] + s[i + 1..]
  }
}
