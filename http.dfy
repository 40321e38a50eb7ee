/** Response shapes: a status code with a JSON body, or a successful payload. */
module Http {
  datatype Body =
    | Message(message: string)      // { message }
    | Error(error: string)          // { error }
    | Errors(errors: seq<string>)   // { errors }

  datatype Reply = Reply(status: nat, body: Body)

  /** The outcome of a query handler: status 200 with its payload, or an error reply. */
  datatype Result<T> = Ok(value: T) | Fail(reply: Reply)

  const NoMoviesFound := "No movies found."
}
