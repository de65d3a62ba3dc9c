/** What a request handler of either user store answers, without the
    transport: `Ok` is a 200 reply, `Created` a 201 reply, `NotFound` a 404
    reply carrying its error text. */
module Http {

  datatype Response<T> = Ok(body: T) | Created(body: T) | NotFound(error: string)
}
