/** The central Express error handler (backend/middleware/errorHandler.js):
    the last stop of every forwarded error. */
module ErrorHandler {
  import opened Wrappers
  import opened Http
  import Strings

  /** The JSON body: `success`, `message`, and `stack` outside production. */
  datatype Body = Body(success: bool, message: string, stack: Option<string>)

  /** Either the error is passed on (`next(err)`) or a response is written. */
  datatype Outcome = Delegated(err: Error) | Sent(status: int, body: Body)

  /** JavaScript truthiness of a number that may be missing. */
  predicate TruthyCode(o: Option<int>) {
    o.Some? && o.value != 0
  }

  /** `err.statusCode || err.status || 500`. */
  function StatusOf(err: Error): (code: int)
    ensures code != 0
    ensures TruthyCode(err.statusCode) ==> code == err.statusCode.value
    ensures !TruthyCode(err.statusCode) && TruthyCode(err.status) ==> code == err.status.value
    ensures !TruthyCode(err.statusCode) && !TruthyCode(err.status) ==> code == 500
  {
    if TruthyCode(err.statusCode) then err.statusCode.value
    else if TruthyCode(err.status) then err.status.value
    else 500
  }

  function Handle(err: Error, headersSent: bool, isProduction: bool): (out: Outcome)
    ensures headersSent ==> out == Delegated(err)
    ensures !headersSent ==> out.Sent? && !out.body.success && out.status == StatusOf(err)
    ensures !headersSent ==>
              out.body.message == if StatusOf(err) == 500 && isProduction then "Internal server error"
                                  else Strings.Or(err.message, "Something went wrong")
    ensures !headersSent ==> out.body.stack == (if isProduction then None else Some(err.stack))
  {
    if headersSent then Delegated(err)
    else
      var code := StatusOf(err);
      var message :=
        if code == 500 && isProduction then "Internal server error"
        else Strings.Or(err.message, "Something went wrong");
      Sent(code, Body(false, message, if isProduction then None else Some(err.stack)))
  }

  /** An error made by `createError` with a non-zero code reaches the client
      with that status and that message, in every environment, unless it is
      a 500 in production. */
  lemma CreatedErrorReachesClient(code: int, message: string, isProduction: bool)
    requires code != 0 && message != ""
    requires !(code == 500 && isProduction)
    ensures Handle(CreateError(code, message), false, isProduction).status == code
    ensures Handle(CreateError(code, message), false, isProduction).body.message == message
  {
  }

  /** In production a 500 never reveals the error's own message or stack:
      the body is the same whatever the error said. */
  lemma ProductionMasksFaults(err: Error)
    requires StatusOf(err) == 500
    ensures Handle(err, false, true) == Sent(500, Body(false, "Internal server error", None))
  {
  }

  /** An error that carries no status at all (a store failure, a thrown
      exception) is a 500; outside production its own message is shown,
      or "Something went wrong" when it has none. */
  lemma UnclassifiedIsInternal(message: Option<string>, stack: string, isProduction: bool)
    ensures var out := Handle(Error(None, None, message, stack), false, isProduction);
      && out.status == 500
      && (isProduction ==> out.body.message == "Internal server error")
      && (!isProduction ==> out.body.message == Strings.Or(message, "Something went wrong")
                            && out.body.stack == Some(stack))
  {
  }
}
