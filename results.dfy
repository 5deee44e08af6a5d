/** The service result model: a result carries either transferred data or an
    error (code and message), built by two factories that analyse their
    arguments. A C# null becomes `None`, and `default` data becomes `None`. */
module Results {

  datatype Option<+T> = None | Some(value: T)

  /** The error codes the services use. `Unspecified` stands for the
      enumeration's zero value, which the factory `ReturnError` refuses; every
      named code is taken to be non-zero. */
  datatype ErrorCode =
    | Unspecified
    | ValidationError
    | NotFound
    | BadRequest
    | UnprocessableEntity
    | InternalError
    | InternalServerError

  datatype Error = Error(code: ErrorCode, message: string)

  /** A result: the transferred data (absent on errors) and the error (absent
      on success). */
  datatype Result<+T> = Result(transferredData: Option<T>, error: Option<Error>) {
    predicate IsSuccess() { error.None? }
  }

  const DataNotGivenMessage: string := "Data is not given"
  const WrongErrorModelMessage: string := "Wrong error information model"

  /** Wraps data; null data is itself an error (BadRequest). */
  function ReturnData<T>(transferredData: Option<T>): (r: Result<T>)
    ensures r.IsSuccess() <==> transferredData.Some?
    ensures r.IsSuccess() ==> r.transferredData == transferredData
    ensures !r.IsSuccess() ==>
      r.transferredData.None? && r.error == Some(Error(BadRequest, DataNotGivenMessage))
  {
    if transferredData.None? then
      Result(None, Some(Error(BadRequest, DataNotGivenMessage)))
    else
      Result(transferredData, None)
  }

  /** Builds an error result; the zero code is replaced by an InternalError
      whose message ignores the one given. */
  function ReturnError<T>(errorCode: ErrorCode, errorMessage: string): (r: Result<T>)
    ensures !r.IsSuccess() && r.transferredData.None?
    ensures r.error.value.code != Unspecified
    ensures errorCode == Unspecified ==>
      r.error.value == Error(InternalError, WrongErrorModelMessage)
    ensures errorCode != Unspecified ==> r.error.value == Error(errorCode, errorMessage)
  {
    if errorCode == Unspecified then
      Result(None, Some(Error(InternalError, WrongErrorModelMessage)))
    else
      Result(None, Some(Error(errorCode, errorMessage)))
  }

  /** Whatever the factories are given, data and error are never both present
      and never both absent. */
  lemma FactoriesAreExclusive<T>(data: Option<T>, code: ErrorCode, message: string)
    ensures ReturnData(data).transferredData.Some? != ReturnData(data).error.Some?
    ensures ReturnError<T>(code, message).transferredData.Some?
            != ReturnError<T>(code, message).error.Some?
  {
  }
}
