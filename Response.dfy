/** The success-or-error envelope returned by the service calls. */
module Responses {
  import opened Wrappers

  /** `Value` is `None` where the source stores `default(T)`; `ErrorMessage`
      is `None` where the source stores `null`. */
  datatype Response<T> = Response(Value: Option<T>, ErrorMessage: Option<string>)
  {
    /** Success means exactly that no error message is stored. */
    predicate IsSuccess(): (r: bool)
      ensures r <==> ErrorMessage == None
    {
      ErrorMessage.None?
    }

    static function Success(value: T): (r: Response<T>)
      ensures r.IsSuccess()
      ensures r.Value == Some(value) && r.ErrorMessage == None
    {
      Response(Some(value), None)
    }

    /** `errorMessage` is `None` when a caller passes `null`. */
    static function Failure(errorMessage: Option<string>): (r: Response<T>)
      ensures r.Value == None && r.ErrorMessage == errorMessage
      ensures errorMessage.Some? ==> !r.IsSuccess()
      ensures errorMessage.None? ==> r.IsSuccess()
    {
      Response(None, errorMessage)
    }
  }

  /** Whether a response succeeded does not depend on its value. */
  lemma IsSuccessIgnoresValue<T>(a: Response<T>, b: Response<T>)
    requires a.ErrorMessage == b.ErrorMessage
    ensures a.IsSuccess() == b.IsSuccess()
  {
  }
}
