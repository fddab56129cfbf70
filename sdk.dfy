/** What the services receive from the backend SDK, as plain values: the
    SDK itself is not part of this model, so each of its answers is an input
    to the operation that asked for it. Also the decoding that every
    service method applies to those answers, and the cached client handle. */
module Sdk {
  import opened Js

  /** An operation's value, or the message of the Error it throws. */
  datatype Result<T> = Ok(value: T) | Err(error: string)

  const NotInitialized := "ApperClient not initialized"

  /** One SDK call as the service sees it: no client to call it on, a
      thrown exception, or a response. */
  datatype Call<T> = NoClient | Threw(error: string) | Returned(response: T)

  /** Answer of `fetchRecords`; `data` is `None` when the field is absent. */
  datatype FetchResponse<R> = FetchResponse(success: bool, message: string, data: Option<seq<R>>)

  /** Answer of `getRecordById`. */
  datatype RecordResponse<R> = RecordResponse(success: bool, data: Option<R>)

  /** One entry of `results` in the answer of a create, update or delete. */
  datatype MutationResult<R> = MutationResult(success: bool, message: string, data: R)

  /** Answer of `createRecord`, `updateRecord` or `deleteRecord`. */
  datatype MutationResponse<R> = MutationResponse(success: bool, message: string, results: Option<seq<MutationResult<R>>>)

  /** `message || fallback`, an empty message counting as absent. */
  function MessageOr(message: string, fallback: string): (m: string)
    ensures m == message || m == fallback
    ensures m == "" ==> fallback == ""
  {
    if message != "" then message else fallback
  }

  /** The message an operation fails with when the call did not answer. */
  function CallError<T>(call: Call<T>): string
    requires !call.Returned?
  {
    if call.NoClient? then NotInitialized else call.error
  }

  /** The records of a fetch: `response.data || []` on success, an Error
      carrying the response's message when it reports failure. */
  function Fetched<R>(call: Call<FetchResponse<R>>): (r: Result<seq<R>>)
    ensures r.Ok? <==> call.Returned? && call.response.success
    ensures r.Ok? && call.response.data.None? ==> r.value == []
    ensures r.Ok? && call.response.data.Some? ==> r.value == call.response.data.value
    ensures call.Returned? && !call.response.success ==> r == Err(call.response.message)
    ensures !call.Returned? ==> r == Err(CallError(call))
  {
    match call
    case NoClient => Err(NotInitialized)
    case Threw(e) => Err(e)
    case Returned(resp) =>
      if !resp.success then Err(resp.message)
      else if resp.data.Some? then Ok(resp.data.value)
      else Ok([])
  }

  /** A create, update or delete whose response reports success. */
  predicate Answered<R>(call: Call<MutationResponse<R>>) {
    call.Returned? && call.response.success
  }

  /** A successful response that carries no `results` entry. */
  predicate NoResults<R>(call: Call<MutationResponse<R>>) {
    Answered(call) && (call.response.results.None? || call.response.results.value == [])
  }

  /** The first `results` entry of a successful response. */
  function First<R>(call: Call<MutationResponse<R>>): MutationResult<R>
    requires Answered(call) && !NoResults(call)
  {
    call.response.results.value[0]
  }

  predicate FirstSucceeded<R>(call: Call<MutationResponse<R>>) {
    Answered(call) && !NoResults(call) && First(call).success
  }

  predicate FirstFailed<R>(call: Call<MutationResponse<R>>) {
    Answered(call) && !NoResults(call) && !First(call).success
  }

  /** The outcome of a create, update or delete: the data of the first
      result (`Some`), no result at all (`None`), or an Error: the
      response's message when the response failed, the first result's
      message (or `failed` when it has none) when that result failed. */
  function Mutated<R>(call: Call<MutationResponse<R>>, failed: string): (r: Result<Option<R>>)
    ensures r == Ok(None) <==> NoResults(call)
    ensures r.Ok? && r.value.Some? <==> FirstSucceeded(call)
    ensures FirstSucceeded(call) ==> r == Ok(Some(First(call).data))
    ensures FirstFailed(call) ==> r == Err(MessageOr(First(call).message, failed))
    ensures call.Returned? && !call.response.success ==> r == Err(call.response.message)
    ensures !call.Returned? ==> r == Err(CallError(call))
  {
    match call
    case NoClient => Err(NotInitialized)
    case Threw(e) => Err(e)
    case Returned(resp) =>
      if !resp.success then Err(resp.message)
      else if resp.results.Some? && |resp.results.value| > 0 then
        var first := resp.results.value[0];
        if !first.success then Err(MessageOr(first.message, failed)) else Ok(Some(first.data))
      else Ok(None)
  }

  /** The outcome of a delete: success unless the response or its first
      result reports failure; a response without results is a success. */
  function Deleted<R>(call: Call<MutationResponse<R>>, failed: string): (r: Result<()>)
    ensures r.Ok? <==> Answered(call) && !FirstFailed(call)
    ensures FirstFailed(call) ==> r == Err(MessageOr(First(call).message, failed))
    ensures call.Returned? && !call.response.success ==> r == Err(call.response.message)
    ensures !call.Returned? ==> r == Err(CallError(call))
  {
    match Mutated(call, failed)
    case Err(e) => Err(e)
    case Ok(_) => Ok(())
  }

  /** The SDK client handle a service caches from the page's global
      `window.apperClient` on first use. */
  class ClientSlot<C> {
    var cached: Option<C>

    constructor ()
      ensures cached == None
    {
      cached := None;
    }

    /** Takes the ambient client when none is cached yet; once a client is
        cached it is kept and returned from then on. */
    method GetApperClient(ambient: Option<C>) returns (client: Option<C>)
      modifies this
      ensures old(cached).Some? ==> cached == old(cached)
      ensures old(cached).None? ==> cached == ambient
      ensures client == cached
    {
      if cached.None? && ambient.Some? {
        cached := ambient;
      }
      client := cached;
    }
  }
}
