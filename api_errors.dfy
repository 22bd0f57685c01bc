/** How both pages read the outcome of a request to the backend. */
module ApiErrors {
  import opened Wrappers

  /** What a request came to: the data the server sent back, or a failure with
      the server's `detail` when it sent one. */
  datatype Response<T> = Succeeded(data: T) | Failed(detail: Option<string>)

  /** `err.response?.data?.detail || fallback`: an empty detail counts as none. */
  function FailureMessage(detail: Option<string>, fallback: string): (r: string)
    ensures detail.Some? && detail.value != [] ==> r == detail.value
    ensures (detail.None? || detail.value == []) ==> r == fallback
  {
    if detail.Some? && detail.value != [] then detail.value else fallback
  }
}
