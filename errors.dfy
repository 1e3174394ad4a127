/**
 * The fatal conditions the container reports.  Each constructor of `Error`
 * stands for one message of the error catalogue; an operation that would
 * terminate the process through `err::exit_if` instead returns the error it
 * would have reported, and leaves the container as it was.
 */
module Errors {

  datatype Error =
    | IncrementEnd        // ++ on end()
    | DecrementBegin      // -- on begin()
    | DerefEnd            // * on end()
    | IncrementRend       // ++ on rend()
    | DecrementRbegin     // -- on rbegin()
    | DerefRend           // * on rend()
    | PopEmptyVector      // pop_back() on an empty vector
    | FrontEmptyVector    // front() on an empty vector
    | BackEmptyVector     // back() on an empty vector
    | DiffVectors         // iterator of another vector passed to insert/emplace/erase
    | TraversedVector     // bulk iterator movement past the bounds
    | SubscriptOutOfRange // operator[] / at() with index >= size

  /** A value, or the fatal error reported instead of producing it. */
  datatype Result<+R> = Success(value: R) | Failure(error: Error)

  /** Completion of an operation that produces no value. */
  datatype Outcome = Pass | Fail(error: Error)
}
