/** Optional values and replies of external collaborators (the store's REST API,
    the text-generation service, the file system). */
module Wrappers {

  datatype Option<+T> = None | Some(value: T)

  /** The outcome of a request to something outside the model: either it answered
      with a value, or it failed (a rejected promise, a thrown exception). */
  datatype Reply<+T> = Failed | Ok(value: T)

  /** JavaScript truthiness of a value that is a string, `null` or `undefined`. */
  predicate Truthy(s: Option<string>) {
    s.Some? && s.value != ""
  }
}
