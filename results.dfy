/** Value types shared by the two services and the handler. */
module Results {

  datatype Option<+T> = None | Some(value: T)

  /** A Go `(value, error)` return: a value, or an error with its kind and
      the text its `Error()` method returns. */
  datatype Result<+T, +K> = Ok(value: T) | Err(kind: K, message: string)

  /** What one service call produced, together with the URL it handed to the
      HTTP client (`None` when the client was never invoked). */
  datatype Lookup<+T, +K> = Lookup(result: Result<T, K>, request: Option<string>)

  /** Two texts whose first characters differ stay different whatever follows the first. */
  lemma HeadsDiffer(prefix: string, rest: string, other: string)
    requires |prefix| > 0 && |other| > 0 && prefix[0] != other[0]
    ensures prefix + rest != other
  {
    assert (prefix + rest)[0] == prefix[0];
  }
}
