/** Failure-carrying wrappers shared by every module of the model.
    Python raises exceptions; the model returns them as values. */
module Base {

  datatype Option<T> = None | Some(value: T)

  /** The Python exception classes the modelled code can raise. */
  datatype PyError =
    | ValueError      // int() of malformed text, str.index/rindex miss, random.sample out of range, unknown consumer
    | KeyError        // missing dict key
    | TypeError       // int() of a non-number, `in` on a number, a str index into a list or str, sampling a non-sequence
    | IndexError      // list index out of range
    | AttributeError  // `.items()`/`.get()` on a value that is not a dict
    | IntegrityError  // duplicate (stream_name, cascade_id) primary key
    | StepError       // an exception raised inside a step's own `process`/`generate` body

  datatype Result<T> = Ok(value: T) | Err(error: PyError)

  /** A prefix grows by the next element. */
  lemma PrefixSnoc<T>(s: seq<T>, i: nat)
    requires i < |s|
    ensures s[..i + 1] == s[..i] + [s[i]]
  {
  }

  /** The prefix as long as the sequence is the sequence. */
  lemma PrefixWhole<T>(s: seq<T>, i: nat)
    requires i == |s|
    ensures s[..i] == s
  {
  }
}
