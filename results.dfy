/** Optional values and fallible results, shared by every screen of the note app. */
module Results {

  /** A value that may be missing: JavaScript `null`/`undefined`, a Kotlin nullable. */
  datatype Option<+T> = None | Some(value: T)

  /** Why a storage round trip failed. */
  datatype StorageError =
    | ReadFailed   // `AsyncStorage.getItem` rejected its promise
    | ParseFailed  // `JSON.parse` threw on the stored text
    | WriteFailed  // `AsyncStorage.setItem` rejected its promise

  /** The outcome of an asynchronous storage call: its value, or the error it threw. */
  datatype Result<+T> = Ok(value: T) | Err(error: StorageError)
}
