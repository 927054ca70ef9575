/** Result codes and the small wrappers shared by every component of the library model. */
module Codes {

  /** The part of the library's error enumeration that the modelled code can return. */
  datatype Code =
    | Ok
    | Fail
    | OutOfMemory
    | InvalidParameter
    | NoAccessTokenExists
    | NetworkFailure
    | ServerFail
    | Created
    | PartialContent
    | BadRequest
    | Unauthorized
    | Forbidden
    | NotFound
    | Conflict
    | PreconditionFail
    | RequestPayloadTooLarge
    | UnexpectedResultCode
    | NotInitialized
    | NotOnboarded
    | AlreadyOnboarded
    | StoreIsEmpty
    | SecurityUpToDate
    | CannotEnterCriticalSection
    | StoreItemExceedsMaxHttpRequestSize
    | BadContentEncoding
    | Sha256CalculationFail
    | RegistrationInfoIsNotSaved
    | RegistrationInfoIsNotLoaded
    | HttpRequestNoMoreSpace
    | HttpRequestFinalizeFailed
    | LimitExceeded
    | ArrayIsEmpty

  datatype Option<+T> = None | Some(value: T)

  /** A value on success, otherwise the code the call returned. */
  datatype Result<+T> = Success(value: T) | Failure(error: Code)

  newtype byte = x: int | 0 <= x < 256

  type bytes = seq<byte>

  lemma Assoc<T>(s: seq<T>, t: seq<T>, u: seq<T>)
    ensures (s + t) + u == s + (t + u)
  {
  }

  /** A C string cannot contain its own terminator. */
  predicate NoNul(s: bytes) {
    forall i :: 0 <= i < |s| ==> s[i] != 0
  }

  /** Codes the library produces by itself, without a server having answered. */
  predicate IsLocalFailure(code: Code) {
    code == Fail || code == OutOfMemory || code == InvalidParameter
  }
}
