/** Option, Result and the typed errors every operation of the model reports. */
module Wrappers {

  datatype Option<+T> = None | Some(value: T)

  /** Why a request was refused with 400. */
  datatype BadRequestKind =
    | FileTooLarge      // an upload above the 8 MiB cap
    | NotAnImage        // a content type that is absent or not "image/..."
    | NoFiles           // a bulk upload with no file at all

  /** Which uniqueness rule a request would break. */
  datatype ConflictKind = UsernameTaken | EmailTaken | GalleryNameTaken

  /** The error taxonomy of the service layer. `Internal` stands for an
      unchecked exception (a null owner dereferenced, an unparsable media type). */
  datatype Error =
    | NotFound
    | Forbidden
    | Unauthorized
    | Internal
    | Conflict(conflict: ConflictKind)
    | BadRequest(reason: BadRequestKind)

  datatype Result<+T> = Ok(value: T) | Err(error: Error)

  /** The outcome of an operation that returns nothing on success. */
  datatype Status = Done | Failed(error: Error)

  /** The completion of a JavaScript call or promise: a value, or a thrown
      value, carrying its message when it is an Error. */
  datatype Completion<+T> = Returned(value: T) | Threw(message: Option<string>)
}
