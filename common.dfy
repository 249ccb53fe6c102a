/** Types shared by the whole model of the thread downloader. */
module Common {

  datatype Option<T> = None | Some(value: T)

  datatype Result<T, E> = Success(value: T) | Failure(error: E)

  /** A post identifier as the platform hands it out: a non-negative integer. */
  type Id = nat

  type Url = string

  newtype Byte = x: int | 0 <= x < 256

  /** The body of an HTTP response; the model never looks inside it. */
  type Bytes = seq<Byte>

  /** A filesystem path as its list of components; [] is the root. */
  type Path = seq<string>

  /** The part of a fetched status that the downloader reads: its id, the id
      it replies to (absent for a post that replies to nothing) and the
      `media_url` of each attached media item, in order. */
  datatype Post = Post(id: Id, parent: Option<Id>, media: seq<Url>)

  /** `in_reply_to_status_id` is truthy: present and not zero. */
  predicate HasParent(p: Post) {
    p.parent.Some? && p.parent.value != 0
  }
}
