/** Vocabulary shared by the normaliser and both backends. */
module Common {

  /** An argument that may be absent, as `norms: NDArray | None`. */
  datatype Option<T> = None | Some(value: T)

  /** The exceptions this layer raises itself or lets through from an engine. */
  datatype Error =
    | NotImplementedError(message: string)
      /** whatever the wrapped engine raises; its reason is opaque to this layer */
    | EngineError(reason: string)

  /** A call that either returns a value or raises. */
  datatype Outcome<T> = Ok(value: T) | Raised(error: Error)

  /** The `Backend` tags of the two backends modelled here. */
  datatype BackendKind = HnswKind | PyNNDescentKind
}
