/** Result plumbing shared by the kernel, the archive backend and the service shim:
    the structured result code the emulator hands back to the guest, and the
    value-or-error wrapper returned by archive operations. */
module Results {

  datatype Option<+T> = None | Some(value: T)

  /** The error descriptions, modules, summaries and levels that the modelled code uses.
      Their numeric encodings live in the emulator's result header, which is not part of
      this model, so they are kept symbolic. */
  datatype ErrorDescription = NoData | NotAuthorized
  datatype ErrorModule = FS
  datatype ErrorSummary = Canceled | NotSupported
  datatype ErrorLevel = Status | Permanent

  /** A result code: the success code, a structured (description, module, summary, level)
      code, or a code built directly from a raw 32-bit value. */
  datatype ResultCode =
    | Success
    | Code(description: ErrorDescription, errorModule: ErrorModule, summary: ErrorSummary, level: ErrorLevel)
    | Raw(raw: bv32)
  {
    /** Success is the success code itself or the raw value 0 it encodes to. */
    predicate IsSuccess() {
      Success? || (Raw? && raw == 0)
    }
  }

  /** `ResultCode(-1)`: the raw value -1 stored in an unsigned 32-bit word. */
  const RawMinusOne: bv32 := 0xFFFF_FFFF

  /** The raw word of the success code, as written into a command buffer. */
  const ResultSuccessRaw: bv32 := 0

  /** A value-carrying result. `Empty` is a default-constructed result: it carries no
      value (its error code is fixed by the result header, not part of this model). */
  datatype ResultVal<+T> = Ok(value: T) | Empty
}
