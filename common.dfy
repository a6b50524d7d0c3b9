/** Values shared by the Raven toolchain model: fixed-width integers,
    Option/Result, and the parser's positioned diagnostic. */
module Common {

  /** Rust `u8`. */
  newtype byte = x: int | 0 <= x < 0x100

  /** Rust `u32`. */
  newtype u32 = x: int | 0 <= x < 0x1_0000_0000

  /** Rust `u64`. */
  newtype u64 = x: int | 0 <= x < 0x1_0000_0000_0000_0000

  /** Rust `i32`. */
  newtype i32 = x: int | -0x8000_0000 <= x < 0x8000_0000

  datatype Option<+T> = None | Some(value: T)

  datatype Result<+T, +E> = Ok(value: T) | Err(error: E)

  /** A (line, column) position, as the tokenizer records it. */
  type Position = (u32, u32)

  /** `syntax::ParsingError`: a diagnostic for one span of one file. */
  datatype ParsingError = ParsingError(
    file: string,
    start: Position,
    startOffset: nat,
    end: Position,
    endOffset: nat,
    message: string)
}
