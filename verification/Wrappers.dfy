/** Failure-aware results shared by the modules, and the decoder's errors. */
module Wrappers {

  datatype Option<+T> = None | Some(value: T)

  datatype Result<+T, +E> = Ok(value: T) | Err(error: E)

  datatype DecodeError =
    InputExhausted | OutputTooSmall | BlockTooLarge | BadBlockType |
    CorruptLiterals | CorruptSequences | InvalidOffset |
    BadFseTable | BadHuffmanWeights | BadHuffmanStream |
    ChecksumMismatch | FrameSizeMismatch
}
