/** Results and errors of filesystem operations (src/readwrite.rs, `Ext4Error`; message strings are dropped). */
module Wrappers {

  datatype Option<+T> = None | Some(value: T)

  datatype Ext4Error =
    | IoError
    | InvalidSuperblock
    | UnsupportedFeature
    | NotFound
    | NotADirectory
    | AlreadyExists
    | NoFreeBlocks
    | NoFreeInodes
    | Corrupt
    | NameTooLong
    | InvalidPath
    | IsADirectory

  datatype Result<+T> = Ok(value: T) | Err(error: Ext4Error)
}
