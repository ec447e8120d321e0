/** Blocks, disks and the errors of the filesystem crate. */
module Blocks {
  import opened Words

  const BLOCK: nat := 4096

  type Block = b: Bytes | |b| == BLOCK witness Zeros(BLOCK)

  /** Everything a device holds, block by block. */
  type Disk = seq<Block>

  datatype FsError =
    | NotAFilesystem
    | OutOfRange
    | Full
    | BadName
    | NotFound
    | WrongKind
    | Interrupted
    | NeedsRecovery

  const ZERO: Block := Zeros(BLOCK)
}
