/** The sizes of param.h that several layers share. */
module Params {
  const MAXOPBLOCKS: nat := 10
  const LOGSIZE: nat := 30    // MAXOPBLOCKS * 3
  const NBUF: nat := 30       // MAXOPBLOCKS * 3
}
