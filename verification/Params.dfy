/** Limits shared by the log, the cache and the file layer (param.h). */
module Params {
  const MAXOPBLOCKS: nat := 10
  const LOGSIZE: nat := MAXOPBLOCKS * 3
  const NBUF: nat := MAXOPBLOCKS * 3
  const FSSIZE: nat := 1000
}
