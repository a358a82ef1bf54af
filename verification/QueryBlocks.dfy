/** `QueryBlock` of blocks/job.go: what the hash index hands out and a query takes in. */
module QueryBlocks {
  import opened Codec

  datatype QueryBlock = QueryBlock(epoch: U64, actions: seq<I64>)
}
