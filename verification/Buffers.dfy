/** Growable byte buffers that are pooled and reused. */
module Buffers {
  import opened Bytes

  class Buffer {
    var data: seq<byte>

    constructor ()
      ensures data == []
    {
      data := [];
    }
  }
}
