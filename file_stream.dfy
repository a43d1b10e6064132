/**
  The part of `fileio.FileStream` that ouroboros/network/asyncclient.py
  relies on: a byte sequence with a cursor and an endianness flag. The class
  itself is not part of this model beyond these operations.
*/
module FileIO {

  datatype Endian = BigEndian | LittleEndian

  /** A value assigned to `Position`: an offset, or the `END_OF_FILE` sentinel. */
  datatype Seek = At(offset: nat) | EndOfFile

  class FileStream {
    var data: seq<bv8>
    var position: nat
    var endian: Endian

    ghost predicate Valid()
      reads this
    {
      position <= |data|
    }

    /** A stream over `initial`, positioned at its start. */
    constructor (initial: seq<bv8>, endian: Endian)
      ensures Valid()
      ensures data == initial && position == 0 && this.endian == endian
    {
      data := initial;
      position := 0;
      this.endian := endian;
    }

    /** Assigning `Position`; the sentinel resolves to the current length. */
    method SetPosition(p: Seek)
      requires Valid()
      requires p.At? ==> p.offset <= |data|
      modifies this`position
      ensures Valid()
      ensures position == if p.EndOfFile? then |data| else p.offset
    {
      if p.EndOfFile? {
        position := |data|;
      } else {
        position := p.offset;
      }
    }

    /** Writes `bytes` at the cursor, overwriting and then growing, and moves the cursor past them. */
    method Write(bytes: seq<bv8>)
      requires Valid()
      modifies this`data, this`position
      ensures Valid()
      ensures position == old(position) + |bytes|
      ensures data == old(data[..position]) + bytes + old(if position + |bytes| < |data| then data[position + |bytes|..] else [])
    {
      var tail := if position + |bytes| < |data| then data[position + |bytes|..] else [];
      data := data[..position] + bytes + tail;
      position := position + |bytes|;
    }
  }
}
