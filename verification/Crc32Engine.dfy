/**
The checksum object: one register word, advanced two table lookups a byte.
*/
module Crc32Engine {
  import opened Crc32Register
  import Crc32Run

  class Crc32 {
    var state: bv32
    /** Everything fed in since construction or the last reset. */
    ghost var fed: seq<bv8>

    ghost predicate Valid()
      reads this
    {
      state == Crc32Run.Run(ALL_ONES, fed)
    }

    constructor ()
      ensures Valid() && fed == []
    {
      state := ALL_ONES;
      fed := [];
    }

    method Reset()
      modifies this
      ensures Valid() && fed == []
    {
      state := ALL_ONES;
      fed := [];
    }

    /** `update(uint8_t)`: low nibble, then high nibble, through the 16-word table. */
    method Update(data: bv8)
      requires Valid()
      modifies this
      ensures Valid() && fed == old(fed) + [data]
      ensures state == ByteStep(old(state), data)
    {
      hide Xor, Step4, DropNibble, MixByte, LowDigit, HighDigit, Word, Crc32Run.Run;
      ghost var before := state;
      LookupIsFourSteps(state, data);
      var tblIdx := MixByte(state, data);
      state := Xor(NIBBLE_TABLE[LowDigit(tblIdx) as int], DropNibble(state));
      LookupIsFourSteps(state, HighDigit(data));
      tblIdx := MixByte(state, HighDigit(data));
      state := Xor(NIBBLE_TABLE[LowDigit(tblIdx) as int], DropNibble(state));
      HighDigitBound(data);
      TwoNibblesAreOneByte(before, data);
      Crc32Run.RunSnoc(ALL_ONES, fed, data);
      fed := fed + [data];
    }

    /** `update(const void*, size_t)` */
    method UpdateBuffer(data: array<bv8>, size: nat)
      requires Valid() && size <= data.Length
      modifies this
      ensures Valid() && fed == old(fed) + data[..size]
      ensures state == Crc32Run.Run(old(state), data[..size])
    {
      hide ByteStep, Crc32Run.Run;
      var d, left := 0, size;
      Crc32Run.RunEmpty(state);
      assert data[..0] == [];
      while left != 0
        invariant d + left == size
        invariant Valid() && fed == old(fed) + data[..d]
        invariant state == Crc32Run.Run(old(state), data[..d])
      {
        left := left - 1;
        Crc32Run.RunSnoc(old(state), data[..d], data[d]);
        assert data[..d + 1] == data[..d] + [data[d]];
        Update(data[d]);
        d := d + 1;
      }
    }

    /** `finalize() const`: reads the register and leaves the run as it is. */
    method Finalize() returns (checksum: bv32)
      requires Valid()
      ensures checksum == Crc32Run.Calculate(fed)
    {
      checksum := !state;
    }

    /** `finalize(const void*, size_t)` */
    method FinalizeBuffer(data: array<bv8>, size: nat) returns (checksum: bv32)
      requires Valid() && size <= data.Length
      modifies this
      ensures Valid() && fed == old(fed) + data[..size]
      ensures checksum == Crc32Run.Calculate(fed)
    {
      UpdateBuffer(data, size);
      checksum := Finalize();
    }

    static method Calculate(data: array<bv8>, size: nat) returns (checksum: bv32)
      requires size <= data.Length
      ensures checksum == Crc32Run.Calculate(data[..size])
    {
      var crc := new Crc32();
      crc.UpdateBuffer(data, size);
      assert crc.fed == data[..size];
      checksum := crc.Finalize();
    }
  }
}
