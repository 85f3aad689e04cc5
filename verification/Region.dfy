/**
 A RAM-like operation region: little-endian word access to a byte array
 (src/aml_operation_region.c).  ready is false while the region cannot be mapped
 or has no access handler; every access then fails.
 */
module Region {
  import opened Bits

  /** The widths the region accepts, in bits. */
  predicate IsAccessWidth(w: nat) {
    w == 8 || w == 16 || w == 32 || w == 64
  }

  class OperationRegion {
    const ram: array<byte>
    var ready: bool

    constructor (ram: array<byte>, ready: bool)
      ensures this.ram == ram && this.ready == ready
    {
      this.ram := ram;
      this.ready := ready;
    }

    ghost predicate Accessible(byteOffset: nat, accessBitWidth: nat)
      reads this
    {
      ready && byteOffset + accessBitWidth / 8 <= ram.Length
    }

    /** AmlOperationRegionRead: the result is the word followed by zeros. */
    method Read(byteOffset: nat, accessBitWidth: nat, resultData: array<byte>) returns (ok: bool)
      requires IsAccessWidth(accessBitWidth) && resultData != ram
      modifies resultData
      ensures ok <==> Accessible(byteOffset, accessBitWidth) && accessBitWidth / 8 <= resultData.Length
      ensures ok ==> forall k: nat | k < resultData.Length ::
                       resultData[k] == if k < accessBitWidth / 8 then ram[byteOffset + k] else 0
    {
      if accessBitWidth / 8 > resultData.Length {
        return false;
      }
      if byteOffset >= ram.Length || accessBitWidth / 8 > ram.Length - byteOffset {
        return false;
      }
      if !ready {
        return false;
      }
      for i := 0 to resultData.Length
        invariant forall k: nat | k < i :: resultData[k] == 0
      {
        resultData[i] := 0;
      }
      for i := 0 to accessBitWidth / 8
        invariant forall k: nat | k < resultData.Length :: resultData[k] == if k < i then ram[byteOffset + k] else 0
      {
        resultData[i] := ram[byteOffset + i];
      }
      return true;
    }

    /** AmlOperationRegionWrite. */
    method Write(byteOffset: nat, accessBitWidth: nat, data: Bytes) returns (ok: bool)
      requires IsAccessWidth(accessBitWidth)
      modifies ram
      ensures ok <==> Accessible(byteOffset, accessBitWidth) && accessBitWidth / 8 <= |data|
      ensures forall k: nat | k < ram.Length ::
                ram[k] == if ok && byteOffset <= k < byteOffset + accessBitWidth / 8 then data[k - byteOffset]
                  else old(ram[k])
    {
      if accessBitWidth / 8 > |data| {
        return false;
      }
      if byteOffset >= ram.Length || accessBitWidth / 8 > ram.Length - byteOffset {
        return false;
      }
      if !ready {
        return false;
      }
      for i := 0 to accessBitWidth / 8
        invariant forall k: nat | k < ram.Length ::
                    ram[k] == if byteOffset <= k < byteOffset + i then data[k - byteOffset] else old(ram[k])
      {
        ram[byteOffset + i] := data[i];
      }
      return true;
    }
  }
}
