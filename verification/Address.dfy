/** Address arithmetic on 32-bit words. The model splits addresses with division; the code does it
    with masks and shifts, and keeps frame numbers in a 20-bit field. */
module Address {

  /** The masks and shifts of a translation are the divisions the rest of the model uses. */
  lemma MasksAreDivisions(va: bv32)
    ensures va & 0xFFFF_F000 == va - va % 0x1000
    ensures va & 0xFFF == va % 0x1000
    ensures va >> 22 == va / 0x40_0000
    ensures (va & 0x003F_F000) >> 12 == va / 0x1000 % 0x400
  {
  }

  /** The key under which the translation buffer files a page fixes both table indices, and is
      fixed by them. */
  lemma KeyFixesIndices(va: bv32, va': bv32)
    ensures va & 0xFFFF_F000 == va' & 0xFFFF_F000
            <==> va >> 22 == va' >> 22 && (va & 0x003F_F000) >> 12 == (va' & 0x003F_F000) >> 12
  {
  }

  /** Frame `i` of a page-aligned memory is found again through the 20-bit `base_addr` field, even
      where 32-bit addresses wrap round. */
  lemma FrameRoundTrip(memory: bv32, i: bv32)
    requires memory & 0xFFF == 0 && i < 0x10_0000
    ensures var field := ((memory + i * 0x1000) >> 12) as bv20;
            ((field as bv32) << 12) - memory == i * 0x1000
  {
  }
}
