/** The GPIO port as the row shifter sees it: two write-only registers,
    OUTSET (drive the masked pins high) and OUTCLR (drive them low). The
    register writes are recorded as a trace instead of reaching hardware. */
module Port {
  import opened Words

  datatype PortWrite = OutSet(mask: Word) | OutClr(mask: Word)

  class GpioPort {
    /** Every register write issued so far, oldest first. */
    ghost var writes: seq<PortWrite>

    constructor ()
      ensures writes == []
    {
      writes := [];
    }

    /** _MD_PORT_SET = mask */
    method Set(mask: Word)
      modifies this
      ensures writes == old(writes) + [OutSet(mask)]
    {
      writes := writes + [OutSet(mask)];
    }

    /** _MD_PORT_CLEAR = mask */
    method Clear(mask: Word)
      modifies this
      ensures writes == old(writes) + [OutClr(mask)]
    {
      writes := writes + [OutClr(mask)];
    }
  }
}
