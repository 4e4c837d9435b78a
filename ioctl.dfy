/**
 * The Linux `_IOC` request-number encoder, as both KIP.py and grabInput.py write it,
 * and the EVIOCGRAB request built from it.
 *
 * A request number packs four fields into 32 bits: `nr` in bits 0-7, `type` in bits 8-15,
 * `size` in bits 16-29 and `dir` in bits 30-31. The encoder checks each field against its
 * mask with an `assert`, which becomes an `Err` here.
 */
module Ioctl {
  import opened Wrappers

  const IOC_NRBITS: nat := 8
  const IOC_TYPEBITS: nat := 8
  const IOC_SIZEBITS: nat := 14
  const IOC_DIRBITS: nat := 2

  const IOC_NRMASK: nat := 0xFF
  const IOC_TYPEMASK: nat := 0xFF
  const IOC_SIZEMASK: nat := 0x3FFF
  const IOC_DIRMASK: nat := 0x3

  const IOC_NRSHIFT: bv32 := 0
  const IOC_TYPESHIFT: bv32 := 8
  const IOC_SIZESHIFT: bv32 := 16
  const IOC_DIRSHIFT: bv32 := 30

  const IOC_NONE: nat := 0
  const IOC_WRITE: nat := 1
  const IOC_READ: nat := 2

  /** `ctypes.sizeof(ctypes.c_int)` on the target: a 4-byte C int. */
  const SIZEOF_C_INT: nat := 4

  /** The failed `assert` of the encoder, carrying the value it printed. */
  datatype AssertionError = AssertionError(value: int)

  /** Masks the field of width `mask` that starts at bit `shift`, as a decoder would. */
  function Field(request: bv32, shift: bv32, mask: bv32): bv32
    requires shift < 32
  {
    (request >> shift) & mask
  }

  /** True when every field fits its mask, which is what the encoder asserts. */
  predicate FieldsFit(dir: nat, ioType: nat, nr: nat, size: nat)
  {
    dir <= IOC_DIRMASK && ioType <= IOC_TYPEMASK && nr <= IOC_NRMASK && size <= IOC_SIZEMASK
  }

  /** The four fields shifted into place and ORed, once the encoder's asserts have passed. */
  function Pack(dir: nat, ioType: nat, nr: nat, size: nat): (r: bv32)
    requires FieldsFit(dir, ioType, nr, size)
    ensures Field(r, IOC_DIRSHIFT, 3) == dir as bv32
    ensures Field(r, IOC_TYPESHIFT, 0xFF) == ioType as bv32
    ensures Field(r, IOC_NRSHIFT, 0xFF) == nr as bv32
    ensures Field(r, IOC_SIZESHIFT, 0x3FFF) == size as bv32
  {
    (dir as bv32 << IOC_DIRSHIFT) | (ioType as bv32 << IOC_TYPESHIFT)
    | (nr as bv32 << IOC_NRSHIFT) | (size as bv32 << IOC_SIZESHIFT)
  }

  /**
   * `IOC(dir, type, nr, size)`: asserts dir, type, nr and size in that order, then ORs the
   * shifted fields together. The result is a 32-bit word; the decoding clauses of `Pack`
   * show that no field was truncated or overlapped another.
   */
  function Ioc(dir: nat, ioType: nat, nr: nat, size: nat): (r: Result<bv32, AssertionError>)
    ensures r.Ok? <==> FieldsFit(dir, ioType, nr, size)
    ensures dir > IOC_DIRMASK ==> r == Err(AssertionError(dir))
    ensures dir <= IOC_DIRMASK && ioType > IOC_TYPEMASK ==> r == Err(AssertionError(ioType))
    ensures dir <= IOC_DIRMASK && ioType <= IOC_TYPEMASK && nr > IOC_NRMASK ==> r == Err(AssertionError(nr))
    ensures dir <= IOC_DIRMASK && ioType <= IOC_TYPEMASK && nr <= IOC_NRMASK && size > IOC_SIZEMASK ==>
      r == Err(AssertionError(size))
    ensures r.Ok? ==>
      && Field(r.value, IOC_DIRSHIFT, 3) == dir as bv32
      && Field(r.value, IOC_TYPESHIFT, 0xFF) == ioType as bv32
      && Field(r.value, IOC_NRSHIFT, 0xFF) == nr as bv32
      && Field(r.value, IOC_SIZESHIFT, 0x3FFF) == size as bv32
  {
    if dir > IOC_DIRMASK then Err(AssertionError(dir))
    else if ioType > IOC_TYPEMASK then Err(AssertionError(ioType))
    else if nr > IOC_NRMASK then Err(AssertionError(nr))
    else if size > IOC_SIZEMASK then Err(AssertionError(size))
    else Ok(Pack(dir, ioType, nr, size))
  }

  /** `IOC_TYPECHECK(t)`: the size of the C type, asserted to fit the size field. */
  function IocTypecheck(sizeofT: nat): (r: Result<nat, AssertionError>)
    ensures r.Ok? <==> sizeofT <= IOC_SIZEMASK
    ensures r.Ok? ==> r.value == sizeofT
    ensures r.Err? ==> r.error == AssertionError(sizeofT)
  {
    if sizeofT <= IOC_SIZEMASK then Ok(sizeofT) else Err(AssertionError(sizeofT))
  }

  /** `IOW(type, nr, t)`: a write-direction request whose size field is `sizeof(t)`. */
  function Iow(ioType: nat, nr: nat, sizeofT: nat): (r: Result<bv32, AssertionError>)
    ensures r.Ok? <==> ioType <= IOC_TYPEMASK && nr <= IOC_NRMASK && sizeofT <= IOC_SIZEMASK
    ensures r.Ok? ==>
      && Field(r.value, IOC_DIRSHIFT, 3) == IOC_WRITE as bv32
      && Field(r.value, IOC_TYPESHIFT, 0xFF) == ioType as bv32
      && Field(r.value, IOC_NRSHIFT, 0xFF) == nr as bv32
      && Field(r.value, IOC_SIZESHIFT, 0x3FFF) == sizeofT as bv32
    ensures sizeofT > IOC_SIZEMASK ==> r == Err(AssertionError(sizeofT))
    ensures sizeofT <= IOC_SIZEMASK && ioType > IOC_TYPEMASK ==> r == Err(AssertionError(ioType))
    ensures sizeofT <= IOC_SIZEMASK && ioType <= IOC_TYPEMASK && nr > IOC_NRMASK ==> r == Err(AssertionError(nr))
  {
    match IocTypecheck(sizeofT)
    case Err(e) => Err(e)
    case Ok(size) => Ioc(IOC_WRITE, ioType, nr, size)
  }

  /**
   * `EVIOCGRAB(len)`: `IOW('E', 0x90, c_int)`. The argument is ignored, so every call
   * yields the same request number.
   */
  function EvIocGrab(len: int): (r: bv32)
    ensures Iow('E' as nat, 0x90, SIZEOF_C_INT) == Ok(r)
    ensures r == 0x4004_4590
  {
    match Iow('E' as nat, 0x90, SIZEOF_C_INT)
    case Ok(request) => request
    case Err(_) => 0
  }
}
