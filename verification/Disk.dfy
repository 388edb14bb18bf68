/** The disk driver over an in-memory image: one sector per transfer. */
module Disk {
  import opened Sector

  const DISK_DEV: nat := 1

  /** A buffer; the three flags are B_BUSY, B_VALID and B_DIRTY. */
  datatype Buf = Buf(dev: nat, sector: nat, busy: bool, valid: bool, dirty: bool, data: Sector)

  class Image {
    const sectors: array<Sector>
    ghost var trace: seq<seq<Sector>>    // the image after each write, oldest first

    ghost predicate Valid()
      reads this, sectors
    {
      trace != [] && trace[|trace| - 1] == sectors[..]
    }

    constructor (image: seq<Sector>)
      ensures Valid() && sectors[..] == image && trace == [image] && fresh(sectors)
    {
      sectors := new Sector[|image|](i requires 0 <= i < |image| => image[i]);
      trace := [image];
      new;
      assert sectors[..] == image;
    }

    /** `iderw`: a dirty buffer is written and becomes clean; one that is not
        valid is read.  Either way it ends up valid.  The preconditions are the
        driver's four panics. */
    method Iderw(b: Buf) returns (r: Buf)
      requires Valid()
      requires b.busy && !(b.valid && !b.dirty) && b.dev == DISK_DEV && b.sector < sectors.Length
      modifies this, sectors
      ensures Valid()
      ensures b.dirty ==> sectors[..] == old(sectors[..])[b.sector := b.data]
      ensures b.dirty ==> trace == old(trace) + [sectors[..]] && r == b.(dirty := false, valid := true)
      ensures !b.dirty ==> sectors[..] == old(sectors[..]) && trace == old(trace)
      ensures !b.dirty ==> r == b.(data := sectors[b.sector], valid := true)
    {
      r := b;
      if b.dirty {
        r := r.(dirty := false);
        sectors[b.sector] := b.data;
        trace := trace + [sectors[..]];
      } else {
        r := r.(data := sectors[b.sector]);
      }
      r := r.(valid := true);
    }
  }
}
