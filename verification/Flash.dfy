/** The RAM-resident flasher fwupdate/fwflash.c: erasing, programming and
    verifying NOR partitions, and rolling back. */
module Flash {
  import opened Bytes

  const COPY_BUFFER := 65536
  const LOADER_PARTITION_SIZE := 256 * 1024
  const KERNEL_PARTITION_SIZE := 2816 * 1024
  const ROOTFS_PARTITION_SIZE := 8 * 1024 * 1024
  const OVERLAY_PARTITION_SIZE := 5 * 1024 * 1024

  // ------------------------------------------------------------- NOR devices

  /** The bitwise and of the low n bits. */
  function AndBits(a: nat, b: nat, n: nat): (r: nat)
    ensures r <= b
  {
    if n == 0 then 0 else 2 * AndBits(a / 2, b / 2, n - 1) + (if a % 2 == 1 && b % 2 == 1 then 1 else 0)
  }

  /** Programming NOR can only clear bits. */
  function And(cell: byte, value: byte): byte {
    AndBits(cell, value, 8)
  }

  function Ones(n: nat): nat {
    if n == 0 then 0 else 2 * Ones(n - 1) + 1
  }

  lemma {:induction false} AndOnes(value: nat, n: nat)
    requires value <= Ones(n)
    ensures AndBits(Ones(n), value, n) == value
    decreases n
  {
    if n > 0 {
      AndOnes(value / 2, n - 1);
    }
  }

  lemma AndErased(value: byte)
    ensures And(255, value) == value
  {
    assert Ones(4) == 15;
    assert Ones(8) == 255;
    AndOnes(value, 8);
    hide AndBits;
  }

  function ProgramCells(cells: seq<byte>, at: nat, bytes: seq<byte>): (r: seq<byte>)
    requires at + |bytes| <= |cells|
    ensures |r| == |cells|
  {
    seq(|cells|, k requires 0 <= k < |cells| => if at <= k < at + |bytes| then And(cells[k], bytes[k - at])
        else cells[k])
  }

  function EraseCells(cells: seq<byte>, from: nat, to: nat): (r: seq<byte>)
    requires from <= to <= |cells|
    ensures |r| == |cells|
  {
    cells[..from] + Erased(to - from) + cells[to..]
  }

  /** What a verified partition holds: the image and then erased cells. */
  function Programmed(image: seq<byte>, size: nat): (r: seq<byte>)
    requires |image| <= size
    ensures |r| == size
  {
    image + Erased(size - |image|)
  }

  /** An MTD partition.  Unless it is `reliable`, opening, erasing and writing
      may fail or leave anything behind; reading never lies but may fail. */
  class Partition {
    const size: nat
    const eraseSize: nat
    const nor: bool
    const reliable: bool
    var cells: seq<byte>

    ghost predicate Valid()
      reads this
    {
      |cells| == size
    }

    constructor (cells: seq<byte>, eraseSize: nat, nor: bool, reliable: bool)
      ensures Valid() && this.cells == cells && this.size == |cells|
      ensures this.eraseSize == eraseSize && this.nor == nor && this.reliable == reliable
    {
      this.cells, this.size, this.eraseSize, this.nor, this.reliable := cells, |cells|, eraseSize, nor, reliable;
    }

    method Misbehave()
      requires Valid()
      modifies this
      ensures Valid()
    {
      assert |Erased(size)| == size;
      var anything: seq<byte> :| |anything| == size;
      cells := anything;
    }

    method Open() returns (ok: bool)
      ensures reliable ==> ok
    {
      if reliable {
        ok := true;
      } else {
        ok := *;
      }
    }

    /** MEMERASE on one block. */
    method EraseBlock(start: nat, length: nat) returns (ok: bool)
      requires Valid() && start + length <= size
      modifies this
      ensures Valid()
      ensures reliable ==> ok && cells == EraseCells(old(cells), start, start + length)
    {
      ok := true;
      cells := EraseCells(cells, start, start + length);
      if !reliable {
        Misbehave();
        ok := *;
      }
    }

    /** write(2): the number of bytes taken, or nothing. */
    method Write(at: nat, bytes: seq<byte>) returns (taken: int)
      requires Valid() && at + |bytes| <= size
      modifies this
      ensures Valid() && taken <= |bytes|
      ensures reliable ==> taken == |bytes| && cells == ProgramCells(old(cells), at, bytes)
    {
      taken := |bytes|;
      cells := ProgramCells(cells, at, bytes);
      if !reliable {
        Misbehave();
        taken :| taken <= |bytes|;
      }
    }

    /** read(2) of `want` bytes; a short or failed read gives nothing. */
    method Read(at: nat, want: nat) returns (r: Option<seq<byte>>)
      requires Valid() && at + want <= size
      ensures r.Some? ==> r.value == cells[at..at + want]
      ensures reliable ==> r.Some?
    {
      r := Some(cells[at..at + want]);
      if !reliable {
        if * {
          r := None;
        }
      }
    }
  }

  // -------------------------------------------------------------- status log

  datatype Role = Loader | Kernel | Root | Overlay

  datatype Event = EraseBegins(role: Role) | Verified(role: Role) | Restored(role: Role)

  /** The status log. */
  class Status {
    var events: seq<Event>
    /** Every attempt at programming or restoring a partition. */
    ghost var tries: seq<Role>

    constructor ()
      ensures events == [] && tries == []
    {
      events, tries := [], [];
    }

    ghost method Try(role: Role)
      modifies `tries
      ensures tries == old(tries) + [role]
    {
      tries := tries + [role];
    }

    method Note(e: Event)
      modifies `events
      ensures events == old(events) + [e]
    {
      events := events + [e];
    }
  }

  /** The partition's erase may have begun. */
  predicate Began(events: seq<Event>, role: Role) {
    EraseBegins(role) in events
  }

  /** The log only grew, by entries about one partition. */
  predicate GrewBy(before: seq<Event>, after: seq<Event>, role: Role) {
    before <= after && forall k :: |before| <= k < |after| ==> after[k].role == role
  }

  // ----------------------------------------------------- one pass over a device

  lemma BlockBounds(i: nat, blocks: nat, eraseSize: nat)
    requires i < blocks
    ensures i * eraseSize + eraseSize == (i + 1) * eraseSize <= blocks * eraseSize
  {
    assert (blocks - i - 1) * eraseSize >= 0;
  }

  lemma WholeBlocks(size: nat, eraseSize: nat)
    requires 0 < eraseSize && size % eraseSize == 0
    ensures size / eraseSize * eraseSize == size
  {
  }

  predicate ErasedTo(cells: seq<byte>, n: nat) {
    n <= |cells| && forall k :: 0 <= k < n ==> cells[k] == 255
  }

  /** erase_partition. */
  method ErasePartition(device: Partition) returns (ok: bool)
    requires device.Valid() && 0 < device.eraseSize && device.size % device.eraseSize == 0
    modifies device
    ensures device.Valid()
    ensures device.reliable ==> ok && device.cells == Erased(device.size)
  {
    var eraseSize := device.eraseSize;
    var blocks := device.size / eraseSize;
    WholeBlocks(device.size, eraseSize);
    var i := 0;
    while i < blocks
      invariant 0 <= i <= blocks && device.Valid()
      invariant device.reliable ==> ErasedTo(device.cells, i * eraseSize)
    {
      BlockBounds(i, blocks, eraseSize);
      ghost var before := device.cells;
      ok := device.EraseBlock(i * eraseSize, eraseSize);
      if !ok {
        return;
      }
      i := i + 1;
    }
    ok := true;
  }

  /** The cells hold the image up to `done` and are erased beyond. */
  predicate WrittenTo(cells: seq<byte>, image: seq<byte>, done: nat) {
    && done <= |image| <= |cells|
    && (forall k :: 0 <= k < done ==> cells[k] == image[k])
    && (forall k :: done <= k < |cells| ==> cells[k] == 255)
  }

  lemma WrittenMore(cells: seq<byte>, image: seq<byte>, done: nat, more: nat)
    requires WrittenTo(cells, image, done) && done <= more <= |image|
    ensures WrittenTo(ProgramCells(cells, done, image[done..more]), image, more)
  {
    var r := ProgramCells(cells, done, image[done..more]);
    forall k | done <= k < more ensures r[k] == image[k] {
      AndErased(image[k]);
    }
  }

  /** write_image: buffers of at most 64 KiB, each written in as many calls as
      the device asks for. */
  method WriteImage(device: Partition, image: seq<byte>) returns (ok: bool)
    requires device.Valid() && |image| <= device.size
    requires device.reliable ==> device.cells == Erased(device.size)
    modifies device
    ensures device.Valid()
    ensures device.reliable ==> ok && device.cells == Programmed(image, device.size)
  {
    hide And;
    var done := 0;
    while done < |image|
      invariant 0 <= done <= |image| && device.Valid()
      invariant device.reliable ==> WrittenTo(device.cells, image, done)
    {
      var want := Min(COPY_BUFFER, |image| - done);
      var off := 0;
      while off < want
        invariant 0 <= off <= want && done + want <= |image| && device.Valid()
        invariant device.reliable ==> WrittenTo(device.cells, image, done + off)
      {
        ghost var before := device.cells;
        var taken := device.Write(done + off, image[done + off..done + want]);
        if device.reliable {
          WrittenMore(before, image, done + off, done + want);
        }
        if taken <= 0 {
          return false;
        }
        off := off + taken;
      }
      done := done + want;
    }
    ok := true;
  }

  /** compare_image: the image, then an erased tail. */
  method CompareImage(device: Partition, image: seq<byte>) returns (ok: bool)
    requires device.Valid() && |image| <= device.size
    ensures ok ==> device.cells == Programmed(image, device.size)
    ensures device.reliable ==> (ok <==> device.cells == Programmed(image, device.size))
  {
    var done := 0;
    while done < |image|
      invariant 0 <= done <= |image|
      invariant device.cells[..done] == image[..done]
    {
      var want := Min(COPY_BUFFER, |image| - done);
      var read := device.Read(done, want);
      if read.None? {
        return false;
      }
      if read.value != image[done..done + want] {
        Mismatch(device.cells, Programmed(image, device.size), done, want);
        return false;
      }
      assert device.cells[..done + want] == device.cells[..done] + read.value;
      assert image[..done + want] == image[..done] + image[done..done + want];
      done := done + want;
    }
    var tail := |image|;
    while tail < device.size
      invariant |image| <= tail <= device.size
      invariant device.cells[..|image|] == image
      invariant device.cells[|image|..tail] == Erased(tail - |image|)
    {
      var want := Min(COPY_BUFFER, device.size - tail);
      var read := device.Read(tail, want);
      if read.None? {
        return false;
      }
      if read.value != Erased(want) {
        Mismatch(device.cells, Programmed(image, device.size), tail, want);
        return false;
      }
      assert device.cells[|image|..tail + want] == device.cells[|image|..tail] + read.value;
      tail := tail + want;
    }
    assert device.cells == device.cells[..|image|] + device.cells[|image|..];
    ok := true;
  }

  lemma Mismatch(a: seq<byte>, b: seq<byte>, at: nat, want: nat)
    requires |a| == |b| && at + want <= |a| && a[at..at + want] != b[at..at + want]
    ensures a != b
  {
  }
}
