/** Writing to flash memory, which can only be programmed within one 256-byte page at a time. */
module FlashWrite {
  const PAGE_SIZE: nat := 256
  const WORD: nat := 0x1_0000_0000

  type Word = n: nat | n < WORD
  type Byte = n: nat | n < 256

  datatype Piece = Piece(addr: Word, data: seq<Byte>)

  /** A piece does not leave the page it starts in. */
  ghost predicate InOnePage(p: Piece) {
    p.data != [] && p.addr % PAGE_SIZE + |p.data| <= PAGE_SIZE
  }

  function Concat(ps: seq<Piece>): seq<Byte> {
    if ps == [] then [] else Concat(ps[..|ps| - 1]) + ps[|ps| - 1].data
  }

  /** The address `n` bytes further on. */
  function Plus(addr: Word, n: nat): Word {
    (addr + n) % WORD
  }

  /** Piece `i` continues where the bytes before it end. */
  ghost predicate Follows(addr: Word, ps: seq<Piece>, i: nat)
    requires i < |ps|
  {
    ps[i].addr == Plus(addr, |Concat(ps[..i])|)
  }

  /** The pieces write `data` to `addr`. */
  ghost predicate Writes(addr: Word, data: seq<Byte>, ps: seq<Piece>) {
    && Concat(ps) == data
    && (forall i :: 0 <= i < |ps| ==> Follows(addr, ps, i))
    && (forall i :: 0 <= i < |ps| ==> InOnePage(ps[i]))
  }

  lemma ConcatMore(ps: seq<Piece>, p: Piece)
    ensures Concat(ps + [p]) == Concat(ps) + p.data
  {
    assert (ps + [p])[..|ps + [p]| - 1] == ps;
  }

  lemma Extend(addr: Word, data: seq<Byte>, ps: seq<Piece>, p: Piece)
    requires Writes(addr, data, ps) && p.addr == Plus(addr, |data|) && InOnePage(p)
    ensures Writes(addr, data + p.data, ps + [p])
  {
    hide Concat, Plus, InOnePage;
    var r := ps + [p];
    ConcatMore(ps, p);
    forall i | 0 <= i < |r| ensures Follows(addr, r, i) {
      assert r[..i] == ps[..i];
      if i == |ps| { assert ps[..i] == ps; } else { assert Follows(addr, ps, i); }
    }
  }

  lemma PlusZero(addr: Word)
    ensures Plus(addr, 0) == addr
  {
  }

  lemma NothingWritten(addr: Word)
    ensures Writes(addr, [], [])
  {
  }

  /** The device, as the sequence of programming commands it was given. */
  class Device {
    var log: seq<Piece>

    constructor ()
      ensures log == []
    {
      log := [];
    }

    method FlashWrite(addr: Word, data: seq<Byte>)
      modifies this
      ensures log == old(log) + [Piece(addr, data)]
    {
      log := log + [Piece(addr, data)];
    }
  }

  lemma Remainder(q: nat, r: nat)
    ensures (PAGE_SIZE * q + r) % PAGE_SIZE == r % PAGE_SIZE
  {
  }

  /** Going on to the end of the page, and by whole pages from there, keeps to page boundaries. */
  lemma NextPage(addr: Word, n: nat)
    ensures Plus(addr, n) % PAGE_SIZE == (addr + n) % PAGE_SIZE
    ensures Plus(Plus(addr, n), PAGE_SIZE) == Plus(addr, n + PAGE_SIZE)
  {
    var q, r := (addr + n) / WORD, (addr + n) % WORD;
    assert addr + n == PAGE_SIZE * (0x100_0000 * q) + r;
    Remainder(0x100_0000 * q, r);
  }

  lemma PageEnd(addr: Word)
    ensures Plus(addr, PAGE_SIZE - addr % PAGE_SIZE) % PAGE_SIZE == 0
  {
    var q := addr / PAGE_SIZE;
    NextPage(addr, PAGE_SIZE - addr % PAGE_SIZE);
    assert addr + (PAGE_SIZE - addr % PAGE_SIZE) == PAGE_SIZE * (q + 1) + 0;
    Remainder(q + 1, 0);
  }

  lemma PageStep(addr: Word)
    requires addr % PAGE_SIZE == 0
    ensures Plus(addr, PAGE_SIZE) % PAGE_SIZE == 0
  {
    PageEnd(addr);
  }

  /** `uc8x88_flash_page_write` */
  method PageWrite(device: Device, addr: Word, buf: seq<Byte>) returns (ok: bool)
    requires |buf| < WORD
    modifies device
    ensures ok <==> buf != []
    ensures !ok ==> device.log == old(device.log)
    ensures ok ==> exists ps :: device.log == old(device.log) + ps && Writes(addr, buf, ps)
  {
    hide Writes, Plus;
    var size := |buf|;
    if size == 0 {
      return false;
    }
    var addrResv := addr % PAGE_SIZE;
    var lenResv := PAGE_SIZE - addrResv;
    ghost var log0, ps := device.log, [];
    NothingWritten(addr);
    PlusZero(addr);
    if size <= lenResv {
      device.FlashWrite(addr, buf);
      Extend(addr, [], ps, Piece(addr, buf));
      ps := ps + [Piece(addr, buf)];
      assert [] + buf == buf;
    } else {
      device.FlashWrite(addr, buf[..lenResv]);
      Extend(addr, [], ps, Piece(addr, buf[..lenResv]));
      ps := ps + [Piece(addr, buf[..lenResv])];
      assert [] + buf[..lenResv] == buf[..lenResv];
      var leftLen := size - lenResv;
      var newAddr := Plus(addr, lenResv);
      var done := lenResv;
      PageEnd(addr);
      while leftLen > PAGE_SIZE
        invariant 0 < leftLen && done + leftLen == size
        invariant newAddr == Plus(addr, done) && newAddr % PAGE_SIZE == 0
        invariant device.log == log0 + ps && Writes(addr, buf[..done], ps)
        decreases leftLen
      {
        var data := buf[done..done + PAGE_SIZE];
        device.FlashWrite(newAddr, data);
        Extend(addr, buf[..done], ps, Piece(newAddr, data));
        assert buf[..done] + data == buf[..done + PAGE_SIZE];
        ps := ps + [Piece(newAddr, data)];
        NextPage(addr, done);
        PageStep(newAddr);
        leftLen := leftLen - PAGE_SIZE;
        newAddr := Plus(newAddr, PAGE_SIZE);
        done := done + PAGE_SIZE;
      }
      device.FlashWrite(newAddr, buf[done..]);
      Extend(addr, buf[..done], ps, Piece(newAddr, buf[done..]));
      ps := ps + [Piece(newAddr, buf[done..])];
      assert buf[..done] + buf[done..] == buf;
    }
    return true;
  }
}
