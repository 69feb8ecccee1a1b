/** The configuration sector as NOR memory: erasing sets every bit, programming can only clear bits, and
    every hardware operation may fail. */
module FlashStorage {

  const CONFIG_FLASH_ADDRESS: nat := 0x08004000
  const SECTOR_SIZE: nat := 0x4000

  predicate InConfigSector(address: nat, size: nat) {
    size != 0 && address >= CONFIG_FLASH_ADDRESS && address + size <= CONFIG_FLASH_ADDRESS + SECTOR_SIZE
  }

  /** Programming ANDs the new bits into the old. */
  function Programmed(before: bv8, value: bv8): bv8 { before & value }

  /** Byte `i` lies in one of the four-byte words, counted from `from`, that hold `size` bytes. */
  predicate InWords(i: nat, from: nat, size: nat) {
    from <= i < from + Rounded(size)
  }

  function Rounded(size: nat): nat { 4 * ((size + 3) / 4) }

  lemma WordsCover(size: nat, offset: nat)
    requires offset % 4 == 0 && offset < size
    ensures offset + 4 <= Rounded(size)
  {}

  lemma RoundedUp(size: nat)
    ensures size <= Rounded(size)
  {}

  function Min(a: nat, b: nat): nat { if a < b then a else b }

  class Flash {
    const sector: array<bv8>
    var locked: bool
    var programming: bool
    var erasing: bool
    /** How the hardware operations turn out, one after the other, and how many have been awaited so far. */
    const outcome: nat -> bool
    var ops: nat

    ghost predicate Valid()
      reads this
    {
      sector.Length == SECTOR_SIZE
    }

    /** At rest the controller is locked and no operation is selected. */
    ghost predicate AtRest()
      reads this
    {
      Valid() && locked && !programming && !erasing
    }

    /** No operation from one count to another fails. */
    ghost predicate Flawless(from: nat, to: nat) {
      forall k :: from <= k < to ==> outcome(k)
    }

    constructor (outcome: nat -> bool)
      ensures AtRest() && fresh(sector) && this.outcome == outcome
    {
      this.outcome := outcome;
      sector := new bv8[SECTOR_SIZE];
      locked, programming, erasing, ops := true, false, false, 0;
    }

    /** The hardware reports whether the last operation failed; nothing is known in advance. */
    method WaitUntilReady() returns (ok: bool)
      modifies this`ops
      ensures ok == outcome(old(ops)) && ops == old(ops) + 1
    {
      ok := outcome(ops);
      ops := ops + 1;
    }

    /** Erases the sector. If the controller was not even ready nothing happens; if the erase itself
        fails the contents are arbitrary. It succeeds exactly when no hardware operation fails. */
    method EraseConfigSector() returns (ok: bool)
      requires AtRest()
      modifies this, sector
      ensures AtRest() && ops >= old(ops)
      ensures ok <==> Flawless(old(ops), ops)
      ensures ok ==> forall i :: 0 <= i < 0x4000 ==> sector[i] == 0xFF
    {
      locked := false;
      var ready := WaitUntilReady();
      if !ready {
        locked := true;
        return false;
      }
      erasing := true;
      ok := WaitUntilReady();
      if ok {
        forall i | 0 <= i < sector.Length {
          sector[i] := 0xFF;
        }
      } else {
        modify sector;
      }
      erasing := false;
      locked := true;
    }

    /** Programs four bytes at once. A misaligned word is refused by the hardware; a failing one leaves
        its four bytes arbitrary. */
    method ProgramWord(at: nat, word: seq<bv8>) returns (ok: bool)
      requires Valid() && |word| == 4 && at < SECTOR_SIZE && programming
      modifies this`ops, sector
      ensures ops >= old(ops) && (at % 4 == 0 ==> (ok <==> Flawless(old(ops), ops)))
      ensures ok ==>
        at % 4 == 0 && forall i :: at <= i < at + 4 ==> sector[i] == Programmed(old(sector[i]), word[i - at])
      ensures forall i :: 0 <= i < SECTOR_SIZE && !(at <= i < at + 4) ==> sector[i] == old(sector[i])
      ensures at % 4 != 0 ==> !ok && forall i :: 0 <= i < SECTOR_SIZE ==> sector[i] == old(sector[i])
    {
      if at % 4 != 0 {
        return false;
      }
      ok := WaitUntilReady();
      if ok {
        forall i | at <= i < at + 4 {
          sector[i] := Programmed(sector[i], word[i - at]);
        }
      } else {
        var b0: bv8, b1: bv8, b2: bv8, b3: bv8 := *, *, *, *;
        sector[at], sector[at + 1], sector[at + 2], sector[at + 3] := b0, b1, b2, b3;
      }
    }

    ghost predicate Erased(from: nat, size: nat)
      requires Valid() && from + size <= SECTOR_SIZE
      reads this, sector
    {
      forall i :: from <= i < from + size ==> sector[i] == 0xFF
    }

    /** Programs the data word by word, the last word padded with ones, and compares it afterwards. It
        succeeds only if the data can be read back, and always does so on erased, aligned memory when no
        hardware operation fails. Memory outside the words of the data is never changed. */
    method Write(address: nat, data: seq<bv8>) returns (ok: bool)
      requires AtRest()
      modifies this, sector
      ensures AtRest() && ops >= old(ops)
      ensures InConfigSector(address, |data|) ==>
        forall i :: 0 <= i < SECTOR_SIZE && !InWords(i, address - CONFIG_FLASH_ADDRESS, |data|) ==>
          sector[i] == old(sector[i])
      ensures !InConfigSector(address, |data|) ==> !ok && sector[..] == old(sector[..])
      ensures ok ==>
        var from := address - CONFIG_FLASH_ADDRESS;
        && sector[from..from + |data|] == data
        && forall i :: 0 <= i < SECTOR_SIZE && !(from <= i < from + |data|) ==> sector[i] == old(sector[i])
      ensures
        && Flawless(old(ops), ops) && InConfigSector(address, |data|) && address % 4 == 0
        && old(Erased(address - CONFIG_FLASH_ADDRESS, |data|))
        ==> ok
    {
      if !InConfigSector(address, |data|) {
        return false;
      }
      var size, from := |data|, address - CONFIG_FLASH_ADDRESS;
      locked := false;
      var ready := WaitUntilReady();
      if !ready {
        locked := true;
        return false;
      }
      programming := true;
      var programmed := ProgramWords(from, data);
      programming := false;
      locked := true;
      if !programmed {
        return false;
      }
      AndOnes();
      ok := Verify(address, data);
    }

    /** The loop of `Write`. */
    method ProgramWords(from: nat, data: seq<bv8>) returns (ok: bool)
      requires Valid() && programming && from + |data| <= SECTOR_SIZE
      modifies this`ops, sector
      ensures ops >= old(ops) && (from % 4 == 0 ==> (ok <==> Flawless(old(ops), ops)))
      ensures forall i :: 0 <= i < SECTOR_SIZE && !InWords(i, from, |data|) ==> sector[i] == old(sector[i])
      ensures ok ==> forall i :: 0 <= i < |data| ==> sector[from + i] == Programmed(old(sector[from + i]), data[i])
      ensures ok ==> forall i :: 0 <= i < SECTOR_SIZE && !(from <= i < from + |data|) ==> sector[i] == old(sector[i])
    {
      hide Programmed, Rounded;
      RoundedUp(|data|);
      var size := |data|;
      var offset := 0;
      while offset < size
        invariant offset % 4 == 0 && (offset > 0 ==> from % 4 == 0)
        invariant ops >= old(ops) && Flawless(old(ops), ops)
        invariant forall i :: 0 <= i < SECTOR_SIZE && !(from <= i < from + Min(offset, size)) ==>
          sector[i] == old(sector[i])
        invariant forall i :: 0 <= i < Min(offset, size) ==>
          sector[from + i] == Programmed(old(sector[from + i]), data[i])
        decreases size - offset
      {
        var remaining := size - offset;
        var chunk := if remaining >= 4 then 4 else remaining;
        var word := data[offset..offset + chunk] + seq(4 - chunk, _ => 0xFF);
        SameResidue(from, offset);
        WordsCover(size, offset);
        var programmed := ProgramWord(from + offset, word);
        if !programmed {
          return false;
        }
        AndOnes();
        offset := offset + 4;
      }
      return true;
    }

    method Read(address: nat, size: nat) returns (ok: bool, data: seq<bv8>)
      requires Valid()
      ensures ok <==> size != 0 && 0x08004000 <= address && address + size <= 0x08008000
      ensures ok ==> data == sector[address - 0x08004000..][..size]
    {
      if !InConfigSector(address, size) {
        return false, [];
      }
      return true, sector[address - CONFIG_FLASH_ADDRESS..address - CONFIG_FLASH_ADDRESS + size];
    }

    method Verify(address: nat, data: seq<bv8>) returns (same: bool)
      requires Valid()
      ensures same <==>
        && InConfigSector(address, |data|)
        && sector[address - CONFIG_FLASH_ADDRESS..][..|data|] == data
    {
      if !InConfigSector(address, |data|) {
        return false;
      }
      same := sector[address - CONFIG_FLASH_ADDRESS..][..|data|] == data;
    }
  }

  lemma SameResidue(from: nat, offset: nat)
    requires offset % 4 == 0
    ensures (from + offset) % 4 == from % 4
  {}

  lemma AndOnes()
    ensures forall b: bv8 :: Programmed(b, 0xFF) == b
    ensures forall b: bv8 :: Programmed(0xFF, b) == b
  {}
}
