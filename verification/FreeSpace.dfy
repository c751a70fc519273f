/** The search for a run of zero bytes. */
module FreeSpace {

  /** All bytes of a window are zero. */
  ghost predicate ZeroWindow(buffer: seq<bv8>, start: int, size: nat) {
    0 <= start && start + size <= |buffer| && forall k | start <= k < start + size :: buffer[k] == 0
  }

  /** A zero window of the given size starts at start, and none ends before it does. */
  ghost predicate Earliest(buffer: seq<bv8>, start: int, size: nat) {
    ZeroWindow(buffer, start, size) && forall s | s < start :: !ZeroWindow(buffer, s, size)
  }

  /** The state of the scan before byte i: the bytes since the last non-zero one are counted. */
  ghost predicate Counted(buffer: seq<bv8>, i: nat, count: nat) {
    && count <= i <= |buffer|
    && (forall k | i - count <= k < i :: buffer[k] == 0)
    && (count < i ==> buffer[i - count - 1] != 0)
  }

  lemma NoWindowYet(buffer: seq<bv8>, i: nat, count: nat, size: nat, start: int)
    requires Counted(buffer, i, count) && count < size && start + size == i
    ensures !ZeroWindow(buffer, start, size)
  {
  }

  /** find_free_space after the buffer has been read. `at` is the index the loop stops at; the test whether the run
      has just begun comes after the count has gone up, so that the run's address is never recorded. */
  method FindFreeSpace(buffer: seq<bv8>, startAddr: nat, size: nat) returns (address: nat, ghost at: nat)
    ensures address == 0 || address == 1
    ensures address == 1 <==> size == 0 || forall s :: !ZeroWindow(buffer, s, size)
    ensures address == 0 ==> at + 1 >= size && Earliest(buffer, at + 1 - size, size)
  {
    var pAddr, cAddr, pCount, cCount := 0, 0, 0, 0;
    at := 0;
    for i := 0 to |buffer|
      invariant Counted(buffer, i, cCount) && cAddr == 0 && (size > 0 ==> cCount < size)
      invariant size > 0 ==> forall s | s + size <= i :: !ZeroWindow(buffer, s, size)
    {
      if buffer[i] == 0 {
        cCount := cCount + 1;
        if cCount == 0 {
          cAddr := startAddr + i;
        }
        if cCount == size {
          at := i;
          assert ZeroWindow(buffer, i + 1 - size, size);
          return cAddr, at;
        }
      } else {
        if cCount > pCount {
          pCount := cCount;
          pAddr := cAddr;
        }
        cCount := 0;
        cAddr := 0;
      }
      if size > 0 && i + 1 >= size {
        NoWindowYet(buffer, i + 1, cCount, size, i + 1 - size);
      }
    }
    return 1, |buffer|;
  }

  /** The scan with the address recorded when a run begins. */
  method FindFreeSpaceAsMeant(buffer: seq<bv8>, startAddr: nat, size: nat) returns (found: bool, address: nat)
    ensures found <==> size > 0 && exists s :: ZeroWindow(buffer, s, size)
    ensures found ==> address >= startAddr && Earliest(buffer, address - startAddr, size)
  {
    var cAddr, cCount := 0, 0;
    for i := 0 to |buffer|
      invariant Counted(buffer, i, cCount) && (size > 0 ==> cCount < size)
      invariant cCount > 0 ==> cAddr == startAddr + i - cCount
      invariant size > 0 ==> forall s | s + size <= i :: !ZeroWindow(buffer, s, size)
    {
      if buffer[i] == 0 {
        if cCount == 0 {
          cAddr := startAddr + i;
        }
        cCount := cCount + 1;
        if cCount == size {
          assert ZeroWindow(buffer, i + 1 - size, size);
          return true, cAddr;
        }
      } else {
        cCount := 0;
      }
      if size > 0 && i + 1 >= size {
        NoWindowYet(buffer, i + 1, cCount, size, i + 1 - size);
      }
    }
    return false, 1;
  }

  /** The 0 that is returned is the address of the window only if memory and window both start at 0. */
  lemma ZeroIsTheAddressIff(buffer: seq<bv8>, startAddr: nat, size: nat, start: nat)
    requires size > 0 && Earliest(buffer, start, size)
    ensures startAddr + start == 0 <==> startAddr == 0 && ZeroWindow(buffer, 0, size)
  {
  }

  /** An input: in two bytes from 15 on, the second of them free, the scan finds it and returns 0, where 16 is meant. */
  method AddressLost() returns (address: nat, meant: nat)
    ensures address == 0 && meant == 16
  {
    var buffer: seq<bv8> := [1, 0];
    assert ZeroWindow(buffer, 1, 1);
    ghost var at;
    address, at := FindFreeSpace(buffer, 15, 1);
    var found;
    found, meant := FindFreeSpaceAsMeant(buffer, 15, 1);
    assert buffer[meant - 15] == 0;
  }
}
