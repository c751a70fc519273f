/** The 64-bit words that ptrace reads and writes. A word is kept as its eight bytes in memory order;
    the masks of the debugger apply to the little-endian number they stand for. */
module Words {

  type Word = w: seq<bv8> | |w| == 8 witness [0, 0, 0, 0, 0, 0, 0, 0]

  const INT3: bv8 := 0xcc

  /** The uint64_t made of eight bytes, lowest first. */
  function ToInt(w: Word): bv64 {
    (w[0] as bv64)
    | ((w[1] as bv64) << 8)
    | ((w[2] as bv64) << 16)
    | ((w[3] as bv64) << 24)
    | ((w[4] as bv64) << 32)
    | ((w[5] as bv64) << 40)
    | ((w[6] as bv64) << 48)
    | ((w[7] as bv64) << 56)
  }

  function FromInt(v: bv64): Word {
    [(v & 0xff) as bv8,
     ((v >> 8) & 0xff) as bv8,
     ((v >> 16) & 0xff) as bv8,
     ((v >> 24) & 0xff) as bv8,
     ((v >> 32) & 0xff) as bv8,
     ((v >> 40) & 0xff) as bv8,
     ((v >> 48) & 0xff) as bv8,
     ((v >> 56) & 0xff) as bv8]
  }

  /** What a failed peek looks like: -1 in a uint64_t. */
  const ALL_ONES: Word := FromInt(0xffff_ffff_ffff_ffff)

  /** The word that PlaceBreakpoint writes: (origdata & ~0xff) | 0xcc. */
  function Plant(w: Word): Word {
    FromInt((ToInt(w) & 0xffff_ffff_ffff_ff00) | 0xcc)
  }

  /** The test by which RemoveElement decides that int3 is still in place. */
  predicate LooksPlanted(w: Word) {
    (ToInt(w) & 0xcc) == 0xcc
  }

  /** Bytes and numbers stand for each other. */
  lemma RoundTrip(w: Word, v: bv64)
    ensures FromInt(ToInt(w)) == w
    ensures ToInt(FromInt(v)) == v
  {
  }

  /** Masking and or-ing replaces the byte at the lowest address and no other. */
  lemma PlantBytes(w: Word)
    ensures Plant(w) == w[0 := INT3]
  {
  }

  /** The loose test looks at four bits of the low byte: it never misses int3, but also accepts 0xdd, 0xff and
      others. */
  lemma LooseTest(w: Word)
    ensures LooksPlanted(w) <==> (w[0] & 0xcc) == 0xcc
    ensures w[0] == INT3 ==> LooksPlanted(w)
  {
  }

  lemma FailedPeekLooksPlanted()
    ensures LooksPlanted(ALL_ONES)
  {
  }
}
