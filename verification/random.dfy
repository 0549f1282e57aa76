/** The random source (src/util.cpp:186-204): any value below the bound, and 0 for bound 0. */
module Random {
  method GetRandInt(nMax: nat) returns (r: nat)
    ensures if nMax == 0 then r == 0 else r < nMax
  {
    if nMax == 0 { return 0; }
    r :| r < nMax;
  }
}
