/**
 The placement-driver server's timestamp oracle (src/server.rs). The server owns
 one 64-bit counter holding the last timestamp it issued; each request bumps it
 by one under a mutex and returns the new value. The mutex is modelled by making
 each call one atomic step.
 */
module Server {

  newtype u64 = x: int | 0 <= x < 0x1_0000_0000_0000_0000

  const U64_MAX: u64 := 0xFFFF_FFFF_FFFF_FFFF

  class FeatherPD {
    /** The last timestamp issued (0 before the first request). */
    var nextTs: u64

    /** Every timestamp issued so far, in order. */
    ghost var issued: seq<u64>

    /** The timestamps issued are exactly 1, 2, ..., and the counter holds the
        last of them. */
    ghost predicate Valid()
      reads this
    {
      && nextTs as int == |issued|
      && forall i :: 0 <= i < |issued| ==> issued[i] as int == i + 1
    }

    /** `FeatherPD::new`: a fresh server that has issued nothing. */
    constructor ()
      ensures Valid()
      ensures nextTs == 0 && issued == []
    {
      nextTs := 0;
      issued := [];
    }

    /** `FeatherPD::get_next_ts`: bumps the counter by one and returns the new
        value, which is positive and greater than every value issued before.
        The bump overflows a `u64` at its maximum, so the counter must be below it. */
    method GetNextTs() returns (ts: u64)
      requires Valid()
      requires nextTs < U64_MAX
      modifies this`nextTs, this`issued
      ensures Valid()
      ensures nextTs as int == old(nextTs) as int + 1
      ensures ts == nextTs
      ensures issued == old(issued) + [ts]
      ensures ts >= 1
      ensures forall t :: t in old(issued) ==> t < ts
    {
      nextTs := nextTs + 1;
      issued := issued + [nextTs];
      ts := nextTs;
    }
  }

  /** A client that starts a server and asks it for `n` timestamps receives
      exactly 1, 2, ..., n, in order, so no value is handed out twice. */
  method IssueFromFresh(n: nat) returns (stamps: seq<u64>)
    requires n <= U64_MAX as int
    ensures |stamps| == n
    ensures forall i :: 0 <= i < n ==> stamps[i] as int == i + 1
    ensures forall i, j :: 0 <= i < j < n ==> stamps[i] < stamps[j]
  {
    var pd := new FeatherPD();
    stamps := [];
    while |stamps| < n
      invariant pd.Valid()
      invariant pd.issued == stamps
      invariant |stamps| <= n
    {
      var ts := pd.GetNextTs();
      stamps := stamps + [ts];
    }
  }
}
