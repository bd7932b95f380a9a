/**
  The nearby-location list `main` assembles from the `-location2`,
  `-location3` and `-location4` flags. A code of 0 means "not given".
 */
module Locations {
  import opened Base

  /** Reference definition: the non-zero codes, in order. */
  function NonZero(codes: seq<Int64>): seq<Int64> {
    if |codes| == 0 then []
    else (if codes[0] != 0 then [codes[0]] else []) + NonZero(codes[1..])
  }

  /** `main`: starting from a nil slice, append each of the three codes that
      is not 0. The slice stays nil when none is given. */
  function Nearby(location2: Int64, location3: Int64, location4: Int64): (nearby: Slice<Int64>)
    ensures |nearby.Elems()| <= 3
    ensures forall i :: 0 <= i < |nearby.Elems()| ==> nearby.Elems()[i] != 0
    ensures nearby.Nil? <==> location2 == 0 && location3 == 0 && location4 == 0
  {
    var s2 := if location2 != 0 then Nil.Append(location2) else Nil;
    var s3 := if location3 != 0 then s2.Append(location3) else s2;
    if location4 != 0 then s3.Append(location4) else s3
  }

  /** The list is the non-zero flags, in flag order. */
  lemma NearbyIsNonZero(location2: Int64, location3: Int64, location4: Int64)
    ensures Nearby(location2, location3, location4).Elems() == NonZero([location2, location3, location4])
  {
    var codes := [location2, location3, location4];
    assert codes[1..] == [location3, location4];
    assert codes[1..][1..] == [location4];
    assert codes[1..][1..][1..] == [];
    assert NonZero([location4]) == (if location4 != 0 then [location4] else []);
    assert NonZero([location3, location4]) == (if location3 != 0 then [location3] else []) + NonZero([location4]);
  }
}
