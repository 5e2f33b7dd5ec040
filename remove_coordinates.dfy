/**
 * remove_coordinates.py: strips the rough `latitude`/`longitude` fields from
 * every station so that a later run of the coordinate fix can fill them in
 * afresh, and counts the stations that had either field.
 */
module RemoveCoordinates {
  import opened Common
  import opened Records

  /** The station had at least one of the two coordinate fields. */
  predicate HadCoords(r: Record)
  {
    "latitude" in r || "longitude" in r
  }

  /** The station after the loop body: both coordinate fields deleted if present. */
  function WithoutCoords(r: Record): (r': Record)
    ensures "latitude" !in r' && "longitude" !in r'
    ensures r'.Keys == r.Keys - {"latitude", "longitude"}
    ensures forall k | k in r' :: r'[k] == r[k]
  {
    Remove(Remove(r, "latitude"), "longitude")
  }

  function WithoutCoordsAll(xs: seq<Record>): (ys: seq<Record>)
    ensures |ys| == |xs|
  {
    seq(|xs|, k requires 0 <= k < |xs| => WithoutCoords(xs[k]))
  }

  /** The loop body for one station: delete each coordinate field that is present. */
  method StripStation(station: Record) returns (updated: Record, hadCoords: bool)
    ensures updated == WithoutCoords(station) && hadCoords == HadCoords(station)
  {
    updated, hadCoords := station, false;
    if "latitude" in updated {
      updated := updated - {"latitude"};
      hadCoords := true;
    }
    if "longitude" in updated {
      updated := updated - {"longitude"};
      hadCoords := true;
    }
    assert updated.Keys == WithoutCoords(station).Keys;
  }

  /**
   * The loop of `remove_rough_coordinates` over the loaded list: each station
   * loses its coordinate fields, and `removed` counts those that had any.
   */
  method RemoveRoughCoordinates(stations: array<Record>) returns (removed: nat)
    modifies stations
    ensures stations[..] == WithoutCoordsAll(old(stations[..]))
    ensures removed == Count(old(stations[..]), HadCoords)
  {
    ghost var xs := stations[..];
    ghost var ys := WithoutCoordsAll(xs);
    removed := 0;
    for i := 0 to stations.Length
      invariant forall k | 0 <= k < i :: stations[k] == ys[k]
      invariant forall k | i <= k < stations.Length :: stations[k] == xs[k]
      invariant removed == Count(xs[..i], HadCoords)
    {
      var station, hadCoords := StripStation(stations[i]);
      stations[i] := station;
      if hadCoords {
        removed := removed + 1;
      }
      CountSnoc(xs, i, HadCoords);
    }
    assert xs[..stations.Length] == xs;
    assert stations[..] == ys;
  }

  /** Running the script twice: the second run finds nothing to remove and changes nothing. */
  lemma RemoveTwice(xs: seq<Record>)
    ensures Count(WithoutCoordsAll(xs), HadCoords) == 0
    ensures WithoutCoordsAll(WithoutCoordsAll(xs)) == WithoutCoordsAll(xs)
  {
    var ys := WithoutCoordsAll(xs);
    forall k | 0 <= k < |ys| ensures WithoutCoords(ys[k]) == ys[k] {
      assert WithoutCoords(ys[k]).Keys == ys[k].Keys;
    }
  }

  /** Nothing is counted for a list without coordinates, and such a list is left as it is. */
  lemma {:induction false} NothingToRemove(xs: seq<Record>)
    requires forall k | 0 <= k < |xs| :: !HadCoords(xs[k])
    ensures WithoutCoordsAll(xs) == xs
  {
    forall k | 0 <= k < |xs| ensures WithoutCoords(xs[k]) == xs[k] {
      assert WithoutCoords(xs[k]).Keys == xs[k].Keys;
    }
  }
}
