/**
 * `PathHelpers.GetLowestCostLocation`: the linear scan of the `AStar` open
 * set for its cheapest location. The dictionary is given as its keys in
 * enumeration order and its contents; the scan only reads it.
 */
module PathHelpers {
  import opened Outcomes
  import opened Coordinates
  import opened LocationGrids

  /** Entry m has the least `ScoreF`, and every entry enumerated before it costs more. */
  ghost predicate FirstLowest(keys: seq<Coordinate>, dict: map<Coordinate, Location>, m: int)
    requires forall i :: 0 <= i < |keys| ==> keys[i] in dict
  {
    0 <= m < |keys| &&
    (forall j :: 0 <= j < |keys| ==> dict[keys[m]].scoreF <= dict[keys[j]].scoreF) &&
    (forall j :: 0 <= j < m ==> dict[keys[m]].scoreF < dict[keys[j]].scoreF)
  }

  /**
   * Null for an empty dictionary; otherwise the value of the first entry
   * of least `ScoreF`, since a later entry replaces the result only when
   * it is strictly cheaper.
   */
  method GetLowestCostLocation(keys: seq<Coordinate>, dict: map<Coordinate, Location>)
    returns (result: Option<Location>, ghost m: int)
    requires forall i :: 0 <= i < |keys| ==> keys[i] in dict
    ensures result.None? <==> keys == []
    ensures result.Some? ==> FirstLowest(keys, dict, m) && result.value == dict[keys[m]]
  {
    result := None;
    m := 0;
    for i := 0 to |keys|
      invariant result.None? <==> i == 0
      invariant result.Some? ==> 0 <= m < i && result.value == dict[keys[m]]
      invariant result.Some? ==> forall j :: 0 <= j < i ==> dict[keys[m]].scoreF <= dict[keys[j]].scoreF
      invariant result.Some? ==> forall j :: 0 <= j < m ==> dict[keys[m]].scoreF < dict[keys[j]].scoreF
    {
      var item := dict[keys[i]];
      if result == None || item.scoreF < result.value.scoreF {
        result := Some(item);
        m := i;
      }
    }
  }

  /** The first cheapest entry is unique: the scan's choice is determined by the enumeration order. */
  lemma FirstLowestUnique(keys: seq<Coordinate>, dict: map<Coordinate, Location>, m1: int, m2: int)
    requires forall i :: 0 <= i < |keys| ==> keys[i] in dict
    requires FirstLowest(keys, dict, m1) && FirstLowest(keys, dict, m2)
    ensures m1 == m2
  {
    var f1, f2 := dict[keys[m1]].scoreF, dict[keys[m2]].scoreF;
    assert f1 <= f2 && f2 <= f1;
    assert m1 < m2 ==> f2 < f1;
    assert m2 < m1 ==> f1 < f2;
  }
}
