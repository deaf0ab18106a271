/** Entities of the game universe that several stages share. */
module Universe {

  /** A solar system after name resolution: the `{id, name}` pair the names endpoint returns. */
  datatype SolarSystem = SolarSystem(id: int, name: string)

  /** The ids of `systems`, in order. */
  function Ids(systems: seq<SolarSystem>): (ids: seq<int>)
    ensures |ids| == |systems|
    ensures forall i :: 0 <= i < |systems| ==> ids[i] == systems[i].id
  {
    if systems == [] then [] else [systems[0].id] + Ids(systems[1..])
  }
}
