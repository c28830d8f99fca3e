/** The two log components (the dungeon view on the dungeon-event service
    and the dungeon log on the dungeon-master service): an `events` array,
    initially empty, to which the subscriber callback pushes every delivered
    string as it is. */
module VerbatimLog {

  /** The subscriber callback, `this.events.push(event)`: the new string goes
      at the end and every earlier entry stays where it was. */
  function Push(events: seq<string>, s: string): (r: seq<string>)
    ensures |r| == |events| + 1
    ensures r[..|events|] == events && r[|events|] == s
  {
    events + [s]
  }

  /** The callback run once per delivered string, in delivery order. */
  function Record(events: seq<string>, delivered: seq<string>): (r: seq<string>)
    ensures r == events + delivered
    decreases |delivered|
  {
    if delivered == [] then events
    else
      assert events + delivered == (events + [delivered[0]]) + delivered[1..];
      Record(Push(events, delivered[0]), delivered[1..])
  }
}
