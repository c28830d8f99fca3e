/** The operator chain both services' `getEvents()` attach to their subject:
    a filter stage that drops every event mentioning "mimic", then a map stage
    that prepends the service's decoration. The two services differ only in
    that decoration, so the pipeline is parametrised by it. */
module Transform {
  import opened Wrappers
  import opened Text
  import Catalog

  /** The substring the filter stage excludes. */
  const Excluded: string := "mimic"

  /** Decoration added by the dungeon-event service: "🧙 Dungeon Event: ". */
  const DungeonEventPrefix: string := "\U{1F9D9} Dungeon Event: "

  /** Decoration added by the dungeon-master service: "🧙 Event: ". */
  const DungeonMasterPrefix: string := "\U{1F9D9} Event: "

  /** The filter stage's predicate, `!event.includes('mimic')`. */
  predicate Keep(e: string) {
    !Includes(e, Excluded)
  }

  /** Filter stage. */
  function Filter(raw: seq<string>): (kept: seq<string>)
    ensures |kept| <= |raw|
  {
    if raw == [] then []
    else if Keep(raw[0]) then [raw[0]] + Filter(raw[1..])
    else Filter(raw[1..])
  }

  /** The filter stage keeps exactly the inputs that pass its predicate. */
  lemma {:induction false} FilterMembers(raw: seq<string>)
    ensures forall e :: e in Filter(raw) <==> e in raw && Keep(e)
    decreases |raw|
  {
    if raw != [] {
      FilterMembers(raw[1..]);
      assert forall e :: e in raw <==> e == raw[0] || e in raw[1..];
    }
  }

  /** Map stage: the template `${prefix}${event}`. */
  function Decorate(prefix: string, e: string): string {
    prefix + e
  }

  function Map(prefix: string, xs: seq<string>): seq<string> {
    seq(|xs|, k requires 0 <= k < |xs| => Decorate(prefix, xs[k]))
  }

  /** `getEvents()` applied to the raw events pushed into the subject. */
  function Pipeline(prefix: string, raw: seq<string>): (out: seq<string>)
    ensures |out| <= |raw|
  {
    Map(prefix, Filter(raw))
  }

  /** Undoes the map stage on one delivered string. */
  function Undecorate(prefix: string, s: string): (r: Option<string>)
    ensures r.Some? ==> s == Decorate(prefix, r.value)
    ensures r.None? ==> !StartsWith(s, prefix)
  {
    StripPrefix(prefix, s)
  }

  /** Undoes the map stage on a whole delivered sequence; None if some
      element does not carry the decoration. */
  function UndecorateAll(prefix: string, out: seq<string>): (r: Option<seq<string>>)
    ensures r.Some? ==> |r.value| == |out|
    ensures r.Some? ==> forall k | 0 <= k < |out| :: out[k] == Decorate(prefix, r.value[k])
  {
    if out == [] then Some([])
    else
      match Undecorate(prefix, out[0])
      case None => None
      case Some(e) =>
        match UndecorateAll(prefix, out[1..])
        case None => None
        case Some(rest) => Some([e] + rest)
  }

  /** The positions `j >= i` of `raw` whose event survives the filter, in
      increasing order. */
  function SurvivorsFrom(raw: seq<string>, i: nat): (idx: seq<nat>)
    requires i <= |raw|
    ensures forall k | 0 <= k < |idx| :: i <= idx[k] < |raw| && Keep(raw[idx[k]])
    ensures forall k, l | 0 <= k < l < |idx| :: idx[k] < idx[l]
    ensures forall j | i <= j < |raw| && Keep(raw[j]) :: j in idx
    decreases |raw| - i
  {
    if i == |raw| then []
    else if Keep(raw[i]) then [i] + SurvivorsFrom(raw, i + 1)
    else SurvivorsFrom(raw, i + 1)
  }

  function Survivors(raw: seq<string>): seq<nat> {
    SurvivorsFrom(raw, 0)
  }

  /** The filtered suffix `raw[i..]` lists the events at the surviving
      positions from `i` on, in order. */
  ghost predicate FilterImageFrom(raw: seq<string>, i: nat)
    requires i <= |raw|
  {
    && |Filter(raw[i..])| == |SurvivorsFrom(raw, i)|
    && forall k | 0 <= k < |SurvivorsFrom(raw, i)| ::
         Filter(raw[i..])[k] == raw[SurvivorsFrom(raw, i)[k]]
  }

  lemma {:induction false} FilterFromIsImage(raw: seq<string>, i: nat)
    requires i <= |raw|
    ensures FilterImageFrom(raw, i)
    decreases |raw| - i
  {
    if i < |raw| {
      FilterFromIsImage(raw, i + 1);
      FilterFromStep(raw, i);
    }
  }

  /** One step of the induction above: position `i` is either kept in front
      of the rest or skipped. */
  lemma FilterFromStep(raw: seq<string>, i: nat)
    requires i < |raw| && FilterImageFrom(raw, i + 1)
    ensures FilterImageFrom(raw, i)
  {
    var rest := raw[i..];
    assert rest[0] == raw[i] && rest[1..] == raw[i + 1..];
    if Keep(raw[i]) {
      FilterFromKept(raw, i, Filter(raw[i + 1..]), SurvivorsFrom(raw, i + 1));
    } else {
      assert Filter(rest) == Filter(raw[i + 1..]);
    }
  }

  lemma FilterFromKept(raw: seq<string>, i: nat, kept: seq<string>, idx: seq<nat>)
    requires i < |raw| && Keep(raw[i])
    requires kept == Filter(raw[i + 1..]) && idx == SurvivorsFrom(raw, i + 1)
    requires |kept| == |idx|
    requires forall k | 0 <= k < |idx| :: idx[k] < |raw| && kept[k] == raw[idx[k]]
    ensures FilterImageFrom(raw, i)
  {
    var rest := raw[i..];
    assert rest[0] == raw[i] && rest[1..] == raw[i + 1..];
    assert Filter(rest) == [raw[i]] + kept;
    assert SurvivorsFrom(raw, i) == [i] + idx;
  }

  /** Each surviving input yields exactly one output, in input order: the
      output is the decorated image of the surviving positions. */
  lemma PipelineIsImage(prefix: string, raw: seq<string>)
    ensures |Pipeline(prefix, raw)| == |Survivors(raw)|
    ensures forall k | 0 <= k < |Survivors(raw)| ::
              Pipeline(prefix, raw)[k] == Decorate(prefix, raw[Survivors(raw)[k]])
  {
    FilterFromIsImage(raw, 0);
    assert raw[0..] == raw;
  }

  /** One raw event: dropped exactly when it mentions "mimic", decorated otherwise. */
  lemma PipelineSingle(prefix: string, e: string)
    ensures Pipeline(prefix, [e]) == if Keep(e) then [Decorate(prefix, e)] else []
  {
    assert [e][1..] == [];
  }

  lemma {:induction false} FilterConcat(a: seq<string>, b: seq<string>)
    ensures Filter(a + b) == Filter(a) + Filter(b)
    decreases |a|
  {
    if a != [] {
      FilterConcat(a[1..], b);
      assert (a + b)[1..] == a[1..] + b;
    } else {
      assert a + b == b;
    }
  }

  /** Feeding events one at a time yields the same stream as feeding them
      together: the pipeline is stateless. */
  lemma PipelineConcat(prefix: string, a: seq<string>, b: seq<string>)
    ensures Pipeline(prefix, a + b) == Pipeline(prefix, a) + Pipeline(prefix, b)
  {
    FilterConcat(a, b);
  }

  /** Every delivered string is a decorated raw input that survived the filter. */
  lemma PipelineProvenance(prefix: string, raw: seq<string>)
    ensures forall o | o in Pipeline(prefix, raw) ::
              Undecorate(prefix, o).Some? && Undecorate(prefix, o).value in raw
              && Keep(Undecorate(prefix, o).value)
  {
    var kept := Filter(raw);
    FilterMembers(raw);
    forall o | o in Pipeline(prefix, raw)
      ensures Undecorate(prefix, o).Some? && Undecorate(prefix, o).value in raw
              && Keep(Undecorate(prefix, o).value)
    {
      var k :| 0 <= k < |kept| && o == Decorate(prefix, kept[k]);
      StripPrefixOfConcat(prefix, kept[k]);
    }
  }

  lemma {:induction false} UndecorateMap(prefix: string, xs: seq<string>)
    ensures UndecorateAll(prefix, Map(prefix, xs)) == Some(xs)
    decreases |xs|
  {
    if xs != [] {
      var ys := Map(prefix, xs);
      StripPrefixOfConcat(prefix, xs[0]);
      assert Undecorate(prefix, ys[0]) == Some(xs[0]);
      UndecorateMap(prefix, xs[1..]);
      assert ys[1..] == Map(prefix, xs[1..]);
      assert [xs[0]] + xs[1..] == xs;
    }
  }

  /** Stripping the decoration from the delivered stream recovers exactly the
      raw events that passed the filter. */
  lemma PipelineRoundTrip(prefix: string, raw: seq<string>)
    ensures UndecorateAll(prefix, Pipeline(prefix, raw)) == Some(Filter(raw))
  {
    UndecorateMap(prefix, Filter(raw));
  }

  /** Filtering on the raw text, then decorating, equals decorating and then
      filtering on the decorated text, for a decoration that cannot take part
      in a "mimic". */
  lemma {:induction false} FilterMapCommute(prefix: string, raw: seq<string>)
    requires Clear(prefix, Excluded)
    ensures Pipeline(prefix, raw) == Filter(Map(prefix, raw))
    decreases |raw|
  {
    if raw != [] {
      IncludesAfterClearPrefix(prefix, raw[0], Excluded);
      FilterMapCommute(prefix, raw[1..]);
      assert Map(prefix, raw)[1..] == Map(prefix, raw[1..]);
    }
  }

  /** Neither service's decoration can contribute to a "mimic". */
  lemma DecorationsClearOfExcluded()
    ensures Clear(DungeonEventPrefix, Excluded)
    ensures Clear(DungeonMasterPrefix, Excluded)
  {
    assert ClearFrom(DungeonEventPrefix, Excluded, 9);
    assert ClearFrom(DungeonEventPrefix, Excluded, 0);
  }

  /** "A mimic attacks!" never reaches a subscriber of either service. */
  lemma MimicIsDropped(prefix: string)
    ensures !Keep("A mimic attacks!")
    ensures Pipeline(prefix, ["A mimic attacks!"]) == []
  {
    assert MatchesAt("A mimic attacks!", Excluded, 2, 0);
    PipelineSingle(prefix, "A mimic attacks!");
  }

  /** Of the catalog, the filter stage drops exactly "A mimic attacks!". */
  lemma OnlyMimicDropped(e: string)
    requires e in Catalog.Events
    ensures Keep(e) <==> e != "A mimic attacks!"
  {
    MimicIsDropped("");
    FirstCharAbsent("A dragon appears!", Excluded);
    FirstCharAbsent("You find a hidden door.", Excluded);
    FirstCharAbsent("The ground shakes...", Excluded);
    FirstCharAbsent("A Goblin appears!", Excluded);
  }
}
