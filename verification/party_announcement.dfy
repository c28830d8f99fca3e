/** The party-announcement component: it subscribes to the dungeon-event
    service and, for each delivered string, pushes at most one announcement
    chosen by an ordered keyword test. It sees the decorated text. */
module PartyAnnouncement {
  import opened Wrappers
  import opened Text
  import opened Transform
  import Catalog

  /** "⚔️ The party prepares for battle with the dragon!" */
  const BattleText: string := "\U{2694}\U{FE0F} The party prepares for battle with the dragon!"
  /** "💎 The party finds treasure and celebrates!" */
  const TreasureText: string := "\U{1F48E} The party finds treasure and celebrates!"
  /** "🚪 The party cautiously opens a mysterious door." */
  const DoorText: string := "\U{1F6AA} The party cautiously opens a mysterious door."

  /** The if / else-if chain on "dragon", "treasure", "door", first match
      wins; it has no else branch, so other text yields nothing. */
  function Classify(s: string): (r: Option<string>)
    ensures r == Some(BattleText) <==> Includes(s, "dragon")
    ensures r == Some(TreasureText) <==> !Includes(s, "dragon") && Includes(s, "treasure")
    ensures r == Some(DoorText) <==>
              !Includes(s, "dragon") && !Includes(s, "treasure") && Includes(s, "door")
    ensures r.None? <==>
              !Includes(s, "dragon") && !Includes(s, "treasure") && !Includes(s, "door")
  {
    assert BattleText != TreasureText && BattleText != DoorText && TreasureText != DoorText;
    if Includes(s, "dragon") then Some(BattleText)
    else if Includes(s, "treasure") then Some(TreasureText)
    else if Includes(s, "door") then Some(DoorText)
    else None
  }

  /** The subscriber callback: grows the announcements by one exactly when
      the string is classified, and never touches earlier entries. */
  function React(anns: seq<string>, s: string): (r: seq<string>)
    ensures |r| == |anns| + 1 <==> Classify(s).Some?
    ensures |r| == |anns| <==> Classify(s).None?
    ensures |anns| <= |r| && r[..|anns|] == anns
    ensures Classify(s).Some? ==> r[|anns|] == Classify(s).value
  {
    match Classify(s)
    case Some(a) => anns + [a]
    case None => anns
  }

  predicate IsAnnouncement(x: string) {
    x == BattleText || x == TreasureText || x == DoorText
  }

  /** The callback run once per delivered string, in delivery order. */
  function Announce(anns: seq<string>, delivered: seq<string>): (r: seq<string>)
    ensures |anns| <= |r| <= |anns| + |delivered|
    ensures r[..|anns|] == anns
    ensures forall k | |anns| <= k < |r| :: IsAnnouncement(r[k])
    decreases |delivered|
  {
    if delivered == [] then anns
    else Announce(React(anns, delivered[0]), delivered[1..])
  }

  /** Folding over two runs of deliveries is folding over the first run and
      then over the second from where it left off. */
  lemma {:induction false} AnnounceConcat(anns: seq<string>, a: seq<string>, b: seq<string>)
    ensures Announce(anns, a + b) == Announce(Announce(anns, a), b)
    decreases |a|
  {
    if a == [] {
      assert a + b == b;
    } else {
      assert (a + b)[1..] == a[1..] + b;
      AnnounceConcat(React(anns, a[0]), a[1..], b);
    }
  }

  /** Reacting to one more delivery after a run is the same as folding over
      the run extended by that delivery. */
  lemma AnnounceSnoc(anns: seq<string>, delivered: seq<string>, x: string)
    ensures Announce(anns, delivered + [x]) == React(Announce(anns, delivered), x)
  {
    AnnounceConcat(anns, delivered, [x]);
    assert [x][1..] == [];
  }

  /** The announcements after a run are the old ones followed by what the
      same run adds to an empty list. */
  lemma {:induction false} AnnounceAppends(anns: seq<string>, delivered: seq<string>)
    ensures Announce(anns, delivered) == anns + Announce([], delivered)
    decreases |delivered|
  {
    if delivered != [] {
      var x := delivered[0];
      AnnounceAppends(React(anns, x), delivered[1..]);
      AnnounceAppends(React([], x), delivered[1..]);
      assert React(anns, x) == anns + React([], x);
    }
  }

  /** The positions `j >= i` of `delivered` whose string the chain
      classifies, in increasing order. */
  function ClassifiedFrom(delivered: seq<string>, i: nat): (idx: seq<nat>)
    requires i <= |delivered|
    ensures forall k | 0 <= k < |idx| ::
              i <= idx[k] < |delivered| && Classify(delivered[idx[k]]).Some?
    ensures forall k, l | 0 <= k < l < |idx| :: idx[k] < idx[l]
    ensures forall j | i <= j < |delivered| && Classify(delivered[j]).Some? :: j in idx
    decreases |delivered| - i
  {
    if i == |delivered| then []
    else if Classify(delivered[i]).Some? then [i] + ClassifiedFrom(delivered, i + 1)
    else ClassifiedFrom(delivered, i + 1)
  }

  function Classified(delivered: seq<string>): seq<nat> {
    ClassifiedFrom(delivered, 0)
  }

  /** From an empty list, the run `delivered[i..]` announces the classification
      of each classified position from `i` on, in order. */
  ghost predicate AnnounceImageFrom(delivered: seq<string>, i: nat)
    requires i <= |delivered|
  {
    && |Announce([], delivered[i..])| == |ClassifiedFrom(delivered, i)|
    && forall k | 0 <= k < |ClassifiedFrom(delivered, i)| ::
         Announce([], delivered[i..])[k] == Classify(delivered[ClassifiedFrom(delivered, i)[k]]).value
  }

  lemma {:induction false} AnnounceFromIsImage(delivered: seq<string>, i: nat)
    requires i <= |delivered|
    ensures AnnounceImageFrom(delivered, i)
    decreases |delivered| - i
  {
    if i < |delivered| {
      AnnounceFromIsImage(delivered, i + 1);
      AnnounceFromStep(delivered, i);
    } else {
      assert delivered[i..] == [];
    }
  }

  /** One step of the induction above: position `i` either contributes its
      announcement in front of the rest or contributes nothing. */
  lemma AnnounceFromStep(delivered: seq<string>, i: nat)
    requires i < |delivered| && AnnounceImageFrom(delivered, i + 1)
    ensures AnnounceImageFrom(delivered, i)
  {
    var rest := delivered[i..];
    var x := delivered[i];
    assert rest[0] == x && rest[1..] == delivered[i + 1..];
    var tail := Announce([], delivered[i + 1..]);
    AnnounceAppends(React([], x), delivered[i + 1..]);
    assert Announce([], rest) == React([], x) + tail;
    if Classify(x).Some? {
      AnnounceFromKept(delivered, i, tail, ClassifiedFrom(delivered, i + 1));
    } else {
      assert Announce([], rest) == tail;
    }
  }

  lemma AnnounceFromKept(delivered: seq<string>, i: nat, tail: seq<string>, idx: seq<nat>)
    requires i < |delivered| && Classify(delivered[i]).Some?
    requires tail == Announce([], delivered[i + 1..]) && idx == ClassifiedFrom(delivered, i + 1)
    requires Announce([], delivered[i..]) == React([], delivered[i]) + tail
    requires |tail| == |idx|
    requires forall k | 0 <= k < |idx| ::
               idx[k] < |delivered| && tail[k] == Classify(delivered[idx[k]]).value
    ensures AnnounceImageFrom(delivered, i)
  {
    assert React([], delivered[i]) == [Classify(delivered[i]).value];
    assert ClassifiedFrom(delivered, i) == [i] + idx;
  }

  /** A run of deliveries appends one announcement per classified string, in
      delivery order, each the classification of that string; earlier
      announcements stay as they were. */
  lemma AnnounceIsImage(anns: seq<string>, delivered: seq<string>)
    ensures |Announce(anns, delivered)| == |anns| + |Classified(delivered)|
    ensures Announce(anns, delivered)[..|anns|] == anns
    ensures forall k | 0 <= k < |Classified(delivered)| ::
              Announce(anns, delivered)[|anns| + k]
                == Classify(delivered[Classified(delivered)[k]]).value
  {
    AnnounceFromIsImage(delivered, 0);
    assert delivered[0..] == delivered;
    AnnounceAppends(anns, delivered);
  }

  /** The dungeon-event decoration cannot contribute to any keyword. */
  lemma DecorationClearOfKeywords()
    ensures Clear(DungeonEventPrefix, "dragon")
    ensures Clear(DungeonEventPrefix, "treasure")
    ensures Clear(DungeonEventPrefix, "door")
  {
    assert ClearFrom(DungeonEventPrefix, "dragon", 9);
    assert ClearFrom(DungeonEventPrefix, "treasure", 9);
    assert ClearFrom(DungeonEventPrefix, "door", 9);
  }

  /** Classifying the decorated text gives the same answer as classifying
      the raw event. */
  lemma ClassifyIgnoresDecoration(e: string)
    ensures Classify(Decorate(DungeonEventPrefix, e)) == Classify(e)
  {
    DecorationClearOfKeywords();
    IncludesAfterClearPrefix(DungeonEventPrefix, e, "dragon");
    IncludesAfterClearPrefix(DungeonEventPrefix, e, "treasure");
    IncludesAfterClearPrefix(DungeonEventPrefix, e, "door");
  }

  /** "A dragon appears!" calls the party to battle. */
  lemma DragonEventClassified()
    ensures Classify(Catalog.Events[0]) == Some(BattleText)
  {
    assert MatchesAt("A dragon appears!", "dragon", 2, 0);
  }

  /** "You find a hidden door." mentions no dragon: each of its `d`s is
      followed by something other than `r`. */
  lemma DoorEventWithoutDragon()
    ensures !Includes(Catalog.Events[1], "dragon")
  {
    var e := "You find a hidden door.";
    SkipFirstCharFree(e, "dragon", 0, 7);
    assert !MatchesAt(e, "dragon", 7, 0);
    SkipFirstCharFree(e, "dragon", 8, 13);
    assert !MatchesAt(e, "dragon", 13, 0);
    assert !MatchesAt(e, "dragon", 14, 0);
    assert !SearchFrom(e, "dragon", 15);
  }

  /** "You find a hidden door." mentions a door, at offset 18. */
  lemma DoorEventWithDoor()
    ensures Includes(Catalog.Events[1], "door")
  {
    var e := "You find a hidden door.";
    SkipFirstCharFree(e, "door", 0, 7);
    SkipFirstCharFree(e, "door", 8, 13);
    SkipFirstCharFree(e, "door", 15, 18);
    assert MatchesAt(e, "door", 18, 0);
    assert SearchFrom(e, "door", 14);
    assert SearchFrom(e, "door", 13);
    assert SearchFrom(e, "door", 7);
  }

  /** "You find a hidden door." has the party open the door. */
  lemma DoorEventClassified()
    ensures Classify(Catalog.Events[1]) == Some(DoorText)
  {
    DoorEventWithoutDragon();
    FirstCharAbsent("You find a hidden door.", "treasure");
    DoorEventWithDoor();
  }

  /** "A mimic attacks!" mentions no keyword. */
  lemma MimicEventUnclassified()
    ensures Classify(Catalog.Events[2]) == None
  {
    var e := "A mimic attacks!";
    FirstCharAbsent(e, "dragon");
    SkipFirstCharFree(e, "treasure", 0, 9);
    assert !SearchFrom(e, "treasure", 9);
    FirstCharAbsent(e, "door");
  }

  /** "The ground shakes..." mentions no keyword. */
  lemma GroundEventUnclassified()
    ensures Classify(Catalog.Events[3]) == None
  {
    var e := "The ground shakes...";
    SkipFirstCharFree(e, "dragon", 0, 9);
    assert !MatchesAt(e, "dragon", 9, 0);
    SkipFirstCharFree(e, "dragon", 10, 20);
    FirstCharAbsent(e, "treasure");
    SkipFirstCharFree(e, "door", 0, 9);
    assert !MatchesAt(e, "door", 9, 0);
    SkipFirstCharFree(e, "door", 10, 20);
  }

  /** "A Goblin appears!" mentions no keyword. */
  lemma GoblinEventUnclassified()
    ensures Classify(Catalog.Events[4]) == None
  {
    var e := "A Goblin appears!";
    FirstCharAbsent(e, "dragon");
    FirstCharAbsent(e, "treasure");
    FirstCharAbsent(e, "door");
  }

  /** What each catalog event makes the party announce. */
  lemma CatalogClassification(e: string)
    requires e in Catalog.Events
    ensures e == "A dragon appears!" ==> Classify(e) == Some(BattleText)
    ensures e == "You find a hidden door." ==> Classify(e) == Some(DoorText)
    ensures e != "A dragon appears!" && e != "You find a hidden door." ==> Classify(e).None?
  {
    if e == Catalog.Events[0] {
      DragonEventClassified();
    } else if e == Catalog.Events[1] {
      DoorEventClassified();
    } else if e == Catalog.Events[2] {
      MimicEventUnclassified();
    } else if e == Catalog.Events[3] {
      GroundEventUnclassified();
    } else {
      GoblinEventUnclassified();
    }
  }

  /** Over the real catalog the treasure announcement is unreachable, whether
      the raw or the decorated text is classified. */
  lemma TreasureUnreachable(e: string)
    requires e in Catalog.Events
    ensures Classify(e) != Some(TreasureText)
    ensures Classify(Decorate(DungeonEventPrefix, e)) != Some(TreasureText)
  {
    CatalogClassification(e);
    ClassifyIgnoresDecoration(e);
  }
}
