/** The running application: the two root-provided services, each a subject
    fed by its own timer, and one instance of each of the three components
    that may subscribe to them. The dungeon view and the party announcements listen to the dungeon-event
    service; the dungeon log listens to the dungeon-master service (its
    constructor parameter is called `dungeonEventService` but is typed
    `DungeonMasterService`). Every step below is one callback the browser
    would run: a lifecycle hook or a timer tick. */
module Dungeon {
  import opened Wrappers
  import opened Transform
  import Catalog
  import Bus
  import VerbatimLog
  import Party = PartyAnnouncement

  /** Where a component is in its lifecycle; after `ngOnInit` the component
      holds the handle of its subscription in `eventSubscription`. */
  datatype Phase = Created | Subscribed(handle: nat) | Destroyed(handle: nat)

  /** `DungeonComponent` or `DungeonLogComponent`. */
  datatype LogComponent = LogComponent(phase: Phase, events: seq<string>)

  /** `PartyAnnouncementComponent`. */
  datatype PartyComponent = PartyComponent(phase: Phase, announcements: seq<string>)

  datatype App = App(eventService: Bus.Bus, masterService: Bus.Bus,
                     dungeon: LogComponent, dungeonLog: LogComponent,
                     party: PartyComponent)

  /** The component's phase matches the state of its handle on the bus. */
  predicate Agrees(b: Bus.Bus, ph: Phase) {
    match ph
    case Created => true
    case Subscribed(h) => Bus.IsActive(b, h)
    case Destroyed(h) => h in b.subs && !Bus.IsActive(b, h)
  }

  /** What the bus has delivered to the component's subscription. */
  function Received(b: Bus.Bus, ph: Phase): seq<string>
    requires Agrees(b, ph)
  {
    if ph.Created? then [] else b.subs[ph.handle].received
  }

  /** Two components on one bus never share a handle. */
  predicate Apart(p: Phase, q: Phase) {
    p.Created? || q.Created? || p.handle != q.handle
  }

  /** The application invariant: each bus is faithful, only catalog events
      were ever published, and each component's view is its callback folded
      over exactly what its subscription received. */
  ghost predicate Valid(a: App) {
    && Bus.Valid(a.eventService) && Bus.Valid(a.masterService)
    && a.eventService.prefix == DungeonEventPrefix
    && a.masterService.prefix == DungeonMasterPrefix
    && Catalog.AllInCatalog(a.eventService.published)
    && Catalog.AllInCatalog(a.masterService.published)
    && Agrees(a.eventService, a.dungeon.phase)
    && Agrees(a.eventService, a.party.phase)
    && Agrees(a.masterService, a.dungeonLog.phase)
    && Apart(a.dungeon.phase, a.party.phase)
    && a.dungeon.events == Received(a.eventService, a.dungeon.phase)
    && a.dungeonLog.events == Received(a.masterService, a.dungeonLog.phase)
    && a.party.announcements == Party.Announce([], Received(a.eventService, a.party.phase))
  }

  /** Start-up: both services exist with nobody subscribed, and every
      component's array starts empty. */
  function Boot(): (a: App)
    ensures Valid(a)
    ensures a.dungeon.events == [] && a.dungeonLog.events == [] && a.party.announcements == []
  {
    App(Bus.Create(DungeonEventPrefix), Bus.Create(DungeonMasterPrefix),
        LogComponent(Created, []), LogComponent(Created, []),
        PartyComponent(Created, []))
  }

  /** A new subscription on a bus leaves what another component of that bus
      sees as it was, and gets a handle apart from that component's. */
  lemma SubscribeKeepsView(b: Bus.Bus, ph: Phase)
    requires Bus.Valid(b) && Agrees(b, ph)
    ensures Agrees(Bus.Subscribe(b).0, ph)
    ensures Received(Bus.Subscribe(b).0, ph) == Received(b, ph)
    ensures Apart(Subscribed(Bus.Subscribe(b).1), ph)
  {
  }

  /** Ending one handle leaves what a component holding another handle sees
      as it was. */
  lemma UnsubscribeKeepsView(b: Bus.Bus, h: nat, ph: Phase)
    requires Agrees(b, ph) && Apart(Subscribed(h), ph)
    ensures Agrees(Bus.Unsubscribe(b, h), ph)
    ensures Received(Bus.Unsubscribe(b, h), ph) == Received(b, ph)
  {
  }

  /** Ending a component's own handle freezes what it has seen. */
  lemma UnsubscribeEndsView(b: Bus.Bus, h: nat)
    requires Bus.IsActive(b, h)
    ensures Agrees(Bus.Unsubscribe(b, h), Destroyed(h))
    ensures Received(Bus.Unsubscribe(b, h), Destroyed(h)) == Received(b, Subscribed(h))
  {
  }

  /** `DungeonComponent.ngOnInit`: subscribes to the dungeon-event service
      and keeps the handle. */
  function InitDungeon(a: App): (r: App)
    requires Valid(a) && a.dungeon.phase.Created?
    ensures Valid(r)
    ensures r.dungeon.phase.Subscribed? && r.dungeon.events == []
    ensures r.party == a.party && r.dungeonLog == a.dungeonLog
    ensures r.masterService == a.masterService
  {
    Bus.SubscribeKeepsValid(a.eventService);
    SubscribeKeepsView(a.eventService, a.party.phase);
    var (bus, h) := Bus.Subscribe(a.eventService);
    a.(eventService := bus, dungeon := a.dungeon.(phase := Subscribed(h)))
  }

  /** `DungeonComponent.ngOnDestroy`: ends the stored subscription. */
  function DestroyDungeon(a: App): (r: App)
    requires Valid(a) && a.dungeon.phase.Subscribed?
    ensures Valid(r)
    ensures r.dungeon.phase.Destroyed? && r.dungeon.events == a.dungeon.events
    ensures r.party == a.party && r.dungeonLog == a.dungeonLog
    ensures r.masterService == a.masterService
  {
    var h := a.dungeon.phase.handle;
    Bus.UnsubscribeKeepsValid(a.eventService, h);
    UnsubscribeKeepsView(a.eventService, h, a.party.phase);
    UnsubscribeEndsView(a.eventService, h);
    a.(eventService := Bus.Unsubscribe(a.eventService, h),
       dungeon := a.dungeon.(phase := Destroyed(h)))
  }

  /** `DungeonLogComponent.ngOnInit`: subscribes to the dungeon-master service. */
  function InitDungeonLog(a: App): (r: App)
    requires Valid(a) && a.dungeonLog.phase.Created?
    ensures Valid(r)
    ensures r.dungeonLog.phase.Subscribed? && r.dungeonLog.events == []
    ensures r.dungeon == a.dungeon && r.party == a.party
    ensures r.eventService == a.eventService
  {
    Bus.SubscribeKeepsValid(a.masterService);
    var (bus, h) := Bus.Subscribe(a.masterService);
    a.(masterService := bus, dungeonLog := a.dungeonLog.(phase := Subscribed(h)))
  }

  /** `DungeonLogComponent.ngOnDestroy`. */
  function DestroyDungeonLog(a: App): (r: App)
    requires Valid(a) && a.dungeonLog.phase.Subscribed?
    ensures Valid(r)
    ensures r.dungeonLog.phase.Destroyed? && r.dungeonLog.events == a.dungeonLog.events
    ensures r.dungeon == a.dungeon && r.party == a.party
    ensures r.eventService == a.eventService
  {
    var h := a.dungeonLog.phase.handle;
    Bus.UnsubscribeKeepsValid(a.masterService, h);
    UnsubscribeEndsView(a.masterService, h);
    a.(masterService := Bus.Unsubscribe(a.masterService, h),
       dungeonLog := a.dungeonLog.(phase := Destroyed(h)))
  }

  /** `PartyAnnouncementComponent.ngOnInit`: subscribes to the dungeon-event
      service, next to the dungeon view. */
  function InitParty(a: App): (r: App)
    requires Valid(a) && a.party.phase.Created?
    ensures Valid(r)
    ensures r.party.phase.Subscribed? && r.party.announcements == []
    ensures r.dungeon == a.dungeon && r.dungeonLog == a.dungeonLog
    ensures r.masterService == a.masterService
  {
    Bus.SubscribeKeepsValid(a.eventService);
    SubscribeKeepsView(a.eventService, a.dungeon.phase);
    var (bus, h) := Bus.Subscribe(a.eventService);
    a.(eventService := bus, party := a.party.(phase := Subscribed(h)))
  }

  /** `PartyAnnouncementComponent.ngOnDestroy`. */
  function DestroyParty(a: App): (r: App)
    requires Valid(a) && a.party.phase.Subscribed?
    ensures Valid(r)
    ensures r.party.phase.Destroyed? && r.party.announcements == a.party.announcements
    ensures r.dungeon == a.dungeon && r.dungeonLog == a.dungeonLog
    ensures r.masterService == a.masterService
  {
    var h := a.party.phase.handle;
    Bus.UnsubscribeKeepsValid(a.eventService, h);
    UnsubscribeKeepsView(a.eventService, h, a.dungeon.phase);
    UnsubscribeEndsView(a.eventService, h);
    a.(eventService := Bus.Unsubscribe(a.eventService, h),
       party := a.party.(phase := Destroyed(h)))
  }

  /** A log component's array tracks its subscription across a publication. */
  lemma LogTracksPublish(b: Bus.Bus, c: LogComponent, e: string)
    requires Bus.Valid(b) && Agrees(b, c.phase) && c.events == Received(b, c.phase)
    ensures Agrees(Bus.Publish(b, e), c.phase)
    ensures (if c.phase.Subscribed?
             then c.(events := VerbatimLog.Record(c.events, Pipeline(b.prefix, [e])))
             else c).events == Received(Bus.Publish(b, e), c.phase)
  {
    match c.phase
    case Created =>
    case Subscribed(h) => Bus.PublishReachesActive(b, e, h);
    case Destroyed(h) => Bus.PublishSkipsInactive(b, e, h);
  }

  /** The party's announcements track its subscription across a publication. */
  lemma PartyTracksPublish(b: Bus.Bus, c: PartyComponent, e: string)
    requires Bus.Valid(b) && Agrees(b, c.phase)
    requires c.announcements == Party.Announce([], Received(b, c.phase))
    ensures Agrees(Bus.Publish(b, e), c.phase)
    ensures (if c.phase.Subscribed?
             then c.(announcements := Party.Announce(c.announcements, Pipeline(b.prefix, [e])))
             else c).announcements == Party.Announce([], Received(Bus.Publish(b, e), c.phase))
  {
    match c.phase
    case Created =>
    case Subscribed(h) =>
      Bus.PublishReachesActive(b, e, h);
      Party.AnnounceConcat([], b.subs[h].received, Pipeline(b.prefix, [e]));
    case Destroyed(h) => Bus.PublishSkipsInactive(b, e, h);
  }

  /** One tick of the dungeon-event service's timer with random draw `u`: the
      picked event is pushed into the subject, and each subscribed component's
      callback runs on what its `getEvents()` chain lets through. */
  function TickEventService(a: App, u: real): (r: App)
    requires Valid(a) && 0.0 <= u < 1.0
    ensures Valid(r)
    ensures r.eventService.published == a.eventService.published + [Catalog.Pick(u)]
    ensures r.masterService == a.masterService && r.dungeonLog == a.dungeonLog
  {
    var e := Catalog.Pick(u);
    var out := Pipeline(a.eventService.prefix, [e]);
    Bus.PublishKeepsValid(a.eventService, e);
    Catalog.AllInCatalogAppend(a.eventService.published, u);
    LogTracksPublish(a.eventService, a.dungeon, e);
    PartyTracksPublish(a.eventService, a.party, e);
    a.(eventService := Bus.Publish(a.eventService, e),
       dungeon := if a.dungeon.phase.Subscribed?
                  then a.dungeon.(events := VerbatimLog.Record(a.dungeon.events, out))
                  else a.dungeon,
       party := if a.party.phase.Subscribed?
                then a.party.(announcements := Party.Announce(a.party.announcements, out))
                else a.party)
  }

  /** One tick of the dungeon-master service's timer with random draw `u`. */
  function TickMasterService(a: App, u: real): (r: App)
    requires Valid(a) && 0.0 <= u < 1.0
    ensures Valid(r)
    ensures r.masterService.published == a.masterService.published + [Catalog.Pick(u)]
    ensures r.eventService == a.eventService && r.dungeon == a.dungeon && r.party == a.party
  {
    var e := Catalog.Pick(u);
    var out := Pipeline(a.masterService.prefix, [e]);
    Bus.PublishKeepsValid(a.masterService, e);
    Catalog.AllInCatalogAppend(a.masterService.published, u);
    LogTracksPublish(a.masterService, a.dungeonLog, e);
    a.(masterService := Bus.Publish(a.masterService, e),
       dungeonLog := if a.dungeonLog.phase.Subscribed?
                     then a.dungeonLog.(events := VerbatimLog.Record(a.dungeonLog.events, out))
                     else a.dungeonLog)
  }

  /** One callback the browser may run next. */
  datatype Step =
    | InitDungeonStep | DestroyDungeonStep
    | InitDungeonLogStep | DestroyDungeonLogStep
    | InitPartyStep | DestroyPartyStep
    | EventTick(u: real) | MasterTick(u: real)

  /** The framework calls `ngOnInit` once and `ngOnDestroy` once after it;
      a draw of `Math.random()` lies in [0, 1). */
  predicate Enabled(a: App, s: Step) {
    match s
    case InitDungeonStep => a.dungeon.phase.Created?
    case DestroyDungeonStep => a.dungeon.phase.Subscribed?
    case InitDungeonLogStep => a.dungeonLog.phase.Created?
    case DestroyDungeonLogStep => a.dungeonLog.phase.Subscribed?
    case InitPartyStep => a.party.phase.Created?
    case DestroyPartyStep => a.party.phase.Subscribed?
    case EventTick(u) => 0.0 <= u < 1.0
    case MasterTick(u) => 0.0 <= u < 1.0
  }

  /** Every callback the browser may run keeps the application invariant. */
  function Next(a: App, s: Step): (r: App)
    requires Valid(a) && Enabled(a, s)
    ensures Valid(r)
  {
    match s
    case InitDungeonStep => InitDungeon(a)
    case DestroyDungeonStep => DestroyDungeon(a)
    case InitDungeonLogStep => InitDungeonLog(a)
    case DestroyDungeonLogStep => DestroyDungeonLog(a)
    case InitPartyStep => InitParty(a)
    case DestroyPartyStep => DestroyParty(a)
    case EventTick(u) => TickEventService(a, u)
    case MasterTick(u) => TickMasterService(a, u)
  }

  /** Runs `steps` from `a`, stopping at the first one the framework would
      not run in that state. */
  function Run(a: App, steps: seq<Step>): (r: App)
    requires Valid(a)
    ensures Valid(r)
    decreases |steps|
  {
    if steps == [] || !Enabled(a, steps[0]) then a
    else Run(Next(a, steps[0]), steps[1..])
  }

  /** A raw event that passed the filter, was decorated with `prefix`, and
      came from the catalog. */
  predicate DecoratedCatalogEvent(prefix: string, x: string) {
    var raw := Undecorate(prefix, x);
    raw.Some? && raw.value in Catalog.Events && Keep(raw.value) && raw.value != "A mimic attacks!"
  }

  lemma ReceivedAreDecoratedCatalogEvents(b: Bus.Bus, ph: Phase)
    requires Bus.Valid(b) && Agrees(b, ph)
    requires Catalog.AllInCatalog(b.published)
    ensures forall x | x in Received(b, ph) :: DecoratedCatalogEvent(b.prefix, x)
  {
    Catalog.AllInCatalogIff(b.published);
    MimicIsDropped(b.prefix);
    if !ph.Created? {
      var s := b.subs[ph.handle];
      var window := b.published[s.start..Bus.End(s, |b.published|)];
      PipelineProvenance(b.prefix, window);
    }
  }

  /** Composed with its service, every entry of the dungeon view is a
      catalog event other than the mimic, decorated with "🧙 Dungeon Event: ". */
  lemma DungeonEntriesFromCatalog(a: App)
    requires Valid(a)
    ensures forall x | x in a.dungeon.events :: DecoratedCatalogEvent(DungeonEventPrefix, x)
  {
    ReceivedAreDecoratedCatalogEvents(a.eventService, a.dungeon.phase);
  }

  /** Composed with its service, every entry of the dungeon log is a catalog
      event other than the mimic, decorated with "🧙 Event: ". */
  lemma DungeonLogEntriesFromCatalog(a: App)
    requires Valid(a)
    ensures forall x | x in a.dungeonLog.events :: DecoratedCatalogEvent(DungeonMasterPrefix, x)
  {
    ReceivedAreDecoratedCatalogEvents(a.masterService, a.dungeonLog.phase);
  }

  lemma {:induction false} AnnounceOverCatalog(anns: seq<string>, delivered: seq<string>)
    requires forall x | x in delivered :: DecoratedCatalogEvent(DungeonEventPrefix, x)
    ensures forall k | |anns| <= k < |Party.Announce(anns, delivered)| ::
              Party.Announce(anns, delivered)[k] in {Party.BattleText, Party.DoorText}
    decreases |delivered|
  {
    if delivered != [] {
      var x := delivered[0];
      assert x in delivered;
      var raw := Undecorate(DungeonEventPrefix, x).value;
      Party.ClassifyIgnoresDecoration(raw);
      Party.CatalogClassification(raw);
      var next := Party.React(anns, x);
      AnnounceOverCatalog(next, delivered[1..]);
      assert Party.Announce(anns, delivered) == Party.Announce(next, delivered[1..]);
    }
  }

  /** Over the real catalog the party only ever calls for battle or opens a
      door; the treasure announcement never appears. */
  lemma PartyOnlyBattleOrDoor(a: App)
    requires Valid(a)
    ensures forall x | x in a.party.announcements :: x == Party.BattleText || x == Party.DoorText
    ensures Party.TreasureText !in a.party.announcements
  {
    ReceivedAreDecoratedCatalogEvents(a.eventService, a.party.phase);
    AnnounceOverCatalog([], Received(a.eventService, a.party.phase));
    assert Party.TreasureText != Party.BattleText && Party.TreasureText != Party.DoorText;
  }

  /** After `ngOnDestroy`, timer ticks leave a component's view as it was. */
  lemma DestroyedViewsFrozen(a: App, u: real)
    requires Valid(a) && 0.0 <= u < 1.0
    ensures a.dungeon.phase.Destroyed? ==> TickEventService(a, u).dungeon == a.dungeon
    ensures a.party.phase.Destroyed? ==> TickEventService(a, u).party == a.party
    ensures a.dungeonLog.phase.Destroyed? ==> TickMasterService(a, u).dungeonLog == a.dungeonLog
  {
  }

  /** A tick that picks "A mimic attacks!" adds nothing to any view. */
  lemma MimicTickIsSilent(a: App, u: real)
    requires Valid(a) && 0.0 <= u < 1.0 && Catalog.Pick(u) == "A mimic attacks!"
    ensures TickEventService(a, u).dungeon == a.dungeon
    ensures TickEventService(a, u).party == a.party
    ensures TickMasterService(a, u).dungeonLog == a.dungeonLog
  {
    MimicIsDropped(DungeonEventPrefix);
    MimicIsDropped(DungeonMasterPrefix);
  }

  /** Scenario: the dungeon log subscribes, then one dungeon-master tick
      picks the dragon; the log reads "🧙 Event: A dragon appears!". */
  lemma DragonReachesDungeonLog()
    ensures TickMasterService(InitDungeonLog(Boot()), 0.0).dungeonLog.events
              == ["\U{1F9D9} Event: " + "A dragon appears!"]
  {
    Catalog.EveryIndexDrawable(0, 5);
    assert Catalog.Pick(0.0) == "A dragon appears!";
    PipelineSingle(DungeonMasterPrefix, "A dragon appears!");
    OnlyMimicDropped("A dragon appears!");
  }

  /** A dungeon-event tick that picks anything but the mimic reaches every
      subscribed listener of that service as one decorated string. */
  lemma KeptEventTickDelivers(a: App, u: real)
    requires Valid(a) && 0.0 <= u < 1.0 && Catalog.Pick(u) != "A mimic attacks!"
    ensures var x := Decorate(DungeonEventPrefix, Catalog.Pick(u));
            && (a.dungeon.phase.Subscribed? ==>
                  TickEventService(a, u).dungeon.events == a.dungeon.events + [x])
            && (a.party.phase.Subscribed? ==>
                  TickEventService(a, u).party.announcements == Party.React(a.party.announcements, x))
  {
    var e := Catalog.Pick(u);
    OnlyMimicDropped(e);
    PipelineSingle(DungeonEventPrefix, e);
    var x := Decorate(DungeonEventPrefix, e);
    assert Party.Announce(a.party.announcements, [x])
        == Party.Announce(Party.React(a.party.announcements, x), []);
  }

  /** A dungeon-master tick that picks anything but the mimic appends one
      decorated string to a subscribed dungeon log. */
  lemma KeptMasterTickDelivers(a: App, u: real)
    requires Valid(a) && 0.0 <= u < 1.0 && Catalog.Pick(u) != "A mimic attacks!"
    ensures a.dungeonLog.phase.Subscribed? ==>
              TickMasterService(a, u).dungeonLog.events
                == a.dungeonLog.events + [Decorate(DungeonMasterPrefix, Catalog.Pick(u))]
  {
    OnlyMimicDropped(Catalog.Pick(u));
    PipelineSingle(DungeonMasterPrefix, Catalog.Pick(u));
  }

  /** The late-joiner scenario, one state per callback: the dungeon view
      subscribes, the dragon is picked, the party subscribes, the door is
      picked. */
  const DungeonJoined: App := InitDungeon(Boot())
  const DragonPicked: App := TickEventService(DungeonJoined, 0.0)
  const PartyJoined: App := InitParty(DragonPicked)
  const DoorPicked: App := TickEventService(PartyJoined, 0.2)

  /** Up to the party joining, the view holds the dragon and the party has
      announced nothing. */
  lemma DragonBeforePartyJoins()
    ensures PartyJoined.dungeon.phase.Subscribed? && PartyJoined.party.phase.Subscribed?
    ensures PartyJoined.dungeon.events == [Decorate(DungeonEventPrefix, "A dragon appears!")]
    ensures PartyJoined.party.announcements == []
  {
    Catalog.EveryIndexDrawable(0, 5);
    assert Catalog.Pick(0.0) == "A dragon appears!";
    KeptEventTickDelivers(DungeonJoined, 0.0);
  }

  /** The late joiner: the view holds both events, the party announces only
      the door, having missed the dragon. */
  lemma LateJoinerMissesEarlierEvents()
    ensures DoorPicked.dungeon.events == ["\U{1F9D9} Dungeon Event: " + "A dragon appears!",
                                          "\U{1F9D9} Dungeon Event: " + "You find a hidden door."]
    ensures DoorPicked.party.announcements == [Party.DoorText]
  {
    DragonBeforePartyJoins();
    var door := "You find a hidden door.";
    Catalog.EveryIndexDrawable(1, 5);
    assert Catalog.Pick(0.2) == door;
    KeptEventTickDelivers(PartyJoined, 0.2);
    Party.ClassifyIgnoresDecoration(door);
    Party.DoorEventClassified();
  }
}
