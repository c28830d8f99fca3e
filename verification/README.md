# DungeonOfObservables event bus, in Dafny

DungeonOfObservables is a small Angular application built around two RxJS event services.

- **Services.** `DungeonEventService` and `DungeonMasterService` each own a plain `Subject<string>`. On every tick of its timer, a service picks one of five catalog events at random and pushes it into the subject.
- **`getEvents()`.** Each service's `getEvents()` returns the subject behind a filter stage and a map stage. The filter drops every event that mentions `"mimic"`. The map prepends the service's decoration: `"🧙 Dungeon Event: "` or `"🧙 Event: "`.
- **Components.** Three components may subscribe, each in its `ngOnInit`, and unsubscribe in its `ngOnDestroy`:
  - `DungeonComponent` listens to the dungeon-event service and pushes every delivered string onto its `events` array.
  - `DungeonLogComponent` does the same on the dungeon-master service. Its constructor parameter is named `dungeonEventService` but is typed `DungeonMasterService`.
  - `PartyAnnouncementComponent` listens to the dungeon-event service and pushes at most one announcement per delivery. It tests the delivered text for "dragon", then "treasure", then "door".

The model is organised in modules:

| file | module | what it holds |
|---|---|---|
| `wrappers.dfy` | `Wrappers` | `Option` |
| `text.dfy` | `Text` | `String.prototype.includes` as a search, with the factor relation as its reference; prefix stripping; the reasoning showing that a prefix cannot take part in a match |
| `catalog.dfy` | `Catalog` | the five events and `events[Math.floor(Math.random() * events.length)]` |
| `pipeline.dfy` | `Transform` | `getEvents()` as `Pipeline(prefix, raw)`, the filter-then-map chain on sequences, with its inverse and its properties |
| `bus.dfy` | `Bus` | a subject as a state machine: a publication history and, per subscription handle, when it started and stopped and what it received |
| `verbatim_log.dfy` | `VerbatimLog` | the callback shared by the two log components |
| `party_announcement.dfy` | `PartyAnnouncement` | the keyword classifier and the announcement fold |
| `app.dfy` | `Dungeon` | the whole application as a state machine (one step per lifecycle hook or timer tick), its invariant, and theorems about the composition |

`Dungeon.Valid` is the application invariant:

- Each subscription has received exactly `Pipeline(prefix, published[start..end])`.
- Only catalog events are ever published.
- Each log component's `events` equals what its subscription received.
- The party's announcements equal the classifier folded over what its subscription received.

Every step function requires the invariant and ensures it again. The theorems about the views are then proved for every reachable state.

## Model

| member | source | states |
|---|---|---|
| Text.IncludesIffOccurs | src/app/services/dungeon-event.service.ts:45 | `Text.Includes` (the search behind `includes`) answers true exactly when the needle occurs as a contiguous factor of the text |
| Text.StripPrefix | src/app/services/dungeon-event.service.ts:46 | removing a prefix succeeds exactly when the text starts with it, and the text is then prefix followed by the remainder |
| Text.StripPrefixOfConcat | src/app/services/dungeon-event.service.ts:46 | stripping a prefix undoes prepending it |
| Text.IncludesAfterClearPrefix | src/app/components/party-announcement/party-announcement.component.ts:22-29 | behind a prefix that cannot start an occurrence of the needle, the whole text includes the needle exactly when the appended part does |
| Text.FirstCharAbsent | src/app/services/dungeon-event.service.ts:45 | a text without the needle's first character does not include the needle |
| Catalog.RandomIndex | src/app/services/dungeon-event.service.ts:36 | `Math.floor(u * n)` for a draw in [0, 1) is a valid index below `n` |
| Catalog.EveryIndexDrawable | src/app/services/dungeon-event.service.ts:35-36 | every index of the catalog is chosen by some draw (`i / n` picks `i`) |
| Catalog.Pick | src/app/services/dungeon-master.service.ts:65-69 | the event published on a tick is always a member of the five-string catalog |
| Catalog.AllInCatalogIff | src/app/services/dungeon-event.service.ts:35-37 | a history lies in the catalog element by element exactly when every event in it is a catalog entry |
| Catalog.AllInCatalogAppend | src/app/services/dungeon-master.service.ts:65-78 | appending a tick's pick to a history of catalog events keeps it a history of catalog events |
| Transform.Filter | src/app/services/dungeon-event.service.ts:45 | the filter stage never lengthens the stream |
| Transform.FilterMembers | src/app/services/dungeon-event.service.ts:45 | the filter stage keeps an event exactly when it was an input and passes `Transform.Keep`, that is, does not include "mimic" |
| Transform.Pipeline | src/app/services/dungeon-event.service.ts:43-48 | `getEvents()` never emits more strings than were pushed into the subject |
| Transform.Undecorate | src/app/services/dungeon-event.service.ts:46 | a successful strip gives the raw event whose decoration is the string; a failed strip means the string lacks the decoration |
| Transform.UndecorateAll | src/app/services/dungeon-master.service.ts:119 | a successful strip of a stream gives one raw event per string, each decorating to the string at the same position |
| Transform.SurvivorsFrom | src/app/services/dungeon-event.service.ts:45 | the surviving positions are in range, strictly increasing, all pass the filter, and include every position that passes it |
| Transform.PipelineIsImage | src/app/services/dungeon-event.service.ts:44-46 | the output has one string per surviving input, in input order, each that input's `Transform.Decorate` (the template `${prefix}${event}` applied by `Transform.Map`) |
| Transform.PipelineSingle | src/app/services/dungeon-event.service.ts:45-46 | one pushed event yields nothing if it includes "mimic" and its decoration otherwise |
| Transform.FilterConcat | src/app/services/dungeon-event.service.ts:45 | the filter distributes over concatenation |
| Transform.PipelineConcat | src/app/services/dungeon-master.service.ts:101-121 | the chain is stateless: pushing two runs one after the other yields the concatenation of their outputs |
| Transform.PipelineProvenance | src/app/services/dungeon-event.service.ts:44-46 | every emitted string strips back to a pushed event that passed the filter |
| Transform.UndecorateMap | src/app/services/dungeon-event.service.ts:46 | stripping the decoration from a decorated sequence recovers the sequence |
| Transform.PipelineRoundTrip | src/app/services/dungeon-master.service.ts:119 | stripping the decoration from the emitted stream recovers exactly the filtered raw stream |
| Transform.FilterMapCommute | src/app/services/dungeon-event.service.ts:45-46 | for a decoration that cannot take part in "mimic", filter-then-map equals map-then-filter on decorated text |
| Transform.DecorationsClearOfExcluded | src/app/services/dungeon-master.service.ts:111-119 | neither service's decoration can take part in an occurrence of "mimic" |
| Transform.MimicIsDropped | src/app/services/dungeon-master.service.ts:111 | "A mimic attacks!" fails the filter and produces no output on either service |
| Transform.OnlyMimicDropped | src/app/services/dungeon-event.service.ts:35-45 | of the catalog, the filter drops exactly "A mimic attacks!" |
| Bus.Create | src/app/services/dungeon-master.service.ts:19 | a new subject has no history and no active subscription, and satisfies the bus invariant |
| Bus.Subscribe | src/app/components/dungeon/dungeon.component.ts:29 | subscribing returns a fresh, active handle with nothing received; existing subscriptions and the history are untouched |
| Bus.Unsubscribe | src/app/components/dungeon/dungeon.component.ts:44 | after unsubscribing, the handle is inactive and keeps what it received; every other subscription is untouched |
| Bus.Publish | src/app/services/dungeon-master.service.ts:78 | `next(e)` extends the history by `e` and neither adds nor removes handles |
| Bus.PublishReachesActive | src/app/services/dungeon-master.service.ts:78 | multicast: every active subscription receives the chain's output for `e` after what it had (`Bus.Deliver`), and stays active |
| Bus.PublishSkipsInactive | src/app/services/dungeon-master.service.ts:19 | a subscription that has been ended is unchanged by a publication |
| Bus.SubscribeKeepsValid | src/app/components/dungeon/dungeon.component.ts:29 | subscribing keeps every subscription faithful to the history |
| Bus.UnsubscribeKeepsValid | src/app/components/dungeon/dungeon-log.component.ts:37 | unsubscribing keeps every subscription faithful to the history |
| Bus.DeliverKeepsFaithful | src/app/services/dungeon-event.service.ts:37 | an active subscription extended by the output for `e` covers the history extended by `e`; an ended one still covers its old window |
| Bus.PublishKeepsValid | src/app/services/dungeon-event.service.ts:37 | publishing keeps every subscription faithful to the history |
| Bus.PublishAll | src/app/services/dungeon-event.service.ts:34-38 | a run of ticks appends its events to the history and keeps the set of handles |
| Bus.PublishAllInOrder | src/app/services/dungeon-master.service.ts:78 | FIFO: a subscription active throughout receives the chain's output for a run of publications, in publication order |
| Bus.LateJoinerSeesOnlyLaterEvents | src/app/components/party-announcement/party-announcement.component.ts:22 | no replay: a new subscription receives exactly the output for what is published after it was made |
| VerbatimLog.Push | src/app/components/dungeon/dungeon.component.ts:35 | a delivery grows the log by exactly one, with the string verbatim at the end, and leaves earlier entries unchanged |
| VerbatimLog.Record | src/app/components/dungeon/dungeon-log.component.ts:23-30 | the log after a run of deliveries is the old log followed by the deliveries, in delivery order |
| PartyAnnouncement.Classify | src/app/components/party-announcement/party-announcement.component.ts:23-28 | first match wins: battle if and only if "dragon" is included; treasure if and only if "treasure" is included without "dragon"; door if and only if "door" is included without the other two; nothing if and only if none is included |
| PartyAnnouncement.React | src/app/components/party-announcement/party-announcement.component.ts:22-30 | a delivery grows the announcements by one exactly when it is classified (by the classified text) and by none otherwise, and never changes earlier entries |
| PartyAnnouncement.Announce | src/app/components/party-announcement/party-announcement.component.ts:15-30 | over a run of deliveries the announcements keep their old entries, grow by at most one per delivery, and every new entry is one of the three announcements; which entries are added is stated by `PartyAnnouncement.AnnounceIsImage` |
| PartyAnnouncement.AnnounceSnoc | src/app/components/party-announcement/party-announcement.component.ts:22-30 | one more delivery after a run runs the callback once more on the announcements the run left |
| PartyAnnouncement.AnnounceAppends | src/app/components/party-announcement/party-announcement.component.ts:15-30 | the announcements after a run are the old ones followed by exactly what the run adds to an empty list |
| PartyAnnouncement.ClassifiedFrom | src/app/components/party-announcement/party-announcement.component.ts:23-28 | the classified positions are in range, strictly increasing, each classified, and include every classified position |
| PartyAnnouncement.AnnounceIsImage | src/app/components/party-announcement/party-announcement.component.ts:22-30 | a run appends one announcement per classified delivery, in delivery order, each the first-matching announcement of that delivery, after the unchanged old entries |
| PartyAnnouncement.AnnounceConcat | src/app/components/party-announcement/party-announcement.component.ts:22-30 | reacting to two runs of deliveries is reacting to the first and then to the second |
| PartyAnnouncement.DecorationClearOfKeywords | src/app/services/dungeon-event.service.ts:46 | the dungeon-event decoration cannot take part in an occurrence of "dragon", "treasure" or "door" |
| PartyAnnouncement.ClassifyIgnoresDecoration | src/app/components/party-announcement/party-announcement.component.ts:22-29 | classifying the decorated string gives the same answer as classifying the raw event |
| PartyAnnouncement.DragonEventClassified | src/app/components/party-announcement/party-announcement.component.ts:23-24 | "A dragon appears!" yields the battle announcement |
| PartyAnnouncement.DoorEventClassified | src/app/components/party-announcement/party-announcement.component.ts:27-28 | "You find a hidden door." yields the door announcement |
| PartyAnnouncement.MimicEventUnclassified | src/app/components/party-announcement/party-announcement.component.ts:22-30 | "A mimic attacks!" yields no announcement |
| PartyAnnouncement.GroundEventUnclassified | src/app/components/party-announcement/party-announcement.component.ts:22-30 | "The ground shakes..." yields no announcement |
| PartyAnnouncement.GoblinEventUnclassified | src/app/components/party-announcement/party-announcement.component.ts:22-30 | "A Goblin appears!" yields no announcement |
| PartyAnnouncement.CatalogClassification | src/app/components/party-announcement/party-announcement.component.ts:23-29 | over the catalog: the dragon event gives battle, the door event gives door, every other event gives nothing |
| PartyAnnouncement.TreasureUnreachable | src/app/components/party-announcement/party-announcement.component.ts:25-26 | no catalog event, raw or decorated, yields the treasure announcement |
| Dungeon.Boot | src/app/components/dungeon/dungeon.component.ts:20 | at start-up every view is empty and the application invariant holds |
| Dungeon.SubscribeKeepsView | src/app/components/party-announcement/party-announcement.component.ts:22 | a new subscription on a service leaves what another component of that service has received unchanged, and gets a different handle |
| Dungeon.UnsubscribeKeepsView | src/app/components/dungeon/dungeon.component.ts:44 | ending one component's subscription leaves what another component of that service has received unchanged |
| Dungeon.UnsubscribeEndsView | src/app/components/dungeon/dungeon.component.ts:40-45 | after `unsubscribe()` the component's handle is ended and what it received stays as it was |
| Dungeon.InitDungeon | src/app/components/dungeon/dungeon.component.ts:26-38 | `ngOnInit` subscribes the view with an empty log, keeps the invariant, and leaves the other components and the other service alone |
| Dungeon.DestroyDungeon | src/app/components/dungeon/dungeon.component.ts:40-45 | `ngOnDestroy` ends the subscription, keeps the log, keeps the invariant, and leaves the other components and the other service alone |
| Dungeon.InitDungeonLog | src/app/components/dungeon/dungeon-log.component.ts:19-31 | `ngOnInit` subscribes to the dungeon-master service with an empty log, keeps the invariant, and leaves the other components and the other service alone |
| Dungeon.DestroyDungeonLog | src/app/components/dungeon/dungeon-log.component.ts:33-38 | `ngOnDestroy` ends the subscription, keeps the log, keeps the invariant, and leaves the other components and the other service alone |
| Dungeon.InitParty | src/app/components/party-announcement/party-announcement.component.ts:20-31 | `ngOnInit` subscribes with no announcements, keeps the invariant, and leaves the other components and the other service alone |
| Dungeon.DestroyParty | src/app/components/party-announcement/party-announcement.component.ts:33-36 | `ngOnDestroy` ends the subscription, keeps the announcements, keeps the invariant, and leaves the other components and the other service alone |
| Dungeon.LogTracksPublish | src/app/components/dungeon/dungeon.component.ts:29-37 | a log component that pushes each delivered string still equals what its subscription received after a publication |
| Dungeon.PartyTracksPublish | src/app/components/party-announcement/party-announcement.component.ts:22-30 | the announcements, updated by the callback, still equal the classifier folded over what the subscription received after a publication |
| Dungeon.TickEventService | src/app/services/dungeon-event.service.ts:34-38 | a tick publishes a catalog event on the dungeon-event service, keeps the invariant, and does not touch the dungeon-master side |
| Dungeon.TickMasterService | src/app/services/dungeon-master.service.ts:54-88 | a tick publishes a catalog event on the dungeon-master service, keeps the invariant, and does not touch the dungeon-event side |
| Dungeon.Next | src/app/components/dungeon/dungeon.component.ts:26-45 | every lifecycle hook or tick the framework may run keeps the application invariant |
| Dungeon.Run | src/app/app.component.ts:6-11 | every sequence of lifecycle hooks and ticks the mounted application may run keeps the application invariant |
| Dungeon.ReceivedAreDecoratedCatalogEvents | src/app/services/dungeon-event.service.ts:43-48 | whatever a subscription received strips back to a catalog event other than the mimic |
| Dungeon.DungeonEntriesFromCatalog | src/app/components/dungeon/dungeon.component.ts:29-35 | every entry of the dungeon view starts with "🧙 Dungeon Event: " followed by a catalog event other than "A mimic attacks!" |
| Dungeon.DungeonLogEntriesFromCatalog | src/app/components/dungeon/dungeon-log.component.ts:23-29 | every entry of the dungeon log starts with "🧙 Event: " followed by a catalog event other than "A mimic attacks!" |
| Dungeon.AnnounceOverCatalog | src/app/components/party-announcement/party-announcement.component.ts:22-30 | over deliveries from the dungeon-event service, every new announcement is battle or door |
| Dungeon.PartyOnlyBattleOrDoor | src/app/components/party-announcement/party-announcement.component.ts:23-29 | in every reachable state the party has only called for battle or opened a door; the treasure announcement never appears |
| Dungeon.DestroyedViewsFrozen | src/app/components/dungeon/dungeon.component.ts:40-45 | after `ngOnDestroy`, ticks leave the dungeon view, the dungeon log and the announcements unchanged |
| Dungeon.MimicTickIsSilent | src/app/services/dungeon-event.service.ts:45 | every tick whose draw picks the mimic, on either service, changes no component's view |
| Dungeon.DragonReachesDungeonLog | src/app/components/dungeon/dungeon-log.component.ts:29 | after the log subscribes and the dragon is picked, the log reads exactly "🧙 Event: A dragon appears!" |
| Dungeon.KeptEventTickDelivers | src/app/components/dungeon/dungeon.component.ts:35 | a dungeon-event tick that picks anything but the mimic appends its decoration to a subscribed view, and feeds it once to a subscribed party's callback |
| Dungeon.KeptMasterTickDelivers | src/app/components/dungeon/dungeon-log.component.ts:29 | a dungeon-master tick that picks anything but the mimic appends its decoration to a subscribed dungeon log |
| Dungeon.DragonBeforePartyJoins | src/app/components/dungeon/dungeon.component.ts:29-37 | after the view subscribes and the dragon is picked, the view holds the decorated dragon, and a party subscribing then starts with nothing |
| Dungeon.LateJoinerMissesEarlierEvents | src/app/components/party-announcement/party-announcement.component.ts:22-30 | when the party joins after the dragon and then the door is picked, the view holds both events but the party announces only the door |

## Left out

- Timers: `interval(3000)` and `interval(6000)` are not modelled. A tick is an explicit step, and ticks of the two services may interleave in any order.
- `Math.random()` is a parameter `u` in [0, 1). The floor is over exact reals; IEEE-754 rounding of `u * 5` is not modelled. Any draw the model allows picks a catalog index, and every index can be drawn.
- RxJS internals are not modelled: `asObservable()`, operator subscription chains, unsubscribing a handle twice, and error and completion notifications. A subject is abstracted to its publication history and its handles. `Bus.Unsubscribe` on an ended handle changes nothing.
- Angular decorators, dependency injection, templates, CSS and Material cards are not modelled.
- Lifecycle dispatch is a precondition: `ngOnInit` runs once, and `ngOnDestroy` runs only after it. Calling `ngOnDestroy` first would fail on an unset `eventSubscription`. That path is not modelled.
- `src/app/app.component.ts` only registers components and a title.
- The `.spec.ts` files only check that the components are created.
- The commented-out constructor and `getEvents` in `src/app/services/dungeon-master.service.ts` (lines 34-40 and 91-96) are not modelled; only the live code is.
- JavaScript strings are UTF-16, while Dafny strings here are sequences of code points. Every needle searched for ("mimic", "dragon", "treasure", "door") is ASCII, so `includes` gives the same answers. Lengths of the emoji literals would differ, but no code inspects them.
- There is no concurrency: JavaScript runs the callbacks one at a time, and each step of `Dungeon` is one callback.
- Each component exists once, and `Destroyed` is final. A component destroyed and created again (a fresh instance with an empty array and a new subscription) is not expressed.
- `src/app/app.component.ts:8` imports only `DungeonLogComponent` and `PartyAnnouncementComponent`, so `DungeonComponent` is probably never mounted. The model allows this: the dungeon view may stay `Created` forever, and nothing depends on it being initialised.

Facts about the source that the model keeps:

- The party's if / else-if chain has no final `else` (party-announcement.component.ts:23-29). A delivery without a keyword adds no announcement.
- The party classifies the decorated string it receives, not the raw event. `PartyAnnouncement.ClassifyIgnoresDecoration` proves the answer is the same.
- Both services filter on "mimic" only, so every other catalog event reaches subscribers.
