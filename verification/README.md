# A verified model of the D-Bus helper layer, the Wi-Fi attempt protocol and the text decoders

The repository is a connectivity service for a device: it exports Bluetooth objects over D-Bus, mirrors the objects of
other services, connects to Wi-Fi networks, and converts the names it is given between encodings. This project models
the parts with the most state and proves what they keep, over every run or every input.

**Object server and client mirror** (`bluez/gdbus/object.c`, `bluez/gdbus/client.c`). The server holds a tree of objects
with interfaces, reference counts, lists of what is still to be announced and a cached introspection text; the client
rebuilds the same state as a list of proxies. `ObjectModel` and `ClientModel` are the two programs as functions on values,
in any order of calls; `ObjectServer` and `ClientProxies` are the same programs as classes whose methods update fields in
loops, each proved equal to its function and each public one to keep the object valid and to give its caller what the rows
below say. `Ledger` reads the server as a plain list of interfaces for each path, `Sending` says what each call sends,
`Description` what an introspection text says and `ClientCalls` what an application knows from its calls. `ObjectLifetime`,
`UpwardLinks`, `ObjectTree`, `Dangling`, `Introspection`, `Publication`, `Refusal`, `ClientTraces` and `Mirror` hold the
other properties, `SurprisingRuns` and `MissedChange` the runs in which something unexpected happens; `ObjectCore`,
`Exports`, `Views`, `Names` and `Picking` are what they are built on.

**Signal watches** (`bluez/gdbus/watch.c`). Callbacks add and remove watches while a message is delivered to them.
`Watches` is the model, `WatchTable` the class with the two dispatch loops, `WatchSafety`, `WatchChanges`, `Delivery`,
`Weave` and `Dispatch` the properties.

**Heap structures** (`bluez/a2dp_source/queue.c`, `bluez/a2dp_source/io-glib.c`). `Queue` is the linked list itself, with
its nodes on the heap; `IoWatch` is the reference count shared by an io and its watches, `IoLives` the life of each watch.

**Wi-Fi attempts and network names** (`wifi/Rk_wifi.c`). `Wifi` is the protocol of the three threads, one step for each
access to a shared variable, except that the polling of a checker is one step with any outcome; `Attempts` says what the
threads do in a run, from its steps. `Ssid` is the two decoders, `SsidTokens` what they make of any string.

**Text** (`utility/encode/RK_encode.c`, `utility/encode/utf8_to_gbk.c`, and the signature matching of `object.c`).
`Utf8Shape`, `Gbk` with `GbkGroups`, `Signature`.

Conventions. An object path is the sequence of its components, and an object is known by its path; `Bus` proves that this
is the same as working on the rendered string. A D-Bus message is a datatype and a dictionary in it a sequence of entries.
A call of the interface is one step with everything it sends. A run is legal when users leave the two built-in interface
names alone and attach the manager once; it is orderly when, besides, parents are registered before children and children
unregistered before parents. What a callback of a watch does is a function of everything that happened before.

## Where the code does not do what one would expect

- Registering an object above existing ones, unregistering the last interface of one that has children and a parent, and
  attaching the manager above existing objects break the tree. `RegisterTreeIff`, `UnregisterTreeIff` and `AttachTreeIff`
  say exactly when; `RegisteringAboveBreaksTree`, `UnregisteringBetweenBreaksTree` and `AttachingAboveBreaksTree` are runs.
- Outside the orderly discipline an object can go while another still lists it as a child or has it as parent. In the C
  code that link is then a pointer to freed memory, which a listing or an announcement follows; here it is a path that is
  not registered, a listing skips it, and registering the path again makes it good. So what is said below of runs in any
  order describes the C code as long as no link dangles. `UnregisterDanglesIff` says exactly when one call leaves such a
  link, `RunsLeadSomewhere` that no run has one before such a call, and `StaleChildStays` is a run.
- Attaching the manager does not clear the cached text of "/": `AttachRootIff` says exactly when the text is right after it,
  `RootIsRightIff` exactly when it is right at any later time, and `AttachingLeavesOldText` is a run.
- A refused registration can leave a trace. An object above the path that was registered before the manager was attached is
  announced by it, and an object on the way that nobody lists gets onto the list above it. `RefusalLeavesNoTraceIff` says
  exactly when, in any order of calls as long as no object lists the path, `RefusedNewPath` what is sent and what is left,
  and `RefusalAnnouncesParent` and `RefusalLinksParent` are runs.
- A property table with a hidden or unreadable entry in front of a visible one of the same name offers a property of which
  no change is told, because the search by name stops at the first (bluez/gdbus/object.c:774-779). `AnswersIff` says which
  tables are told right, `ChangeCarriesIff` which calls are, `NextMirroredIff` that exactly the other ones end the mirror,
  and `HiddenEntryFirst` is a run.
- A watch that a callback adds to its own listener comes to stand in front of that callback, and so in front of every
  survivor from there on. `DeliveredOnce` gives the list after a delivery turn by turn, `AddedAtEndIff` says exactly when
  what was added stands behind all survivors, and `AddedComesFirst` is a run.
- A NameOwnerChanged message with arguments of the wrong type empties the listener it reaches: `SurvivorsStayIff`.
- A failed connection by name and key removes its network even when the network had been saved before; only the call for
  saved networks disables it. `AttemptSafety` states both, `FailureForgetsSaved` is a run.
- A cancel that sees the lock and sets its flag only after the checker has let go leaves the flag set with no attempt under
  way. `CancelStaysIff` says exactly when, `LateCancelStays` is a run.
- A proxy that is there and gets another value from an InterfacesAdded or GetManagedObjects message takes it without a call
  of the application (bluez/gdbus/client.c:1076-1081). `ParseInformedIff` says that exactly such an entry leaves the
  application with old values, `CallsTellAll` that without one it knows everything.
- An argument table whose last signature is empty matches no message, not even one with the concatenated signature:
  `ArgsHaveSignature`.

## Model

| member | source | states |
|---|---|---|
| Bus.StripLastIsParent | bluez/gdbus/object.c:718-735 | Cutting the rendered path at its last slash, with the special case of "/", gives the rendered parent of the path |
| Bus.RenderInjective | bluez/gdbus/object.c:718-735 | Different component sequences render to different path strings |
| ObjectLifetime.RunsAreSound | bluez/gdbus/object.c:1371-1444 | In every legal run, in any order, each object's refcount is the number of its interfaces other than Introspectable and Properties and is at least 1, names are unique on an object, and nothing waits to be sent as a property change between calls; where links dangle see RunsLeadSomewhere |
| ObjectLifetime.PerformSound | bluez/gdbus/object.c:675-716 | Every single legal call keeps that invariant, from any state that has it |
| Ledger.RunsFollow | bluez/gdbus/object.c:1371-1444 | In every legal run, in any order, the registered objects are just the paths of a plain ledger, and each carries just the interfaces listed there, in their order and with their values, behind Introspectable, and Properties if one of them has a table |
| Ledger.PerformFollows | bluez/gdbus/object.c:1371-1444 | Every legal call does to the objects what it does to the ledger, from any state |
| Ledger.RegisterFollows | bluez/gdbus/object.c:1371-1418 | The same of a registration, which is accepted exactly when the ledger takes it |
| Ledger.UnregisterFollows | bluez/gdbus/object.c:1420-1444 | The same of an unregistration, which is accepted exactly when the name is in the ledger |
| Names.ValidInterfaceIff | bluez/gdbus/object.c:1387-1390 | The test of a name accepts exactly the joins of two or more elements in the grammar of the D-Bus specification, section "Valid Names", of at most 255 bytes |
| UpwardLinks.RunsPointUpward | bluez/gdbus/object.c:718-766 | In every legal run, in any order, a parent link leads to a shorter path, a child list holds longer ones and none twice, so the recursions up and down end; that the links lead to objects which are there is RunsLeadSomewhere |
| ObjectTree.RunsKeepTree | bluez/gdbus/object.c:1268-1328 | In every orderly run the parent of an object is its nearest registered proper ancestor, and child lists are duplicate-free and match the parent pointers |
| ObjectTree.RegisterTreeIff | bluez/gdbus/object.c:1371-1418 | A registration keeps the tree exactly when it does not make a new object above a registered one |
| ObjectTree.UnregisterTreeIff | bluez/gdbus/object.c:1420-1444 | An unregistration keeps the tree exactly when it does not take the last interface of an object with children and a parent |
| ObjectTree.AttachTreeIff | bluez/gdbus/object.c:1863-1878 | Attaching the manager keeps the tree exactly when "/" is registered or nothing is |
| ObjectTree.RunsDoNotDangle | bluez/gdbus/object.c:1050-1072 | In every orderly run each parent pointer and each child list entry leads to an object that is there |
| Dangling.RegisterLeads | bluez/gdbus/object.c:1268-1304 | From a state without dangling links, a registration at any path, accepted or refused, leaves none |
| Dangling.UnregisterDanglesIff | bluez/gdbus/object.c:1050-1072 | An unregistration leaves a dangling link exactly when it takes the last interface of an object which, once the walk up from it has completed the links on the way, another than its parent lists or which is the parent of an object it does not list |
| Dangling.RunsLeadSomewhere | bluez/gdbus/object.c:1306-1328 | In every legal run, in any order, no link dangles until a call of just that kind, and that call makes one |
| ObjectTree.WalkKeepsLinksIff | bluez/gdbus/object.c:718-766 | The walk leaves every parent pointer and child list as it was exactly when every registered path on the way is on the list above it |
| ObjectTree.InsertRemoveLinksIff | bluez/gdbus/object.c:1268-1328 | Making and unmaking an object that nobody lists leaves every parent pointer and child list as it was exactly when every registered path above it is on the list above that |
| ObjectTree.ListingIsExact | bluez/gdbus/object.c:1144-1195 | In a tree rooted at "/", GetManagedObjects lists every other registered path exactly once, none before one above it, with all interfaces of its object |
| Introspection.RunsAreCoherent | bluez/gdbus/object.c:193-251 | In every legal run, in any order, each cached text below "/" is empty or equals what regeneration gives now, and that of "/" too until the manager is attached; from when on it is right again after that is RootIsRightAgain |
| Introspection.PerformCoherent | bluez/gdbus/object.c:718-766 | Every call keeps the cached texts right, because each registration or removal of a path clears all registered ancestors |
| Introspection.InvalidateClears | bluez/gdbus/object.c:718-766 | The walk clears the text of every registered proper ancestor of the path and of nothing else |
| Description.GenerateDescribes | bluez/gdbus/object.c:131-232 | A generated text has every interface of the object in order, of each just the methods, signals and properties that are not hidden, in table order, and the children |
| Description.BuiltinsDescribed | bluez/gdbus/object.c:950-975 | What a text says of the three interfaces that the server itself adds |
| Introspection.AttachRootIff | bluez/gdbus/object.c:1863-1878 | After the call that attaches the manager, the text of "/" is right exactly when "/" was registered before and had nothing cached |
| Introspection.RootIsRightIff | bluez/gdbus/object.c:718-766 | In every legal run that attaches the manager, the text of "/" is right at the end exactly when "/" was registered before and had nothing cached, or a later call made or unmade an object below it or changed its own interfaces |
| Publication.RunsPublishInOrder | bluez/gdbus/object.c:566-611 | If "/" comes first and the manager is attached at any time, an object with nothing owed has no ancestor below "/" with something owed, and no InterfacesAdded overtakes one still owed for an ancestor |
| Publication.EmitAddedSettles | bluez/gdbus/object.c:566-611 | Announcing an object first announces every ancestor that owes something, and then none of them owes anything |
| Publication.EmitAddedExact | bluez/gdbus/object.c:566-611 | What is sent is one announcement for each ancestor that owes something and for the object, top down, each with just the interfaces that were owed |
| Publication.PerformOrderable | bluez/gdbus/object.c:1028-1048 | Every call keeps the order of what is owed, from any state that has it |
| Sending.ProcessSends | bluez/gdbus/object.c:1028-1048 | One round of sending, in any state: with the manager attached the announcements, those above the object first, then the queued changes of each interface in order, then one withdrawal; afterwards none of this is owed, and nothing else changes |
| Sending.EntriesTell | bluez/gdbus/object.c:519-548 | The values in an announcement are those of the entries of the table that are visible, readable and exist, in table order |
| Sending.QueueTells | bluez/gdbus/object.c:1708-1772 | Queued changes become one message: the values of the readable properties that exist, the oldest change first, and the names of those that do not, the newest first |
| Sending.AddSends | bluez/gdbus/object.c:1212-1266 | Adding an interface is refused exactly when nothing of it is visible; without a parent nothing is sent, otherwise it is owed and a round follows |
| Sending.RemoveSends | bluez/gdbus/object.c:675-716 | Removing one sends its queue first; one still owed is just not owed any more, of an object without a parent nothing is said, and otherwise the name is owed as withdrawn and a round follows |
| Sending.ChangeSpeaks | bluez/gdbus/object.c:1787-1833 | A change of a property that can be found and is not queued yet, of an interface that is not still owed, is queued; then the queues of the object are sent with the flush flag, and a round follows without it |
| Sending.ChangeSilent | bluez/gdbus/object.c:1787-1818 | Any other change does nothing |
| Sending.RegisterTells | bluez/gdbus/object.c:1371-1418 | What an accepted registration sends, when every object is told of |
| Sending.UnregisterTells | bluez/gdbus/object.c:1420-1444 | What an accepted unregistration sends, when every object is told of |
| Sending.AttachTells | bluez/gdbus/object.c:1863-1878 | Attaching the manager sends nothing, if "/" has no parent |
| Refusal.EmitUp | bluez/gdbus/object.c:566-611 | In any table, announcing an object announces it and, first, its parents as far up as each owes something, top down, and nothing else changes |
| Refusal.RefusedNewPath | bluez/gdbus/object.c:1371-1418 | In any order of calls, with nobody listing the path: a refused registration of a new path leaves every object as the walk up from it makes it, with the texts above cleared; once the manager is attached the object above, if it owes something, is announced with what goes before it, and then Introspectable is announced and withdrawn; before, nothing is sent |
| Refusal.RefusedInOrder | bluez/gdbus/object.c:1371-1418 | In a rooted orderly run the only changes are that texts above the path are cleared and nothing is owed there any more; what was owed is sent top down, and then the pair |
| Refusal.RefusedOldPath | bluez/gdbus/object.c:1371-1418 | A refused registration at a registered path, or with a bad path or name, changes nothing at all |
| Refusal.RefusalLeavesNoTraceIff | bluez/gdbus/object.c:1371-1418 | In any order of calls, with nobody listing the path: a refusal leaves objects as they were but for cached texts, and sends nothing or a pair that cancels, exactly when the path was not tried, or every registered path above it is on the list above that and the nearest does not wait for its announcement |
| SurprisingRuns.RefusalAnnouncesParent | bluez/gdbus/object.c:566-611 | For any two paths, one below the other, a run after which a refused registration announces the upper one |
| SurprisingRuns.RefusalLinksParent | bluez/gdbus/object.c:718-766 | For any two paths, one below the other, a run after which a refused registration puts the upper one on the list of "/" |
| SurprisingRuns.StaleChildStays | bluez/gdbus/object.c:1050-1072 | For any three paths below each other, a run after which "/" lists a child that is gone |
| SurprisingRuns.RegisteringAboveBreaksTree | bluez/gdbus/object.c:718-766 | A run in which registering an object above another breaks the tree |
| SurprisingRuns.UnregisteringBetweenBreaksTree | bluez/gdbus/object.c:1050-1072 | A run in which unregistering an object between two others breaks the tree |
| SurprisingRuns.AttachingAboveBreaksTree | bluez/gdbus/object.c:1863-1878 | A run in which attaching the manager breaks the tree |
| SurprisingRuns.AttachingLeavesOldText | bluez/gdbus/object.c:1863-1878 | A run after which the cached text of "/" lacks the manager |
| Refusal.SignalsCancel | bluez/gdbus/client.c:1122-1181 | Handling those two messages leaves what a client knows as it was |
| Exports.AddExact | bluez/gdbus/object.c:1212-1266 | Registering one interface below "/" sends one announcement of just that interface with its readable properties |
| Exports.RemoveExact | bluez/gdbus/object.c:675-716 | Removing an announced interface of an object that owes nothing sends one message that names just it |
| Exports.ChangeExact | bluez/gdbus/object.c:1787-1833 | A property change is sent in the same call as one PropertiesChanged with the new value, or with the name under invalidated when there is none |
| Exports.AnswersIff | bluez/gdbus/object.c:768-784 | What is sent about a change turns the exported values into the new ones, for every state, name and value, exactly when no entry of the table that is visible and readable stands behind one of the same name that is not |
| Exports.ChangeCarriesIff | bluez/gdbus/object.c:1787-1833 | The messages of a property change take a view of the exports along exactly when it does not give a new value to a property that the table offers and a search by name does not find, or the view does not know the interface |
| Mirror.PerformCarriesIff | bluez/gdbus/object.c:1371-1444 | Whatever a client that matched the server knew, after handling the messages of one orderly call it matches the server after the call exactly when the call is not such a change of an interface it knows |
| Mirror.AnswerTracks | bluez/gdbus/object.c:1144-1195 | Handling the GetManagedObjects reply on top of a part of the server's state gives exactly that state |
| Mirror.NextMirroredIff | bluez/gdbus/client.c:1065-1243 | Every step of the system, a server call, the request, the reply or a delivery, keeps the client a mirror of the server up to the messages under way exactly when it is not such a change |
| Mirror.MirrorTheorem | bluez/gdbus/client.c:1065-1243 | Over a FIFO channel and for every interleaving without such a change, whatever tables are registered, what the client will know after the messages under way is part of what the server exports, exactly that once a reply has been sent, and what its proxies hold when the channel is empty; and the next such change ends it |
| MissedChange.ChangeIsMissed | bluez/gdbus/object.c:768-784 | For any table that offers a property which a search by name does not find, a run after which a client that has asked for all objects will not know what the server exports |
| MissedChange.HiddenEntryFirst | bluez/gdbus/object.c:774-779 | The same for a table with a hidden entry in front of a visible one |
| ClientTraces.HandleRefines | bluez/gdbus/client.c:305-378 | Handling a message changes the proxies exactly as the message says and keeps the traces of calls well formed |
| ClientTraces.ChangedCalls | bluez/gdbus/client.c:484-528 | A known proxy gets, in this order, one call for each entry with its name and value and then one without a value for each invalidated name; an unknown one gets none |
| ClientTraces.DisconnectConsistent | bluez/gdbus/client.c:1299-1310 | A lost service removes every proxy, with one removed call each |
| ClientTraces.FeedConsistent | bluez/gdbus/client.c:1065-1243 | For any sequence of messages and losses, a key is up in the trace exactly when it has a proxy, and no proxy is pending |
| ClientTraces.CallsAlternate | bluez/gdbus/client.c:484-604 | For each path and interface the calls strictly alternate added, removed, added; property_changed falls only between an added and the next removed; the proxy list holds no pair twice |
| ClientCalls.ParseInformedIff | bluez/gdbus/client.c:1065-1092 | An application that knows from its calls what the proxies hold still does after an entry of a message exactly when the entry does not give a known proxy another value |
| ClientCalls.CallsTellAll | bluez/gdbus/client.c:484-604 | In every run without such an entry, with services lost at any time, the application knows from its calls just what the proxies hold |
| ObjectServer.ObjectServer.EmitInterfacesAdded | bluez/gdbus/object.c:566-611 | Recursive announcement of the parent first, then one message with the unpublished interfaces; new state as in the model |
| ObjectServer.ObjectServer.ProcessPropertiesFromInterface | bluez/gdbus/object.c:1708-1772 | The pending properties of one interface become one message, values and invalidated names apart, and the list is emptied |
| ObjectServer.ObjectServer.ProcessPropertyChanges | bluez/gdbus/object.c:1774-1785 | All interfaces in order, and the flag is cleared |
| ObjectServer.ObjectServer.AddInterface | bluez/gdbus/object.c:1212-1266 | Refused when nothing is visible; otherwise appended, and owed and announced when the object has a parent |
| ObjectServer.ObjectServer.InvalidateParentData | bluez/gdbus/object.c:718-766 | Returns the nearest registered ancestor, which lists the path as a child then; the cached texts of all registered ancestors are gone and no other |
| ObjectServer.ObjectServer.GenericUnregister | bluez/gdbus/object.c:1050-1072 | The object leaves its parent's list and its children are repointed to the parent |
| ObjectServer.ObjectServer.RegisterInterface | bluez/gdbus/object.c:1371-1418 | Keeps refcounts, links and texts valid; accepts exactly a valid path and name, new on the object, with something visible; then the object has just its old interfaces, or Introspectable if it is new, and then the new one, and Properties with the first property table, and one more reference; when every object is told of, what is sent is one message for each of these; after a refusal the same objects are registered as before |
| ObjectServer.ObjectServer.UnregisterInterface | bluez/gdbus/object.c:1420-1444 | Keeps the object valid; accepts exactly a name that is there; the interface is gone with one reference, the object exactly with the last one; when every object is told of, what is sent names just it, and with the object its built-in interfaces; a refusal changes nothing |
| ObjectServer.ObjectServer.AttachObjectManager | bluez/gdbus/object.c:1863-1878 | Keeps the object valid; "/" is registered and carries the manager |
| ObjectServer.ObjectServer.ChangeProperty | bluez/gdbus/object.c:1787-1833 | Keeps the object valid; when nothing else is owed, one message tells the new value, or that there is none, exactly of a property that can be found, whether the flush flag is set or not, and nothing is sent of another |
| ObjectServer.ObjectServer.GetObjects | bluez/gdbus/object.c:1161-1195 | In a tree the recursive listing has every registered path below "/" once, none before one above it, with all interfaces of its object |
| ObjectServer.ObjectServer.AnswerIntrospect | bluez/gdbus/object.c:233-251 | The answer, cached or not, describes the object as it is, for "/" when its cached text was right: its interfaces in order, of each just the methods, signals and properties that are not hidden, in table order, and its children; nothing else changes |
| ClientProxies.ProxyClient.UpdateAll | bluez/gdbus/client.c:341-367 | Every entry is stored; when asked to report, call number j tells name and value of entry number j |
| ClientProxies.ProxyClient.ParseIface | bluez/gdbus/client.c:1065-1092 | What is known gains the values under path and interface unless it is a built-in one, and the application gets one added call with these values exactly if the pair was not known |
| ClientProxies.ProxyClient.RemoveProxy | bluez/gdbus/client.c:587-604 | The pair is not known any more, with one removed call exactly if it was |
| ClientProxies.ProxyClient.ChangeProperties | bluez/gdbus/client.c:484-528 | The values of a known pair become the changed ones without the invalidated; the calls are, one by one, those with the new values and then those for the invalidated names |
| ClientProxies.ProxyClient.Receive | bluez/gdbus/client.c:1094-1243 | Keeps the client consistent, and what its proxies hold becomes what the message says |
| ClientProxies.ProxyClient.ServiceDisconnect | bluez/gdbus/client.c:1299-1310 | Nothing is known any more; call number i is the removal of proxy number i |
| Signature.ArgsHaveSignature | bluez/gdbus/object.c:630-649 | TRUE exactly when the message signature is the concatenation of the argument signatures and the last of them is not empty |
| Dispatch.ExactlyOnce | bluez/gdbus/watch.c:385-412 | The loop over the changing list equals one walk through the list as it was at the start. In the turn of a callback present then, the function for signals, for a name that appeared or for one that vanished is called once, unless the callback has none or was removed before its turn, and no other is. It goes in its own turn exactly if it asks to, or is a one-sided watch on a unique name. Additions are not called; afterwards the list holds, turn by turn, what the turn added and then its callback, without what was removed |
| Dispatch.AddedAtEndIff | bluez/gdbus/watch.c:307-332 | After a delivery the list is the survivors followed by what was added exactly when no surviving addition of a turn has a surviving callback of that or a later turn behind it |
| Dispatch.AddedComesFirst | bluez/gdbus/watch.c:307-332 | A run in which a callback adds a watch to its own listener, which is in front of it afterwards if it stays and alone if it does not |
| Dispatch.LoopIsWalk | bluez/gdbus/watch.c:391-409 | Taking the head until the list is empty is walking through the original list and skipping what is gone |
| Dispatch.SurvivorsStayIff | bluez/gdbus/watch.c:445-493 | Survivors stay in the list exactly when it was not an unreadable NameOwnerChanged for a listener with callbacks |
| Dispatch.MalformedForgets | bluez/gdbus/watch.c:452-459 | Such a message calls nothing and empties the listener |
| Dispatch.WatchIdentity | bluez/gdbus/watch.c:271-289 | In every run each live watch id is in one list of one listener, `processed` is empty between messages, and after its removal nothing more happens to a watch |
| Dispatch.RemovedIsNeverCalled | bluez/gdbus/watch.c:775-795 | After a live watch is removed, no run calls it again |
| Dispatch.NeverRemovesTwice | bluez/gdbus/watch.c:394-400 | If callbacks that remove themselves return TRUE, the loop never goes on to remove a callback that is gone |
| Delivery.TurnSafe | bluez/gdbus/watch.c:391-409 | One turn keeps the invariant; the callback leaves the head and is kept behind unless gone, additions go behind it, removals take effect in both lists |
| WatchSafety.RemoveSafe | bluez/gdbus/watch.c:353-383 | Removing a watch keeps the invariant, takes just that watch and watches on the owners of names of listeners freed with it, and says whether it was live |
| WatchChanges.RemovalExact | bluez/gdbus/watch.c:353-383 | The whole effect of removing a watch, and the order in which watches and listeners go |
| WatchChanges.AddExact | bluez/gdbus/watch.c:307-332 | The whole effect of adding a watch: the new ones, the new listeners and every list |
| Dispatch.SweepTakes | bluez/gdbus/watch.c:551-574 | At the end of a message a listener without callbacks goes, with its watch on the owner of its name, and any other stays as it is |
| Watches.TurnShrinks | bluez/gdbus/watch.c:307-332 | While a listener is locked its list only loses elements, so the loop ends whatever callbacks do |
| WatchTable.WatchTable.AddWatch | bluez/gdbus/watch.c:307-332 | Keeps the invariant; one watch is added, with an id that no live watch had, at the end of the list that a message under way does not run through, and one on the owner of its name if there is none yet; a listener that was not there is made; every other list stays |
| WatchTable.WatchTable.RemoveCallbackOf | bluez/gdbus/watch.c:353-383 | Both lists, then the listener if it is idle and empty, then the watch on the owner of its name |
| WatchTable.WatchTable.RemoveWatch | bluez/gdbus/watch.c:775-795 | Keeps the invariant; TRUE exactly for the id of a live watch; it goes, then, one after the other, the watch that a listener emptied by this kept on the owner of its name; just the idle listeners left empty go, and every list keeps the rest in order |
| WatchTable.WatchTable.SignalFilter | bluez/gdbus/watch.c:385-412 | The loop for signals, with the return value of the callback looked at before the list |
| WatchTable.WatchTable.ServiceFilter | bluez/gdbus/watch.c:445-493 | The loop for name owners, with one-sided watches on unique names removed after their turn; what it calls and removes is ExactlyOnce |
| WatchTable.WatchTable.DeliverTo | bluez/gdbus/watch.c:541-549 | Keeps the invariant; a message that can be read, to an idle listener, is delivered as ExactlyOnce says: which function of which callback is called, which callbacks go in their own turn, and the list afterwards |
| Queue.Queue.PushTail | bluez/a2dp_source/queue.c:83-103 | The sequence with the element at the end; chain, tail and count kept |
| Queue.Queue.PushHead | bluez/a2dp_source/queue.c:105-124 | The sequence with the element in front |
| Queue.Queue.PushAfter | bluez/a2dp_source/queue.c:126-156 | Inserted after the first match, or false and nothing changed |
| Queue.Queue.PopHead | bluez/a2dp_source/queue.c:158-180 | The first element and the rest, or nothing from an empty queue |
| Queue.Queue.PeekHead | bluez/a2dp_source/queue.c:182-188 | The first element |
| Queue.Queue.PeekTail | bluez/a2dp_source/queue.c:190-196 | The last element |
| Queue.Queue.Find | bluez/a2dp_source/queue.c:226-242 | The first element that matches |
| Queue.Queue.Remove | bluez/a2dp_source/queue.c:244-271 | The first occurrence goes and no other; true exactly when there was one |
| Queue.Queue.RemoveIf | bluez/a2dp_source/queue.c:273-311 | The first match goes, no other, and is returned |
| Queue.Queue.RemoveAll | bluez/a2dp_source/queue.c:313-337 | Ends; leaves the elements that do not match in order, hands the others to destroy in order, and returns their number |
| Queue.Queue.Clear | bluez/a2dp_source/queue.c:338-354 | Empties the queue, hands all elements to destroy in order, and returns the old length |
| Queue.Partition | bluez/a2dp_source/queue.c:313-337 | What is kept and what is destroyed are together the old elements, each once |
| Queue.InOrder | bluez/a2dp_source/queue.c:313-337 | Both parts hold just the elements that match, or do not, in their old order |
| IoWatch.RefCountProtocol | bluez/a2dp_source/io-glib.c:50-135 | In every run ref_count is one for the owner plus one for each live watch; the io is freed once, when all are gone, and then nothing can touch it; the destroy function of every watch made is called exactly once |
| IoLives.WatchesLive | bluez/a2dp_source/io-glib.c:92-246 | In every run and for every watch, from the steps alone: whether it exists, whether its callback is running, whether it was replaced meanwhile, which slot it is in, and whether its destroy function was called |
| IoWatch.DeferredDestroyKeepsSlots | bluez/a2dp_source/io-glib.c:92-109 | The destroy of a replaced watch, run after its callback returned, touches no slot |
| IoWatch.SetReplaces | bluez/a2dp_source/io-glib.c:207-246 | Setting a handler replaces the watch of its own slot and no other; the old one is destroyed at once exactly when its callback is not running |
| IoWatch.IoObject.DestroyIo | bluez/a2dp_source/io-glib.c:111-135 | Keeps the invariant; the watches left are those whose callback is running, one reference for each; the others are destroyed in the order of the slots, and the io is freed at once exactly if none is left |
| IoWatch.IoObject.SetHandlerFor | bluez/a2dp_source/io-glib.c:207-246 | Keeps the invariant; true exactly for a known condition with no callback or a source that attaches; the slot of the condition holds the new watch or none, and the other slots are as before |
| IoWatch.IoObject.Finish | bluez/a2dp_source/io-glib.c:158-176 | When a callback returns the watch goes, with its reference, exactly if its source was removed meanwhile or it does not want to be called again; otherwise it waits for its condition again, and no other watch changes; the io is freed exactly if the owner and all watches are gone |
| Wifi.AttemptSafety | wifi/Rk_wifi.c:1965-2049 | In every interleaving the lock is set exactly while one attempt is under way and never two; a checker reads the id of its own attempt; a failed connection to a saved network disables that network and never removes it, any other failed connection removes its own, and a network saved at the start goes only by such a removal; that only a failed polling leads to a command is CheckersFollow |
| Wifi.FailureForgetsSaved | wifi/Rk_wifi.c:1976-1983 | A run in which connecting by name and key to a saved network fails and forgets it |
| Wifi.NextInv | wifi/Rk_wifi.c:2277-2359 | Every step of any thread keeps the invariant behind this |
| Attempts.CheckersFollow | wifi/Rk_wifi.c:1992-2049 | In every interleaving, from the outcomes of its own steps: how far each checker is; that it gives a command exactly if its polling found no connection, and only one, of its own kind and for its own attempt; and that the failure is reported exactly if no wrong key had been |
| Attempts.NoFailureNoCommand | wifi/Rk_wifi.c:2003-2028 | When every polling finds a connection, no command is given and no saved network is lost |
| Attempts.LooksSequential | wifi/Rk_wifi.c:2301-2359 | Every interleaving looks like a plain machine that makes one attempt after the other: a search that finds or makes a network, a configuration, a polling, and a command exactly if it failed |
| Attempts.CancelStaysIff | wifi/Rk_wifi.c:2277-2299 | With all checkers done, the cancel flag is set exactly if the last cancel came when none was left to clear it |
| Attempts.LateCancelStays | wifi/Rk_wifi.c:2277-2299 | A run in which this happens |
| Ssid.RoundTripIff | wifi/Rk_wifi.c:222-266 | A name printed as wpa_supplicant prints it and decoded comes back exactly when it has no NUL, tab, newline, carriage return or escape and no backslash directly before an x, whichever decoder runs first |
| Ssid.RemoveEscapeCharacter | wifi/Rk_wifi.c:222-241 | The loop writes the string with escaped backslashes and quotes undone, and a NUL |
| Ssid.SpecCharConvers | wifi/Rk_wifi.c:243-266 | The loop writes the string with hexadecimal escapes turned into bytes, as strtoul reads them, and a NUL, or runs past the end exactly when an escape is cut short |
| SsidTokens.UnescapeTokens | wifi/Rk_wifi.c:222-241 | Every string falls into single bytes and escaped quotes and backslashes, read from the left, and the first decoder gives what each stands for |
| SsidTokens.ConvertTokens | wifi/Rk_wifi.c:243-266 | Every string that does not end within an escape falls into single bytes and hexadecimal escapes, and the second decoder gives what each stands for, up to the first character that is no digit |
| SsidTokens.CutShort | wifi/Rk_wifi.c:243-266 | Any other string ends with a backslash, an x and at most one character |
| Utf8Shape.IsUtf8 | utility/encode/RK_encode.c:6-43 | 1 exactly for inputs that are empty, start with NUL, or are a concatenation of characters in the octet shapes of section 2 of RFC 2279 |
| Utf8Shape.SplitIsUnique | utility/encode/RK_encode.c:16-38 | A buffer splits into such characters in one way |
| Utf8Shape.OnesRanges | utility/encode/RK_encode.c:16-38 | The leading ones of an octet, and whether it continues a character, by its range |
| Gbk.Utf8ToGbk | utility/encode/utf8_to_gbk.c:1316-1344 | For the UTF-8 of a text of ASCII and U+4E00..U+9FA5, its GBK and its length; -1 exactly for octets that start no handled character and for a cut group; the table is left exactly for three-octet groups outside that range |
| Gbk.TranscodesText | utility/encode/utf8_to_gbk.c:1323-1342 | The UTF-8 of every text of ASCII and U+4E00..U+9FA5 (section 3 of RFC 3629) becomes its GBK |
| Gbk.TextLength | utility/encode/utf8_to_gbk.c:1323-1343 | One octet for each ASCII character and two for each ideograph |
| Gbk.TextsDiffer | utility/encode/utf8_to_gbk.c:1333-1336 | For an injective table with lead octets of at least 0x81 no two texts have the same transcoding |
| GbkGroups.TranscodeGroups | utility/encode/utf8_to_gbk.c:1316-1344 | Every input is read as ASCII octets and three-octet groups from the left up to the first that is neither or outside the table; the result is what these become, -1, or outside, accordingly |

## Left out

- Allocation failures, failures inside libdbus, and the contents of the GBK table.
- Message building and iterators of libdbus and the internals of the GLib main loop: messages are datatypes, property tables are maps, and the printed introspection text is the list of what it describes.
- Destroy callbacks that call back into the library, `prop_func` and `removed_func` of single proxies, and clients whose handlers are installed after the first message.
- `g_dbus_detach_object_manager`, the global flags (held fixed), and the deferred processing of changes: `add_pending` processes them at once (bluez/gdbus/object.c:657-659), so the global list stays empty and `g_dbus_flush` has nothing to do.
- `g_dbus_proxy_new` and the refreshing of proxies, which reads the first list element each time (bluez/gdbus/client.c:1057-1058), and a service that restarts while a GetManagedObjects call is outstanding.
- Method calls, security checks and Get, GetAll and Set of the Properties interface.
- What the C code does after a link dangles: an object is known by its path, so a pointer to a freed object, up or down, is a path that is not registered, and becomes good when that path is registered again.
- The cleanup of emptied listeners at the end of a message is one step for each listener; its loop, whose step never moves on (bluez/gdbus/watch.c:559-560), is not modelled, nor that rules select listeners uniquely.
- Watches.Perform: which listener a new watch goes to is part of the action, because match rules and the name cache are not modelled; neither are the pending checks whether a name has an owner, nested dispatch, and wrap-around of ids.
- Queue.Queue: the null queue argument that every function accepts, `queue_foreach`, the queue's own reference count, and wrap-around of the 32-bit count. A null result and a stored null are told apart.
- IoWatch.Step: user functions run between the steps, so destroy functions that use the io are not covered.
- Wifi.Next: `RK_wifi_connect_with_bssid`, whose busy path releases the lock (wifi/Rk_wifi.c:2368-2371, 2420-2424), `is_wep`, the state reports of the other threads, the result of `RK_wifi_cancel`, and failure of `pthread_create`; commands and searches are steps with any outcome, and one thread makes the calls of the interface.
- Ssid.SpecCharConvers: what is read and written after an escape cut short by the end of the string, where the code reads on behind it; RoundTripIff counts such a name as one that does not come back.
- Gbk.Utf8ToGbk: what is written after a three-octet group outside U+4E00..U+9FA5, where the code indexes outside the table.
- The way back, `gbk_to_utf8`, whose test for ASCII depends on the sign of `char`.
- The remaining Bluetooth, SPP and A2DP code, which is callback plumbing over these parts.
