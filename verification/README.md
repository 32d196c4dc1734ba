# A verified model of webvirtd

webvirtd is a small HTTP and websocket daemon in front of libvirt. This project models the parts of it that
have real state, recursion or loops, and proves what they keep and what they mean. Five parts are covered.

**XML to JSON** (`Xml`, `XmlToJson`, `XmlConservation`, `XmlInverse`, `XmlDecode`, `XmlOrder`, `DomainData`,
`BootMenu`). The recursive conversion is a method with the daemon's loop, which turns a member into an array
when its name comes up again. It is proved equal to a closed form, to conserve objects, and to be injective on
exactly the unambiguous documents; a decoder takes the JSON back. On top of it stand the merged and annotated
domain data and the boot menu switch.

**Websockets and libvirt events** (`Registry`, `RegistryRuns`, `RegistryInterleaving`, `RegistrySchedules`,
`RegistryRisk`, `RegistryDelivery`, `RegistryAtomic`). The pool, the event store and the handlers are classes proved against functions on one
abstract state. That state is then run twice: with each handler one step, where delivery of messages is proved
from the trace alone, and with every unlocked check and every action under the mutex a step of its own, where
any interleaving is allowed. `RegistryRisk` decides when a live socket can be left without its event,
`RegistryDelivery` counts how often each event then reaches each socket, and `RegistryAtomic` shows that every run of the first kind is one of the second.

**Connections, retries and dispatch** (`ConnectionPool`, `Retry`, `Dispatch`, `Metadata`). The connection cache
and the retry object are classes; the middleware are combinators as in the daemon. The main results are about
the composition: what a client gets when libvirt goes away in the middle of a request.

**Guest shutdown** (`Shutdown`). Two timed polling loops against any guest, and any clock that is steady where
it is read: not before the start of its phase, and 20 ms on after each sleep of 20 ms. Nothing is asked of the
time between the phases, where the daemon does not sleep (`Shutdown.BoundaryWithoutSleep`).

**Routes** (`Routes`, `Router`). The eleven paths as a small language matched by backtracking, the table, and
a request from its path to its response.

## What the model shows about the code

- The conversion cannot be undone everywhere. An element whose only attribute is a non-empty `text` has the
  JSON of one with a child named `attrib` that holds only that text. `XmlInverse.InjectiveExactly` shows that
  this, at any depth, is the only way for two documents that are not equivalent to have one JSON. Equivalent
  documents differ in the order of attributes and of differently named children, in where the text stands, in
  attributes a later one of the name overrides, and in text after the first run; where names are distinct and
  an element has at most one run, that leaves order alone (`XmlOrder.OnlyOrderIsLost`).
- Switching the boot menu removes the first `bootmenu` child only. With two or more of them the switches pile
  up; the last switch wins exactly if there was at most one (`BootMenu.LastSwitchWinsExactly`).
- A websocket that is upgraded while the last socket of its user is closing can end up live with no libvirt
  event stored: the handshake looks at the event map without the lock (src/app.cpp:237), and the close measures
  the bucket before it takes the lock (src/app.cpp:249-251). `RegistryRisk.LossExactly` says when: the new
  socket can lose its event if and only if, at the moment of its upgrade, some close handler of the user has
  found the bucket empty and not yet taken the lock, or has the lock and an entry of the user to clear. Any
  other upgrade keeps its event (`RegistryRisk.LiveIsServed`); the risk arises for every user
  (`RegistryRisk.LiveCanBeUnserved`).
- While a second handshake of a user is between its registration and its store, libvirt holds two callbacks,
  and each target event is sent twice to every socket of the user. `RegistryDelivery.Arrives` gives the exact
  count after any run, and `RegistryDelivery.TwiceArises` a run that leads there.
- A metadata request whose description cannot be read as text has already written its title when the exception
  leaves the handler (`Metadata.PartialExactly`). The answer lists a field as changed even if libvirt refused
  the write, and a text with a NUL is cut off on its way to libvirt, so that repeating the request writes again
  (`Metadata.TruthfulExactly`, `Metadata.RepeatedExactly`).
- Two `devices` elements end in an exception of the JSON library (`DomainData.Outcome`).
- When all attempts of a request fail, the error is appended to whatever body the last attempt had written
  (`Dispatch.Exhausts`).

Where comments and code disagree, the model follows the code. The router's comment speaks of trying five
times (src/http/router.cpp:63); with five retries it makes six attempts. Block sizes are labelled `KiB` and
divided by 1000 (src/data/domain.cpp:96-102); such a number is right exactly if what is left over the thousands
makes up for the 24 bytes each is short, which is never so from 42000 bytes on (`DomainData.SizesInThousands`,
`DomainData.UnitIsRight`). The content type set before a route is picked is lost on every matched route, since
each attempt starts from a new response (src/http/router.cpp:40 and 65, `Router.ContentTypeLost`). The second
shutdown timeout is reported as 15 seconds whatever is configured (src/virt/domain.cpp:150); the model has
only the fact of the timeout.

## Model

| member | source | states |
|---|---|---|
| `XmlToJson.Run` | src/util/json.cpp:55-92 | The recursive conversion with its accumulating loop computes exactly the closed form, for every node. |
| `XmlToJson.RunAttributes` | src/util/json.cpp:59-62 | The attribute loop keeps the last value of each name; the object is empty exactly if there are no attributes. |
| `XmlToJson.ClosedForm` | src/util/json.cpp:57-91 | A name is a member exactly when it is not empty and something belongs under it: its reserved value, then the children so named, in order; the value is the one thing or the array of all. |
| `XmlToJson.BuiltStep` | src/util/json.cpp:73-89 | One turn of the loop keeps the closed form for the children passed so far. |
| `XmlToJson.ItemsHoldNoArray` | src/util/json.cpp:79-85 | Nothing that is stored under a name is itself an array, which is why a test of the dynamic type tells the second occurrence from later ones. |
| `XmlToJson.ConvertNamedIs` | src/util/json.cpp:73-89 | The converted children of a name are the conversions of the children so named, one by one and in document order. |
| `XmlConservation.Conservation` | src/util/json.cpp:55-92 | The output holds as many objects as the tree has named elements, plus one for each element with attributes, also when children are named `attrib` or `text`. |
| `XmlInverse.EquivalentConvert` | src/util/json.cpp:55-92 | Documents that differ only in attribute order, interleaving of names, position of text and later text runs have the same JSON. |
| `XmlInverse.Injective` | src/util/json.cpp:55-92 | An unambiguous document has the same JSON as another of its name only if they are equivalent. |
| `XmlInverse.AmbiguousIs` | src/util/json.cpp:64-71 | A node is ambiguous, told from its attributes and children alone, exactly if its attributes, or with none its first `attrib` child, convert to nothing but a text. |
| `XmlInverse.AmbiguousTwin` | src/util/json.cpp:59-71 | Every ambiguous node has a twin that is not equivalent and has the same JSON. |
| `XmlInverse.InjectiveExactly` | src/util/json.cpp:55-92 | A document is determined by its JSON up to equivalence if and only if it is unambiguous. |
| `XmlDecode.Reconvert` | src/util/json.cpp:55-92 | Decoding the JSON of any document and converting again gives the same JSON, even where the document is ambiguous. |
| `XmlDecode.RoundTrip` | src/util/json.cpp:55-92 | Decoding gives an unambiguous document back, up to equivalence, and the same JSON in every case. |
| `XmlOrder.EquivalentIsSame` | src/util/json.cpp:60-89 | For documents with distinct attribute names, named elements and one text run, equivalence means: same attributes, same text, same children of each name in order, all the way down. |
| `XmlOrder.OnlyOrderIsLost` | src/util/json.cpp:55-92 | For such documents, one of them unambiguous, equal JSON means exactly that they differ in nothing but order. |
| `DomainData.Merge` | src/data/domain.cpp:70-72 | Copying the members of the converted XML one at a time, in any order of the keys, overrides the simple members and keeps the rest. |
| `DomainData.WrapDevices` | src/data/domain.cpp:74-82 | The wrapping loop wraps every object under an array key, creates null devices where there are none, and throws on devices that are an array. |
| `DomainData.AnnotateDisks` | src/data/domain.cpp:84-105 | The disk loop annotates every disk in order, and the first disk that cannot be read ends it with that failure. |
| `DomainData.Build` | src/data/domain.cpp:58-108 | The whole function equals its specification, including both kinds of exception. |
| `DomainData.DeviceMembers` | src/data/domain.cpp:68-82 | End to end, an array key is a member of the devices exactly when the XML has a device so named, and its value is the array of all of them in document order, disks annotated; other keys are left alone. |
| `DomainData.WrappedDevices` | src/data/domain.cpp:74-82 | The same before the disk loop, for any devices element. |
| `DomainData.WrapIdempotent` | src/data/domain.cpp:74-82 | Wrapping twice is wrapping once. |
| `DomainData.OtherMembers` | src/data/domain.cpp:58-72 | The members other than the devices are those of the first domain converted, with their values, and the six facts of libvirt where the XML has no member so named. |
| `DomainData.StateShown` | src/virt/util.cpp:31-45 | Where the XML has no state, the answer shows the number of the state and its name: None, Running, Blocked, Paused, Shutdown, Shutoff, Crashed, Suspended for 0 to 7. |
| `DomainData.FactsShown` | src/data/domain.cpp:30-63 | Identity, name, title, description and autostart of the answer, each where the XML has no such member. |
| `DomainData.ArrayKeysAre` | src/data/domain.cpp:22-26 | The fourteen device keys that are always arrays, by name. |
| `DomainData.DecimalReadsBack` | src/views/domains.cpp:107 | A whole number read as text is its decimal digits, without leading zeros and with a minus if negative: reading them gives the number back. |
| `DomainData.TextsOf` | src/data/domain.cpp:89-93 | Which JSON values read as text, and as which text; objects and arrays throw. |
| `DomainData.Outcome` | src/data/domain.cpp:58-108 | A state without a name and a second devices element throw, none gives null devices, and with one the call succeeds exactly if every disk of the XML is readable. |
| `DomainData.FactsReadBack` | src/data/domain.cpp:28-56 | The simple answer exists exactly for the eight states libvirt names, and identity, name, title, description and state can all be told from it. |
| `DomainData.SizesInThousands` | src/data/domain.cpp:94-102 | Each size is its own field in thousands of bytes rounded down, and it is the KiB it is labelled as if and only if 24 bytes for each thousand fit into the bytes left over. |
| `DomainData.UnitIsRight` | src/data/domain.cpp:96-102 | The same for any number of bytes, and that it is never so from 42000 bytes on. |
| `DomainData.ReadAttribute` | src/data/domain.cpp:89-93 | An attribute can be read through the converted element if and only if under `attrib` there is nothing, the attributes alone, or one child without a child of that name; what is read is the attribute or the empty text. |
| `DomainData.DiskSizes` | src/data/domain.cpp:86-104 | The loop body succeeds on a disk if and only if its device, and for a storage disk the device of its at most one target, is readable; then it adds the sizes of the target exactly if the device is `disk`, and keeps all members but those it looks through. |
| `DomainData.DiskKeepsItsOwn` | src/data/domain.cpp:87-104 | Looking through a disk adds nothing but nulls: nothing of it is lost or overwritten except an old `block_info` of a storage disk. |
| `DomainData.PlainDisksSuffice` | src/data/domain.cpp:58-108 | With disks as libvirt writes them, without elements named `attrib` and with at most one target, the call succeeds if and only if there is at most one devices element. |
| `BootMenu.Switch` | src/views/domains.cpp:62-87 | The handler saves the edited document and answers 500 if libvirt refuses it, otherwise the converted `os`, which is the empty object if there is none. |
| `BootMenu.SwitchAnswers` | src/views/domains.cpp:62-87 | The same in full: statuses, error text, the path `domain`, `os`, and an entry that says `yes` for POST and `no` otherwise. |
| `BootMenu.SwitchSaves` | src/views/domains.cpp:66-77 | The document that is saved, by its nodes of every name: the edited `os` in place of the first, everything else as it was. |
| `BootMenu.EditKeepsTheRest` | src/views/domains.cpp:66-73 | The requested entry is last, all other children keep their order, and it is the only boot menu exactly if there was at most one. |
| `BootMenu.AnswerDiffersInBootmenu` | src/views/domains.cpp:70-86 | The answer agrees with the conversion of the old element in every other member, and with at most one entry before, its `bootmenu` is the requested `yes` or `no`. |
| `BootMenu.LastSwitchWinsExactly` | src/views/domains.cpp:70-73 | A later switch overrides an earlier one if and only if there is at most one boot menu. |
| `BootMenu.OnlyTheLastCounts` | src/views/domains.cpp:70-73 | Then any sequence of switches leaves what its last one alone would. |
| `BootMenu.SavedOs` | src/views/domains.cpp:66-77 | In the saved document, the path to the first `os` leads to the edited element. |
| `BootMenu.SavedElsewhere` | src/views/domains.cpp:66-77 | Everything else in the saved domain converts as before. |
| `Metadata.Domain.SetMetadata` | src/virt/domain.cpp:64-69 | A write is asked for; if accepted, the field holds the text up to its first NUL. |
| `Metadata.Update` | src/views/domains.cpp:89-131 | The handler, with its early ends, refines the specification of the new store and the answer. |
| `Metadata.TitleAfter` | src/views/domains.cpp:105-112 | A title that the body does not name keeps its value, is not written and not reported; one named with a text is written once and reported exactly if it differs, and if accepted ends as that text up to its first NUL. |
| `Metadata.DescriptionAfter` | src/views/domains.cpp:114-124 | The same for the description. |
| `Metadata.StatusAfter` | src/views/domains.cpp:93-100 | 400 with its text and an untouched store for a body that is not JSON, 304 and an untouched store for null, an exception for other values, and 200 exactly if some field is reported. |
| `Metadata.CStringCuts` | src/virt/domain.cpp:64-69 | A text crosses into libvirt up to its first NUL, and whole if it has none. |
| `Metadata.RepeatedExactly` | src/views/domains.cpp:105-128 | After accepted writes, repeating the request changes neither field; it writes nothing and answers 304 if and only if no requested text holds a NUL. |
| `Metadata.TruthfulExactly` | src/views/domains.cpp:107-124 | What the answer reports is what libvirt holds if and only if the changed fields were accepted and hold no NUL. |
| `Metadata.PartialExactly` | src/views/domains.cpp:107-116 | The handler throws after a write if and only if the description cannot be read as text while the title can and differs. |
| `Registry.MaskSelects` | src/app.cpp:146-148 | The bit mask lets through exactly started, shutdown and stopped. |
| `Registry.EraseOnce` | src/ws/pool.cpp:28-36 | Erasing from a bucket without duplicates removes that socket, nothing else, and adds no duplicate. |
| `Registry.Events.Set` | src/virt/events.cpp:21-25 | A stored event is not overwritten; the one that is turned away deregisters its callback. |
| `Registry.Events.Remove` | src/virt/events.cpp:33-37 | Removing an event, which must be there, deregisters its callback. |
| `Registry.Pool.Add` | src/ws/pool.cpp:21-26 | The socket is appended to its user's bucket. |
| `Registry.Pool.Remove` | src/ws/pool.cpp:28-36 | The first occurrence is found and erased; the caller must know that there is one. |
| `Registry.Pool.Lookup` | src/ws/pool.cpp:38-42 | Looking up a bucket creates it. |
| `Registry.Pool.Broadcast` | src/ws/pool.cpp:44-50 | One write for each socket of the bucket, in order. |
| `Registry.App.AddEvents` | src/app.cpp:165-182 | One callback more if the event is stored, none more if one was stored already or registration is refused. |
| `Registry.App.RemoveEvents` | src/app.cpp:150-163 | The user's event and its callback go, and the user's entry with them if it is empty. |
| `Registry.App.Websocket` | src/app.cpp:223-261 | An upgraded connection joins its user's bucket. |
| `Registry.App.OnHandshake` | src/app.cpp:236-240 | An event is added unless the user has an entry. |
| `Registry.App.OnClose` | src/app.cpp:244-253 | The socket leaves its bucket and, if it was the last, the event goes. |
| `Registry.App.OnEvent` | src/app.cpp:172-176 | A target event is written to every socket of the callback's user, any other to none. |
| `RegistryRuns.Keeps` | src/app.cpp:223-261 | Every handler as one step keeps the invariant: buckets hold exactly the sockets not cleanly closed, once each; callbacks are the stored events; an event implies a socket; a live socket implies an event. |
| `RegistryRuns.RunsHold` | src/app.cpp:236-257 | No run of atomic handlers ever erases what is not there, and every state reached satisfies the invariant. |
| `RegistryRuns.TracksEvents` | src/app.cpp:236-253 | A user has a stored event exactly if some handshake of the user was followed by no moment without a socket of the user. |
| `RegistryRuns.Delivery` | src/app.cpp:172-176 | In every run every socket is written exactly the messages that the trace says it should get, in order. |
| `RegistryRuns.NoneMissedNoneForeign` | src/ws/pool.cpp:44-50 | A live socket is written every target event of its user once, and never another user's event or another kind. |
| `RegistryInterleaving.AlwaysSafe` | src/app.cpp:150-163 | With handlers interleaved, an enabled step always finds the element it erases. |
| `RegistryInterleaving.StoreSecondCore` | src/app.cpp:178-179 | A racing second event is not stored and takes its callback with it, so callbacks and events still agree. |
| `RegistryInterleaving.DropCore` | src/app.cpp:155-158 | Under the lock, a user with an entry has the lifecycle event, and dropping it drops its callback. |
| `RegistryInterleaving.Keeps` | src/app.cpp:150-182 | Every fine-grained step, whatever the interleaving, is safe and keeps the invariant. |
| `RegistrySchedules.SchedulesHold` | src/app.cpp:223-257 | The invariant holds after every schedule, and no schedule erases what is not there. |
| `RegistrySchedules.CallbacksAreStored` | src/virt/event.cpp:56-60 | Whenever the mutex is free, each user has at most one stored event and libvirt holds exactly the callbacks of the stored events. |
| `RegistrySchedules.NothingLeaks` | src/app.cpp:244-253 | Once a user's handlers are done and the bucket is empty, the user has no event and libvirt no callback of the user's. |
| `RegistryRisk.GuardKept` | src/app.cpp:236-253 | A socket in its bucket whose user is not at risk stays so through every step of every handler, and past its check it keeps an event that is stored or just being stored. |
| `RegistryRisk.LiveIsServed` | src/app.cpp:236-253 | A live socket whose user was not at risk when it was upgraded has its event stored, or just being stored, and libvirt holds the callback of that event for the user. |
| `RegistryRisk.Release` | src/app.cpp:150-182 | From every state of a run, whoever has the lock can run to its end: a joining socket is then live with an entry, a closing one leaves none. |
| `RegistryRisk.RiskLoses` | src/app.cpp:249-251 | A socket upgraded while its user is at risk has a schedule that leaves it live with the lock free and no entry. |
| `RegistryRisk.LossExactly` | src/app.cpp:236-253 | After any schedule, a new socket can be left live without an event if and only if its user is at risk at that moment. |
| `RegistryRisk.LiveCanBeUnserved` | src/app.cpp:236-253 | Such a schedule exists for every user and any two sockets. |
| `RegistryDelivery.WatchersAre` | src/virt/events/lifecycle.cpp:31-45 | In every state of a run libvirt holds for a user one callback if an event is stored, and one more if a handshake of the user is between registering and storing. |
| `RegistryDelivery.Arrives` | src/app.cpp:172-176 | After any interleaving, a target event is written to exactly the sockets in its user's bucket, once for each of those callbacks: it is missed exactly if there is neither, sent twice exactly if there are both. |
| `RegistryDelivery.LiveMissesNone` | src/ws/pool.cpp:44-50 | With handlers interleaved, a live socket whose user was not at risk when it was upgraded is sent every target event of its user, and a second time exactly if another handshake is between registering and storing beside a stored event. |
| `RegistryDelivery.TwiceArises` | src/app.cpp:236-240 | For every user and any two sockets there is a run that ends with two callbacks and a live socket. |
| `RegistryAtomic.HandshakeInOneGo` | src/app.cpp:236-240 | The fine steps of a handshake, not interleaved, do what the one-step handshake does. |
| `RegistryAtomic.CloseInOneGo` | src/app.cpp:244-253 | The same for a close. |
| `RegistryAtomic.RunsAreSchedules` | src/app.cpp:223-257 | For every run of one-step handlers there is a schedule of the fine steps with the same sockets in the same places and the same events, callbacks and buckets at its end. |
| `ConnectionPool.Connection.Connect` | src/virt/connection.cpp:79-111 | A connection with a handle throws and stays; one without takes the handle and the user and is open, or keeps its user and state, notes the error and throws. |
| `ConnectionPool.Connection.OnClose` | src/virt/connection.cpp:100-104 | libvirt's callback marks the connection closed and throws the retry error. |
| `ConnectionPool.Pool.Get` | src/virt/connection_pool.cpp:23-46 | An open entry is used as it is; a missing or closed one is replaced by a new connection; no other entry changes. |
| `ConnectionPool.Ledger` | src/virt/connection_pool.cpp:23-46 | In every run, opens minus losses of a user are 1 while the entry is open and 0 otherwise; an open entry has a handle and its own user; a lookup fails exactly if an open is needed and refused, never by connecting twice. |
| `ConnectionPool.UsersIndependent` | src/virt/connection_pool.cpp:23-46 | A user's entry is what the steps of that user alone would make it. |
| `Retry.Retrier.Call` | src/util/retry.hpp:50-61 | The recursive call with its unsigned counter makes the bounded sequence of attempts that the specification describes. |
| `Retry.FirstSettled` | src/util/retry.hpp:50-61 | If attempt i is the first that does not throw a retry error and i is within the limit, there are i+1 calls and its outcome, other exceptions included, is the result. |
| `Retry.NeverSettled` | src/util/retry.hpp:50-61 | If none is within the limit n, there are n+1 calls and the fatal error carries the last message. |
| `Dispatch.Serve` | src/http/router.cpp:61-76 | The retried route with its catch-all gives the served response. |
| `Dispatch.HandlerIs` | src/http/middleware.cpp:37-146 | What the nested middleware comes to: the header on every path, 405 or no answer before the user is looked up, 404 for the user, 500 for the connection, 404 for the domain, then the view. |
| `Dispatch.AttemptIsSolo` | src/http/router.cpp:64-68 | An attempt answers as it would alone from an empty response; all that matters of the past is whether the cached connection is open. |
| `Dispatch.Recovers` | src/http/router.cpp:61-76 | A request that loses libvirt in its first k attempts, k at most 5, gets exactly the answer of attempt k+1, with k opens and one more if the entry was not open at the start. |
| `Dispatch.LastAttemptAnswers` | src/http/router.cpp:61-76 | After at most five losses the next attempt decides: what it throws, unless a retry error, comes back as status 500 with the attempt's headers and its body followed by the exception's text; otherwise its response stands. |
| `Dispatch.ViewAnswers` | src/http/router.cpp:61-76 | The same for a request that reaches its view, in terms of what the view writes and throws. |
| `Dispatch.MiddlewareAnswers` | src/http/middleware.cpp:68-146 | The answers in full of a request that does not: 404 for the user, 500 for the connection, 404 for the domain, and 500 with the text of any other exception of the lookup. |
| `Dispatch.Exhausts` | src/http/router.cpp:69-75 | If all six attempts lose libvirt, the last message comes back with 500. |
| `Dispatch.SixLosses` | src/http/router.cpp:63-75 | Six losses, status 500, and the last text at the end of what the sixth attempt had written. |
| `Dispatch.ReopenRefused` | src/http/middleware.cpp:112-120 | A refused open, on the first attempt or after losses, answers 500 and ends the request. |
| `Dispatch.PriorLost` | src/http/router.cpp:64-68 | A matched route answers the same whatever the response held before. |
| `Dispatch.LibvirtUntouched` | src/http/middleware.cpp:55-62 | A method that is not served, and an unknown user, never cause an open. |
| `Dispatch.UnservedAnswers` | src/http/middleware.cpp:55-62 | OPTIONS is answered 200 and a method that is not served 405, both with the header and no body. |
| `Dispatch.AllowPostDelete` | src/http/middleware.cpp:45-53 | The header lists the methods and OPTIONS at the end, parted by commas and spaces; so also `AllowGet` and `AllowPost`. |
| `Shutdown.MaskSelects` | src/virt/domain.cpp:131-133 | The masks select shutdown or shutoff, and shutoff alone. |
| `Shutdown.Await` | src/virt/domain.cpp:132-141 | A polling loop ends at the first poll that sees the state or, not seeing it, is late; a state seen late still counts; the polls are at most the bound. |
| `Shutdown.PollsBounded` | src/virt/domain.cpp:145-153 | If the clock readings of a phase that follow a sleep are 20 ms apart, a phase with timeout T seconds takes at most floor(50 T) + 2 polls. |
| `Shutdown.BoundaryWithoutSleep` | src/virt/domain.cpp:132-147 | The clock condition admits a second phase that reads the clock half a millisecond after its start, straight after the last poll of the first. |
| `Shutdown.EndsExclusive` | src/virt/domain.cpp:132-155 | Going down and the two timeouts exclude each other, whatever the clock. |
| `Shutdown.Run` | src/virt/domain.cpp:115-156 | Each result is returned if and only if the states and the seconds say so: down if some poll is the first to see state 4 or 5, none before it too late, and a later one the first to see state 5, none between too late; within floor(50 T) + 2 polls for each timeout T. |
| `Shutdown.LastSeen` | src/virt/domain.cpp:128-134 | The state a poll goes by is the last that was read, and 0 if none was. |
| `Shutdown.FirstEnds` | src/virt/domain.cpp:131-141 | The first loop ends where the guest is first seen in state 4 or 5, or at the first poll that sees neither and is too late. |
| `Shutdown.SecondEnds` | src/virt/domain.cpp:143-153 | The second loop ends where it is then first seen in state 5, or at the first poll after that does not and is too late. |
| `Shutdown.NeverOff` | src/virt/domain.cpp:145-146 | A guest that is never seen in state 5 does not go down. |
| `Shutdown.Handle` | src/views/domains.cpp:147-168 | The answer is 400 or 504 exactly as libvirt refused or a phase ran out of time; exactly if the guest went down it is the domain read once more, or the exception of a state without a name. |
| `Routes.MatchSound` | src/app.cpp:36-104 | Captures found by backtracking are non-empty, free of slashes, and print to the path. |
| `Routes.MatchComplete` | src/app.cpp:36-104 | Whatever prints to a path is found. |
| `Routes.PrintInjective` | src/app.cpp:36-104 | A path determines the captures it is printed from. |
| `Routes.RoundTrip` | src/app.cpp:36-104 | The path of any user and domain matches its route with exactly those captures. |
| `Routes.MatchedIsPath` | src/app.cpp:36-104 | Any path that matches a route is the path of its captures. |
| `Routes.AtMostOneRoute` | src/app.cpp:35-104 | No path matches two of the eleven routes. |
| `Routes.UserRoutes` | src/app.cpp:40-64 | The four paths of a user in full: each route matches its own and no other, with the user captured. |
| `Routes.DomainRoutes` | src/app.cpp:65-84 | Three paths of a domain in full, with user and domain captured. |
| `Routes.PowerRoutes` | src/app.cpp:85-104 | The other three: boot menu, start and shutdown. |
| `Routes.RedirectTakes` | src/app.cpp:36 | The redirect takes exactly what has two characters or more, no slash at its end and no line end before it. |
| `Routes.NoRedirectLoop` | src/app.cpp:212-221 | The target of a redirect is not redirected. |
| `Routes.RedirectRepairs` | src/app.cpp:36-104 | The path of a route without its last slash is redirected, by no other route, to the path itself. |
| `Router.Table.Add` | src/http/router.cpp:105-110 | Both maps get the key, so their keys stay the same. |
| `Router.Table.Find` | src/http/router.cpp:57-79 | In whatever order the map yields the routes, the one that matches is found with the handler stored for it, and its compiled form always exists. |
| `Router.Filled` | src/app.cpp:35-104 | The application's table holds every route with its own handler. |
| `Router.Run` | src/http/router.cpp:34-79 | The response is that of the handler stored for the one matching route, or Not Found. |
| `Router.PathsAnswered` | src/http/router.cpp:57-79 | The path of a user and a domain is answered by its own route for that user, whatever the order of the table. |
| `Router.UserPathsAnswered` | src/app.cpp:39-64 | The four paths of a user in full are found as their own routes, serve GET and need no domain. |
| `Router.DomainPathsAnswered` | src/app.cpp:65-84 | Three paths of a domain in full, with the methods they serve, all needing the domain. |
| `Router.PowerPathsAnswered` | src/app.cpp:85-104 | The other three. |
| `Router.UnslashedRedirected` | src/app.cpp:212-221 | What the redirect takes is answered 307 with itself and a slash as location, and nothing else. |
| `Router.UnmatchedNotFound` | src/http/router.cpp:40-55 | A path that no route matches is answered 404 with its text, without a body for OPTIONS. |
| `Router.ShortPathsRedirected` | src/app.cpp:212-221 | The same path without its last slash is answered with a redirect to it. |
| `Router.ContentTypeLost` | src/http/router.cpp:40-67 | What the response holds before a route is picked makes no difference to the answer of a matched route. |

## Left out

- Sockets, asio strands and timers, HTTP parsing, worker threads: a scheduler that picks the next handler step, one at a time for each connection.
- libvirt, the password database, the configuration and the clock: parameters with arbitrary values. Block information is assumed to be there, as the code does.
- The unlocked read of the event map at src/app.cpp:237 and of the bucket's size at src/app.cpp:249 are single steps; that they are data races in C++ terms is not part of the model.
- One event runs the callbacks of its user in one step; that other steps can fall between two of them is not modelled.
- The registry across libvirt reconnects: a connection that is replaced in place keeps its events registered with the old one, and a failed reconnect clears the user name that the handlers read. The runs of the registry assume that neither happens.
- A refused event registration throws out of the handler before the map is touched. `Registry.App.AddEvents` has it; in the runs it does not occur.
- Sockets that end in an error stay in their bucket (src/ws/connection.cpp:101-104). The runs model it and claim nothing about their leaving.
- Retries of the websocket route: the connection is moved away by the first attempt (src/http/router.cpp:67), so the retry results are about handlers that ignore it.
- A list asked to erase its end is undefined in C++. The model treats it as a crash and proves that it is not reached.
- How the JSON library prints a fraction: a number that is not whole is told by its printed text.
- The XML and JSON libraries: documents start as trees under the default parse options, JSON ends as a value. Escaping and printing of either are not modelled, and neither is the order of members.
- Regular expressions: the ten patterns with captures are literal pieces and captures matched by backtracking, the redirect pattern is a predicate on its text.
- Response fields set below the router (version, server, content length) and the log.
- Shutdown.Run: times are reals, where the code compares doubles.
- The index, show, autostart, start, host and network views, the URI of a connection and the main program: they would add only easy members.
