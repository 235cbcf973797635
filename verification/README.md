# Nectere, modelled and verified in Dafny

Nectere is a small event server: users connect, get a 16-bit id, open and join
canals, and send each other messages; a pool of worker threads runs its tasks; a
data-tree library prints and reads JSON; a client splits command lines. This
project models that behaviour and proves what the pieces promise each other.
`dafny verify dfyconfig.toml` checks everything.

## Parts

- **Membership server.** `IdGenerator`, `UidSet`, `Membership` (the canal indices as
  values and the agreement every operation keeps), `World` and `Town` (what the indices
  stand for: rooms, users and one membership relation), `ServerSpec` (the server as a
  state machine and its runs), `Notices` (the same steps with every notice and sweep of
  the code in them), `Replies` (what users are told, read off the record of deliveries),
  `Removals` (pending removals against recycled ids),
  `Server` (module `ServerObjects`: the classes `Canal`, `CanalManager`, `UserManager`)
  and `Commands` (a call on the objects is a step of the machine). Each public method is
  one atomic step, as under the mutex; hash-set iteration orders are left open, and every
  theorem holds for all of them.
- **Data tree and JSON.** `DpNode`, `NodePaths`, `NodeSearch` (which chain of children a key
  finds), `Numerals`, `JsonPrinter`, `JsonLayout` (the printed text at any depth), `JsonParser`,
  `JsonTexts` (what the pieces of a text mean), `JsonGrammar` (which texts load, and as what),
  `JsonStrings` (which texts come back), `JsonRoundTrip`, `JsonArrays` (scalars in arrays),
  `JsonExact` (which trees come back, and that no other does). The loaders are specified on
  the rest of the text, `content[pos..]`, and the cursor methods are proved against that.
  `content[length]` is NUL; a read past it is the outcome `PastEnd`.
- **Tasks.** `Task` (module `Tasks`), `Scheduler` and `SchedulerRuns` (workers, adders,
  canceling, stopping and cleaning up, interleaved at every load of the running flag,
  every locked section and every call on a task), `ThreadSystem` (module
  `ThreadSystems`: the object, and one undisturbed worker round as a path of steps),
  `TaskLives` (each task's state is one run of `Tasks`; no worker is stuck), `CleanUp`
  (module `CleanUps`: what the end of a run leaves behind). `Paths` holds what is true of
  the paths and runs of any step relation.
- **Text.** `Trim` and `SmartSplit` (module `SmartSplitting`) for the server's splitter,
  `CommandLine` for the client's.
- **Wire format.** `Wire`: version packing, the 24-byte header, framing of event streams.

A class method is specified by a function on values (`Index()`, `State()`, `Model()`), and
the theorems are about runs of those functions. Each spec function has a partner it is
proved against: the indices against `World`/`Town`, the printer against the parser, the
re-scanning splitter against one pass and against global cut positions, trimming against
"join the words", the numeral scan against the regular expression, task traces against a
language of whole lives in both directions, the check of brackets and quotes against counts,
the search in the tree against chains of children, the layout of the printed text against one
that carries no state, and the JSON reader and the command-line splitter, in both directions,
against grammars of what is written.

## Where the code does not do what it is for

Each of these is proved, with the exact condition where there is one.

- **Arrays of scalars do not load.** `LoadNode` consumes the character it has looked at
  before it calls `LoadValue`, so `12` in an array is read as `2` and `[1, 2]` is refused;
  so is the empty array. An array loads as an equal node exactly when it has elements and
  each is a carried array or object (`JsonExact.ArrayReadsBackExactly`).
- **The reader's language is its own.** It lets a colon be missing before a bracket or stand
  before an array element, and any text stand behind the document; it refuses a blank
  before a comma behind a scalar or an empty object. `JsonGrammar.LoadsExactly` gives the
  whole of it.
- **`StrString` does not escape backslashes.** A backslash before `n` comes back as a line
  feed (`JsonStrings.BackslashNLost`), and at the end of a text it takes the closing quote
  along. A text comes back exactly when it has no NUL and, in pairs from the left, no
  backslash stands before a character that is escaped or read as an escape
  (`JsonStrings.TextReadsBackExactly`).
- **Only an unnamed object of carried parts survives** (`JsonExact.SurvivesExactly`), for
  every tree with carried, distinct member names whose marks "not a string" are true,
  whatever its texts and elements. What is lost is never
  mended by what is read later. A carried named root comes back inside an unnamed one when
  printed at depth 0 (`JsonRoundTrip.NamedRootIsWrapped`); printed at any other depth no
  named root loads (`JsonExact.NamedRootRefused`).
- **Names are not escaped at all.** A name is read back as the key it was exactly when it
  has no quote and, in pairs from the left, no backslash stands before a character that
  makes an escape with it (`JsonStrings.NameReadsBackExactly`); an object whose first
  member has another name is lost, whatever else is in it (`JsonExact.FirstNameLost`).
- **`Update` can remove the wrong user.** `RemoveUser` remembers an id; if that user is
  removed at once and its id given out again, the next `Update` removes the newcomer
  (`Removals.UpdateTakesTheWrongUser`). Along every run pending removals stay those of
  users somebody asked for exactly as long as no connection is given a pending id
  (`Removals.RunIsFairExactly`); then no `Update` takes anybody else. An `Update` takes a
  user nobody asked for exactly when that user connected under an id pending then, since
  the `Update` before (`Removals.UpdateTakesWronglyExactly`).
- **Nobody ever hears that a canal was deleted.** The only user `DeleteCanal` can find
  linked is the one leaving, who is out of the user set by then
  (`Notices.FullNextIsNext`, `Notices.NobodyHearsCanalDeleted`).
- **The sweep of `CanalManager::Update` never finds anything** (`Membership.SweepFindsNothing`).
- **An id in use is given out when all 65536 are in use**, and only then: in every run all
  ids given out are held by nobody exactly when none is asked for while all are held
  (`IdGenerator.RunIsFreshExactly`, `IdGenerator.FullGeneratorGivesALiveId`). That the
  16-bit counter goes round before that does no harm. `GenerateID` does not check, so a
  connection or a new canal keeps the server in agreement exactly when an id is left
  (`ServerSpec.AddKeepsAgrees`, `Membership.CreateKeepsAgree`).
- **The interpolation search is a scan**: its integer quotient is always 0
  (`UidSet.WrittenProbeIsLeft`). It is correct under either reading of the formula.
- **`Clean` does not always delete every task.** It does exactly when no `AddTask`, not
  even of a worker that requeues, ever found the system stopped, and no other thread was
  between its test of the running flag and its push (`CleanUps.CleanedDeletesExactly`). A
  task that was stays queued for ever (`CleanUps.LateTaskIsLost`); a task that has begun
  is let go, and never ends, when its worker finds the system stopped
  (`CleanUps.StartedTaskIsDropped`).
- **Versions from 6.55.36 on do not fit their 16 bits**, and data stops at its first NUL
  (`Wire.StreamSurvivesExactly`).
- **`Add` on a key that exists drops the new value** and keeps only its children
  (`NodePaths.GetAfterAdd`).

## Choices

- `LeaveAllCanal` walks a set that `DeleteCanal` erases from while it does so; the model
  walks the links as they were on entry, in any order.
- Requests carry the id of a live user, and an id is free for what is created: fewer than
  65536 users or canals. Both are `ServerSpec.Enabled`.
- When a canal exists already, the error event carries a canal id that was never
  assigned; it is the parameter `scrap`.
- An `AUser` is its handle (a pointer value); `user->Receive(event)` is virtual, so calls
  of it are recorded in `delivered`. The JSON settings of a canal request arrive parsed.
- A task's `OnUpdate` is virtual: its answer is a parameter. Callbacks are trace entries.
- `Dp::Node` owns its children by value and is copied, so it is a datatype; `InternalAdd`
  returns the new tree.
- `unsigned int` depth wraps at 2^32 and `DecreaseDepth` stops at 0, as in the code.
- `Trim` on text of nothing but blanks reads before the start of the string in the code;
  the model guards that read.

## Model

| member | source | states |
|---|---|---|
| IdGenerator.IDGenerator.GenerateID | Nectere/IDGenerator.cpp:8-24 | the queue is served before the counter, which moves modulo 2^16 |
| IdGenerator.IDGenerator.FreeID | Nectere/IDGenerator.cpp:26-34 | the last id given lowers the counter, any other is queued |
| IdGenerator.CountIds | Nectere/IDGenerator.hpp:12-13 | the counter has come, going round, as far from the first as there are live and queued ids |
| IdGenerator.ConsistentIsCyclic | Nectere/IDGenerator.cpp:8-34 | the ids the counter has passed are the live and the queued ones if and only if those are the first so many from the first, modulo 2^16 |
| IdGenerator.GenerateIsFresh | Nectere/IDGenerator.cpp:8-24 | a generated id is not live, and the generator stays consistent, if and only if fewer than 65536 ids are live |
| IdGenerator.FreeKeepsConsistent | Nectere/IDGenerator.cpp:26-34 | freeing a live id keeps the ids up to the counter the disjoint union of live and queued ids, no repeats |
| IdGenerator.RunIsConsistent | Nectere/IDGenerator.cpp:8-34 | over every disciplined run that asks for no id while all are held: consistency, and never more ids live and queued than the peak of live ones |
| IdGenerator.RunIsFreshExactly | Nectere/IDGenerator.cpp:8-34 | in every disciplined run from any first id, every id given out is held by nobody if and only if none is asked for while all 65536 are held |
| IdGenerator.RunNeverWraps | Nectere/IDGenerator.cpp:8-34 | with at most 65535 - first live at once the counter never wraps nor passes the peak, and every id is fresh |
| IdGenerator.FullGeneratorGivesALiveId | Nectere/IDGenerator.cpp:12-16 | after 65536 generations from a fresh generator all ids are live, the counter is back at 0 and the next id is a live one |
| IdGenerator.ReuseIsInOrder | Nectere/IDGenerator.cpp:8-34 | in every run the ids given out again are, in order, the first of those queued, and the rest waits in that order: first freed, first reused |
| IdGenerator.FreeUndoesGenerate | Nectere/IDGenerator.cpp:8-34 | with nothing queued, freeing the id just given out restores the generator, if and only if the counter has not just gone round |
| UidSet.MapDetermines | Nectere/UIDSet.hpp:14-15 | sorted vectors with the same map are the same: the map view loses nothing |
| UidSet.WrittenProbeIsLeft | Nectere/UIDSet.hpp:33 | the probe as written is always the left end |
| UidSet.BothProbesStayInside | Nectere/UIDSet.hpp:8-33 | the written probe and true interpolation both answer inside the range |
| UidSet.UIDSet.Search | Nectere/UIDSet.hpp:25-53 | for any probe inside the range: terminates, in bounds, finds the id, or brackets the place where it belongs |
| UidSet.UIDSet.Add | Nectere/UIDSet.hpp:58-87 | adds exactly when not null and the id is new; the map gains that pair, order and alignment kept |
| UidSet.UIDSet.Find | Nectere/UIDSet.hpp:89-98 | true exactly for ids in the map |
| UidSet.UIDSet.Get | Nectere/UIDSet.hpp:100-109 | the element mapped to the id, or null |
| UidSet.UIDSet.Remove | Nectere/UIDSet.hpp:111-123 | removes exactly that id from the map, both vectors kept aligned |
| UidSet.UIDSet.Clear | Nectere/UIDSet.hpp:125-131 | leaves the empty map |
| Membership.CreateKeepsAgree | Nectere/CanalManager.cpp:33-43 | creating keeps all indices in agreement if and only if the name is taken or an id is left; a new canal id is in no link |
| Membership.DeleteKeepsAgree | Nectere/CanalManager.cpp:163-183 | deleting or marking keeps all indices in agreement |
| Membership.JoinKeepsAgree | Nectere/CanalManager.cpp:185-210 | joining keeps the mirror and the limit |
| Membership.LeaveKeepsAgree | Nectere/CanalManager.cpp:212-235 | leaving keeps agreement, including the deferred deletion |
| Membership.LeaveAllKeepsAgree | Nectere/CanalManager.cpp:237-257 | leaving all keeps agreement in every visiting order and ends with no link entry |
| Membership.DismissKeepsAgreeExcept | Nectere/CanalManager.cpp:243-253 | each round keeps agreement for everybody else, and the canals listing the leaver are those still to visit |
| Membership.OnlyTheLeavingUserIsLinked | Nectere/CanalManager.cpp:50-59 | the link-erasing loop finds no client but the one leaving |
| Membership.EmptyCanalHasNoLinks | Nectere/CanalManager.cpp:163-172 | deleting an empty canal finds no link to it |
| Membership.SweepFindsNothing | Nectere/CanalManager.cpp:87-104 | where the indices agree no canal is both marked and empty |
| World.CreateRefines | Nectere/CanalManager.cpp:33-43 | creating adds one room under a number no room has, unless the name is taken |
| World.DeleteRefines | Nectere/CanalManager.cpp:163-183 | an empty room goes, another is marked, nobody moves |
| World.JoinRefines | Nectere/CanalManager.cpp:185-210 | joining adds exactly the pair (user, canal) when room, password and limit allow |
| World.DismissRefines | Nectere/CanalManager.cpp:245-252 | one round takes out exactly one pair, and the room if it only waited for that |
| World.LeaveRefines | Nectere/CanalManager.cpp:212-235 | leaving takes out exactly one pair, and the room if it only waited for that |
| World.LeaveAllRefines | Nectere/CanalManager.cpp:237-257 | leaving all ends all memberships of the user at once; the visiting order does not show |
| ServerSpec.AddKeepsAgrees | Nectere/UserManager.cpp:17-26 | connecting keeps the server in agreement if and only if fewer than 65536 users are connected |
| ServerSpec.NextKeepsAgrees | Nectere/UserManager.cpp:17-79 | every command keeps users, generators, indices and links of the whole server in agreement |
| ServerSpec.RunIsSafe | Nectere/UserManager.cpp:17-79 | in every state of every run: members are live users of existing canals, the mirror holds, names are in bijection, limits hold, ids in use are exactly those given out |
| ServerSpec.NewUserStartsClean | Nectere/UserManager.cpp:22-23 | a user id given out is nobody's if and only if one is left, and then, fresh or recycled, is in no canal and has no links |
| ServerSpec.NewCanalStartsClean | Nectere/CanalManager.cpp:37-39 | a canal id given out is no canal's if and only if one is left, and then has no link and no name |
| ServerSpec.RemoveKeepsAgrees | Nectere/UserManager.cpp:52-61 | removing a user removes it from users, links and every canal, and delivers nothing |
| ServerSpec.RemoveEachKeepsAgrees | Nectere/UserManager.cpp:70-72 | the pending loop removes exactly the pending users |
| Notices.LeavingAllIsSilent | Nectere/CanalManager.cpp:243-253 | for every visiting order and every order of links, the notices sent while a removed user leaves all canals reach nobody |
| Notices.FullNextIsNext | Nectere/CanalManager.cpp:45-64 | the step with all notices of DeleteCanal and the sweep of Update in it is exactly the step of the state machine |
| Notices.FullRunsAreRuns | Nectere/CanalManager.cpp:87-104 | so both have the same runs |
| Notices.NobodyHearsCanalDeleted | Nectere/CanalManager.cpp:50-59 | in no run of the full steps is a canal-deleted event delivered to anybody |
| ServerSpec.MessageReachesTheOthers | Nectere/CanalManager.cpp:259-289 | a member's message is delivered exactly once to each other member and to nobody else |
| Replies.CreationIsAnswered | Nectere/CanalManager.cpp:136-161 | exactly one event, to the creator, an error if and only if a room has the name; otherwise it carries the number of the new room, which has the settings asked for |
| Replies.CreationTellsSettings | Nectere/CanalManager.cpp:145-160 | its text names the password and the limit exactly when they are set |
| Common.IntTextReadsBack | Nectere/CanalManager.cpp:145-160 | the text of the limit reads back as the number, behind a minus sign when negative |
| Replies.DeletionIsAnswered | Nectere/CanalManager.cpp:163-183 | exactly one event, to the requester, an error if and only if there is no such room; otherwise its text says whether the room is gone or marked |
| Replies.JoiningIsAnswered | Nectere/CanalManager.cpp:185-210 | exactly one event, to the requester, an error if and only if the room does not take the user, naming the reason; otherwise it carries the canal and the user is a member |
| Replies.LeavingIsAnswered | Nectere/CanalManager.cpp:212-235 | exactly one event, to the requester, an error if and only if the user is not a member, naming the reason; afterwards it is none |
| Replies.MessagesCarryTheText | Nectere/CanalManager.cpp:259-289 | every delivery of a member's message has the text, the canal, no error and the code 200, once for each other member; an outsider gets the one error, an unknown canal nothing |
| Replies.ConnectingIsAnswered | Nectere/UserManager.cpp:17-26 | whoever connects gets exactly one event, code 100, under the new id that is then its own |
| Replies.GoingIsSilent | Nectere/UserManager.cpp:52-79 | asking for a removal, removing and Update deliver nothing |
| Town.NextRefinesTown | Nectere/UserManager.cpp:17-79 | every step over all indices is one step of the town of users, rooms and one relation |
| Removals.AddIsFairExactlyWhenIdNotPending | Nectere/UserManager.cpp:17-26 | a new connection makes a pending id point at somebody nobody asked for if and only if its id is pending |
| Removals.OthersStayFair | Nectere/UserManager.cpp:52-72 | no other command does |
| Removals.RunIsFairExactly | Nectere/UserManager.cpp:17-72 | along every run all states up to a point are fair if and only if up to there no connection was given a pending id |
| Removals.UpdatesTakeOnlyAsked | Nectere/UserManager.cpp:68-72 | as long as that holds no Update removes a user nobody asked to remove |
| Removals.UpdateTakesWronglyExactly | Nectere/UserManager.cpp:68-72 | in every run an Update takes a user nobody asked for if and only if that user connected since the last Update under an id pending then, is still there, and still nobody asked |
| Removals.DisciplinedRunIsFair | Nectere/UserManager.cpp:52-66 | if removals name users there and never a pending one, no run gives out a pending id |
| Removals.UpdateTakesTheWrongUser | Nectere/UserManager.cpp:52-72 | a run in which Update removes a user nobody asked for |
| ServerObjects.Canal.AddUser | Nectere/Canal.hpp:26 | the user set gains the user, nothing else changes |
| ServerObjects.Canal.MarkForDelete | Nectere/Canal.hpp:24 | the mark is set, nothing else changes |
| ServerObjects.Canal.RemoveUser | Nectere/Canal.cpp:7-12 | the user set loses the user, nothing else changes |
| ServerObjects.CanalManager.CreateNamed | Nectere/CanalManager.cpp:33-43 | refines `Create`; answers whether the name was free, and the id |
| ServerObjects.CanalManager.CreateCanal | Nectere/CanalManager.cpp:136-161 | refines `Create` and sends the creator the one reply |
| ServerObjects.CanalManager.DeleteCanal | Nectere/CanalManager.cpp:45-64 | refines `Erase`; every linked user is told, in some order, each once |
| ServerObjects.CanalManager.DeleteCanalFor | Nectere/CanalManager.cpp:163-183 | refines `Delete` with its reply |
| ServerObjects.CanalManager.JoinCanal | Nectere/CanalManager.cpp:185-210 | refines `Join` with its reply, one per refusal; `Replies.JoiningIsAnswered` says which |
| ServerObjects.CanalManager.LeaveCanal | Nectere/CanalManager.cpp:212-235 | refines `Leave` with its reply; a deferred deletion notifies nobody |
| ServerObjects.CanalManager.LeaveAllCanal | Nectere/CanalManager.cpp:237-257 | refines `LeaveAll` in the order taken; a user already removed is told nothing |
| ServerObjects.CanalManager.MessageCanal | Nectere/CanalManager.cpp:259-289 | outsiders get an error, members reach the other members in some order |
| ServerObjects.CanalManager.Update | Nectere/CanalManager.cpp:87-104 | erases exactly the canals both marked and empty |
| ServerObjects.UserManager.SendEvent | Nectere/UserManager.cpp:87-91 | delivered if and only if the user is there |
| ServerObjects.UserManager.SendEventTo | Nectere/UserManager.cpp:93-97 | the users of the vector, in order |
| ServerObjects.UserManager.AddUser | Nectere/UserManager.cpp:17-26 | a step `Added` that keeps the whole server valid |
| ServerObjects.UserManager.RemoveUser | Nectere/UserManager.cpp:63-66 | the id joins the pending ones, nothing else changes |
| ServerObjects.UserManager.RemoveUserInstant | Nectere/UserManager.cpp:52-61 | a step `Removes` that keeps the whole server valid |
| ServerObjects.UserManager.Update | Nectere/UserManager.cpp:68-79 | removes the pending users one by one, empties the list, sweeps nothing |
| Commands.Execute | Nectere/Application.cpp:82-85 | any enabled command on the objects is its step of the state machine, and the full step, and leaves them valid |
| DpNode.InternalAddAt | Nectere/Dp/Node.cpp:99-169 | the loop with its counter is `InternalAdd`: first child of the name, created when missing, children merged at the end |
| DpNode.GetNodeAt | Nectere/Dp/Node.cpp:176-220 | the loop with its counter is the backtracking `GetNode` |
| NodePaths.GetAfterAdd | Nectere/Dp/Node.cpp:99-220 | after Add(p, v) key p holds v renamed, or the first-match node with v's children appended |
| NodePaths.GetAboveAfterAdd | Nectere/Dp/Node.cpp:99-220 | a key on the way to p holds the first-match node with the rest of p added |
| NodePaths.GetBelowAfterAdd | Nectere/Dp/Node.cpp:99-220 | a key continuing p finds what Add left at p holds under the rest; when that is nothing it answers what it answered before |
| NodePaths.GetElsewhereAfterAdd | Nectere/Dp/Node.cpp:99-220 | a key not prefix-comparable with p answers what it answered before, despite backtracking |
| NodeSearch.FindCharIs | Nectere/Dp/StringUtils.cpp:9-19 | the first position of the character before any NUL, or none |
| NodeSearch.SegmentsOfDotted | Nectere/Dp/Node.cpp:176-205 | names joined by dots are the segments of the key |
| NodeSearch.GetNodeFindsTheLeftmost | Nectere/Dp/Node.cpp:176-220 | something is found if and only if some chain of children has those names, the last the first of its name; it is what the leftmost such chain leads to |
| Numerals.NumericalIsThePattern | Nectere/Dp/Node.hpp:118 | the scan accepts a value if and only if the regular expression matches it |
| JsonPrinter.Result.IncreaseDepth | Nectere/Dp/Result.cpp:51-55 | depth plus one modulo 2^32, indent string in step |
| JsonPrinter.Result.DecreaseDepth | Nectere/Dp/Result.cpp:57-64 | depth minus one, not below zero, indent string in step |
| JsonPrinter.Result.AppendChar | Nectere/Dp/Result.cpp:13-20 | appends the character unless it is NUL |
| JsonPrinter.StrString | Nectere/Dp/Json.cpp:60-79 | appends the quoted text with the source's escapes |
| JsonPrinter.StrObject | Nectere/Dp/Json.cpp:81-104 | appends the block text; depth and indentation threaded through the elements |
| JsonPrinter.StrNode | Nectere/Dp/Json.cpp:120-139 | appends indentation, name and body |
| JsonPrinter.JsonStr | Nectere/Dp/Json.cpp:141-151 | the text of a node, a named root at depth 0 inside an unnamed one |
| JsonPrinter.DepthIsRestored | Nectere/Dp/Json.cpp:81-104 | printing restores the depth exactly when the counter does not wrap inside, and leaves 0 otherwise |
| JsonLayout.BodyIsLaidOut | Nectere/Dp/Json.cpp:81-118 | the body of a node at any depth is brackets around its elements, each on its own line behind the indentation of its depth when lines are broken, names and colon in objects only, a comma between |
| JsonLayout.UnnamedIsLaidOut | Nectere/Dp/Json.cpp:141-151 | so is the whole text of an unnamed root, behind the indentation of the start depth |
| JsonLayout.NamedIsLaidOut | Nectere/Dp/Json.cpp:120-151 | a named root at a depth above 0 is printed as a named element |
| JsonLayout.WrappedIsLaidOut | Nectere/Dp/Json.cpp:141-151 | a named root at depth 0 is printed as the one element of an unnamed object |
| JsonTexts.PrintedCharacter | Nectere/Dp/Json.cpp:60-79 | the seven control characters print as backslash and letter, a quote behind a backslash, NUL as nothing, any other as itself |
| JsonTexts.ValuePrints | Nectere/Dp/Json.cpp:106-118 | null prints as null; a text marked a string, or unmarked and neither true, false nor a number, in quotes; any other as the bare word |
| JsonParser.LoadStringAt | Nectere/Dp/Json.cpp:153-198 | the cursor loop computes `LoadString`, or reports the read past the end |
| JsonParser.LoadValueAt | Nectere/Dp/Json.cpp:200-250 | the cursor method computes `LoadValue` |
| JsonParser.LoadArrayAt | Nectere/Dp/Json.cpp:252-288 | the cursor loop computes `LoadArray` and terminates |
| JsonParser.LoadObjectAt | Nectere/Dp/Json.cpp:290-343 | the cursor loop computes `LoadObject` and terminates |
| JsonParser.LoadNodeAt | Nectere/Dp/Json.cpp:345-375 | the mutual recursion computes `LoadNode`, strictly advancing |
| JsonParser.LoadFromContentAt | Nectere/Dp/Json.cpp:438-448 | the entry computes `LoadFromContent` |
| JsonTexts.StringReads | Nectere/Dp/Json.cpp:153-198 | any spelling of a string, of plain characters and characters behind a backslash, is read as what it means, up to its closing quote |
| JsonTexts.BareLoadsExactly | Nectere/Dp/Json.cpp:227-249 | an unquoted word loads, marked not a string, if and only if it is true, false or matches the regular expression of numbers |
| JsonTexts.BooleansLoad | Nectere/Dp/Json.cpp:227-249 | true and false before any stop character load as that value, marked not a string |
| JsonGrammar.EveryDocumentLoads | Nectere/Dp/Json.cpp:252-448 | every object document of the grammar, with any blanks, any spelling and any nesting, loads as the tree it says, before any text |
| JsonGrammar.LoadsExactly | Nectere/Dp/Json.cpp:153-448 | a text loads as a node if and only if the grammar, with everything the reader lets pass, writes it and says that node |
| JsonGrammar.MembersStandInOrder | Nectere/Dp/Json.cpp:290-343 | members under keys of their own, without dots, are the children of the object, in order |
| JsonGrammar.ElementsStandInOrder | Nectere/Dp/Json.cpp:252-288 | elements are the children of the array, in order |
| JsonStrings.QuotedReadsBack | Nectere/Dp/Json.cpp:60-198 | a printed carried text is read back to its closing quote, whatever follows |
| JsonStrings.TextReadsBackExactly | Nectere/Dp/Json.cpp:60-198 | a printed text is read back if and only if it has no NUL and its backslashes pair with characters that print and read as themselves |
| JsonStrings.BackslashNLost | Nectere/Dp/Json.cpp:60-79 | a backslash before n comes back as a line feed |
| JsonStrings.BackslashDSurvives | Nectere/Dp/Json.cpp:153-198 | a backslash before d is a carried text: it comes back |
| JsonStrings.NameReadsBackExactly | Nectere/Dp/Json.cpp:120-198 | a printed name is read back as the key it was if and only if it has no quote and its backslashes pair with characters that make no escape; else the key does not even start with it |
| JsonStrings.NameExamples | Nectere/Dp/Json.cpp:120-139 | a name with a quote, or with a backslash before n, is lost; one with a backslash before d is not |
| JsonRoundTrip.BareReadsBack | Nectere/Dp/Json.cpp:227-249 | numbers and booleans are read back up to the next blank, comma or bracket |
| JsonRoundTrip.MembersReadBack | Nectere/Dp/Json.cpp:290-343 | the printed members of an object load one by one up to the brace |
| JsonRoundTrip.ElementsReadBack | Nectere/Dp/Json.cpp:252-288 | the printed elements of an array load one by one up to the bracket |
| JsonRoundTrip.BlockReadsBack | Nectere/Dp/Json.cpp:81-104 | a printed block loads as its tree at any depth, before any text |
| JsonRoundTrip.ReloadIsEqual | Nectere/Dp/Node.cpp:274-282 | the loaded tree equals the printed one under operator== |
| JsonRoundTrip.RoundTrip | Nectere/Dp/Json.cpp:388-448 | for every carried tree and every format the printed text loads, consuming all of it, as an equal tree |
| JsonRoundTrip.NamedRootIsWrapped | Nectere/Dp/Json.cpp:141-151 | a named root printed at depth 0 comes back inside an unnamed object |
| JsonArrays.ScalarElementLost | Nectere/Dp/Json.cpp:345-375 | no scalar array element, whatever its text, is read as the node it was printed from |
| JsonExact.ElementsGrow | Nectere/Dp/Json.cpp:252-288 | the loop over elements only adds below the nodes it has |
| JsonExact.MembersGrow | Nectere/Dp/Json.cpp:290-343 | so does the loop over members, whatever keys it reads |
| JsonExact.BlockLost | Nectere/Dp/Json.cpp:81-375 | a block with a part that is not carried, at any depth and before any text, does not load or clashes with what does |
| JsonExact.BlockReadsBackExactly | Nectere/Dp/Json.cpp:81-375 | a printed block loads as an equal node if and only if it is carried |
| JsonExact.ArrayReadsBackExactly | Nectere/Dp/Json.cpp:252-288 | an array loads as an equal node if and only if it has elements and each is a carried array or object |
| JsonExact.FirstNameLost | Nectere/Dp/Json.cpp:81-343 | an object whose first member's name is not read back does not load as an equal node, whatever else is in it or behind it |
| JsonExact.NamedRootRefused | Nectere/Dp/Json.cpp:141-151 | no named root printed at a depth above 0 loads |
| JsonExact.SurvivesExactly | Nectere/Dp/Json.cpp:388-448 | of all trees with carried, distinct member names and true marks, whatever their texts and elements, exactly the unnamed objects of carried parts survive |
| Tasks.Task.Update | Nectere/Concurrency/Task.cpp:19-42 | one update, its callbacks and its answer |
| Tasks.Task.Cancel | Nectere/Concurrency/Task.cpp:94-97 | sets the cancel flag, nothing else changes |
| Tasks.Task.Destroy | Nectere/Concurrency/Task.cpp:99-106 | a started, unfinished task is canceled and ended; any other is silent |
| Tasks.RunIsLegal | Nectere/Concurrency/Task.cpp:19-86 | in every run the callbacks so far are part of one whole life |
| Tasks.DestroyedRunIsComplete | Nectere/Concurrency/Task.cpp:99-106 | a task updated at least once and destroyed has a complete trace; one never updated an empty one |
| Tasks.UpdatedKeepsCoherent | Nectere/Concurrency/Task.cpp:19-42 | step and callbacks stay in agreement; an update asks for no other exactly when the task has ended |
| Tasks.UpdateFollowsHistory | Nectere/Concurrency/Task.cpp:19-86 | in every run, whether a cancel came, whether this is the first update and what OnUpdate answers decide the callbacks and the result |
| Tasks.FinishedFollowsHistory | Nectere/Concurrency/Task.cpp:19-86 | in every run the task has ended if and only if some update found a cancel before it, or asked OnUpdate and was answered with an end |
| Tasks.DestroyFollowsHistory | Nectere/Concurrency/Task.cpp:99-106 | after every run destroying calls OnTaskCanceled and OnTaskEnd if some update came and none ended the task, and nothing otherwise |
| Tasks.FinishedIsSilent | Nectere/Concurrency/Task.cpp:44-55 | after the end no operation makes a callback |
| Tasks.EveryLifeHappens | Nectere/Concurrency/Task.cpp:19-86 | every complete trace is the trace of some run |
| Scheduler.StepKeepsInv | Nectere/Concurrency/ThreadSystem.cpp:11-117 | every step of every thread keeps ownership, lock, phase, task and queue invariants |
| SchedulerRuns.OnePlaceEach | Nectere/Concurrency/ThreadSystem.cpp:11-59 | in every interleaving a submitted task is in exactly one place, with at most one worker |
| SchedulerRuns.WorkOnLiveTasksOnly | Nectere/Concurrency/ThreadSystem.cpp:29-32 | no task is updated by two workers, updated after deletion or deleted twice |
| SchedulerRuns.DrainsAlone | Nectere/Concurrency/ThreadSystem.cpp:101-117 | Clean drains only once every worker has left its loop and none holds a task |
| SchedulerRuns.NoOvertaking | Nectere/Concurrency/ThreadSystem.cpp:18-30 | the task at queue position k is exactly the (k+1)-th next pop |
| SchedulerRuns.EveryWaitingTaskGoesFirst | Nectere/Concurrency/ThreadSystem.cpp:29-59 | between two updates of a task every task ahead of it at its requeue is taken, in order |
| SchedulerRuns.LivesAreWhole | Nectere/Concurrency/ThreadSystem.cpp:29-32 | in every interleaving traces are legal, and a deleted task's is complete or empty |
| SchedulerRuns.DeletionCancelsTheBegun | Nectere/Concurrency/ThreadSystem.cpp:29-32 | in every interleaving deleting a task that has begun and not ended calls OnTaskCanceled and OnTaskEnd, deleting any other nothing |
| TaskLives.EveryTaskLivesItsRun | Nectere/Concurrency/ThreadSystem.cpp:11-34 | in every interleaving each task is in the state one run of updates and cancels of it leads to, destroyed after that if and only if it is deleted |
| TaskLives.NobodyIsStuck | Nectere/Concurrency/ThreadSystem.cpp:11-34 | in every interleaving each worker has left its loop, or can go on, or waits for work while there is none, or for the mutex of a worker that can go on; when stopped none waits for work |
| SchedulerRuns.WorkersDeleteExactlyTheEnded | Nectere/Concurrency/ThreadSystem.cpp:29-32 | in every interleaving queued, entering and dropped tasks have not ended, and a worker is about to delete its task exactly when that has ended |
| SchedulerRuns.RunsGoOn | Nectere/Concurrency/ThreadSystem.cpp:18-28 | no enabled step is undefined: a woken worker of a running system never pops an empty queue |
| CleanUps.DroppedExactly | Nectere/Concurrency/ThreadSystem.cpp:49-59 | in every run a task is dropped if and only if an AddTask of it found the system stopped |
| CleanUps.DroppedIsForever | Nectere/Concurrency/ThreadSystem.cpp:49-59 | a dropped task is never deleted and makes no further callback |
| CleanUps.CleanedSettlesExactly | Nectere/Concurrency/ThreadSystem.cpp:49-117 | after Clean all tasks are deleted or dropped if and only if no AddTask was between test and push |
| CleanUps.CleanedDeletesExactly | Nectere/Concurrency/ThreadSystem.cpp:49-117 | after Clean all tasks are deleted if and only if, besides, no AddTask ever found the system stopped |
| CleanUps.CleanedIsFinal | Nectere/Concurrency/ThreadSystem.cpp:49-117 | what is unsettled then stays so |
| CleanUps.LateTaskIsLost | Nectere/Concurrency/ThreadSystem.cpp:49-59 | a run that leaves a task queued for ever |
| CleanUps.StartedTaskIsDropped | Nectere/Concurrency/ThreadSystem.cpp:29-59 | a run that leaves a started task dropped, with an open trace, after Clean |
| ThreadSystems.ThreadSystem.AddTask | Nectere/Concurrency/ThreadSystem.cpp:49-59 | appended when running, let go otherwise |
| ThreadSystems.ThreadSystem.TaskThreadLoop | Nectere/Concurrency/ThreadSystem.cpp:11-34 | the front task is updated, then requeued at the back or destroyed; the others are untouched |
| ThreadSystems.ThreadSystem.Clean | Nectere/Concurrency/ThreadSystem.cpp:101-117 | every queued task is destroyed once and the queue is empty |
| ThreadSystems.UnfinishedRoundIsSteps | Nectere/Concurrency/ThreadSystem.cpp:11-34 | an undisturbed round of a task that goes on is a path of steps with the method's effect |
| ThreadSystems.FinishedRoundIsSteps | Nectere/Concurrency/ThreadSystem.cpp:11-34 | an undisturbed round of a task that ends is a path of steps with the method's effect |
| Trim.ReplaceAll | Nectere/StringUtils.cpp:39-46 | terminates; tabs become blanks, or runs of blanks one blank |
| Trim.TrimText | Nectere/StringUtils.cpp:48-58 | computes `Trimmed` |
| Trim.TrimmedIsTidy | Nectere/StringUtils.cpp:48-58 | no tab, no double blank, no blank at either end |
| Trim.TrimmedJoinsTheWords | Nectere/StringUtils.cpp:48-58 | trimming is joining the words with single blanks |
| Trim.TrimmedTwice | Nectere/StringUtils.cpp:48-58 | trimming is idempotent |
| Trim.CheckSubStr | Nectere/StringUtils.cpp:95-118 | the three counters decide bad, open brackets, open quotes or balanced |
| Trim.CheckCounts | Nectere/StringUtils.cpp:95-118 | 1 if some brace outside quotes closes what was not opened, else 2 if a brace is open, else 3 if a quote is, else 0, told by counting the braces behind an even number of quotes |
| Trim.ScanOfTrimmed | Nectere/StringUtils.cpp:139-140 | trimming never changes the check's verdict |
| SmartSplitting.SmartSplit | Nectere/StringUtils.cpp:120-160 | the re-scanning loop returns the pieces and the code of one pass |
| SmartSplitting.PiecesAreBetweenCuts | Nectere/StringUtils.cpp:131-160 | the pieces are the parts between the separators outside all brackets and quotes of the whole text |
| SmartSplitting.PiecesJoinBack | Nectere/StringUtils.cpp:131-160 | untrimmed pieces and rest, joined by the separator, give back the input |
| SmartSplitting.CodeIsTheCheckOfTheText | Nectere/StringUtils.cpp:140-159 | the returned code is the check of the whole text |
| SmartSplitting.PiecesAreBalanced | Nectere/StringUtils.cpp:143-148 | every piece put in the vector before the last is balanced by itself |
| SmartSplitting.VectorIsTidied | Nectere/StringUtils.cpp:131-160 | the vector holds, in order, the words of each piece joined by single blanks, without the pieces that have none; the last piece only when the code is 0 |
| CommandLine.SplitCommand | NectereClient/CommandTreater.cpp:6-58 | the loop computes `Split` |
| CommandLine.SplitAfterQuoting | NectereClient/CommandTreater.cpp:6-58 | splitting a quoted list gives back the list without its empty arguments |
| CommandLine.SplitInvertsQuotingExactly | NectereClient/CommandTreater.cpp:6-58 | and the list itself if and only if it has none |
| CommandLine.SplitGivesNoEmptyArgument | NectereClient/CommandTreater.cpp:38-56 | no line yields an empty argument |
| CommandLine.EverySpellingIsRead | NectereClient/CommandTreater.cpp:6-58 | every line of arguments, plain, quoted or plain then quoted, any character escaped or not, the control characters by their letters, with any number of blanks between, gives those arguments without the empty ones |
| CommandLine.EveryLineIsRead | NectereClient/CommandTreater.cpp:6-58 | so does a line that ends in an argument nothing ends, in a quote nobody closes, or in a lone backslash, which is dropped |
| CommandLine.EveryLineIsSpelled | NectereClient/CommandTreater.cpp:6-58 | every line there is consists of such arguments and such an end |
| CommandLine.PlainWordsComeApart | NectereClient/CommandTreater.cpp:38-56 | non-empty words without blank, quote and backslash, with a blank between, come back as they are |
| Wire.VersionHelper.SetVersion | Nectere/VersionHelper.cpp:25-33 | three components of at most 99 are kept, anything else becomes 0.0.0 |
| Wire.VersionSurvivesExactly | Nectere/Network/Helper.cpp:11-36 | an admitted version survives the 16 bits if and only if its number is at most 65535 |
| Wire.Convert | Nectere/Network/Helper.cpp:7-26 | the event of a header and its data, cut at the first NUL |
| Wire.EventSurvivesExactly | Nectere/Network/Helper.cpp:7-39 | an event with an admitted version arrives equal if and only if its version fits and its data has no NUL |
| Wire.HeaderReadsBack | Nectere/Network/Header.hpp:7-16 | the 24 header bytes decode to the header whatever the padding holds |
| Wire.HeaderLayout | Nectere/Network/Header.hpp:7-16 | which byte each field is in, the low one first, and where the padding is |
| Wire.HeaderOfEvent | Nectere/Network/Helper.cpp:28-39 | each field of the header of an event |
| Wire.EventOfHeader | Nectere/Network/Helper.cpp:7-26 | each field of the event of a header and its data, cut at the first NUL |
| Wire.ReadAll | Nectere/Network/BoostNetworkUser.cpp:20-56 | the chain of reads computes `Read`, closing on a short read |
| Wire.StreamReadsBack | Nectere/Network/BoostNetworkUser.cpp:20-73 | for all event lists and paddings the reader finds every frame |
| Wire.StreamSurvivesExactly | Nectere/Network/BoostNetworkUser.cpp:20-73 | the events read are the events written if and only if every version fits and no data holds a NUL |

## Left out

- Membership.LeaveAllKeepsAgree: over the links as they were on entry, in any order; the source erases from the set it walks.
- ServerObjects.CanalManager.LeaveAllCanal: the same; what erasing under the iterator does in C++ is undefined and not modelled.
- ServerObjects.CanalManager.CreateCanal: the three settings arrive parsed, and the id the source leaves unassigned on failure is a parameter.
- ServerObjects.UserManager.AddUser: without the virtual `OnInit`; the connect event's own user field is not part of `ServerSpec.Event`, since the canal manager never sets it.
- ServerObjects.UserManager.Update: without the virtual updates of users and of the application manager.
- Commands.Execute: a match on the command stands for the look-up by event code.
- DpNode.InternalAddAt: keys whose segments carry an index such as `name(2)` are not modelled.
- DpNode.GetNodeAt: the same.
- JsonExact.SurvivesExactly: of trees with names that are not carried only what `JsonExact.FirstNameLost` says; a later key that is read wrong can name an earlier member.
- JsonParser.LoadObjectAt: a loaded name with both brackets is the outcome `Indexed`, where the model stops.
- ThreadSystems.ThreadSystem.TaskThreadLoop: entered where the wait returns at once; waiting is a step of `Scheduler`.
- ThreadSystems.ThreadSystem.Clean: after the joins, which are steps of `Scheduler`.
- Trim.ReplaceAll: only for the two pairs `Trim` calls it with; others need not terminate.
- SmartSplitting.SmartSplit: without `appendSearch`, and for one separator character that is no quote and no brace.
- Wire.VersionHelper.SetVersion: the three numbers `sscanf` reads are parameters.
- Sockets, threads and callbacks of the operating system, dynamic libraries, file and stream reading, logging, configuration, the interactive prompt: input and output.
- Authentication, `ListCanal` and `ApplicationManager`: thin dispatch over what is modelled.
- `Dp::Xml`, the serializers and `Node::Insert`, `Replace`, `Remove`: `operator=` does not copy the name, so these have no clean law.
- JsonGrammar.LoadsExactly: says of a text that does not load only that; whether it is refused or read beyond its end is on the cursor methods.
- In-place update of `Dp::Node` (the C++ members write into the tree they are called on; the model returns the new tree).
- Liveness and wake-ups of the scheduler: `Stop` and `EndTask` notify without the waiters' mutex, so safety, order and that no worker is stuck are claimed, not that a waiting one is woken.
- Starting the thread system again after a stop, the stop callback, and the destructor of `ThreadSystem`.
- Splitting by regular expression (`Split`, `Count`).
- Reconnecting, buffers and error codes of the network user; only the byte layout is modelled, with the low byte first on both sides.
- Lengths of 2^64 and more.
