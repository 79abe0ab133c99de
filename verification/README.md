# contested-srv: a verified model

contested-srv is a C++ server for photo contests between users. It reads JSON requests over a small
HTTP dialect, checks the sender's password, and answers them from five MySQL tables: users, contest,
images, friends and voted. Several threads serve connections at once, and every connection has its own
database session. This project models the server's logic in Dafny and proves what holds over all of
its runs.

| file | what it models |
|---|---|
| `Text.dfy` | decimal numbers, `std::stoi`, `std::string::find`, `std::getline` |
| `QueryText.dfy`, `ReservedWords.dfy` | the string filter and its word list, the query texts, and how SQL reads their quotes back |
| `FriendQueries.dfy` | the two joins over the friends table |
| `Tables.dfy` | the tables, and what each SQL statement does to them |
| `Requests.dfy` | each request as a step machine; the server as any interleaving of their statements |
| `Operations.dfy` | what every request does to the tables and is answered when nothing interferes, written down apart from the step machine |
| `Integrity.dfy` | the invariant of every reachable state, requests in flight included |
| `Votes.dfy`, `Slots.dfy`, `Pictures.dfy`, `Owners.dfy`, `Accounts.dfy`, `OrderlyRuns.dfy`, `Friendship.dfy` | theorems over runs, by subject |
| `Outcomes.dfy` | what a request's fields and its answer mean, in every interleaving |
| `SerialRuns.dfy` | whole requests one after another, as runs |
| `Scenarios.dfy`, `PhotoScenarios.dfy` | concrete runs that show the theorems' conditions are needed and can be met |
| `ServerDb.dfy` | the class `SRV_DB`, method by method, refining the step machine |
| `Serving.dfy` | an undisturbed session ends as `Operations.dfy` says |
| `Handler.dfy` | the dispatcher and its authentication gate |
| `Replies.dfy` | HTTP replies, and reading them back |
| `Delivery.dfy` | what a client finds in the bytes of a contest key or an image |
| `RequestParser.dfy`, `RequestRoundTrip.dfy` | the incremental request parser; printing and parsing a request |
| `Connection.dfy` | the life of a connection |
| `LogQueue.dfy` | the logger's queue and its two threads |

The pieces hang together as follows. `Tables.Execute` says what one SQL statement does.
`Requests.LocalStep` is one statement of one request, and `Requests.Run` folds any sequence of events
(a request arrives, a connection sends its next statement and that statement may fail) over the
server's state; events that cannot happen leave the state alone, so the theorems hold for every
sequence. The methods of `ServerDb.SrvDb` and of `Handler` are written as the C++ is, with its loops
and early returns, and each is proved to end in the state and with the answer the step machine reaches,
whatever other connections do to the tables between its statements (`Ends`); any interleaving of their
events is covered (`ServerDb.SrvDb.EndsInRun`). What the machine itself must do is fixed apart from it:
`Operations.EffectOf` says of every request, from its own seven fields and the tables alone, which tables it leaves
and what it is answered, and machine and methods are proved to do just that (`Operations.ServedAsSaid`,
`Serving.EndsAsSaid`); `Outcomes` says what answers mean amid other requests. `Connection.Conn.HandleRead` and
`RequestParser.Parser` are tied to `LifeStep` and `ParseStep` in the same way as the machine to its methods, and
`LogQueue.Logger` to `LogQueue.Step`.

## Assumptions

- A statement takes full effect or fails without effect, and statements are atomic with respect to each
  other. `USE contested;` is part of the statement it precedes. Any statement may fail at any time.
- Rows of users, contest and images get the ids 1, 2, 3, ... and are never deleted by a dispatched
  request; there are at most 2147483647 of them. New scores are 0; unset user and image columns read as 0.
- `voted` is unique on (userid, contestid), as the comment at `source/srv_db.cpp:1114` says, and emails
  are unique, as line 154 says. Whether user names and friend pairs are unique is left open: both are
  parameters (`Schema`), and the theorems hold for either choice.
- Strings are sequences of bytes and compare exactly.
- Image texts go into their INSERT without the filter. They are covered exactly when that query carries them
  unchanged (`QueryText.InsertImageTokenisesIff`), as it does base64 text (section 4 of RFC 4648).
- A SELECT without ORDER BY returns its rows in the order of their ids. It matters only when a name is
  stored twice: the cursor loops keep the last row, so the latest account of a name is the one found.
- Reading the rows of an answered query does not fail.
- A database session that was opened stays open. A connection serves one request, as `source/connection.cpp` does.
- Extraction of the seven JSON fields is an arbitrary function of the text; so is the JSON text printed
  for lists of names, scores and contests.

## Where the code is not what it seems

- A named contest does not reserve slot 2: an empty slot passes the check at `source/srv_db.cpp:584-589`, so
  the two "valid permission user" arms never decide (`Slots.SlotCheckMeaning`). Permission 0 does not check friendship.
- A taken slot 2 can change hands: a request that read the slot as empty may write it later, and, when
  none of those is left, a second request of the first user may take it back (`Slots.SlotTakenBack`).
  `Slots.SlotIsSafeIffSettled` gives the exact condition under which the slot's user is final.
- `updateImage` answers 1011 for a contest that does not exist, when its uninitialised locals happen to
  pass the check (`PhotoScenarios.BobIsToldSuccess`); what those locals hold is a parameter of each event.
- For the same reason the creator of a named contest can lose slot 1: an update that passed its check
  before the contest was stored may land in it afterwards (`PhotoScenarios.AnnLosesSlotOne`).
  `Slots.CreatorKeepsSlotOne` says exactly when the creator keeps it.
- `createUser` looks a name up and inserts it in two statements. Without a UNIQUE key an INSERT can be
  overtaken: it takes effect although another request has stored the name since the SELECT. Names stay
  unique exactly as long as that does not happen (`Accounts.NamesStayUnique`). When it does, both requests are
  told 1005 and the first password stops working (`Scenarios.OverlappingCreations`): it is the last creation
  that counts (`Accounts.AuthenticationIsHistory`), and `Accounts.AuthenticationIsCreation` says exactly when every
  answered creation authenticates. An update under way can then store its images under the other account
  (`Scenarios.AnnShowsOtherAnnsImage`); `Owners.SlotsOwnedIff` says exactly when that
  happens.
- `authenticateUser` compares with the empty string when there is no such user, so an empty password
  passes for every unused name.
- A vote for a missing contest is stored in `voted` and raises no score; the conservation law counts it.
- `getFriendRequests` never advances its index, so its JSON keeps the last name only; the model keeps
  the rows.
- The parser counts the `\r` of the blank line as part of the body, so a request can be taken as complete one
  byte early; the comparison `contentLength < 0` is on an unsigned number and never true, so a negative length is taken
  for a huge one and more data is asked for (`RequestParser.LengthDecides`).
- The page of status 204 says "204 Content"; every other page but the empty one of 200 names its status
  (`Replies.PageNamesStatus`).
- A stop that comes before the logging thread has started is forgotten (`LogQueue.LeavesWhenStopped`).
- The filter's bounds let `[` and `{` through.

## Model

| member | source | states |
|---|---|---|
| Text.Find | source/srv_db.cpp:1195-1202 | the search returns the first occurrence, and nothing exactly when there is none |
| Text.StoiReadsInt | source/request_parser.cpp:90-91 | a printed 32-bit number followed by any non-digit reads back as itself |
| Text.DecimalValue | source/reply.cpp:314-314 | the digits printed for a size denote that size |
| Text.LinesCons | source/request_parser.cpp:39-43 | getline drops the newline and yields the line before it first |
| FriendQueries.MutualFriendsMeaning | source/srv_db.cpp:843-846 | over any rows, duplicates included, the self-join returns exactly the people with a row in both directions |
| FriendQueries.RequestersMeaning | source/srv_db.cpp:898-901 | the left join with IS NULL returns exactly the people whose row has no reverse row |
| FriendQueries.FriendListsPartition | source/srv_db.cpp:843-901 | the two lists are disjoint, together are all incoming rows, and friendship is symmetric |
| QueryText.CheckString | source/srv_db.cpp:1142-1204 | the filter's two loops accept exactly the strings of allowed characters without a reserved word |
| QueryText.AcceptedIsPlain | source/srv_db.cpp:1142-1204 | an accepted string holds no quote and no backslash |
| QueryText.RenderTokenises | source/srv_db.cpp:106-384 | text built from any plain template and plain arguments tokenises to that template with exactly those literals |
| QueryText.SelectsTokenise | source/srv_db.cpp:106-231 | the three SELECTs by user name read back as their template and the name, for every accepted name |
| QueryText.InsertUserTokenises | source/srv_db.cpp:140-140 | the INSERT of an account reads back as its template and its four literals |
| QueryText.DeleteUserTokenises | source/srv_db.cpp:321-321 | the DELETE of an account reads back as its template, the id and the name |
| QueryText.InsertContestTokenises | source/srv_db.cpp:384-384 | the INSERT of a contest reads back as its template, both numbers and both strings |
| QueryText.InsertImageTokenisesIff | source/srv_db.cpp:496-496 | the INSERT of an unfiltered image text reads back as its template, the owner and exactly that text if and only if the text has no quote and a backslash only before % or _ |
| QueryText.QuoteBreaksInsert | source/srv_db.cpp:496-496 | one text with a quote that the query does not carry |
| QueryText.LowercaseIsAccepted | source/srv_db.cpp:1142-1204 | the filter with the server's own list of 230 words accepts every text of lower-case letters |
| QueryText.NoCapitalsIsAccepted | source/srv_db.cpp:1142-1204 | and every text of allowed characters without a capital letter |
| Tables.FindUser | source/srv_db.cpp:249-255 | the id left by a cursor loop is the last row with the name, 0 exactly when there is none |
| Tables.Without | source/srv_db.cpp:999-1000 | a DELETE naming one pair removes all its copies and nothing else |
| Tables.ExecuteGrows | source/srv_db.cpp:384-1107 | no statement loses an account, image or ballot, changes a contest's terms, or lowers a score |
| Requests.AfterLoginGoesTo | source/request_handler.cpp:56-222 | each kind of authenticated request can go on with its own statements only; a contest starts with permission -1, 0 or a name to look up |
| Requests.EachStatementCountsDown | source/srv_db.cpp:91-1137 | every statement brings its request nearer to its end, whatever its result |
| Requests.AloneFinishes | source/srv_db.cpp:91-1137 | a request left to itself is answered, whichever statements fail |
| Requests.AloneIsRun | source/server.cpp:42-56 | a request left to itself is a run: its connection's statements sent one after another take the server to that end |
| Requests.AmidIsRun | source/server.cpp:42-56 | whatever other connections send before each statement of a connection, the run takes it to where its step machine goes in the tables so met |
| Requests.InterleavingIsWorld | source/server.cpp:42-56 | every such interleaving is one of the worlds a session is proved for |
| SerialRuns.ServeAllIsRun | source/server.cpp:42-56 | serving whole requests one after another is a run of the server from empty tables |
| Operations.ServedAsSaid | source/request_handler.cpp:39-227 | served without failures or interference, every request whatever leaves exactly the tables and gets exactly the answer an independent reference gives from its own fields: parameters in their places, checks in their order, every code |
| Operations.FailureIsAnswered | source/srv_db.cpp:91-1137 | a failed statement changes no table, and each is answered with its own code or goes where its catch block goes |
| Serving.EndsAsSaid | source/request_handler.cpp:30-236 | in an undisturbed session a request's methods leave the tables and return the answer of that reference |
| Outcomes.RunKeepsFields | source/request_handler.cpp:117-206 | in every run contest and slot of a request are those numbers of its own parameters, and only vote requests hold ballots |
| Outcomes.ScoreCountsRequests | source/srv_db.cpp:1076-1081 | in every run each score is the number of vote requests whose parameters name that contest and side and whose vote was counted |
| Outcomes.VoteCountsForItsSide | source/srv_db.cpp:1059-1137 | a first vote served alone adds its ballot, raises the score of the side asked for by one, leaves all else, and answers both scores as they then are |
| Outcomes.ContestIsAsAsked | source/srv_db.cpp:355-411 | served alone, permission -1 or 0, or else the account of a user name, gives exactly the contest asked for and its key; any other 1013 and nothing |
| Outcomes.DefaultEndtimeIsAccepted | source/request_handler.cpp:89-92 | the server's own word list accepts the end time a contest gets when none is given |
| Outcomes.Told1011Means | source/srv_db.cpp:609-658 | in every run an update told 1011 has stored exactly its two images, and has sent its UPDATE, of the contest and slot it asked for, which took effect or found no contest |
| Outcomes.CheckDecides | source/srv_db.cpp:565-607 | in any state the check's formula on the row read decides: 1000 and no change, or on to the images |
| Outcomes.ListedMeans | source/srv_db.cpp:843-901 | in every run, when a request is told a list, it is for getmyfriends those with rows in both directions, for getfriendrequests those whose row has no reverse, as the tables are when it is read |
| Outcomes.ListedIsHistory | source/srv_db.cpp:820-927 | so a list answered in any run is decided by what was asked and deleted until it was read |
| Outcomes.ListedInSerialRuns | source/srv_db.cpp:820-1022 | after any serial run getmyfriends answers exactly those who added and were added by its user since the last removal |
| Outcomes.PhotoIsShown | source/srv_db.cpp:708-777 | a getimage for slot 1 or 2 served alone answers the text the slot shows and changes nothing |
| Outcomes.ReaderReaches | source/request_handler.cpp:194-207 | in every interleaving such a request, once logged in, reads just the contest and slot it asked for |
| Outcomes.AskedPhotoReadsBack | source/srv_db.cpp:708-777 | from request to request: a getimage that arrives after an update, for the contest and slot that update asked for, answers that update's text, other requests running in every gap, unless the slot is set again before its first SELECT |
| Integrity.LocalStepGoodThread | source/srv_db.cpp:355-657 | one statement keeps all that its request's locals say about the tables |
| Integrity.GoodThreadStable | source/srv_db.cpp:355-657 | no statement of another connection can falsify what a request's locals say |
| Integrity.ContestRowAfter | source/srv_db.cpp:384-636 | the only ways a contest row can change: scores, a new row, or the slot of a request about to set it |
| Integrity.RunGood | source/srv_db.cpp:91-1137 | the invariant over tables and all requests in flight holds in every interleaving from empty tables |
| Integrity.StoredIdsAreUsers | source/srv_db.cpp:355-384 | permissions are -1, 0 or an account, never -2; every nonzero id in a user column is an account |
| Integrity.HistoryIsKept | source/srv_db.cpp:384-636 | permission, title and end time are fixed at creation; accounts, images, ballots and scores never shrink |
| Votes.VoteConservation | source/srv_db.cpp:1074-1128 | in every run: ballots of a contest = both scores + votes between INSERT and UPDATE + votes whose UPDATE failed or hit no row |
| Votes.ScoreCountsVotes | source/srv_db.cpp:1076-1081 | each score is the number of requests that raised it |
| Votes.OneVotePerUser | source/srv_db.cpp:1093-1114 | two requests of one user never both raise a score of one contest |
| Votes.NoVoteIsLost | source/srv_db.cpp:1102-1113 | from a state with the contest on, no further vote is lost while no UPDATE fails |
| Votes.VoteChangesTablesTwice | source/srv_db.cpp:1102-1112 | a vote changes the tables only by a new ballot or by its UPDATE |
| Votes.SecondVoteIsRefused | source/srv_db.cpp:1113-1136 | a second vote leaves every table alone and answers with the current scores, or 1001 when the SELECT fails |
| Votes.ScoresReadNeverFall | source/srv_db.cpp:1111-1136 | of two SELECTs of a contest's scores in one run, the later never reads less |
| Slots.SlotCheckMeaning | source/srv_db.cpp:580-607 | the check in one formula: not locked, and public, friends, or the slot empty or one's own |
| Slots.SlotIsSafeIffSettled | source/srv_db.cpp:549-659 | the user in a taken slot of a named contest never changes again if and only if all updates in flight for it are that user's |
| Slots.SlotIsSafeWhenQuiet | source/srv_db.cpp:549-659 | with no update of the slot in flight, as between requests of a serial run, its user is final |
| Slots.CreatorKeepsSlotOne | source/srv_db.cpp:355-384 | the creator of a named contest keeps slot 1 in every continuation if and only if, when the contest is stored, every update in flight for that slot of its id is the creator's own |
| PhotoScenarios.AnnLosesSlotOne | source/srv_db.cpp:565-589 | a run from empty tables in which the creator of a named contest loses slot 1 |
| Slots.UpdateLands | source/srv_db.cpp:609-659 | an update past its check, left to run, writes its user into the slot and moves no other request |
| Slots.UpdateFinishes | source/srv_db.cpp:625-658 | the UPDATE answers 1011, writes its user into the slot of an existing contest, and changes nothing without one |
| Slots.SetsOut | source/srv_db.cpp:525-607 | a valid updateimage request whose check holds arrives, logs in and passes that check, the tables staying as they are |
| Slots.SlotTakenBack | source/srv_db.cpp:565-651 | a slot can change after every update that read it as empty is finished: from any state with slot 2 empty and quiet, two users asking, one of them twice, there is such a run |
| Scenarios.AnnTakesBack | source/srv_db.cpp:565-651 | such a run from empty tables, with two accounts and one contest between them |
| Accounts.InsertKeepsNamesUnique | source/srv_db.cpp:139-146 | the INSERT keeps names unique if and only if nobody has the name |
| Accounts.StatementOnUsers | source/srv_db.cpp:139-161 | a statement stores an account exactly when it is an INSERT of one that neither fails nor violates a key, and exactly then 1005 is answered |
| Accounts.NamesStayUnique | source/srv_db.cpp:106-146 | in every run: no two accounts share a name if and only if no INSERT of an account took effect, without a UNIQUE key, after its name had been stored |
| Accounts.NamesAreProper | source/srv_db.cpp:133-146 | names are nonempty in every run, and shared only if some INSERT was overtaken |
| Accounts.RunKeepsAccounts | source/srv_db.cpp:139-161 | in every run, an account with this name and password exists exactly when a createUser for them answered 1005 |
| Accounts.LoginDecides | source/srv_db.cpp:183-213 | the login step goes on exactly when its SELECT succeeds and the name's last row has the password, and is answered 1010 otherwise |
| Accounts.AuthenticationIsHistory | source/srv_db.cpp:163-214 | in every run authentication succeeds exactly for the password of the last creation of the name answered 1005, or for the empty one when there is none |
| Accounts.AuthenticationIsCreation | source/request_handler.cpp:39-56 | throughout a run every answered creation with a nonempty password authenticates, and nothing else nonempty, if and only if no overtaken INSERT puts another password in front of a nonempty one |
| Accounts.AuthenticationNeedsCreation | source/request_handler.cpp:39-56 | in every run a nonempty password that authenticates was given in a creation answered 1005; the converse when no INSERT was overtaken |
| OrderlyRuns.OrderlyRunsOvertakeNobody | source/srv_db.cpp:91-161 | a condition on arrivals alone that rules overtaking out: no createuser request arrives while one for its name is unanswered |
| Scenarios.OverlappingCreations | source/srv_db.cpp:106-146 | without a UNIQUE key and with the server's own word list, a six-event run in which two creations of one name both answer 1005 and the first password is then refused |
| Pictures.ReportedKeyIsOwn | source/srv_db.cpp:390-411 | in every run the key answered names the row this request inserted, with its title, its end time and the permission it asked for, and no other request did |
| Pictures.WrittenIdsAreOwn | source/srv_db.cpp:503-522 | the two ids of an update are distinct, its own, and hold its own two texts |
| Pictures.SlotsShowTheirUsersImages | source/srv_db.cpp:609-651 | in every run a slot is as created, or its image and thumbnail belong to users with the name of the slot's user |
| Owners.StrayIffTaken | source/srv_db.cpp:488-651 | in every run an effective UPDATE writes an image that is not its user's if and only if an overtaken creation stored its user name between the request's first and third lookup of it |
| Owners.SlotsOwnedIff | source/srv_db.cpp:540-651 | throughout a run every slot shows images of its very own user if and only if no request whose name was so taken updates a slot |
| Owners.StrayNeedsOvertaking | source/srv_db.cpp:609-651 | without an overtaken creation no UPDATE does |
| Owners.UpdateGoesAstray | source/srv_db.cpp:480-523 | an update past its check goes astray when a creation of its user's name is overtaken before its next lookup |
| Scenarios.AnnShowsOtherAnnsImage | source/srv_db.cpp:480-523 | such a run from empty tables |
| Pictures.SuccessMeansShownIffContest | source/srv_db.cpp:625-658 | the last UPDATE answers 1011 and shows the request's text exactly when the contest exists |
| PhotoScenarios.BobIsToldSuccess | source/srv_db.cpp:565-658 | a run from empty tables in which 1011 is answered and no contest exists |
| Pictures.RunKeepsShown | source/srv_db.cpp:625-658 | what a slot shows stays until the next effective UPDATE of that slot, whatever runs |
| Pictures.ImageReadsBack | source/srv_db.cpp:708-777 | a getImage whose first SELECT precedes the slot's next UPDATE answers the stored text, other requests running before, between and after |
| Delivery.DeliveredImageIsStored | source/srv_db.cpp:776-776 | under the same conditions the bytes sent read back to the stored text in its wrapper, and a client finds the text there exactly when it holds no double quote |
| PhotoScenarios.AnnSeesHerPhoto | source/srv_db.cpp:708-777 | a run from empty tables whose last reply reads back to the photo just stored |
| Delivery.DeliveredKeyIsOwn | source/srv_db.cpp:408-411 | the number a client reads out of the bytes of a createcontest reply is its request's own row, with the permission it asked for |
| Delivery.CodeReadsBack | source/reply.cpp:254-304 | a result code reads back out of its JSON text, and any other number as 999 |
| Delivery.DeliveredCode | source/reply.cpp:254-331 | the code a client reads out of the bytes of a reply is the one the request was answered with |
| Friendship.RowIsHistory | source/srv_db.cpp:953-1013 | in every interleaving a directed row is stored exactly when it was inserted after its last deletion |
| Friendship.FriendListIsHistory | source/srv_db.cpp:843-1013 | so b is in a's list exactly when both directions were |
| Friendship.FriendsAreOperations | source/srv_db.cpp:944-1013 | over any sequence of add and remove operations: friends exactly when each added the other after the last removal |
| Friendship.ServeFriends | source/srv_db.cpp:929-1022 | one request served alone does to the friends table exactly the one operation it asks for, or nothing |
| Friendship.FriendshipInSerialRuns | source/srv_db.cpp:944-1013 | the same law for whole serial runs of any requests, with or without a UNIQUE key on pairs |
| ServerDb.LastMatchIsFound | source/srv_db.cpp:249-255 | the last of the rows a query by name returns is the one FindUser names, with its password |
| ServerDb.Session.Perform | source/srv_db.cpp:390-396 | one statement over a session, on the tables other sessions have left: new tables, result and LAST_INSERT_ID of that session |
| ServerDb.SrvDb.EndsInRun | source/connection.cpp:27-27 | what Ends says of the server: the interleaved run ends with the session's tables and its request's answer |
| ServerDb.SrvDb.Connect | source/srv_db.cpp:92-97 | a closed connection is opened if the server can be reached |
| ServerDb.SrvDb.GetUserID | source/srv_db.cpp:216-256 | one step of the machine; 0 for a refused name, a failed query or an unknown user |
| ServerDb.SrvDb.CreateUser | source/srv_db.cpp:91-161 | ends where the step machine of createuser ends, with its code; 1002 and 1013 touch nothing |
| ServerDb.SrvDb.StoreUser | source/srv_db.cpp:139-160 | the INSERT and its three codes, as the step machine has them |
| ServerDb.SrvDb.AuthenticateUser | source/srv_db.cpp:163-214 | true exactly when the SELECT succeeds and the name's last row at that moment has the password; then the machine's login step goes on |
| ServerDb.SrvDb.CreateContest | source/srv_db.cpp:340-412 | ends where the step machine of createcontest ends, permission parsing included |
| ServerDb.SrvDb.InsertImage | source/srv_db.cpp:480-523 | advances the machine past one image, with that image's id, or ends it with 999 |
| ServerDb.SrvDb.UpdateImage | source/srv_db.cpp:525-659 | ends where the step machine of updateimage ends, slot check arm by arm |
| ServerDb.SrvDb.CheckSlot | source/srv_db.cpp:580-607 | the check, arm by arm, decides what the step machine decides |
| ServerDb.SrvDb.SetSlot | source/srv_db.cpp:609-659 | both images and the UPDATE, from the passed check to the answer |
| ServerDb.SrvDb.BothUsers | source/srv_db.cpp:944-951 | both lookups are made before either is tested, each on the tables of its moment |
| ServerDb.SrvDb.AddFriend | source/srv_db.cpp:929-973 | ends where the step machine of addfriend ends |
| ServerDb.SrvDb.RemoveFriend | source/srv_db.cpp:975-1022 | ends where the step machine of removefriend ends, both DELETEs in order |
| ServerDb.SrvDb.ListPeople | source/srv_db.cpp:820-863 | up to its result rows: ends with the rows of the join the step machine reads |
| ServerDb.SrvDb.CastVote | source/srv_db.cpp:1103-1112 | INSERT, UPDATE and SELECT of a vote; the first failure leads to the catch block |
| ServerDb.SrvDb.Vote | source/srv_db.cpp:1059-1137 | ends where the step machine of vote ends |
| ServerDb.SrvDb.PublicGetImage | source/srv_db.cpp:708-774 | ends where the step machine of getimage ends; Delivery has the wrapper |
| Handler.HandleCreateContest | source/request_handler.cpp:80-107 | parameter checks and default end time lead where the step machine goes |
| Handler.HandleUpdateImage | source/request_handler.cpp:108-128 | parameter checks and number parsing lead where the step machine goes |
| Handler.HandleAddFriend | source/request_handler.cpp:129-142 | as the step machine of addfriend |
| Handler.HandleRemoveFriend | source/request_handler.cpp:143-156 | as the step machine of removefriend |
| Handler.HandleVote | source/request_handler.cpp:175-193 | as the step machine of vote |
| Handler.HandleGetImage | source/request_handler.cpp:194-212 | as the step machine of getimage |
| Handler.HandleCreateUser | source/request_handler.cpp:39-46 | as the step machine of createuser |
| Handler.HandleAuthenticate | source/request_handler.cpp:47-54 | 1009 or 1010, as the step machine answers |
| Handler.HandleCommand | source/request_handler.cpp:56-236 | no command runs before its login succeeds; the reply is framed and carries the machine's answer |
| Handler.Dispatch | source/request_handler.cpp:57-222 | every request id reaches its own operation and is answered as its step machine is; the reply is replaced, not extended, exactly on refusals and for updateimage |
| Handler.HandleRequest | source/request_handler.cpp:30-236 | any request ends with the machine's answer in a framed 200 reply, appended to the reply passed in exactly when it passes authentication and is not answered by a reply of its own; without a connection a 503 page and no statement |
| Replies.ToBuffers | source/reply.cpp:115-130 | the buffers end to end are the reply's bytes, in 3 + 4n pieces |
| Replies.StatusLineIsPlain | source/reply.cpp:38-105 | no status line holds a carriage return before its end |
| Replies.StatusReadsBack | source/reply.cpp:38-105 | the number in the status line is the status, 200 for a result code, 500 for any other number |
| Replies.PageNamesStatus | source/reply.cpp:132-252 | the page of every status but 200 and 204 shows the status line's code and reason |
| Replies.ReplyReadsBack | source/reply.cpp:115-130 | any reply with plain headers and any content at all reads back as status line, headers and content |
| Replies.StockReply | source/reply.cpp:307-318 | the page of that status, with exactly its two headers |
| Replies.JsonReply | source/reply.cpp:320-331 | a 200 reply with the code's JSON text and exactly its two headers |
| Replies.FramedRepliesReadBack | source/request_handler.cpp:229-236 | every reply the server builds reads back with two headers, the first denoting the content's size |
| RequestParser.Parser | source/request_parser.cpp:31-195 | the parser's new state and verdict are those of ParseStep |
| RequestParser.ReadRest | source/request_parser.cpp:106-120 | the lines behind the headers are appended in order and counted |
| RequestParser.ReadHeaders | source/request_parser.cpp:66-79 | the map of first values of recognised headers in lines 1 to 11 |
| RequestParser.ReadTokens | source/request_parser.cpp:67-78 | all ten tokens are tried on a line; an earlier value is kept |
| RequestParser.AmountIsLength | source/request_parser.cpp:106-128 | the amount read is always the length of the text kept |
| RequestParser.EachReadMakesProgress | source/request_parser.cpp:125-141 | a later nonempty read finishes the request or leaves strictly less to read |
| RequestParser.FeedWaits | source/request_parser.cpp:125-141 | reads that fall short of the declared length, however cut, are all indeterminate and only accumulate |
| RequestParser.ChunkingIndependent | source/request_parser.cpp:125-141 | a tail of exactly the missing length, cut in any way, is indeterminate until its last read, which decides on one and the same text |
| RequestParser.HeadersMeaning | source/request_parser.cpp:66-79 | a header is recognised exactly when one of lines 2 to 12 holds its token, and its value is what follows the first colon and blank of the first such line |
| RequestParser.NoPostIsBad | source/request_parser.cpp:52-64 | a first read that does not begin with POST / HTTP/1.1 is refused, whatever follows |
| RequestParser.NoLengthIsBad | source/request_parser.cpp:81-89 | so is one without a Content-Length in lines 2 to 12 |
| RequestParser.LengthDecides | source/request_parser.cpp:90-103 | so is one whose length is no number; a negative length asks for more data |
| RequestParser.TokenNames | source/request_parser.cpp:27-29 | the ten recognised names, in order |
| RequestRoundTrip.LinesOfPrint | source/request_parser.cpp:39-43 | the lines of a printed request: request line, headers, the blank line's carriage return, the body if any |
| RequestRoundTrip.OnlyOwnToken | source/request_parser.cpp:27-29 | a printed header line holds its own token and none of the other nine |
| RequestRoundTrip.ScanPrinted | source/request_parser.cpp:66-79 | scanning the printed lines yields exactly the printed headers |
| RequestRoundTrip.PrintedRequestParses | source/request_parser.cpp:52-123 | a printed request with up to ten headers parses in one read to its declared length and "\r" + body; more data is asked for exactly when the length exceeds the body's by two or more |
| RequestRoundTrip.WrittenOutRequestParses | source/request_parser.cpp:52-123 | one request written out in full parses to length 2 and its body |
| Connection.LifeIsOrderly | source/connection.cpp:39-108 | the invariant of a connection over every sequence of completions |
| Connection.ConnectionServesOnce | source/connection.cpp:54-108 | at most one operation outstanding, one handler call, one reply; after it no read, and the borrowed reply does not change (header/reply.h:67-70) |
| Connection.TailIsServedOnce | source/connection.cpp:54-86 | exactly the missing bytes, in any reads, bring about exactly one reply, the handler's or the 401 page |
| Connection.FirstReadDecides | source/connection.cpp:39-86 | on a new connection the first read brings about another read, the handler's reply or the 401 page, as the parser decides |
| Connection.PrintedRequestIsServed | source/connection.cpp:39-86 | a printed request, its body cut into any reads, brings about exactly one reply, the handler's exactly when the text is acceptable |
| Connection.BadIs401 | source/connection.cpp:71-78 | the reply to a bad request is a framed 401 page |
| Connection.FailedReadIsSilent | source/connection.cpp:54-93 | a failed read ends the connection without a reply, whatever completes after it |
| Connection.ReplyIsLast | source/connection.cpp:95-108 | after the write, successful or not, nothing happens any more |
| Connection.Conn.Start | source/connection.cpp:39-52 | the first read is started, as LifeStep says |
| Connection.Conn.HandleRead | source/connection.cpp:54-93 | a completed read acts as LifeStep says; every reply is framed, and a handler's reply carries the answer its request reaches in this session |
| Connection.Conn.CallHandler | source/connection.cpp:63-70 | one handler call and one write of its framed reply |
| Connection.Conn.HandleWrite | source/connection.cpp:95-108 | a completed write starts nothing |
| LogQueue.EveryMessageIsAccountedFor | source/logger.cpp:8-73 | over every interleaving: the file is an order-preserving selection of the sent messages without repetition, exactly those marked written, and every other message that left the queue is marked dropped, the rest waiting in order |
| LogQueue.MarksAreFinal | source/logger.cpp:8-73 | no later event changes what was sent, the mark a message once got, or a line of the file |
| LogQueue.DrainMarks | source/logger.cpp:13-41 | a drain writes up to the first failed write or the end, then drops all that are left exactly when more than 200 are |
| LogQueue.DrainGoesOn | source/logger.cpp:13-41 | a drain stops only at the end of the queue or at a failed write; without one it writes all that waited, in order |
| LogQueue.FlushMarks | source/logger.cpp:53-61 | the flush writes each message left exactly if that message's write does not fail |
| LogQueue.LeavesWhenStopped | source/logger.cpp:8-10 | in every run the thread leaves its loop only if stopped since its start, and then at its next look at the flag |
| LogQueue.PassLeavesFewWaiting | source/logger.cpp:13-41 | after each completed drain at most 200 messages wait |
| LogQueue.NoFailureWritesEverything | source/logger.cpp:53-61 | without failed writes the file is always the oldest messages in order, and the final flush makes it all that was sent |
| LogQueue.DrainKeeps | source/logger.cpp:13-41 | a drain keeps what was marked, marks what it writes, and leaves few |
| LogQueue.FlushKeeps | source/logger.cpp:53-61 | the flush empties the queue and marks what it writes |
| LogQueue.SelectionKeepsOrder | source/logger.cpp:13-41 | the written positions strictly increase and are exactly the marked ones |
| LogQueue.Logger.SendMsg | source/logger.cpp:159-162 | appends one message, as Step says |
| LogQueue.Logger.StopRunning | source/logger.cpp:75-77 | clears the flag only |
| LogQueue.Logger.WriteMsg | source/logger.cpp:196-222 | adds the message to the file exactly when the write succeeds |
| LogQueue.Logger.KeepRunning | source/logger.cpp:10-10 | reads the flag, as the Check event does |
| LogQueue.Logger.DrainQueue | source/logger.cpp:12-42 | the loop of one pass, inner dropping loop included, does what Drain says |
| LogQueue.Logger.DropAll | source/logger.cpp:18-22 | every waiting message leaves the queue unwritten |
| LogQueue.Logger.FlushQueue | source/logger.cpp:53-61 | the final loop does what Flush says |
| LogQueue.Logger.LastPart | source/logger.cpp:53-72 | flush and closing line, other threads' calls in between |
| LogQueue.Logger.RunThread | source/logger.cpp:8-73 | the whole thread in any interleaving with other threads' calls, before it starts and between any two of its steps, is that run of the state machine |

## Left out

- Handler.Dispatch: what getmycontests, getcontest, getrandomcontests and gettopcontests print; they read tables and add nothing to the properties here.
- Handler.HandleRequest: the outermost catch block, which turns an unexpected exception into the 400 page.
- ServerDb.SrvDb.ListPeople: the getUsername lookups that turn ids into names, and the JSON text around them.
- `deleteUser` as an operation: no request reaches it, and it would break the history properties. Its query text is covered.
- The MySQL driver, opening connections and its exception classes: one success or failure per statement.
- Sockets, strands, thread creation, signals, daemonising and configuration.
- JSON parsing and printing, MIME types, the polling threads for the two cached contest lists.
- Console output, debug logging and the time stamps in the log file.
- The remote address, method, URI and version fields of a request, which nothing reads.
- Overflow of the amount read beyond the 64-bit size type.
