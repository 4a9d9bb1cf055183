# Memory-match game: a verified model

The system is a memory-match game for learning programming languages. Players
sign up, log in, pick a language on the main menu, and flip cards to pair a
concept with its description. After a game, a summary page rebuilds the pairs
of that game mode and lets the player save pairs to a personal collection. The
profile page shows that collection.

The back end is a set of HTTP handlers over a relational database. Each handler
checks its request, calls a model function that reads or writes a table, and
answers with a `{ success, data, msg }` envelope and a status code. The front
end is a set of pages whose state is held in hooks.

This project models both halves in Dafny:

- `Database` holds the tables as fields of a `Db` object. These are the users
  table with its unique `username` index, the card catalog, and the collection
  table. `Db.Valid()` states the keys and indexes that the schema maintains.
- `UserModel`, `GameModel` and `CollectionModel` are the model functions. Each
  one that writes the database is a method over `Db`, with a `modifies` frame
  limited to the tables it touches.
- `UserController`, `GameController` and `CollectionController` are the
  handlers. Each one maps a request to a status code, a payload and the new
  database state.
- `JavaBoard` is the Java concept board, modelled as a class.
  - The deal is a Fisher-Yates shuffle on an array.
  - Clicking, matching, the flip-back timer and resetting are methods that
    keep the board invariant.
- `Summary`, `Profile`, `SignUpPage`, `LogInPage` and `MainMenu` are the other
  pages, each with its own state and handlers.
- `Wrappers`, `Text`, `Seqs` and `Http` are shared helpers: Option and Result
  types, ASCII lower-casing and substring search, duplicate-free sequences,
  and the reply envelope.

Some lemmas connect the pages to the server, and they record how the pieces
behave together:

- `Profile.DeleteRequestRefused`: the profile page's delete request carries
  only one of the three fields the server requires, so the server answers 400.
- `Profile.ServerListBreaksStats`: the list the server returns carries no game
  mode, so a non-empty list makes the profile page's statistics throw.
- `Summary.MutualReferenceNotPaired`: the summary page pairs cards by equal
  `matchId`, while the server's `isCardMatch` accepts two cards where one names
  the other.

## Model

| member | source | states |
|---|---|---|
| Database.Truncate | backend/src/model/user.model.ts:10 | bcrypt reads exactly the first 72 bytes of a longer password, and a password of at most 72 bytes whole |
| Database.Hash | backend/src/model/user.model.ts:10 | the stored digest carries the salt it was drawn with; `bcrypt.compare` accepts an attempt iff it agrees with the password on the first 72 bytes, so a password under 72 bytes is accepted exactly |
| Database.LongPasswordsCollide | backend/src/model/user.model.ts:20-25 | two passwords longer than 72 bytes that share their first 72 bytes each unlock the other's digest |
| UserModel.GetUserByUsername | backend/src/model/user.model.ts:27-29 | a user is found iff some stored user has that username; the one found is that stored user, and it is the only one with that name |
| UserModel.GetUserById | backend/src/model/user.model.ts:31-33 | a user is found iff the id is a key of the user table, and it is the stored row |
| UserModel.CreateUser | backend/src/model/user.model.ts:4-18 | a taken username fails with "Username is already registered" and changes no table; otherwise exactly one user is added, under a fresh id, with the password's digest and live score 0, and the unique index stays consistent |
| UserModel.RegisteredIsFound | backend/src/model/user.model.ts:27-29 | every stored user is what a lookup by its own username returns |
| GameModel.StartNewGame | backend/src/model/game.model.ts:3-8 | the user's live score becomes 0 and nothing else changes; a missing user fails and changes nothing |
| GameModel.UpdateLiveGame | backend/src/model/game.model.ts:10-26 | the returned score differs from the old one by +1 for a match and -1 otherwise, with no floor; it is the stored new score; a missing user fails and changes nothing |
| GameModel.EndGame | backend/src/model/game.model.ts:28-33 | the user's live score returns to 0 and nothing else changes; a missing user fails |
| GameModel.ScoreAfterCounts | backend/src/model/game.model.ts:14-25 | after a run of updates the score equals start + 2 * matches - updates, that is start + matches - misses, so it never moves by more than the number of updates |
| GameModel.UpdateLiveGames | backend/src/model/game.model.ts:10-26 | successive `updateLiveGame` calls return, after the k-th verdict, the fold of the first k verdicts over the starting score, and leave that fold of all of them stored |
| GameModel.PlayRound | backend/src/model/game.model.ts:3-33 | a round of `startNewGame`, successive updates and `endGame` reports after k verdicts a score within [-k, k], the fold from 0, and leaves the live score at 0 |
| GameModel.IsCardMatch | backend/src/model/game.model.ts:47-61 | fails with "Card not found" iff either id is missing from the catalog; otherwise true iff one card's `matchId` names the other |
| GameModel.IsCardMatchSymmetric | backend/src/model/game.model.ts:57-60 | the answer does not depend on the order of the two ids |
| GameModel.GetCardsByGameMode | backend/src/model/game.model.ts:35-39 | a card is returned iff it is a catalog card of that game mode |
| GameModel.GetCardDetail | backend/src/model/game.model.ts:41-45 | a card is returned iff the id is in the catalog, and it is that catalog card |
| UserController.SignupReply | backend/src/controller/user.controller.ts:15-36 | a created user gives 201 with its id and username and a one-hour cookie; an error that mentions "already" gives 409, and any other error gives 500; a failure sets no cookie and carries no data |
| UserController.AlreadyRegisteredIsConflict | backend/src/controller/user.controller.ts:32-34 | the error that `createUser` throws for a taken name is one that the handler maps to 409 |
| UserController.HandleSignup | backend/src/controller/user.controller.ts:6-37 | a missing or empty field gives 400 before any lookup and changes nothing; a taken username gives 409 and adds no user; otherwise 201, the new user is stored with the digest, and a one-hour cookie is set |
| UserController.MaxAge | backend/src/controller/user.controller.ts:59 | the cookie lasts 604800 s when `remember` is true and 3600 s otherwise |
| UserController.HandleLogin | backend/src/controller/user.controller.ts:39-80 | the checks run in order: 400 iff a field is missing; 404 iff the username is unknown; 401 iff the password does not match; 200 iff it matches; only a 200 sets a cookie, and it names the user with that username |
| UserController.GetMe | backend/src/controller/user.controller.ts:90-108 | 401 iff there is no session user id; 404 iff that user is gone; otherwise 200 with that user's id and username |
| GameController.StartGame | backend/src/controller/game.controller.ts:4-16 | 401 with no session user, and nothing changes; 500 for a missing user, and nothing changes; otherwise 200 and the live score is 0 |
| GameController.UpdateGame | backend/src/controller/game.controller.ts:18-39 | 400 unless there is a user and both ids are numbers; 500 with no change if either number is not a 32-bit integer Prisma accepts; the match is evaluated before the score moves, so an unknown card gives 500 and leaves the score unchanged; otherwise 200, the score moves by one, and the new score and the verdict are returned |
| GameController.FinishGame | backend/src/controller/game.controller.ts:42-54 | like `startGame`: 401, 500, or 200 with the live score reset to 0 |
| GameController.GetCardsByGameMode | backend/src/controller/game.controller.ts:56-68 | 400 iff the parameter is NaN; 500 iff it is another number that is not a 32-bit integer; otherwise 200 with exactly the cards of that mode |
| GameController.GetCardDetail | backend/src/controller/game.controller.ts:70-86 | 400 iff NaN; 500 iff another number that is not a 32-bit integer; 404 iff the card is not in the catalog; 200 with that card otherwise |
| CollectionModel.FindManyCount | backend/src/model/collection.model.ts:51-61 | `findMany` returns each selected row as often as it is stored, and no other row |
| CollectionModel.FindManyInTable | backend/src/model/collection.model.ts:51-61 | every returned row is a stored row that the where clause selects |
| CollectionModel.FindManyNoHit | backend/src/model/collection.model.ts:51-61 | a clause that selects nothing lists nothing |
| CollectionModel.FindManyAppend | backend/src/model/collection.model.ts:16-23 | appending a row extends each listing by that row exactly when the row is selected |
| CollectionModel.DeleteManyCount | backend/src/model/collection.model.ts:32-39 | `deleteMany` removes every selected row and keeps every other row with its multiplicity |
| CollectionModel.DeleteManyInTable | backend/src/model/collection.model.ts:32-39 | every kept row was a stored row |
| CollectionModel.DeleteManySize | backend/src/model/collection.model.ts:32-39 | rows kept plus rows selected equal the rows before, so the reported count is the number deleted |
| CollectionModel.DeleteManyNoHit | backend/src/model/collection.model.ts:32-39 | deleting with a clause that selects nothing leaves the table as it was |
| CollectionModel.ClearThenList | backend/src/model/collection.model.ts:43-61 | after clearing a user, that user's listing is empty, and clearing again changes nothing |
| CollectionModel.ClearKeepsOthers | backend/src/model/collection.model.ts:43-49 | clearing one user leaves every other user's listing unchanged, order included |
| CollectionModel.AddToCollection | backend/src/model/collection.model.ts:3-24 | an unknown card fails and inserts nothing; otherwise exactly one new row is appended under a fresh id, even when the tuple is already stored |
| CollectionModel.AddCountsTuple | backend/src/model/collection.model.ts:16-23 | saving a tuple adds one to the count of stored rows with that tuple, since the table has no uniqueness constraint |
| CollectionModel.RemoveFromCollection | backend/src/model/collection.model.ts:26-40 | deletes every row equal to the tuple on all four fields, keeps the rest in order, and reports how many rows were deleted |
| CollectionModel.ClearUserCollection | backend/src/model/collection.model.ts:43-49 | deletes every row of the user, keeps the rest, and reports how many rows were deleted |
| CollectionModel.GetAllUserCollections | backend/src/model/collection.model.ts:51-61 | one entry per row of the user, in table order; each entry is a stored row of that user, with its two catalog cards joined in |
| CollectionController.Add | backend/src/controller/collection.controller.ts:4-19 | 400 and no change when any field is falsy, 0 included; 500 and no change for an unknown card; otherwise 200 with the appended row |
| CollectionController.Remove | backend/src/controller/collection.controller.ts:22-37 | 400 and no change when any field is falsy; otherwise the matching rows are deleted, and the reply is a success even when none matched |
| CollectionController.Clear | backend/src/controller/collection.controller.ts:40-48 | always a success, and afterwards the user has no rows |
| CollectionController.List | backend/src/controller/collection.controller.ts:50-59 | 200 with one entry per row of the user, each a stored row of that user |
| JavaBoard.CardFor | frontend/src/play/Java.jsx:22-25 | the card dealt under an identifier belongs to that identifier's topic; it shows the concept iff the suffix is `a` |
| JavaBoard.Deck | frontend/src/play/Java.jsx:20-26 | before shuffling there are 16 cards, concept then description for each of the 8 topics |
| JavaBoard.DeckKeyInjective | frontend/src/play/Java.jsx:22-25 | different deck positions get different identifiers |
| JavaBoard.DeckHasKey | frontend/src/play/Java.jsx:22-25 | every identifier on the deck is handed out at some position |
| JavaBoard.DeckNoDup | frontend/src/play/Java.jsx:22-25 | the unshuffled deck holds no card twice |
| JavaBoard.DealCanonical | frontend/src/play/Java.jsx:20-27 | any deal has 16 cards; each card is the one made for its identifier, and every identifier is dealt |
| JavaBoard.DealDistinct | frontend/src/play/Java.jsx:20-27 | no two dealt cards share a `uniqueId` |
| JavaBoard.DealPairs | frontend/src/play/Java.jsx:20-27 | for every topic the deal holds one concept card and one description card, and no (pairId, kind) occurs twice |
| JavaBoard.Pick | frontend/src/play/Java.jsx:32 | `Math.floor(Math.random() * (i + 1))` is a valid index at most `i` |
| JavaBoard.DrawInRange | frontend/src/play/Java.jsx:32 | the floored product of a draw in [0,1) and n lies in [0,n) |
| JavaBoard.SwapKeepsMultiset | frontend/src/play/Java.jsx:33 | a swap of two positions rearranges the elements and neither adds nor drops any |
| JavaBoard.ShuffleArray | frontend/src/play/Java.jsx:29-36 | the shuffled copy is a permutation of the input |
| JavaBoard.CreateCardPairs | frontend/src/play/Java.jsx:20-27 | the result is a permutation of the 16-card deck |
| JavaBoard.Find | frontend/src/play/Java.jsx:171-172 | the card found carries the identifier, and nothing is found iff no card carries it |
| JavaBoard.FindFirst | frontend/src/play/Java.jsx:171-172 | when position i holds the first card carrying the identifier, the card found is the one at i |
| JavaBoard.FindOnDeal | frontend/src/play/Java.jsx:171-172 | on a deal, looking up a handed-out identifier always finds the card made for it |
| JavaBoard.Without | frontend/src/play/Java.jsx:154 | the filter keeps exactly the other identifiers and keeps them distinct |
| JavaBoard.MatchStep | frontend/src/play/Java.jsx:174-186 | moving two flipped cards of one topic to the matched list, with one more point and one more attempt, keeps the play state consistent: distinct dealt cards, pairs by topic, two matched cards per point, score at most attempts |
| JavaBoard.PairedUpLength | frontend/src/play/Java.jsx:176 | the matched list always has even length |
| JavaBoard.DeckKeys | frontend/src/play/Java.jsx:22-25 | the 16 identifiers are distinct, and they are exactly the ones handed out |
| JavaBoard.AllKeysIffSixteen | frontend/src/play/Java.jsx:237 | a duplicate-free list of handed-out identifiers has at most 16 entries, and has 16 iff it contains all of them |
| JavaBoard.Board.constructor | frontend/src/play/Java.jsx:38-40 | a fresh deal with nothing flipped, matched or counted, satisfying the board invariant |
| JavaBoard.Board.HandleCardClick | frontend/src/play/Java.jsx:147-167 | a matched card ignores clicks; a flipped card is unflipped; a third card is refused; otherwise the card is appended to the flipped list; the board invariant holds throughout |
| JavaBoard.Board.CheckMatch | frontend/src/play/Java.jsx:169-187 | attempts grow by one; on equal `pairId`s both cards join the matched list, the score rises by one and nothing stays flipped; otherwise the state is unchanged and one flip-back is scheduled |
| JavaBoard.Board.HandleMatch | frontend/src/play/Java.jsx:189-193 | does nothing unless exactly two cards are flipped; then behaves as `checkMatch`, a match scheduling no flip-back and a miss scheduling one |
| JavaBoard.Board.FlipBack | frontend/src/play/Java.jsx:180-182 | the timer firing empties the flipped list, whatever it holds by then |
| JavaBoard.Board.ResetGame | frontend/src/play/Java.jsx:195-201 | a new deal; the flipped list, the matched list, the score and the attempts are all cleared |
| JavaBoard.Board.IsCardFlipped | frontend/src/play/Java.jsx:203-205 | a card is face-up iff it is flipped or matched, and only a handed-out card can be face-up |
| JavaBoard.Board.GameComplete | frontend/src/play/Java.jsx:237 | the game is complete iff every identifier is matched, iff the score is 8 |
| JavaBoard.Board.ScoreBounded | frontend/src/play/Java.jsx:169-187 | the score never exceeds the number of topics or the number of attempts, and every matched identifier is dealt |
| Summary.FindPartner | frontend/src/pages/Summary.jsx:80-82 | the partner is another card with the same `matchId`; none is found iff no such card exists |
| Summary.FindPartnerFirst | frontend/src/pages/Summary.jsx:80-82 | when position i holds the first such card, the partner found is the one at i |
| Summary.FindAttempt | frontend/src/pages/Summary.jsx:93-96 | the attempt found names the two cards in either order; none is found iff no attempt does |
| Summary.FindAttemptFirst | frontend/src/pages/Summary.jsx:93-96 | when position i holds the first attempt naming the two cards, the attempt found is the one at i |
| Summary.MatchIdsGrow | frontend/src/pages/Summary.jsx:115 | recording a pair adds exactly its `matchId` to the processed set |
| Summary.LoadGameCards | frontend/src/pages/Summary.jsx:74-119 | each question is numbered by position and built from a card and its partner, with both details; it is attempted iff some attempt names the pair, and correct iff the first such attempt matched; no two questions share a `matchId`, and every card that could open a pair is covered; questions follow the scan order of `allCards`, each opened by the earliest ready card of its `matchId` not taken before |
| Summary.ScanOrderGrows | frontend/src/pages/Summary.jsx:77-115 | opening a question at the current position, after every earlier ready card is covered, keeps the openers increasing and each question's opener the first untaken ready card |
| Summary.OpenerComesFirst | frontend/src/pages/Summary.jsx:77-82 | no ready card before a question's opener shares its `matchId`, so of two partnered cards the one listed first becomes `card1` |
| Summary.LoadedAttemptsMean | frontend/src/pages/Summary.jsx:93-108 | a rebuilt question is attempted iff some evaluated pair names its two cards in either order, and it is correct only if it was attempted |
| Summary.BuiltGrows | frontend/src/pages/Summary.jsx:98-115 | pushing the question of a card whose `matchId` is not yet processed keeps every question describing its pair and the `matchId`s distinct |
| Summary.MutualReferenceNotPaired | frontend/src/pages/Summary.jsx:80-82 | two cards that name each other as match, which the server's `isCardMatch` accepts as a pair, are never each other's partner on this page |
| Summary.ToggleAddToProfile | frontend/src/pages/Summary.jsx:141-154 | only `isAddedToProfile` changes, and only on the question with that id |
| Summary.ToggleTwice | frontend/src/pages/Summary.jsx:141-154 | toggling the same question twice restores the list |
| Summary.Selected | frontend/src/pages/Summary.jsx:160 | a question is selected iff it is on the page and marked for adding |
| Summary.ClearSelection | frontend/src/pages/Summary.jsx:196-201 | afterwards nothing is selected, and no other field changes |
| Summary.SaveToProfile | frontend/src/pages/Summary.jsx:157-214 | an empty selection only alerts; otherwise one add call per selected question, in page order; successes plus failures equal the selection; the selection is cleared iff something succeeded; the alerts report both counts |
| Summary.SelectedCount | frontend/src/pages/Summary.jsx:264 | the counter equals the number of selected questions |
| Summary.CountsOrdered | frontend/src/pages/Summary.jsx:265-266 | correct answers <= attempted answers <= questions |
| Profile.Dedup | frontend/src/pages/Profile.jsx:37 | `[...new Set(names)]` holds each name once, and exactly the names of the input |
| Profile.ModeNames | frontend/src/pages/Profile.jsx:37 | one name per entry, and exactly the entries' game-mode names |
| Profile.StatsOf | frontend/src/pages/Profile.jsx:37-43 | stats exist iff every entry has a game mode; then totals equal the list length, the average is 0, and the languages are the distinct mode names |
| Profile.RemoveEntries | frontend/src/pages/Profile.jsx:57 | keeps exactly the entries that do not have both that id and that date |
| Profile.RemoveEntriesSnoc | frontend/src/pages/Profile.jsx:57 | an entry at the end of the list is kept or dropped on its own, after the rest is filtered |
| Profile.RemoveEntriesAppend | frontend/src/pages/Profile.jsx:57 | the filter works entry by entry, so the kept entries stay in order |
| Profile.RemoveEntriesAbsent | frontend/src/pages/Profile.jsx:57 | filtering for an entry that is not there leaves the list unchanged |
| Profile.FromServer | backend/src/model/collection.model.ts:51-61 | the server's entries carry their row ids, but no game date and no game mode |
| Profile.ServerListBreaksStats | frontend/src/pages/Profile.jsx:37 | a non-empty list from the server makes the statistics throw |
| Profile.DeleteRequestRefused | frontend/src/pages/Profile.jsx:56 | the request that carries only the card id fails the server's required-field check |
| Profile.ProfilePage.constructor | frontend/src/pages/Profile.jsx:8-18 | the page starts with an empty list, zero statistics and no user |
| Profile.ProfilePage.Load | frontend/src/pages/Profile.jsx:20-51 | with no user, the page goes to /login and nothing else changes; otherwise it shows the user and the fetched list, then either shows the stats or goes to /login when deriving them throws |
| Profile.ProfilePage.DeleteCard | frontend/src/pages/Profile.jsx:54-69 | sends the request, then filters the list whatever the reply, and recomputes the stats from the filtered list when they can be derived |
| Profile.ProfilePage.HandleClearCollection | frontend/src/pages/Profile.jsx:71-86 | nothing happens without confirmation; with it, one clear request is sent, the list is empty and the stats are those of the empty list |
| SignUpPage.TestRangeMeans | frontend/src/pages/SignUp.jsx:19-20 | the regex test succeeds iff some character lies in the range |
| SignUpPage.PasswordError | frontend/src/pages/SignUp.jsx:16-20 | no error iff the password rule holds; otherwise the message of the first failing check, in schema order |
| SignUpPage.Validate | frontend/src/pages/SignUp.jsx:13-26 | each field's error is present iff its rule fails, with the refinement checked independently; the form passes iff all rules hold |
| SignUpPage.PasswordRequirements | frontend/src/pages/SignUp.jsx:42-47 | each checklist flag holds iff its rule holds, and all flags hold iff the schema accepts the password |
| SignUpPage.ChecklistShowsFailure | frontend/src/pages/SignUp.jsx:103-130 | whenever the password error shows, the checklist shows at least one unmet item |
| SignUpPage.SignupResponse | frontend/src/api/user.ts:14-25 | a 2xx reply passes through; any other status gives a failure with the server's message, or "Signup failed" |
| SignUpPage.OnSubmit | frontend/src/pages/SignUp.jsx:49-59 | success navigates to /login; a failure shows a non-empty error, the server's message when it has one |
| SignUpPage.NotInEmpty | frontend/src/pages/SignUp.jsx:89 | an empty error contains no word |
| SignUpPage.ErrorShownOnce | frontend/src/pages/SignUp.jsx:73-94 | a non-empty server error appears in exactly one of the two places; no error appears in neither |
| SignUpPage.StartsWithUsername | frontend/src/pages/SignUp.jsx:89 | a message beginning with "Username" is shown under the username field |
| SignUpPage.DuplicateShownUnderUsername | backend/src/controller/user.controller.ts:32-34 | a duplicate signup ends with "Username already registered" under the username field and not at the top |
| LogInPage.Validate | frontend/src/pages/LogIn.jsx:8-12 | each field's error is present iff the field is empty; `remember` never fails |
| LogInPage.LoginPage.constructor | frontend/src/pages/LogIn.jsx:16 | the page starts with no error, no navigation and the browser storages as they were |
| LogInPage.LoginPage.OnSubmit | frontend/src/pages/LogIn.jsx:31-46 | success clears the error, stores the username in localStorage iff `remember` and otherwise in sessionStorage, and goes to /main; a failure sets a non-empty error and changes nothing else |
| LogInPage.StorageMatchesCookie | backend/src/controller/user.controller.ts:59 | the page keeps the username across browser sessions exactly when the server issues the week-long cookie |
| MainMenu.Switch | frontend/src/pages/Main.jsx:48-69 | "c#" leads to /Csharp; every other name leads to "/" followed by the name |
| MainMenu.Route | frontend/src/pages/Main.jsx:47-70 | the route starts with '/'; it is /Csharp for C# in any case, and "/" + the lower-cased name otherwise |
| MainMenu.RouteIgnoresCase | frontend/src/pages/Main.jsx:48 | the route does not depend on the case of the selected name |
| MainMenu.MainPage.constructor | frontend/src/pages/Main.jsx:12 | the settings drop-down starts closed |
| MainMenu.MainPage.HandleSettingsClick | frontend/src/pages/Main.jsx:76-78 | the drop-down's open state is negated |
| MainMenu.MainPage.HandleLogout | frontend/src/pages/Main.jsx:80-84 | one logout request is sent, the drop-down closes, and the page goes to /login |
| Text.ToLower | frontend/src/pages/Main.jsx:48 | same length; each letter A-Z becomes its lower-case form and every other character is kept; no upper-case letter remains |
| Text.ToLowerIdempotent | frontend/src/pages/Main.jsx:48 | lower-casing twice is lower-casing once |
| Text.LowerEquals | frontend/src/pages/Main.jsx:48 | a string made of the lower-cased characters of `s`, in order, is `s.toLowerCase()` |
| Text.ContainsAt | backend/src/controller/user.controller.ts:32 | `includes` holds whenever the word occurs at some position |

## Left out

- Database failures: connection errors, and Prisma's own exception texts in 500 replies. The model keeps the status and abbreviates the message.
- Foreign keys: the model checks that both cards of a collection row exist, as `addToCollection` does. It does not model the database's referential checks on `userId` and `gameModeId`.
- Concurrency: every handler runs alone. The lookup-then-insert in `createUser` cannot race, and the increment in `updateLiveGame` is a plain read-modify-write.
- Authentication: the session token, its signing, and the middleware that reads the cookie are not modelled. Handlers receive the session user id as a parameter. Only the cookie's lifetime is kept.
- `handleLogout` on the server only clears the cookie. Since the token is not modelled, it has no state to change.
- bcrypt: the hash is abstract. A digest records its salt and the first 72 characters of the password, and `Compare` is the only way to check it. Cost factor, timing and encoding are not modelled, and the random salt is a parameter.
- Database.Truncate counts characters, not UTF-8 bytes. The two agree for ASCII passwords; a password with multi-byte characters is cut later in the model than by bcrypt.
- JavaScript numbers: `Number()` on query and path parameters, and the body fields of `updateGame`, arrive as `Numeric` (NaN, integer, or other number). A body field that is not of type number is absent.
- Integer width: Prisma's `Int` columns are signed 32-bit. The game handlers answer 500 for ids outside that range.
- GameModel.UpdateLiveGame: the live score is an unbounded integer. An increment that would leave the 32-bit range, which Prisma would refuse, is not modelled.
- CollectionController: the ids in a request body are unbounded integers. An id outside the 32-bit range, which Prisma would refuse with a 500, is not modelled.
- GameModel.GetCardsByGameMode: the catalog is a map, so the cards come back as a set, without the table order `findMany` gives them. The summary page takes its card list as a sequence input, so its own order is kept.
- Text.ToLower: only ASCII letters are folded, and string lengths count characters rather than UTF-16 code units.
- Network responses are parameters:
  - the page models take the server's answers as inputs: `details` and `responses` in Summary, `fetched` in Profile, `res` in the login and signup pages;
  - a request that throws or returns no data on the profile page is not modelled.
- Navigation is recorded as the last path requested, and alerts as a list of alert values. Rendering, themes, colours, the random question colour, button animations, `isMobile`, and the click-outside handling of the settings menu are left out.
- JavaBoard: random numbers are an explicit sequence of draws in [0,1). The page's helpers that only choose styles (`isCardMatched`, `getBorderColor`, and the class helpers) are not modelled.
- JavaBoard.Board.HandleCardClick requires the identifier to be a dealt one, since clicks come only from rendered cards.
- Summary: `loadUserScore`, `handleFinishGame`, and the navigation and finish calls are not modelled. A missing `matchedPairs` is the empty list.
- Summary.LoadGameCards: the per-card detail requests are a map from card id to detail, holding the ids whose lookup succeeded.
- Summary.SaveToProfile: a thrown request and an unsuccessful reply are both "not added". The outer catch with its generic alert is not modelled.
- LogInPage.LoginPage.OnSubmit assumes a successful reply carries the user's data, as the server always sends it.
- Main menu: fetching the current user, and the profile button, are not modelled.
- `App.jsx`, the routes, and the API client wrappers other than `signupUser` are outside the model. So are the other language boards, which are not part of this model.
