# Escrowstack — a Dafny model of the price server and the web client's logic

Escrowstack is a small real-time stock dashboard. A Node server simulates prices for five tickers (GOOG, TSLA, AMZN, META, NVDA). Once a second it moves every price by a random percentage and pushes a `price_update` event to the Socket.IO room `TICKER_<t>` of each ticker. Clients join and leave rooms with `subscribe` and `unsubscribe`. A React client has sign-in and registration forms that keep the signed-in user in `localStorage`. Its dashboard keeps a per-user subscription list and the latest price of each ticker. One card per ticker draws a sparkline of recent prices.

This project models that logic in Dafny and proves what the code promises:

- **`Pricing`, `Bounded`:** the tick arithmetic, in whole cents and exact rationals, and the capped history buffers. The server keeps 60 entries per ticker and a card keeps 40.
- **`Rooms`, `PriceServer`:** the room registry and the server's handlers. The server is a class whose state is the price and history tables, the rooms and the socket identities. Every handler keeps its invariant: well-formed tables, and among the rooms the handlers make, none empty and none but the tickers' rooms. (Socket.IO also puts each socket in a room named after its own id; those rooms belong to the library and are not part of this model.)
- **`Text`, `Email`:**
  - `Text` holds JavaScript's `trim` (with the exact ECMAScript white-space set of `\s`) and ASCII lower-casing.
  - `Email` holds the `validEmail` regular expression as a small automaton. It is proved equal to the plain description "A@B.C, with A, B and C non-empty and free of white space and '@'".
- **`Json`:** `JSON.stringify` for the two shapes the client stores (an array of strings, and an object of string members), and a decoder for them. Both round trips are proved.
- **`Storage`:** `localStorage` as a class over a `map<string, string>`, with the client's storage keys.
- **`Login`, `Register`:** the two forms' ordered checks, their messages, normalisation and storage writes.
- **`Dashboard`, `Card`:**
  - `Dashboard` holds the dashboard's subscription list, price map, re-subscribe pass and per-user persistence.
  - `Card` holds a card's seeded, capped sparkline history and the guard and path of `draw()`.
- **`App`:** `isLoggedIn`, the route table with its redirects (matched, as the router does, without regard to letter case or trailing slashes), the protected route and logout.

How the model represents the code:

- **Prices are whole cents.** The server's prices are dollars rounded to cents. The model keeps them in cents, and every intermediate value is exact, so `Math.round` is `floor(x + 1/2)`.
- **Random inputs are parameters.** The per-ticker normal draw `z` is an input of the tick, and so is each card's uniform jitter draw `r`.
- **Events are direct calls.** A socket event or a window event is a call of the handler's method. A sent message is appended to an outbox (`Dashboard.sent`) or returned (`Server.UpdatePrices`, `Server.Subscribe`).

Two consequences of the code worth knowing:

- **Short early snapshots.** server.js:33 seeds each history with a single entry, and each tick adds one. So a `subscribe` before the first tick gets a one-entry history, and a later one gets min(30, ticks + 1) entries.
- **Card seeding.** A card seeds thirty points only when it is mounted with a non-zero `initial`. The dashboard mounts every card on its first render, when no price has arrived. So cards start empty, and the first point is drawn after the second update (`Dashboard.FirstRenderCardsUnseeded`, `Card.UnseededCardDrawsLate`).

## Model

| member | source | states |
|---|---|---|
| Bounded.PushCapped | backend/server.js:58-59 | push then at most one shift: the length grows by one until the cap, then stays; the new value is last; a buffer within the cap stays within it |
| Bounded.PushCappedSuffix | frontend/src/components/StockCard.js:38-42 | what a push keeps is a suffix of the old entries followed by the new one, so only the oldest is dropped and the order is kept |
| Bounded.PushCappedValues | backend/server.js:58-59 | a push brings in no value but the pushed one |
| Bounded.LastN | backend/server.js:100 | for a positive `n`, `slice(-n)` is the last min(n, length) entries, oldest first |
| Bounded.PushCappedSlides | backend/server.js:58-59 | a buffer holding the last `cap` values of a stream still holds the last `cap` after one more push |
| Bounded.PushAll | frontend/src/components/StockCard.js:38-42 | a run of pushes keeps a buffer within its cap, adds at most one entry per push, and ends with the last value pushed |
| Bounded.PushAllSlides | backend/server.js:58-59 | any number of pushes keeps the buffer the sliding window of the whole stream |
| Bounded.EvictsAllOldEntries | frontend/src/components/StockCard.js:38-42 | after `cap` or more pushes nothing of the starting buffer is left: it is exactly the last `cap` values pushed |
| Pricing.Round | backend/server.js:53 | `Math.round` lands within one half of its argument, halves upward |
| Pricing.RoundWhole | backend/server.js:54 | rounding a whole number of cents changes nothing |
| Pricing.RoundBetween | backend/server.js:53 | rounding never reverses the order between a value and a whole number |
| Pricing.NextPrice | backend/server.js:49-53 | the new price is the old one moved by `z` times 0.5%, rounded to the nearest cent; a target below one cent is clamped to exactly one cent, so the price is never below one cent |
| Pricing.ChangeCents | backend/server.js:54 | both prices are whole cents, so `change` is exactly `next - old` |
| Pricing.Advance | backend/server.js:47-55 | one tick's outcome: the new price `NextPrice` gives, its exact change, and the percentage `PctChange` gives for that change |
| Pricing.PctChange | backend/server.js:55 | 0 for an old price of 0; otherwise within one half of `10000 * change / old`, the change in hundredths of a percent |
| Pricing.PctChangeExact | backend/server.js:55 | for a positive old price, `pctChange` in hundredths of a percent is `(20000 * change + old) div (2 * old)`: the ratio rounded half up, negative changes included |
| Pricing.PctChangeSign | backend/server.js:55 | the percentage change has the sign of the change |
| Pricing.NextFollowsDraw | backend/server.js:49-53 | a non-negative draw never lowers the price and a non-positive one never raises it, clamp included |
| Pricing.AdvanceFollowsDraw | backend/server.js:47-55 | price, change and percentage change all move the way of the draw |
| Pricing.AdvanceZeroDraw | backend/server.js:47-55 | a zero draw leaves the price as it was, with change 0 and 0% |
| Rooms.RoomOf | backend/server.js:62 | the room name is `TICKER_` followed by the ticker |
| Rooms.RoomOfInjective | backend/server.js:95 | distinct tickers never share a room |
| Rooms.RoomsOfExact | backend/server.js:95 | a ticker's room is among the rooms of a list of tickers exactly when the ticker is in the list |
| Rooms.Join | backend/server.js:95 | joining adds the socket to that room only, creates the room if needed and never leaves an empty room |
| Rooms.Leave | backend/server.js:108 | leaving removes the socket from that room only, also for a non-member, and drops a room that becomes empty |
| Rooms.JoinIdempotent | backend/server.js:95 | joining twice is joining once |
| Rooms.LeaveUndoesJoin | backend/server.js:95-108 | a newcomer who joins and then leaves restores the rooms exactly |
| PriceServer.UpdateEvent | backend/server.js:62-68 | each `price_update` names its ticker and carries the tick's new price (`NextPrice` of the old price and the draw, at least one cent), the exact change, the percentage `PctChange` gives for that change, and the clock reading taken for it |
| PriceServer.Requested | backend/server.js:94 | `!ticker` rejects exactly a missing ticker and the empty string |
| PriceServer.IdentityOf | backend/server.js:87 | the stored identity is never empty; a non-empty email in the payload is stored as given, and anything else gives "unknown" |
| PriceServer.PushKeepsTickerOk | backend/server.js:57-59 | pushing a new price keeps one ticker's history 1 to 60 long, with positive entries and the current price last |
| PriceServer.TickKeepsTablesOk | backend/server.js:46-59 | a tick that gives every ticker a new price pushed onto its own history keeps all tables well-formed |
| PriceServer.TickersMatchPrices | backend/server.js:22-28 | the tick order names every ticker of the table exactly once |
| PriceServer.TickAll | backend/server.js:46-69 | one loop pass: each ticker advances exactly once, from its own old price with its own draw, stamped with its own clock reading; its new price is pushed onto its history; exactly one event per ticker, in order, addressed to its room |
| PriceServer.SubscribeAsWritten | backend/server.js:93-103 | the handler as written: ignored exactly when the ticker is missing or neither a table key nor an inherited property name; otherwise the socket joins `TICKER_<t>`; a reply only for table keys |
| PriceServer.InheritedNameOpensStrayRoom | backend/server.js:94-100 | as written, `subscribe` for "toString" puts the socket in a room of no supported ticker and sends no reply |
| PriceServer.Server.Supported | backend/server.js:76-78 | `GET /` lists exactly the supported tickers, each once |
| PriceServer.Server.IsSupported | backend/server.js:94 | in a valid state, the own-key test `TICKERS[ticker]` passes exactly for the tickers the tick visits |
| PriceServer.Server.constructor | backend/server.js:22-33 | start-up: baseline prices, a one-entry history per ticker, no rooms, and a valid state |
| PriceServer.Server.UpdatePrices | backend/server.js:43-70 | a tick as `TickAll` states it; rooms and identities untouched; the state stays valid |
| PriceServer.Server.Subscribe | backend/server.js:93-103 | a missing, empty or unsupported ticker changes nothing and gets no reply; otherwise the socket joins the room and gets the price and the last up to 30 history entries, ending at that price |
| PriceServer.Server.Unsubscribe | backend/server.js:106-110 | a missing or empty ticker changes nothing; otherwise the socket leaves `TICKER_<t>`, member or not, supported or not, and no other room changes |
| PriceServer.Server.Identify | backend/server.js:85-90 | the socket's identity becomes `IdentityOf(payload)`; nothing else changes |
| Text.TrimStart | frontend/src/components/pages/Login.js:54 | the result is a suffix of the input, what was cut is all white space, and the result does not start with white space |
| Text.TrimEnd | frontend/src/components/pages/Login.js:54 | the result is a prefix of the input, what was cut is all white space, and the result does not end with white space |
| Text.Trim | frontend/src/components/pages/Login.js:54 | `trim` never lengthens a string; what it keeps and what it removes are stated by the next two rows |
| Text.TrimIsSlice | frontend/src/components/pages/Register.js:46-47 | `trim` returns a contiguous slice of its input |
| Text.TrimRemovesOnlySpace | frontend/src/components/pages/Register.js:46-47 | everything `trim` removes is white space |
| Text.TrimEndsNonSpace | frontend/src/components/pages/Register.js:53-54 | a non-empty trimmed string starts and ends with a non-space |
| Text.TrimNoSpace | frontend/src/components/pages/Login.js:54 | trimming a string free of white space changes nothing |
| Text.TrimEmptyIffAllSpace | frontend/src/components/pages/Register.js:46-47 | `trim` gives "" exactly when the string is all white space (or empty) |
| Text.TrimIdempotent | frontend/src/components/pages/Register.js:53 | trimming twice is trimming once |
| Text.LowerChar | frontend/src/components/pages/Login.js:54 | `A`-`Z` become `a`-`z`, every other character is kept |
| Text.Lower | frontend/src/components/pages/Login.js:54 | lower-casing keeps the length and maps each character |
| Text.LowerKeepsShape | frontend/src/components/pages/Register.js:54 | lower-casing is idempotent and keeps white space, '@' and '.' where they are |
| Email.TailAccepts | frontend/src/components/pages/Login.js:30 | the last part `[^\s@]+$` accepts exactly the strings free of white space and '@' |
| Email.DomainAccepts | frontend/src/components/pages/Login.js:30 | after the first domain character, the rest matches exactly when it is plain and has a '.' before its last character |
| Email.AtSignAccepts | frontend/src/components/pages/Login.js:30 | after the '@', the rest matches exactly when it is a plain domain with a '.' neither first nor last |
| Email.LocalAccepts | frontend/src/components/pages/Login.js:30 | after the first local character, the rest matches exactly when it splits at an '@' into a plain part and a valid domain |
| Email.ValidEmail | frontend/src/components/pages/Login.js:29-31 | the pattern (repeated at Register.js:38-40) as an automaton; an accepted address starts with a character of `[^\s@]`, and its whole shape is `ValidEmailIsPattern` |
| Email.AcceptedMatchesPattern | frontend/src/components/pages/Login.js:29-31 | every address `validEmail` accepts has the form A@B.C |
| Email.PatternIsAccepted | frontend/src/components/pages/Login.js:29-31 | every address of the form A@B.C is accepted |
| Email.ValidEmailIsPattern | frontend/src/components/pages/Login.js:29-31 | `validEmail(e)` holds exactly when e is A@B.C with A, B, C non-empty and free of white space and '@' |
| Email.ValidEmailIsTrimmed | frontend/src/components/pages/Login.js:54 | an accepted address has no white space, so `trim` leaves it alone, and it has at least five characters |
| Email.ValidEmailNotBlank | frontend/src/components/pages/Register.js:47-48 | an accepted address is not blank |
| Email.ValidEmailOneAt | frontend/src/components/pages/Login.js:30 | an accepted address has exactly one '@', not in first place |
| Email.StepIgnoresCase | frontend/src/components/pages/Login.js:30 | each step of the pattern treats a character and its lower case alike |
| Email.AcceptsIgnoresCase | frontend/src/components/pages/Login.js:30 | from any state, the pattern treats a string and its lower case alike |
| Email.ValidEmailIgnoresCase | frontend/src/components/pages/Login.js:54 | an address is accepted exactly when its lower case is |
| Email.NormalizeValidEmail | frontend/src/components/pages/Login.js:54 | normalising an accepted address only lower-cases it, and the result is still accepted |
| Json.HexDigit | frontend/src/components/pages/Register.js:59 | each hex digit written reads back as its value |
| Json.HexValue | frontend/src/components/pages/Dashboard.js:16 | a hex digit read has a value below 16 |
| Json.Escape | frontend/src/components/pages/Register.js:59 | a character is written as itself unless it is a quote, a backslash or a control character, which get a backslash escape of at most six characters |
| Json.EscapeAll | frontend/src/components/pages/Register.js:59 | escaping never shortens a string |
| Json.Quote | frontend/src/components/pages/Register.js:59 | a quoted string is enclosed in double quotes |
| Json.HexQuad | frontend/src/components/pages/Dashboard.js:16 | four hex digits read as a value below 0x10000 |
| Json.ReadChar | frontend/src/components/pages/Dashboard.js:16 | reading one character, escaped or not, consumes input |
| Json.ReadBody | frontend/src/components/pages/Dashboard.js:16 | reading a string body consumes input |
| Json.ReadString | frontend/src/components/pages/Dashboard.js:16 | reading a string literal consumes input |
| Json.ReadEscape | frontend/src/components/pages/Dashboard.js:16 | the escape of a character reads back as that character |
| Json.ReadBodyAfter | frontend/src/components/pages/Dashboard.js:16 | an escaped character before a readable body reads back in front of it |
| Json.ReadEscapedBody | frontend/src/components/pages/Dashboard.js:16 | an escaped string followed by a closing quote reads back as the string, leaving the rest |
| Json.ReadQuote | frontend/src/components/pages/Dashboard.js:16 | a quoted string reads back as itself, leaving the rest |
| Json.EncodeList | frontend/src/components/pages/Dashboard.js:44 | a list is written between brackets |
| Json.DecodeList | frontend/src/components/pages/Dashboard.js:16 | `JSON.parse` of a string array: anything it accepts starts with `[`, and `[]` reads as the empty list (round trip: `DecodeEncodeList`) |
| Json.ReadLastElement | frontend/src/components/pages/Dashboard.js:16 | the last element of a list reads back with its closing bracket |
| Json.ReadNextElement | frontend/src/components/pages/Dashboard.js:16 | an element and a comma before readable elements read back in front of them |
| Json.ElementsUnfold | frontend/src/components/pages/Dashboard.js:44 | the written elements are the first one quoted, then a comma and the rest |
| Json.ReadEncodedElements | frontend/src/components/pages/Dashboard.js:16 | written elements read back as the same list, leaving what follows |
| Json.DecodeEncodeList | frontend/src/components/pages/Dashboard.js:16-44 | `JSON.parse(JSON.stringify(list))` gives back the same list of strings |
| Json.EncodeObject | frontend/src/components/pages/Register.js:59 | an object is written between braces |
| Json.ReadMember | frontend/src/components/pages/Register.js:59 | reading one member consumes input |
| Json.ReadEncodedMember | frontend/src/components/pages/Register.js:59 | a written member reads back as its key and value |
| Json.ReadLastMember | frontend/src/components/pages/Register.js:59 | the last member of an object reads back with its closing brace |
| Json.ReadNextMember | frontend/src/components/pages/Register.js:59 | a member and a comma before readable members read back in front of them |
| Json.MembersUnfold | frontend/src/components/pages/Register.js:59 | the written members are the first one, then a comma and the rest |
| Json.ReadMembersCons | frontend/src/components/pages/Register.js:59 | one more member in front reads back in front |
| Json.ReadEncodedMembers | frontend/src/components/pages/Register.js:59 | written members read back as the same members in order, leaving what follows |
| Json.DecodeEncodeObject | frontend/src/components/pages/Register.js:59 | a written object of string members reads back as the same members in order |
| Storage.KeysDistinct | frontend/src/App.js:40-41 | the three fixed storage keys are different keys |
| Storage.SubsKey | frontend/src/components/pages/Dashboard.js:14 | the per-user key is `subs_` followed by the address, and it is none of the fixed keys |
| Storage.LocalStorage.constructor | frontend/src/components/pages/Dashboard.js:13-15 | storage starts with the given items |
| Storage.LocalStorage.GetItem | frontend/src/components/pages/Dashboard.js:13-15 | `getItem` finds the stored value, or nothing for a missing key |
| Storage.LocalStorage.SetItem | frontend/src/components/pages/Login.js:57-58 | `setItem` stores the value under its key and changes no other key |
| Storage.LocalStorage.RemoveItem | frontend/src/App.js:40-41 | `removeItem` removes that key only |
| Login.HandleSubmit | frontend/src/components/pages/Login.js:33-61 | the message is the first failing check's; on a failure storage is unchanged; on success the address (trimmed, lower case) and the password are written |
| Login.LoginError | frontend/src/components/pages/Login.js:37-52 | the message is one of the four, and a form that passes has an address and a password of six characters or more |
| Login.SignedIn | frontend/src/components/pages/Login.js:54-58 | a sign-in adds exactly the address and password keys, the password as typed |
| Login.LoginAccepts | frontend/src/components/pages/Login.js:37-52 | a form passes exactly when the address is valid and the password has six characters or more |
| Login.LoginErrorOrder | frontend/src/components/pages/Login.js:37-52 | each message, and exactly which inputs get it: empty address, invalid address, empty password, short password, in that order |
| Login.BlankEmailIsInvalid | frontend/src/components/pages/Login.js:37-44 | an address of white space alone gets "Please enter a valid email.", not the missing-address message |
| Login.PasswordBoundary | frontend/src/components/pages/Login.js:49-52 | with a valid address, five password characters are rejected and six pass |
| Login.SignedInStores | frontend/src/components/pages/Login.js:54-58 | after success the stored address is the typed one in lower case, and the password is stored verbatim |
| Login.SignedInKeepsOthers | frontend/src/components/pages/Login.js:57-58 | sign-in changes no key but the address and the password |
| Register.NewUser | frontend/src/components/pages/Register.js:52-57 | the record has the name trimmed, the address trimmed and lower-cased, and the password and time as given |
| Register.RegisterError | frontend/src/components/pages/Register.js:46-50 | the message is one of the five, and a form that passes has a non-blank name and address and a password of six characters or more |
| Register.ProfileJson | frontend/src/components/pages/Register.js:59 | the profile is written as a JSON object, between braces; it reads back by `ProfileReadsBack` |
| Register.Fields | frontend/src/components/pages/Register.js:52-57 | the record's four members in the object literal's order: name, email, password, createdAt |
| Register.Registered | frontend/src/components/pages/Register.js:59-60 | a registration adds exactly the profile and address keys: the record's address and the record's JSON |
| Register.HandleRegister | frontend/src/components/pages/Register.js:42-63 | the message is the first failing check's; on a failure storage is unchanged; on success the profile JSON and then the record's address are written |
| Register.BlankNameFirst | frontend/src/components/pages/Register.js:46 | an empty or white-space name is reported first |
| Register.RegisterErrorOrder | frontend/src/components/pages/Register.js:46-50 | each of the five messages, and exactly which inputs get it |
| Register.PaddedEmailRejected | frontend/src/components/pages/Register.js:47-48 | an address with white space in it is not blank but gets "Enter a valid email." |
| Register.SameAcceptedEmails | frontend/src/components/pages/Register.js:38-50 | with a name given, registration accepts exactly the address and password pairs sign-in accepts |
| Register.RegisteredStores | frontend/src/components/pages/Register.js:59-60 | after success the stored address is the record's, which is the typed address in lower case |
| Register.RegisteredKeepsOthers | frontend/src/components/pages/Register.js:59-60 | registration changes no key but the profile and the address |
| Register.ProfileReadsBack | frontend/src/components/pages/Register.js:52-59 | the stored profile reads back as the record's four members in order |
| Dashboard.Without | frontend/src/components/pages/Dashboard.js:68 | the filtered list holds exactly the other tickers, and it is no longer |
| Dashboard.WithoutDistributes | frontend/src/components/pages/Dashboard.js:68 | the filter works element by element: every occurrence goes and the others keep their order |
| Dashboard.WithoutAbsent | frontend/src/components/pages/Dashboard.js:68 | filtering out an absent ticker changes nothing |
| Dashboard.Toggled | frontend/src/components/pages/Dashboard.js:61-68 | a toggle flips the ticker's membership and grows the list by at most one |
| Dashboard.ToggleTwice | frontend/src/components/pages/Dashboard.js:61-68 | toggling an absent ticker twice restores the list |
| Dashboard.ToggleMembership | frontend/src/components/pages/Dashboard.js:61-68 | a toggle flips the ticker's membership and no other ticker's |
| Dashboard.WithoutKeepsNoDup | frontend/src/components/pages/Dashboard.js:68 | filtering keeps a list free of duplicates |
| Dashboard.ToggleKeepsNoDup | frontend/src/components/pages/Dashboard.js:61-68 | toggling keeps a list free of duplicates |
| Dashboard.SubscribeAll | frontend/src/components/pages/Dashboard.js:53-55 | one `subscribe` per ticker, in list order |
| Dashboard.SavedList | frontend/src/components/pages/Dashboard.js:15-17 | a missing or empty entry, and text that does not parse, give the empty list; text that parses gives the list it encodes |
| Dashboard.SavedFor | frontend/src/components/pages/Dashboard.js:10-18 | a user with no saved entry starts from the empty list |
| Dashboard.CurrentEmail | frontend/src/components/pages/Dashboard.js:13 | the stored address, or the empty string when none is stored (the fallback to `""` after `getItem`) |
| Dashboard.Persisted | frontend/src/components/pages/Dashboard.js:40-45 | the save writes the list as JSON under the current user's `subs_` key and changes no other key |
| Dashboard.PersistedIsRestored | frontend/src/components/pages/Dashboard.js:10-18 | the list a user's dashboard saves is the list that user's next dashboard starts from |
| Dashboard.CardInitial | frontend/src/components/pages/Dashboard.js:82 | a card gets a non-zero `initial` exactly when a non-zero price is known for its ticker, and it is then that price |
| Dashboard.FirstRenderCardsUnseeded | frontend/src/components/pages/Dashboard.js:19-82 | on the first render every card gets an `initial` of 0 |
| Dashboard.Dashboard.constructor | frontend/src/components/pages/Dashboard.js:9-19 | the first render: not ready, no prices, nothing sent, and the current user's saved list |
| Dashboard.Dashboard.OnConnect | frontend/src/components/pages/Dashboard.js:47-57 | the first `connect` makes the socket ready and sends one `subscribe` per saved ticker, in list order; a later one sends nothing |
| Dashboard.Dashboard.OnSubscribed | frontend/src/components/pages/Dashboard.js:26-28 | the ticker's entry becomes the reply's price with a change of 0; no other entry changes |
| Dashboard.Dashboard.OnPriceUpdate | frontend/src/components/pages/Dashboard.js:30-31 | the ticker's entry becomes the event's price and change; no other entry changes |
| Dashboard.Dashboard.ToggleSubscribe | frontend/src/components/pages/Dashboard.js:59-70 | an absent ticker is appended and `subscribe` is sent; a present one is filtered out and `unsubscribe` is sent |
| Dashboard.Dashboard.Persist | frontend/src/components/pages/Dashboard.js:40-45 | the list is written as JSON under the current user's `subs_` key |
| Card.Noise | frontend/src/components/StockCard.js:37 | the jitter lies in [-0.6, 0.6) |
| Card.Seed | frontend/src/components/StockCard.js:18-21 | a non-zero `initial` seeds exactly 30 copies of itself; 0 seeds nothing |
| Card.Path | frontend/src/components/StockCard.js:63-96 | fewer than two points draw nothing; otherwise one command per point |
| Card.Op | frontend/src/components/StockCard.js:87-95 | the first point is a `moveTo`; each later point is a curve from the previous point to it, and every command ends at its own point |
| Card.PathFollowsHistory | frontend/src/components/StockCard.js:86-96 | the path starts with a move to the oldest value, visits every value in order, and each curve starts where the last command ended |
| Card.StockCard.constructor | frontend/src/components/StockCard.js:11-21 | mounting shows `initial` and a change of 0, and seeds the history |
| Card.StockCard.OnPriceUpdate | frontend/src/components/StockCard.js:30-45 | the card shows the event's price and change; `price + noise` is pushed onto the history; it stays within 40 points |
| Card.StockCard.Draw | frontend/src/components/StockCard.js:52-101 | with no canvas nothing happens; otherwise the path of the current history is drawn |
| Card.JitterIsSmall | frontend/src/components/StockCard.js:37-38 | the newest point is within 0.6 of the event's price |
| Card.SeededCardFillsAfterTen | frontend/src/components/StockCard.js:18-42 | a seeded card reaches 40 points after exactly ten updates |
| Card.UnseededCardDrawsLate | frontend/src/components/StockCard.js:19-63 | an unseeded card draws nothing after its first update and two points after its second |
| App.IsLoggedIn | frontend/src/App.js:17-24 | a user counts as signed in only with a non-empty stored address, never without one |
| App.LoggedInThreshold | frontend/src/App.js:20 | a stored address of three characters or fewer is signed out, and one of four or more is signed in |
| App.ProtectedRoute | frontend/src/App.js:27-32 | the protected page is rendered exactly when signed in, otherwise a redirect to `/login` |
| App.TrimSlashes | frontend/src/App.js:120-149 | trailing slashes are cut, and only they; a path of slashes keeps one |
| App.RouteKey | frontend/src/App.js:120-149 | the router's form of a location has no capital letter and no trailing slash |
| App.Route | frontend/src/App.js:122-148 | the dashboard is shown only to a signed-in user, and every redirect goes to `/`, `/login` or `/dashboard` |
| App.TargetsAreKeys | frontend/src/App.js:126-148 | the redirect targets are already in the router's form |
| App.TrailingSlashIgnored | frontend/src/App.js:120-149 | a trailing slash does not change the route a location takes |
| App.TrimSlashesLower | frontend/src/App.js:120-149 | cutting trailing slashes and lower-casing can be done in either order |
| App.CaseIgnored | frontend/src/App.js:120-149 | letter case does not change the route a location takes |
| App.Landing | frontend/src/App.js:122-148 | the intended page: the dashboard only when signed in, the registration form only at `/register` |
| App.Settle | frontend/src/App.js:122-148 | however many redirects are followed, a visit that settles ends on the page `Landing` names, so the dashboard only for a signed-in user |
| App.EveryPathSettles | frontend/src/App.js:122-148 | every location, whatever its letter case and trailing slashes, settles within two redirects: `/login` and `/register` show their forms, any other path the dashboard exactly when signed in and the sign-in form otherwise |
| App.LoggedOut | frontend/src/App.js:39-41 | logout leaves exactly the other keys, with their values |
| App.HandleLogout | frontend/src/App.js:39-41 | logout removes the stored address and profile, and nothing else |
| App.LogoutKeepsOthers | frontend/src/App.js:17-21 | after logout the user is signed out, and the password and every `subs_` list stay |
| App.LogoutShowsSignIn | frontend/src/App.js:40-50 | after logout every location but `/register` (in any case, with any trailing slashes) settles on the sign-in form |
| App.SignInSignsIn | frontend/src/App.js:17-21 | a successful sign-in leaves the user signed in |
| App.RegistrationSignsIn | frontend/src/App.js:17-21 | a successful registration leaves the user signed in |
| App.SignInAgainRestoresSubscriptions | frontend/src/App.js:40-41 | logging out and signing in again as the same user brings back that user's saved list |

## Left out

- The normal draw (`gaussianRandom`, Box-Muller over `Math.random`) is floating point and randomness. Each tick takes its draws `zs` as input, one per ticker.
- Binary floating point in `Math.round(x * 100) / 100`: prices are exact whole cents, and every intermediate value is an exact rational.
- `setInterval`, Express, CORS, `server.listen` and `console.log` are not modelled. Neither is `Date.now()`: each ticker's event takes its own clock reading from the input `nows`.
- The `disconnect` handler only logs. Socket.IO's own removal of a closed socket from its rooms is library behaviour and is not modelled.
- Concurrency between ticks and handlers: every operation is one sequential step.
- Socket.IO delivery: a broadcast is returned with the room it is addressed to. The sockets it reaches are that room's members at that moment (`Rooms.Members`).
- Socket.IO's per-socket rooms, one named after each socket's id, are not modelled. The room invariant covers the rooms the handlers make.
- `frontend/src/lib/socket.js` is not part of this model. The `identify` message the client sends on connect is therefore out too, and so is the removal of the `price_update` listener on unmount (Dashboard.js:35-37).
- React rendering and batching: each toggle is assumed to see the list it toggles. Also out: CSS injection, colours, `toFixed` formatting, and the pixel scaling of the sparkline (StockCard.js:56-84).
- `window.dispatchEvent` / `CustomEvent`: the card's update handler is a direct call of `Card.StockCard.OnPriceUpdate`.
- The `navigate` calls of the two forms (Login.js:60, 64; Register.js:66) are not modelled. `navigate` is never bound in those components. The model ends at the storage writes.
- Register.js:62 sets `window.location.href` to `/dashboard`, a full page load, which is not modelled. What that load shows follows from `App.EveryPathSettles` and `App.RegistrationSignsIn`: the dashboard.
- Logout's own redirect is covered only as the page a signed-out user sees (`App.LogoutShowsSignIn`).
- `localStorage` exceptions, and the `try`/`catch` around them, are not modelled. Storage is a map from string to string.
- `new Date().toISOString()` is the input `createdAt`.
- Text.Lower: ASCII letters only, because full Unicode case mapping is not modelled. Addresses with non-ASCII capitals are kept as typed.
- String lengths count Dafny characters (code points). JavaScript counts UTF-16 units, so a password or address with characters beyond the Basic Multilingual Plane has a different length there.
- Dashboard.SavedList reads only the compact JSON that `JSON.stringify` writes for an array of strings. Other text (white space between tokens, other value types) reads as the empty list here, whereas `JSON.parse` would accept it.
- PriceServer.Server.Subscribe: the payload is assumed to be an object whose `ticker` is a string or missing. A missing or `null` payload makes the destructuring `({ ticker })` throw, and a non-string ticker (such as `["GOOG"]`) is coerced to a key; neither is modelled.
- PriceServer.Server.Unsubscribe: the same assumption about the payload as for `subscribe` (server.js:106).
- PriceServer.SubscribeAsWritten: the same assumption about the payload; what the server process does after a handler throws is not modelled.
- App.RouteKey: the router also decodes percent-escapes in the location before matching; the model matches the location as given.
- Json.ReadChar: `\uXXXX` escapes of surrogate halves are rejected rather than paired, because the writer never produces them.

## Findings

| source | as written | input that shows it | evidently intended | confidence | as-written member | corrected member |
|---|---|---|---|---|---|---|
| backend/server.js:94 | the guard `!TICKERS[ticker]` also passes every name `TICKERS` inherits from `Object.prototype`; the socket joins `TICKER_<name>`, then `history[ticker].slice` throws before any reply, and the exception escapes the listener | `subscribe` with `{ ticker: "toString" }` | only the five supported tickers (own keys of `TICKERS`) pass the guard | high; not executed | PriceServer.InheritedNameOpensStrayRoom | PriceServer.Server.Subscribe |
