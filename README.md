# Four small C# programs, modelled and proved in Dafny

This project models the core of four small console programs and proves
properties about the models.

- **Remote cursor** (`udp.cs`). A receiver draws a six-digit security code.
  It grants control to a sender that sends that code over TCP and answers
  `OK` or `DENIED`. While control is granted, it moves its cursor to every
  `x|y` position that arrives by UDP. The space bar revokes control. The
  sender sends the code, checks the reply, and then streams its own cursor
  position. Module `RemoteCursor` in `udp.dfy`.
- **Sensor notification** (`delegates.cs`). A sensor keeps an ordered,
  duplicate-free list of subscribed handlers. On every new value it calls
  each handler in list order. Module `SensorNotification` in `delegates.dfy`.
- **Movie accounts** (`login.cs`). Users register with an e-mail and a
  password, which is stored as a hash, in a JSON store of users. They log in
  with the same pair. Module `MovieAccounts` in `login.dfy`.
- **Mini order service** (`files.cs`). Users register and log in against a
  `data/<user>/user.json` directory tree. They add orders made of priced
  services, see the total of their orders, and save or load their orders.
  The binary format is modelled token by token. Three modules cover it:
  - `Orders` (`orders.dfy`): the records and their totals.
  - `OrderCodec` (`order_codec.dfy`): the binary save and load.
  - `MiniOrderApp` (`order_app.dfy`): the program's operations.

Two shared modules complete the project:

- `Strings` (`strings.dfy`) holds the .NET text operations the programs
  use: `Trim`, `Split`, `int.ToString` and `int.Parse`/`TryParse` on
  32-bit integers.
- `Wrappers` (`wrappers.dfy`) holds `Option`.

Where the source updates state in place, the model is a class with
`modifies` clauses:

- `Receiver`, `Sensor`, `DataService`, `AccountService`, `UserData` and
  `DataDir`.
- Each such method is tied by its `ensures` to a pure function. The lemmas
  are proved about those functions.

The loops of the source are methods with loop invariants:

- the subscriber notification loop;
- `ComputeTotal`, `ShowTotal` and `ReadPassword`;
- the service-entry loop of `AddOrder`;
- the binary writer and reader;
- the sender's stream loop.

## Model

| member | source | states |
|---|---|---|
| Strings.Trim | udp.cs:80 | the result is the slice of `s` that `TrimStart` leaves the start of, with only junk before and after it in `s`, and it starts and ends outside `junk` |
| Strings.TrimEmptyIffBlank | files.cs:65-66 | a text trims to the empty string exactly when every character of it is white space (junk) |
| Strings.TrimIgnoresPadding | udp.cs:78-80 | NUL padding appended to a text does not change what `Trim('\0')` returns |
| Strings.IntToString | udp.cs:174 | `int.ToString()` writes an optional leading minus, present exactly for negatives, followed by decimal digits |
| Strings.ParseInt32 | udp.cs:112-113 | `int.Parse` yields a value only when it fits in an Int32 |
| Strings.ParseIntToString | udp.cs:112-113 | parsing the text `ToString` writes for any Int32 gives that Int32 back |
| Strings.NatToStringRoundTrip | udp.cs:53 | the digits written for a natural number denote that number |
| Strings.Split | udp.cs:110 | splitting at the bar separator returns at least one piece, and no piece contains the separator |
| Strings.SplitJoinRoundTrip | udp.cs:110 | joining the pieces of `Split` with the separator gives back the original text |
| Strings.SplitWithout | udp.cs:110 | a text without the separator splits into exactly one piece, itself |
| Strings.SplitAfterPiece | udp.cs:110 | a separator-free piece followed by the separator splits into that piece followed by the split of the rest |
| RemoteCursor.SecurityCode | udp.cs:53 | a code drawn from 100000 to 999998 is written as exactly six decimal digits denoting the drawn number |
| RemoteCursor.ReadBuffer | udp.cs:78-79 | the 64-byte receive buffer holds the first 64 bytes sent, then NUL padding |
| RemoteCursor.ReceivedText | udp.cs:78-80 | the text read is at most 64 characters, no longer than what was sent, and neither starts nor ends with NUL |
| RemoteCursor.Accepts | udp.cs:80-82 | a code longer than the buffer, or than the request, is never accepted |
| RemoteCursor.AcceptsCleanRequest | udp.cs:78-82 | a request that fits the buffer and has no NUL at its ends is accepted exactly when it equals the code |
| RemoteCursor.ReceivedAsSent | udp.cs:78-80 | a message that fits the 64-byte buffer and has no NUL at its ends is received exactly as sent |
| RemoteCursor.ReceivedTextOfShortMessage | udp.cs:78-80 | a code of at most 64 characters is received as that code trimmed of NUL characters |
| RemoteCursor.CodeAccepted | udp.cs:80-85 | the receiver accepts its own security code when a sender sends it |
| RemoteCursor.ReplyGrantsControl | udp.cs:154-162 | a reply that fits the buffer and has no NUL at its ends grants control exactly when it is `OK` |
| RemoteCursor.ReplyUnderstood | udp.cs:154-162 | after NUL trimming, the sender reads the reply `OK` as granting control and `DENIED` as refusing it |
| RemoteCursor.FormatPosition | udp.cs:174 | the message splits at the bar into exactly the texts of x and y |
| RemoteCursor.ParsePosition | udp.cs:110-113 | a parsed position always has both coordinates within Int32 |
| RemoteCursor.PositionNeedsSeparator | udp.cs:110-113 | a payload without the bar separator yields no position |
| RemoteCursor.NoSeparatorInNumber | udp.cs:174 | the text of a number never contains the bar separator |
| RemoteCursor.PositionRoundTrip | udp.cs:174 | a position formatted by the sender is parsed back by the receiver as the same point |
| RemoteCursor.PositionRoundTripWithExtraFields | udp.cs:110-113 | fields after the second bar are ignored: the first two are the position |
| RemoteCursor.Initial | udp.cs:24 | the receiver starts without control, with the cursor where it was |
| RemoteCursor.Step | udp.cs:78-133 | one event for one receiver loop: the cursor changes only for a datagram received with control, and the effect reports that move; every move goes to an Int32 point; a dropped, malformed or ignored event and a refused code leave the state as it was |
| RemoteCursor.Run | udp.cs:72-133 | the events handled in order: a run whose last event is the space bar ends without control, whatever came before |
| RemoteCursor.PermissionTransitions | udp.cs:82-91 | control is gained only by an accepted code, lost only by the space bar, and otherwise kept |
| RemoteCursor.NoControlWithoutHandshake | udp.cs:106-107 | without an accepted handshake, no sequence of events changes the receiver's state |
| RemoteCursor.EmergencyStopHolds | udp.cs:119-133 | after the space bar, control stays revoked and the cursor stays put until a new accepted handshake |
| RemoteCursor.ControlledMove | udp.cs:109-115 | with control granted, a formatted position moves the cursor there |
| RemoteCursor.Deliver | udp.cs:177 | each message sent becomes one datagram, in order |
| RemoteCursor.StreamFollowsSender | udp.cs:169-180 | with control granted, a stream of sender positions leaves the cursor at the last position and control granted |
| RemoteCursor.RunOfMoves | udp.cs:104-115 | a run of events each of which moves a receiver with control to the next target ends with control at the last target |
| RemoteCursor.SessionWithEmergencyStop | udp.cs:51-133 | handshake with the right code, two moves and a space bar: the cursor ends at the second point and control is revoked |
| RemoteCursor.DatagramAsWritten | udp.cs:104-116 | the listener as written: without control a datagram is ignored; with control it fails (ending the receiver process) exactly when the payload does not parse, and otherwise moves the cursor to the parsed point |
| RemoteCursor.DatagramAsWrittenAgreesWithStep | udp.cs:104-116 | on every datagram the listener as written survives, it and the corrected step reach the same state; on the others the corrected step drops the datagram and keeps the state |
| RemoteCursor.PayloadWithoutSeparatorStopsListenerAsWritten | udp.cs:110-113 | with control granted, the payload "100" throws in the listener as written, which ends the receiver process |
| RemoteCursor.MalformedDatagramDropped | udp.cs:104-116 | corrected listener: a malformed datagram is dropped and the next well-formed one still moves the cursor |
| RemoteCursor.Receiver.constructor | udp.cs:24-25 | a new receiver holds the six-digit code for the drawn number and starts without control |
| RemoteCursor.Receiver.Authenticate | udp.cs:78-91 | replies `OK` and grants control for the right code; otherwise replies `DENIED` and leaves the state as it was |
| RemoteCursor.Receiver.ReceiveDatagram | udp.cs:104-115 | ignores datagrams without control; with control it moves the cursor to a parsed position or drops the datagram |
| RemoteCursor.Receiver.PressKey | udp.cs:123-130 | the space bar revokes control; any other key changes nothing; the cursor is never moved |
| RemoteCursor.RunSender | udp.cs:154-180 | a sender that is not answered `OK` sends nothing; otherwise it sends one message of x and y joined by the bar per sample, in order |
| RemoteCursor.StreamPositions | udp.cs:169-180 | the send loop formats each sampled position as x and y joined by the bar, in order |
| SensorNotification.IndexOf | delegates.cs:28-29 | the first position of a present handler |
| SensorNotification.Added | delegates.cs:20-24 | the handler is subscribed afterwards, the earlier subscribers keep their places, and the list grows by one exactly when the handler was absent |
| SensorNotification.Removed | delegates.cs:29 | `List.Remove` shortens the list by one exactly when the handler is present |
| SensorNotification.RemovedSplice | delegates.cs:26-30 | removing an absent handler changes nothing; removing a present one cuts out its first occurrence and keeps the rest in order |
| SensorNotification.AddedContents | delegates.cs:20-24 | adding keeps the list duplicate-free and appends the handler only when it is absent |
| SensorNotification.RemovedContents | delegates.cs:26-30 | removing keeps the list duplicate-free and removes exactly the given handler |
| SensorNotification.NoDuplicatesForever | delegates.cs:89-110 | no sequence of subscribe and unsubscribe commands puts a handler in the list twice |
| SensorNotification.Sensor.constructor | delegates.cs:11-12 | a new sensor has value 0 and no subscribers |
| SensorNotification.Sensor.SetValue | delegates.cs:14-18 | stores the value and calls every subscriber once with it, in list order, leaving the list alone |
| SensorNotification.Sensor.AddSubscriber | delegates.cs:20-24 | appends the handler unless it is already subscribed |
| SensorNotification.Sensor.RemoveSubscriber | delegates.cs:26-30 | removes the handler if subscribed; afterwards it is not subscribed |
| SensorNotification.Sensor.NotifySubscribers | delegates.cs:41-47 | one call per subscriber with the current value, in list order |
| SensorNotification.RemoveByNumber | delegates.cs:102-110 | a typed Int32 from 1 to the count removes that subscriber; any other line leaves the list unchanged |
| SensorNotification.React | delegates.cs:52-67 | each handler writes at most one line |
| SensorNotification.AlertBands | delegates.cs:52-67 | the log line always; the high alert exactly above 70; the low alert exactly below 30; never both |
| SensorNotification.StartProgram | delegates.cs:71-74 | the program starts with LogChange then AlertHighValue subscribed |
| SensorNotification.ProgramReaction | delegates.cs:71-74 | with the start-up subscribers a new value writes the log line and, above 70, the high alert after it |
| MovieAccounts.Success | login.cs:35 | a success result carries the flag, the data and the message |
| MovieAccounts.Error | login.cs:36 | an error result carries the cleared flag, the data and the message |
| MovieAccounts.VerifyPassword | login.cs:98-101 | a password verifies exactly when its hash equals the stored hash |
| MovieAccounts.VerifyOwnHash | login.cs:92-101 | a password verifies against its own hash |
| MovieAccounts.FirstWithEmail | login.cs:124-141 | the first user with the e-mail (`FirstOrDefault`), or none exactly when no user has it (`Any`) |
| MovieAccounts.EmailTaken | login.cs:124-126 | an e-mail is taken exactly when it is the e-mail of one of the stored users |
| MovieAccounts.DataService.constructor | login.cs:158-167 | the service reads the given user file |
| MovieAccounts.DataService.GetAllData | login.cs:169-178 | null for a missing file, an empty file or JSON `null`; otherwise the stored users |
| MovieAccounts.DataService.AddData | login.cs:160-167 | the store afterwards holds the users it held (none if it was absent) followed by the new user |
| MovieAccounts.AccountService.constructor | login.cs:113-117 | the service uses the given store and hasher |
| MovieAccounts.AccountService.RegisterUser | login.cs:119-133 | differing passwords and a taken e-mail are refused, the store unchanged; otherwise the hashed user is appended and returned |
| MovieAccounts.AccountService.LoginUser | login.cs:135-146 | reads the store without changing it and decides as `Login` |
| MovieAccounts.Login | login.cs:135-146 | no store gives "No users registered"; a failure carries no user and "Invalid email or password"; a success carries a user |
| MovieAccounts.LoginSucceedsIff | login.cs:135-146 | login succeeds exactly when the first user with the e-mail holds the password's hash, and then returns that first user, never a later one with the same e-mail |
| MovieAccounts.RegisteredUserCanLogIn | login.cs:119-146 | a user registered with a fresh e-mail logs in with that password and gets their own record |
| MovieAccounts.RegisterKeepsOtherLogins | login.cs:119-146 | once a store exists, registering a user does not change how any other e-mail logs in (the first registration turns "No users registered" into "Invalid email or password" for everyone else) |
| Orders.ComputeTotal | files.cs:23-29 | the loop's sum is the order's total |
| Orders.SumPricesAppend | files.cs:24-29 | the total of two service lists together is the sum of their totals |
| Orders.TotalNonNegative | files.cs:23-29 | with non-negative prices the total is non-negative, and an order without services totals 0 |
| Orders.SumTotalsAppend | files.cs:311-316 | the sum over two order lists together is the sum of their sums |
| Orders.SumTotalsIsSumOfAllPrices | files.cs:311-316 | the sum of order totals is the sum of every service price of every order |
| Orders.UserData.constructor | files.cs:32-37 | a user record holds the given name, password and orders |
| OrderCodec.EncodeServices | files.cs:413-417 | two tokens per service, in order: the name (`""` for null), then the price converted to `double` |
| OrderCodec.EncodeOrder | files.cs:408-418 | one order is its title (`""` for null), its date and its service count, then the services' values: three values plus two per service |
| OrderCodec.EncodeOrders | files.cs:406-419 | the orders take at least three values each |
| OrderCodec.Encode | files.cs:400-421 | the file starts with the order count, then holds at least three values per order |
| OrderCodec.ReadServices | files.cs:439-444 | a successful read never consumes more tokens than there are; a price the cast to `decimal` cannot hold fails the read, as the thrown `OverflowException` does |
| OrderCodec.ReadOrders | files.cs:432-447 | a successful read keeps the orders already read and adds exactly the announced number of orders, none for a count of 0 or less |
| OrderCodec.Decode | files.cs:423-455 | a file loads only when it starts with an Int32 count, and then as exactly that many orders (none for a count of 0 or less) |
| OrderCodec.NormalizeOrders | files.cs:408-416 | what a save keeps: null titles and names become "", prices go through `double` and back, dates and order are kept |
| OrderCodec.NormalizeOrder | files.cs:408-416 | the title defaults to "", the date is kept, and the services are normalised one by one |
| OrderCodec.NormalizeServices | files.cs:415-416 | normalising services works element-wise |
| OrderCodec.ServicesRoundTrip | files.cs:413-444 | reading the written services back fails exactly when some price does not convert back to `decimal`, and otherwise yields their normalised form and leaves the following tokens |
| OrderCodec.OrderRoundTrip | files.cs:406-446 | reading one written order back fails exactly when one of its prices does not convert back, and otherwise yields its normalised form |
| OrderCodec.OrdersRoundTrip | files.cs:405-446 | reading the written orders back fails exactly when some price does not convert back, and otherwise yields their normalised forms, in order |
| OrderCodec.RoundTrip | files.cs:400-455 | loading a saved file gives the normalised orders, whatever follows them in the file, and null exactly when a saved price does not convert back to `decimal` |
| OrderCodec.MaxPriceFailsLoad | files.cs:413-454 | with the casts .NET performs, a saved price of `decimal.MaxValue` (written as 2^96) makes the whole file load as null |
| OrderCodec.ExactRoundTrip | files.cs:400-455 | orders with titles, names and prices that survive `double` load back exactly as saved |
| OrderCodec.NonPositiveCountIsEmpty | files.cs:432-433 | a file whose order count is 0 or negative loads as the empty list |
| OrderCodec.Truncated | files.cs:450-454 | a saved file cut short anywhere fails to load |
| OrderCodec.TruncatedOrders | files.cs:433-447 | reading orders from a truncated encoding fails |
| OrderCodec.TruncatedServices | files.cs:439-444 | reading services from a truncated encoding fails |
| OrderCodec.EncodeOrdersAppend | files.cs:406-419 | writing one more order appends its tokens |
| OrderCodec.EncodeServicesAppend | files.cs:413-417 | writing one more service appends its tokens |
| OrderCodec.WriteOrder | files.cs:408-418 | the loop body writes exactly the order's encoding |
| OrderCodec.SaveOrdersBinary | files.cs:400-421 | the writer's output is the encoding of the orders |
| OrderCodec.LoadServices | files.cs:439-444 | the inner read loop agrees with `ReadServices`, including the failing cast, and reports where it stopped |
| OrderCodec.LoadOrdersBinary | files.cs:423-455 | no file gives null; otherwise the result is the decoding of the file: null when it is corrupt or a price does not convert back to `decimal` |
| MiniOrderApp.EnterPosition | files.cs:321-324 | the first Enter key, or the end of input |
| MiniOrderApp.IsControl | files.cs:326 | NUL, tab, line feed, carriage return and backspace are control characters; printable ASCII is not |
| MiniOrderApp.ApplyKey | files.cs:325-326 | a key never changes the text typed before it: only Backspace removes a character, from the end, and only a printable character is appended |
| MiniOrderApp.Typed | files.cs:320-327 | the text typed is never longer than the keys |
| MiniOrderApp.Password | files.cs:318-329 | the password is no longer than the keys before Enter and holds no control character |
| MiniOrderApp.ReadPassword | files.cs:318-329 | the loop returns the password the key sequence types |
| MiniOrderApp.TypedBounds | files.cs:325-326 | the typed text is no longer than the keys and contains no control character |
| MiniOrderApp.TypedPrintable | files.cs:325-326 | printable keys without Backspace type exactly their characters, in order |
| MiniOrderApp.TypeThenErase | files.cs:325-326 | a printable key followed by Backspace types nothing |
| MiniOrderApp.EnterEndsPassword | files.cs:324 | keys after the first Enter are never read |
| MiniOrderApp.DataDir.constructor | files.cs:41-45 | a fresh data directory holds no user directories; every method takes any directory state, as `Directory.CreateDirectory` keeps what an earlier run left |
| MiniOrderApp.ReadName | files.cs:65 | the name read from a line is trimmed |
| MiniOrderApp.RegisterDecision | files.cs:62-86 | a registered name is the trimmed line, not empty and not taken, and the password is not empty |
| MiniOrderApp.NewUserDir | files.cs:87-90 | a new user's directory holds a `user.json` with the name, the password and no orders, and no orders file, so login keeps the orders of `user.json` |
| MiniOrderApp.RegisterAcceptsIff | files.cs:62-94 | registration succeeds exactly for a name that is not blank and not taken, with a non-empty password; the blank-name refusal comes first |
| MiniOrderApp.Register | files.cs:62-94 | decides as `RegisterDecision`; only a registration adds the new user's directory with a `user.json` holding no orders |
| MiniOrderApp.AutoLoad | files.cs:125-156 | the orders a login loads are those of `user.json`, none, or what one of the orders files holds |
| MiniOrderApp.AutoLoadPriority | files.cs:127-150 | only the first orders file present (JSON, then XML, then binary) is looked at; with none the saved orders stay |
| MiniOrderApp.AutoLoadTruncatedBinary | files.cs:145-150 | a truncated `orders.dat` loads as no orders, never as a prefix of them |
| MiniOrderApp.LoginDecision | files.cs:103-121 | "User not found" only for a non-empty name without a directory; "Wrong password" only when `user.json` reads back with another password; a login returns the stored name and password |
| MiniOrderApp.LoginAcceptsIff | files.cs:103-121 | login with a read name succeeds exactly when that name has a directory whose `user.json` reads back with exactly the typed password |
| MiniOrderApp.RegisteredUserCanLogIn | files.cs:62-161 | a user who has just registered logs in with the same name and password and has no orders |
| MiniOrderApp.Login | files.cs:96-161 | decides as `LoginDecision` on the trimmed name line and the typed password: null for every refusal; otherwise a new user record with the stored name and password and the auto-loaded orders |
| MiniOrderApp.CheckLogin | files.cs:103-161 | once the name and password are read, refuses exactly when `LoginDecision` does and otherwise returns a new record of the stored name, password and auto-loaded orders |
| MiniOrderApp.KeptValid | files.cs:210-212 | an entry keeps at most one service, with a trimmed, non-blank name and a price of at least 0 |
| MiniOrderApp.Kept | files.cs:210-212 | an entry keeps at most one service, exactly when its price parsed and is at least 0, with that price and a trimmed name |
| MiniOrderApp.NewServices | files.cs:204-213 | no more services than entries |
| MiniOrderApp.NewServicesKeepsAll | files.cs:204-213 | when every name is filled in and every price parsed and is at least 0, the services are the entries in the order typed, each with its trimmed name and its parsed price |
| MiniOrderApp.NewServicesValid | files.cs:204-213 | every service kept has a trimmed, non-blank name and a price of at least 0, and there are no more than entries |
| MiniOrderApp.ValidConcat | files.cs:212 | two lists of valid services together are valid |
| MiniOrderApp.NewServicesStopAtBlank | files.cs:208 | entries after the first blank name are never read |
| MiniOrderApp.ReadServiceEntries | files.cs:204-213 | the service loop collects `NewServices` of the entries |
| MiniOrderApp.MetaWritten | files.cs:331-341 | after writing `user.json` for a name, that directory exists and reads back the written record, its orders files are kept (or none, for a new directory), and every other directory is unchanged |
| MiniOrderApp.SaveUserMeta | files.cs:331-341 | the directory map afterwards is `MetaWritten` of the old map and the user's name, password and orders |
| MiniOrderApp.AddOrder | files.cs:197-220 | a blank title changes nothing; otherwise the order is appended, and `user.json` is rewritten with the new list, in a new directory if the user's is missing (`WriteLog` creates it at files.cs:461-462) |
| MiniOrderApp.AddedOrdersSurviveLogin | files.cs:96-161 | with no orders file beside it, the `user.json` that `AddOrder` writes is what the next login with that name and password returns, orders included |
| MiniOrderApp.AddOrderTotal | files.cs:197-220 | adding an order raises the sum of all orders by that order's total, which is never negative |
| MiniOrderApp.ShowTotal | files.cs:311-316 | the loop's sum is the sum of the order totals |

## Left out

- Sockets, threads and races: the receiver's three threads are modelled as one sequence of events. The TCP and UDP transport, the Win32 `SetCursorPos`/`GetCursorPos` calls and `Console.KeyAvailable` polling are not modelled.
- `Random.Next` is a parameter: the drawn number `n` in `SecurityCode` and the `Receiver` constructor.
- UTF-8 encoding: each character stands for one byte, so non-ASCII input is not modelled. A TCP read is taken to deliver the whole message at once, up to 64 bytes.
- `ParseInt32` does not model `int.Parse`'s acceptance of trailing NUL characters or culture-specific signs and white space. It models the invariant-culture `NumberStyles.Integer` form.
- The 10 ms send cadence and the endless send loop: the sender is modelled over a finite list of samples.
- The add-subscriber and set-value menu entries (delegates.cs:89-101, 111-115) are the `Edit` commands and `Sensor.SetValue`. `ShowSubscribers` and the main menu loop (console output) are not modelled. Handlers write outputs as values, not console lines.
- The stray fence lines in delegates.cs and `Program` reading the private `subscribers` field do not compile as written; the model follows what is evidently meant.
- SHA-256 and Base64 in `PasswordHasher.HashPassword`: the hash is a function parameter.
- `Guid.NewGuid()` is a parameter, `id`.
- JSON serialisation of the user store: the file is modelled by what `GetAllData` returns. Serialising and deserialising a list of users is assumed to round-trip in `AddData`. A deserialisation exception in `GetAllData` is not modelled.
- The WPF view model and UI of the movie application are not part of this model.
- JSON and XML order files and `user.json` are modelled as what their loaders return (`OrdersFile`, `Meta`), not as text.
- `SaveDataMenu`, `LoadDataMenu`, `ViewOrders`, the main and user menu loops and `WriteLog` (log files) are not modelled.
- `decimal` is exact `real`. Overflow of a `decimal` sum is not modelled. `Orders.ComputeTotal` and `MiniOrderApp.ShowTotal` do not model the rounding `decimal` applies when a sum needs more than 28 or 29 significant digits (files.cs:27, 314). The `decimal`→`double`→`decimal` casts of the binary format are a parameter, `PriceConversion`; the cast back is partial (`None` where `(decimal)d` throws), and `DotNetCasts` pins it down only at the edge of the range (2^96). Which other prices survive the two casts unchanged is not modelled.
- `DateTime.ToBinary`/`FromBinary`: a date is the opaque Int64 it is written as, and `DateTime.Now` is a parameter.
- The binary file is a sequence of typed tokens. BinaryWriter's string length prefixes and byte layout are not modelled. A token of the wrong kind, or a missing one, counts as a corrupt file (the `catch` at files.cs:450-454).
- A `null` `Services` list and null fields in deserialised JSON are not modelled. Orders and services are values, so aliasing between lists is not modelled.
- File-system path semantics of user names (separators, `..`, trailing spaces) are not modelled. A name is a key of the data directory. The empty name refers to the `data` directory itself, which always exists: without a `user.json` there, `LoginDecision` gives "User data corrupted". Such a file appears only when an order is added for a user whose stored name is empty.
- `MiniOrderApp.EnterPosition` and `MiniOrderApp.ReadPassword` treat the end of the key sequence as the end of the password. With no Enter, the source blocks in `Console.ReadKey` (files.cs:323), or throws `InvalidOperationException` when input is redirected; neither is modelled.
- `RemoteCursor.Deliver` and `RemoteCursor.StreamFollowsSender` assume that UDP delivers every datagram once and in order. UDP may drop or reorder datagrams (udp.cs:177 only sends them). The cursor ends at the last position received, which the model does not cover when that is not the last one sent.
- `Strings.IntToString` and `RemoteCursor.FormatPosition` use the invariant culture. `p.X + "|" + p.Y` (udp.cs:174) formats with the sender's current culture. If that differs from the receiver's, a negative coordinate may fail to parse at the receiver.
- `decimal.TryParse` is a parameter: each `ServiceEntry` carries the parsed price or `None`.
- `MiniOrderApp.Login` and `MiniOrderApp.AddOrder` do not model exceptions in auto-load beyond what the loaders return.

## Findings

| source | as written | input that shows it | evidently intended | confidence | as-written member | corrected member |
|---|---|---|---|---|---|---|
| udp.cs:110-113 | with control granted, a payload without the bar separator, or with a field that is not an Int32, throws inside the listener thread. Nothing catches it, and an unhandled exception in a thread (started at udp.cs:61) ends the whole receiver process, the handshake and key-watcher threads included | the datagram "100" while control is granted | drop the malformed datagram and keep listening | not executed | RemoteCursor.PayloadWithoutSeparatorStopsListenerAsWritten (over RemoteCursor.DatagramAsWritten) | RemoteCursor.MalformedDatagramDropped |
