# openSIMP: the session server, its handshake and its wire text

openSIMP is a chat server with a C++ and a Rust client. The server keeps every
client spread over five parallel vectors, plus a container of client keys and a
file of passwords; one thread accepts connections, another walks the vectors by
position, polling each socket, while polls remove rows under its feet. This
project models that server, the handshake with the C++ client, and the
`\x01`-separated text both clients parse, and proves what holds over every run.

The server exists twice. `Session` is the machine on values: one record per
client, and for each event the state it leads to. `ServerNetwork` is the program's
own form: a class with the five vectors, whose methods push, erase, index-assign
and loop as the C++ does, each proved to compute exactly what `Session` says.
Everything about runs is then proved of `Session`.

- `Bytes`, `Lexer`, `Credentials`, `RustParser`: fields between separators, and the
  four loops that look for them, against one Split/Join specification.
- `Crypto`: symbolic sealing and the key container.
- `Session`, `Executor`, `ServerNetwork`: the machine, the command registry, the class.
- `Invariants`, `Announcements`, `Roster`, `Accounts`, `Schedule`, `Traffic`: what
  every event keeps, who is disconnected, what the others hear, and whole runs.
- `ClientNetwork`, `Handshake`: the C++ client, and it against the server while
  arbitrary other clients interleave.
- `EndToEnd`, `Screens`, `Outcomes`, `Panics`, `Interference`: from one client's text
  to what the other clients show, what a poll does to the polled client itself, which
  polls make a Rust client panic, and a run in which one client derails another's
  handshake.

Conventions: a byte is the char of its code; a socket is a number standing for the
socket object and its peer's address and port, which are assumed to identify it;
one send is one receive; times are microseconds; every connection has an outbox
that records what the server sent on it; sends succeed. Accepting a connection and
polling one socket are atomic steps. `KeyText(n)` is any text that parses as the
number n. What the library does with a key is decided by the key: its constructor
throws for an even modulus, and encryption throws when the modulus has fewer octets
than the text and the 11 octets of PKCS #1 v1.5 padding (section 7.2.1 of RFC 8017).
On the server the former, like a text that is no number, is caught by nobody and ends
the process (`running` becomes false), and the latter gets the client kicked; in the
client both are uncaught (`crashed`). A chat frame must fit the 256-byte buffer, a
command line the 512 words, and a displayed frame the 100 fields, which the program
does not check: these are the preconditions `FitsBuffers`, `Split ... <= MAX_WORDS`
and `Split ... <= ARGS`.

Where the code does not do what one would expect, the exact condition is proved:

- A direct message to a client between its login and its key transfer derails that
  client's handshake; any other interference does not (`OthersInStep`,
  `EarlyMessageBreaks`). Such a run exists from any start at which some other client
  is Done (`EarlyMessageHappens`).
- A chat text containing a NUL loses the sender's name on the way, and only such a
  text does (`ChatShown`, `ChatParsed`).
- The Rust client panics on the leave frame of a client that never logged in,
  because the placeholder id is not UTF-8, and on no other roster frame
  (`RosterParsed`); `PanicsExactly` lists every poll that sends another client
  something it panics on.
- A client kicked for a key too small to seal for leaves that key behind, and nothing
  ever removes or replaces it: whoever comes next on that socket identity is kicked
  too, however good its own key (`TransferCompletes`, `LeftForGood`, `LockedOut`).
  Nobody ends up Done with a key it did not present (`KeyAccounting`).
- A C++ client whose name and password are too long to seal for the server's key
  crashes on the server's first message, and that is its only way to crash in an
  undisturbed handshake (`HandshakeSafety`).
- `specs/handshake.md` describes length-prefixed credentials; the code separates
  them with `\x01`, and this is what is modelled.

## Model

| member | source | states |
|---|---|---|
| Bytes.CStr | src/server/src/servernetwork/servernetwork.cpp:254-256 | what a C function sees of a byte string: its longest NUL-free prefix |
| Bytes.JoinSplit | src/server/src/commands/lexer.cpp:3-19 | the fields of a text contain no separator and joining them restores the text |
| Bytes.SplitJoin | src/server/src/commands/lexer.cpp:3-19 | separator-free fields are exactly what splitting their join finds, so Split is the only inverse of Join |
| Lexer.Lex | src/server/src/commands/lexer.cpp:3-19 | the in-place splitter leaves the array as `Lexed` says, for any initial contents, despite the overwritten write in its separator branch; `Utils::lexer` is the same loop |
| Lexer.LexedFresh | src/clients/cpp/src/Utils.hpp:5-22 | on a fresh array of empty strings the result is the fields followed by empty slots, and joining the fields restores the text |
| Lexer.LexedReused | src/clients/cpp/src/Utils.hpp:5-22 | on a reused array slot 0 is right exactly when it was empty before or the text starts with a non-separator |
| Credentials.ScanCredentials | src/server/src/servernetwork/servernetwork.cpp:376-402 | the three-state scanner returns fields 0 and 1 of the decrypted text, empty when missing |
| Credentials.CredentialsRoundTrip | src/clients/cpp/src/ClientNetwork.cpp:81-84 | the server reads back name and password as the client sent them exactly when neither contains the separator |
| RustParser.ParsePacket | src/clients/rust-gui/src/network.rs:120-185 | the one-pass parser, panics included, yields exactly `Meaning`, which is stated on the fields and on UTF-8 validity; later pushes never change the payload |
| RustParser.AgreesWithLexer | src/clients/rust-gui/src/network.rs:144-182 | the parser panics exactly on text that is not UTF-8, and else types 1, 2, 5 and 6 give a join, a disconnect, a command reply and a direct-message packet of everything after the first separator, the join of the lexer's fields 1 onward |
| RustParser.ChatStarter | src/clients/rust-gui/src/network.rs:138-173 | type 0 gives the chat of field 1 under the name made of all the fields after it, and panics without a name or on text that is not UTF-8 |
| RustParser.UnknownStarter | src/clients/rust-gui/src/network.rs:120-185 | any other starter gives the made-up chat that reports it, and panics exactly when something before the last separator is not UTF-8 |
| RustParser.Utf8AtAscii | src/clients/rust-gui/src/network.rs:129-133 | a text is UTF-8 exactly when the parts on both sides of an ASCII byte, the separator for one, are |
| RustParser.PanicsOnBadField | src/clients/rust-gui/src/network.rs:129-133 | a non-UTF-8 field before some separator panics the parser whatever the packet type |
| Crypto.Cryptography.PushNewClientKey | src/server/src/cryptography/cryptography.cpp:68-70 | inserting a key keeps an existing entry |
| Crypto.Cryptography.RemoveClientKey | src/server/include/server/cryptography/cryptography.h:32-34 | removes that socket's key and no other |
| Crypto.Cryptography.RsaEncrypt | src/server/src/cryptography/cryptography.cpp:72-83 | succeeds exactly when a key is stored for the socket and has room for the padded text; what it returns opens to that text under the stored key and under no other |
| Crypto.RefusedExactly | src/server/src/cryptography/cryptography.cpp:72-83 | a text is refused exactly when the modulus, counted in octets, is not 11 longer than it |
| Executor.Executor.PushNewCommand | src/server/src/commands/executor.cpp:8-14 | appends a command with a new name and keeps all names distinct |
| Executor.RunsExactlyOne | src/server/src/commands/executor.cpp:16-36 | a line runs the one command its first word names, or sends its sender one not-found reply |
| ServerNetwork.ServerNetwork.constructor | src/server/src/servernetwork/servernetwork.cpp:64-128 | a started server has no clients, three commands with distinct names and the given users |
| ServerNetwork.ServerNetwork.Broadcast | src/server/src/servernetwork/servernetwork.cpp:236-252 | the loop over two vectors puts one sealed frame in the outbox of every Done client but the excluded one |
| ServerNetwork.ServerNetwork.ConnectClient | src/server/src/servernetwork/servernetwork.cpp:139-150 | the five pushes and the key text amount to one new unnamed record |
| ServerNetwork.ServerNetwork.AppendRoster | src/server/src/servernetwork/servernetwork.cpp:653-657 | the string-building loop produces the join of the given fields and the named ids in array order |
| ServerNetwork.ServerNetwork.DisconnectClient | src/server/src/servernetwork/servernetwork.cpp:182-232 | the five erasures, the broadcast between them and the key removal take out exactly the record at that position and leave the vectors lined up |
| ServerNetwork.ServerNetwork.Nick | src/server/src/servernetwork/servernetwork.cpp:611-664 | returns true exactly when the name was free and valid, and false exactly when the client was removed; the blank-name branch is unreachable |
| ServerNetwork.ServerNetwork.Authenticate | src/server/src/servernetwork/servernetwork.cpp:352-447 | decryption, scanning, password test, naming, registration and the key request refine `Login` |
| ServerNetwork.ServerNetwork.ReceiveKey | src/server/src/servernetwork/servernetwork.cpp:448-468 | storing the client's key and sealing the session key for it, or kicking it, refines `TransferKey`, in which the stored key alone decides between the two |
| ServerNetwork.ServerNetwork.GetIndex | src/server/src/servernetwork/servernetwork.cpp:43-62 | the first position of an id, -1 when absent |
| ServerNetwork.ServerNetwork.SendMessage | src/server/src/servernetwork/servernetwork.cpp:106-128 | the `msg` loop over all ids sends at most one message, to the one client of that name |
| ServerNetwork.ServerNetwork.Iterate | src/server/src/commands/executor.cpp:16-36 | the loop over the registry refines `Dispatch`, and its duplicate-command assertion never fails |
| ServerNetwork.ServerNetwork.HandleSend | src/server/src/servernetwork/servernetwork.cpp:586-609 | succeeds exactly for a non-blank text of a named sender and then builds its chat frame, otherwise the sender is gone |
| ServerNetwork.ServerNetwork.ReceiveFrame | src/server/src/servernetwork/servernetwork.cpp:470-542 | handling of a decrypted frame, the denied request's fall-through included, refines `Frame`; the chat buffer is not overrun |
| ServerNetwork.ServerNetwork.Receive | src/server/src/servernetwork/servernetwork.cpp:336-544 | one poll refines `Poll`, keeps every invariant and touches no vector beyond its end after a removal |
| ServerNetwork.ServerNetwork.ManagePass | src/server/src/servernetwork/servernetwork.cpp:702-708 | one pass with removals during it terminates and leaves the server as the run of its polls, at positions 0, 1, 2 and on, leaves it; it ends when no position is left or the process ends |
| Invariants.PollLocal | src/server/src/servernetwork/servernetwork.cpp:336-544 | a poll removes at most the polled client's record or changes at most that record, in one of four ways |
| Invariants.OthersUntouched | src/server/src/servernetwork/servernetwork.cpp:227-230 | every other connection keeps its whole record through a poll, wherever rows were erased |
| Invariants.StepKeepsInv | src/server/src/servernetwork/servernetwork.cpp:611-664 | every accept and every poll keeps sockets distinct, names valid and distinct, and the placeholder on exactly the clients that have not logged in |
| Invariants.RunKeepsInv | src/server/src/servernetwork/servernetwork.cpp:702-708 | the same over every run |
| Announcements.RemovedExactly | src/server/src/servernetwork/servernetwork.cpp:336-527 | the exact conditions under which a poll disconnects the polled client, the bounds on text, name and time written out |
| Announcements.OthersTold | src/server/src/servernetwork/servernetwork.cpp:206-219 | every other Done client gets exactly one leave frame for a departure, one join frame for a new name with a welcome after it for a new user, and otherwise exactly what the polled client said to it: a chat frame, an empty frame for request 4, a direct message, or nothing |
| Screens.DepartureSeen | src/server/src/servernetwork/servernetwork.cpp:206-219 | when a poll removes a client, every other Done client is sent one frame, which the C++ client shows as that client leaving with the list of who remains and the Rust client parses as its disconnect packet, if it had a name |
| Screens.NamingSeen | src/server/src/servernetwork/servernetwork.cpp:650-659 | when a poll gives a client a new name, every other Done client is sent one frame, which the two programs show and parse as that name joining with the list of who is there, and then, for a new user, the welcome |
| Outcomes.RenamedExactly | src/server/src/servernetwork/servernetwork.cpp:611-664 | a logged-in client that stays has the name it asked for in an in-time request 3, from its third byte on, and else the name it had |
| Outcomes.ClockExactly | src/server/src/servernetwork/servernetwork.cpp:531-542 | the clock of a client that stays runs from the reading of its last message, or from the end of its handling if that was a chat or a request 4 |
| Outcomes.AnsweredExactly | src/server/src/servernetwork/servernetwork.cpp:470-481 | all a Done client hears of its own message: the not-sent notice, the blank-chat notice, or its command's reply, each in full, and otherwise nothing |
| Outcomes.EndsExactly | src/server/src/servernetwork/servernetwork.cpp:448-450 | a poll ends the process exactly when a logged-in client sends, for its key, a text that is no number or an even one |
| Roster.FrameRoster | src/server/src/servernetwork/servernetwork.cpp:650-659 | a join or leave frame arrives as written and its lexer fields are the type, the name and the server's named ids in order |
| Roster.NamedExactly | src/server/src/servernetwork/servernetwork.cpp:653-657 | the list of names is the ids of exactly the logged-in clients, in the order of their positions, none twice |
| Roster.PollTells | src/server/src/servernetwork/servernetwork.cpp:236-252 | across a poll every Done client is told the new list, or hears none while the list stays the same, unless the poll renamed or removed it |
| Roster.RosterAgreement | src/server/src/servernetwork/servernetwork.cpp:206-219 | over every run the latest list sent to a Done client since it became Done and since its own last rename is the server's list |
| Accounts.PollUsers | src/server/src/servernetwork/servernetwork.cpp:404-440 | a client leaves Undone exactly by presenting a name and a password, neither empty, the one on file if there is one, the name free and 3 to 16 letters, digits or underscores; that password is then on file, any other message gets the client removed, and no other poll stores anything |
| Accounts.PasswordsOverRun | src/server/src/servernetwork/servernetwork.cpp:160-180 | over every run passwords never change, added names are valid and added passwords not empty, and every client past Undone is on record with its password |
| Accounts.RateBound | src/server/src/servernetwork/servernetwork.cpp:344-349 | a client that stays on while n of its frames pass the spam test has been on at least 21n milliseconds since its clock was started |
| Accounts.KeyAccounting | src/server/src/servernetwork/servernetwork.cpp:449-466 | over every run each Done client's stored key is the one it presented on that connection, and the only other keys stored are those that got their client kicked, all too small to seal for |
| Accounts.TransferCompletes | src/server/src/servernetwork/servernetwork.cpp:448-468 | in every such server a client's key transfer completes if and only if its identity holds no key and its own can be sealed for, and then only that key opens what it is sent; otherwise the client is removed and leaves a key that cannot be sealed for |
| Accounts.LeftForGood | src/server/src/cryptography/cryptography.cpp:68-70 | over every run a key left behind is neither replaced nor removed, and its socket identity is never again a Done client's |
| Accounts.LockedOut | src/server/src/servernetwork/servernetwork.cpp:460-463 | on a free identity of any reachable server a visit with a good key would complete, but after a visit with a small key on the same identity no continuation has anybody Done there |
| Schedule.PassSkips | src/server/src/servernetwork/servernetwork.cpp:704-705 | a pass that the process survives polls no client twice and misses exactly those whose immediate predecessor was polled and removed in it |
| Schedule.PassIsRun | src/server/src/servernetwork/servernetwork.cpp:702-708 | the rest of a pass is the run of the polls at the next consecutive positions, its visits record whom each of them polls and whether it removes them, and it stops only at the end of the array or of the process |
| Schedule.NoStarvation | src/server/src/servernetwork/servernetwork.cpp:702-708 | what the two threads do, with accepts and removals in between, is a run, and it polls the client at position p before p + 1 passes are complete |
| Traffic.PollTraffic | src/server/src/servernetwork/servernetwork.cpp:236-252 | another client's poll sends a connection sealed frames only, and nothing unless it is Done or is sent a direct message |
| ClientNetwork.HandshakeOutcome | src/clients/cpp/src/ClientNetwork.cpp:73-113 | whatever messages arrive, the client finishes exactly when the first is a key it can seal its credentials for and the third opens under its own key, whose content it then holds; exactly what it sends, and exactly when it crashes |
| ClientNetwork.ClientNetwork.Display | src/clients/cpp/src/ClientNetwork.cpp:44-63 | what is printed for a frame, through the 100-slot array, is `Shows` of its fields |
| Handshake.RunInStep | src/clients/cpp/src/ClientNetwork.cpp:73-113 | over all interleavings with arbitrary other clients both automata and both channels stay in one of the matching configurations |
| Handshake.PlayIsRun | src/server/src/servernetwork/servernetwork.cpp:702-708 | to the server every interleaving is a run of accepts and polls, so all the run theorems hold in it |
| Handshake.HandshakeSafety | src/server/src/servernetwork/servernetwork.cpp:352-468 | over all undisturbed interleavings, left-over keys included: the client crashes exactly when it took the server's key and its credentials are too long for it; it holds a session key exactly when it finished, that key is the server's, its own key was sealable, and the server is then Done with it unless it dropped it |
| Handshake.OthersInStep | src/server/src/servernetwork/servernetwork.cpp:106-128 | another client's step keeps them in step if and only if it is not a direct message between login and key transfer |
| Handshake.EarlyMessageBreaks | src/server/src/servernetwork/servernetwork.cpp:115-126 | after such a message the client crashes when it opens it in place of the session key |
| Interference.EarlyMessageHappens | src/server/src/servernetwork/servernetwork.cpp:106-128 | from any start with some Done client that was quiet long enough there is such a run: login, that client's message, two messages taken, crash |
| Handshake.HandshakeCompletes | src/clients/cpp/src/ClientNetwork.cpp:73-113 | from any server state a client with admissible credentials short enough to seal, a sealable key of its own and no key stored for its socket can finish the handshake in six moves |
| EndToEnd.ChatRoundTrip | src/server/src/servernetwork/servernetwork.cpp:586-609 | for a Done sender and any non-blank accepted text whose frame fits the buffer, every other Done client gets one frame and both client programs recover exactly sender and text, under the exact conditions on the text |
| EndToEnd.ChatRelayed | src/server/src/servernetwork/servernetwork.cpp:531-542 | a chat text whose frame fits the buffer reaches every other Done client, and nobody else, in one frame, and all that changes of any client is the sender's clock, restarted at the end |
| EndToEnd.ChatShown | src/clients/cpp/src/ClientNetwork.cpp:44-48 | the C++ client shows the sender's name and text exactly when the text has no NUL |
| EndToEnd.ChatParsed | src/clients/rust-gui/src/network.rs:138-173 | the Rust client recovers the same pair when the text has no NUL and is UTF-8, and panics otherwise |
| EndToEnd.MessageRebuilt | src/server/src/servernetwork/servernetwork.cpp:117-123 | lexing into 512 slots and rebuilding restores the message text, runs of blanks included, followed by 513-n blanks for a line of n words |
| EndToEnd.MessageRelayed | src/server/src/servernetwork/servernetwork.cpp:106-128 | `msg` to another online client puts one frame on that connection, with target, sender, text and padding in this order, and none on any other |
| EndToEnd.MessageShown | src/clients/cpp/src/ClientNetwork.cpp:61-63 | the C++ client shows a direct message whole exactly when it is free of separator and NUL, the Rust client exactly when it is free of NUL and UTF-8 |
| EndToEnd.MessageRoundTrip | src/server/src/servernetwork/servernetwork.cpp:106-128 | from a typed `msg` line to the target's screen: one frame, from which the C++ client shows header, text and padding exactly when the text has no NUL, the Rust client exactly when it is UTF-8 besides |
| EndToEnd.RosterShown | src/clients/cpp/src/ClientNetwork.cpp:50-57 | the C++ client prints a roster frame as somebody joining or leaving, by its type, with the list padded with its unused argument slots |
| EndToEnd.OthersShown | src/clients/cpp/src/ClientNetwork.cpp:58-63 | type 5 is shown as a command reply and unknown types not at all |
| EndToEnd.RosterOnScreen | src/clients/cpp/src/ClientNetwork.cpp:50-57 | over every run, while at most 98 clients are named, the list the C++ client prints for the latest roster frame sent to it since it became Done and last renamed itself is the server's |
| EndToEnd.RosterParsed | src/clients/rust-gui/src/network.rs:144-155 | the Rust client reads a join packet in every join frame, a disconnect packet in a leave frame whose leaver had a name, and panics on any other leave frame |
| Panics.PanicsExactly | src/clients/rust-gui/src/network.rs:120-185 | a poll sends another Done client a frame its Rust parser panics on if and only if it removes a client that never logged in, or delivers a request 4, a chat text with a NUL or not in UTF-8, or a direct message to it whose words are not UTF-8 up to their first NUL |
| EndToEnd.EveryReachableServer | src/server/src/server.cpp:4-6 | invariants, roster agreement, password and key records hold of every server reached from a started one |

## Left out

- Cryptography: RSA, AES-GCM, random numbers and number parsing are symbolic (a sealed message opens under exactly its own key, and a key is loaded or refused by its parity and length alone); the iv-and-ciphertext byte framing, `dehex` and hex coding are not modelled.
- Sockets, threads, sleeps and the user file: replaced by outboxes, arbitrary inputs, atomic steps and a map; send failures and the result of `broadcast` are not modelled, because no caller uses it.
- Memory: data races between the accepting and the managing thread, pointers used after `delete`, and what happens when a chat frame, a command line or a displayed frame overruns its buffer.
- A removed client's address when the peer has already reset the connection: the broadcast is modelled as excluding exactly that connection.
- Console output, the reason given in the server's log for a disconnect, and `updateObjs`, `broadcastList`, `sendQueuedMessage`, `handleRequestedConsole`, `convertToString`, `isOp` and `openDLL`: dead or without effect on clients.
- The Rust client's login sequence and both clients' input loops: the Rust login is the straight line of the C++ handshake, and the C++ command line's trailing NUL is not modelled, so command claims are about the text the server receives.
- ServerNetwork.ServerNetwork.Receive: requires that the chat frame and the command line fit their fixed buffers, because the program writes past them otherwise.
