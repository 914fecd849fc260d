# dbpivot in Dafny

dbpivot is a proxy for PostgreSQL, MySQL and MongoDB clients. Clients connect to a virtual database name; the proxy
dials the target that is current for that name, logs in with the target's credentials and then pipes bytes. A `use`
command switches every database to another target at run time and force-closes the connections of the old one.

This project models the parts of dbpivot whose correctness is hardest to see and proves them for all inputs, all packet
scripts and all schedules. Bytes are integers 0..255 and Go strings are byte sequences. Go's integer widths, sign
conversions and slice bounds are written out. Errors are kept as a distinct result; their wording is not.

| file | subject |
|---|---|
| `Octets.dfy`, `Bits.dfy` | bytes, little- and big-endian words, NUL-terminated strings; capability words bit by bit |
| `Bson.dfy`, `BsonTheorems.dfy`, `BsonCodec.dfy` | the BSON codec as functions, its theorems, and the appending/looping code that implements it |
| `BsonLayout.dfy` | the bytes of the BSON specification, written out, against both codec directions |
| `MongoWire.dfy`, `MongoDispatch.dfy` | OP_MSG, OP_QUERY and message framing; the routing loop of the MongoDB leg |
| `MySqlPacket.dfy`, `MySqlHandshake.dfy`, `Scramble.dfy` | packet fragmentation, HandshakeV10 and HandshakeResponse41, password scrambles |
| `MySqlLogin.dfy`, `MySqlDispatch.dfy` | the upstream login against every script of server packets; the client leg that waits for it |
| `PgStartup.dfy` | the PostgreSQL StartupMessage codec and the upstream parameter rewrite |
| `Variables.dfy`, `Config.dfy` | `${NAME}` templates; identifiers, the validator, endpoints |
| `Switching.dfy`, `Routing.dfy` | what a switch plans and commits, as values; the classes that do it, on serial runs |
| `Overlap.dfy`, `Example.dfy` | calls of SwitchAll whose commits overlap; a small configuration on which the exceptions show |
| `Interleaving.dfy`, `Schedules.dfy` | handlers and switches on one database, one atomic action at a time; theorems over every schedule |

The main results, hardest first:

* Over every schedule of handlers and switches (`Schedules`): a finished switch has closed, exactly once, everything that
  registered before its snapshot; there is no deadlock and no schedule runs forever; and a switch can leave a connection to
  the old target behind exactly when, at the moment it holds the registry mutex for its snapshot, some handler that loaded
  its target before the store has not registered yet.
* BSON decoding inverts encoding for every nested document and every suffix; the encoding is prefix-free; whatever a 64 MiB
  message decodes to re-encodes within five times its size and reads back unchanged.
* The bytes are the specifications' own: for every document, exactly what the encoder writes is what the BSON specification
  spells, every type byte and buffer is read as it says, and the MySQL, MongoDB and PostgreSQL frames have laws of this kind.
* Over every serial run of switches, each database is on the target the last successful call named, field for field as the
  configuration declares it, and nowhere else; two overlapping calls are safe under every schedule exactly when they want the
  same of every database.
* For every script of server packets the MySQL login succeeds exactly on scripts that lead to an OK, answers every packet that
  asks for it, once, with the right sequence id and a proof of the password for the plugin in force, and writes onto an
  unencrypted link only scrambles, the key request and ciphertexts; with TLS asked for, nothing in the clear depends on the
  password.
* For every client byte stream the MongoDB leg answers each unroutable command once, with the document that command calls for,
  and forwards the routing command as exactly the bytes read.
* The MySQL fragmentation, the handshakes, the StartupMessage codec and the template language each have an inverse proved
  on all inputs, with the exact condition where the code's inverse has a limit.

## Where the code differs from what one might expect

The model follows the code. These are the places where the code's comments, or a natural reading, say more than it does;
each has a lemma with the exact condition.

* "Every previously-registered connection" of `Apply` (internal/proxy/database.go:138-140) does not cover a handler between
  its load of the target and its registration: `Schedules.StaleConnectionPossible`, `Schedules.StaleIffRacing`.
* "All databases share a single global target" (internal/proxy/server.go:36-38) is kept by serial calls; no lock spans a call's
  commits, so overlapping calls keep it exactly when they want the same of every database: `Switching.RunAgrees`,
  `Overlap.OverlapSafeIffSameWish`, with `Example.RedAndBlueOverlap`.
* `New` is documented to fail when any database does not know the target (internal/proxy/server.go:63-66); the code clears
  such databases and fails only when none declares the target or one that does cannot resolve it: `Routing.New`, with
  `Example.StartWithoutTarget`.
* A name that passes `ValidIdentifier` need not resolve, because `$` is also the template escape: `Config.IdentifierResolves`,
  `Config.ValidatedNameThatNeverResolves`. A template with variables is not checked beyond naming one; it resolves under some
  variables exactly when it is well formed: `Config.AcceptedTemplateResolves`, with `Config.TemplateThatNeverResolves`.
* `ParseOpMsg` inverts `EncodeOpMsgBody` only with the checksum bit clear: `MongoWire.OpMsgRoundTrip`.
* A 20-byte salt survives the greeting only if its last byte is not NUL: `MySqlHandshake.SaltSurvives`.
* A length-encoded auth length that takes the position to 2^63 or beyond makes a slice expression fail at run time rather than
  return an error, and nothing recovers: `MySqlHandshake.ResponsePanics`, with `MySqlHandshake.ResponseThatPanics`.
* With no target database the client's first non-empty `database` reaches the upstream unless an empty first one hides it:
  `PgStartup.FirstNonEmptyReachesUpstream`, with `PgStartup.FirstChoiceIsTheOnlyChoice`.

## Model

| member | source | states |
|---|---|---|
| `Schedules.AfterFinishedSwitch` | internal/proxy/database.go:141-187 | in every schedule, once a switch has finished, each connection registered before its snapshot is out of the registry and was closed exactly once; one still registered although it loaded before the store registered after the snapshot; a registered connection's target is the value current at its load |
| `Schedules.StaleIffRacing` | internal/proxy/server.go:429-499 | a switch about to snapshot can be followed by a schedule in which it finishes and a connection on an older target is registered if and only if some handler that loaded before its store is still between load and registration |
| `Schedules.StaleConnectionPossible` | internal/proxy/server.go:429-499 | a legal schedule that ends with a finished switch to target 2 and a piping connection on target 1 |
| `Schedules.RacingSlips` | internal/proxy/server.go:429-499 | from any reachable state, a racing handler can be held in flight while every other thread runs to its end, and then register |
| `Schedules.Drain` | internal/proxy/database.go:36-48 | whatever handlers are parked in flight, all other threads can be run to completion |
| `Schedules.ClosedOnce` | internal/proxy/database.go:36-48 | no close body runs twice; a handler that returned after registering left its connection closed exactly once and deregistered; leaving the registry happens only through the close body |
| `Schedules.DroppedOnce` | internal/proxy/database.go:175-187 | when a switch's call of Close on a connection has returned, that connection was closed exactly once and is deregistered, whichever thread ran the body |
| `Schedules.WaitsWithoutMutex` | internal/proxy/database.go:172-187 | a thread waiting for another thread's close body does not hold the registry mutex |
| `Schedules.SomeoneMoves` | internal/proxy/database.go:159-187 | no deadlock: while a thread is unfinished some thread can act, even with in-flight handlers parked |
| `Schedules.SwitchNeedsNoPipe` | internal/proxy/database.go:172-187 | while a switch is unfinished, a switch or a handler inside Register or Close can act: a switch waits for no pipe, dial or login |
| `Schedules.SwitchFinishes` | internal/proxy/database.go:141-187 | from every reachable state a switch can be brought to its end by such actions alone |
| `Schedules.SchedulesAreBounded` | internal/proxy/database.go:159-187 | without new clients or switches every schedule's length is bounded by the work left in its first state |
| `Schedules.StuckMeansFinished` | internal/proxy/database.go:159-187 | a schedule that can go no further has every thread returned, the mutex free, the registry empty and every registered connection closed exactly once |
| `Schedules.FailedNeverRegisters` | internal/proxy/server.go:451-481 | in every schedule, a handler whose dial or login failed is registered in no later state |
| `Schedules.Reachable` | internal/proxy/database.go:141-187 | the invariant of `Interleaving` holds in every reachable state |
| `Interleaving.NextKeeps` | internal/proxy/database.go:141-187 | every action of every thread keeps it: registry membership is registration minus removal, the mutex has exactly its holder, a running close body belongs to a thread that is closing that connection, a switch's snapshot is complete |
| `Interleaving.CloseKeeps` | internal/proxy/database.go:36-48 | each action of Close, by a handler or a switch, keeps the invariant; a returned call means the once is done |
| `Routing.Server.SwitchAll` | internal/proxy/server.go:174-236 | for any map iteration order: the new routing state is the reference step, success exactly when some database declares the target and all that do resolve it, one report per database whose names, databases, skip flag and count are those of its old target, new target and dropped connections, every connection closed exactly once; a failure changes nothing and names a failing database with its missing variables |
| `Routing.Server.Plan` | internal/proxy/server.go:184-209 | phase 1 yields the expected target of every database, whose fields `Switching.PlanIs` fixes, or an error that holds of some database |
| `Routing.Server.Commit` | internal/proxy/server.go:211-230 | phase 2 moves every database to its plan, empties every registry, closes each connection once and reports each database exactly once |
| `Routing.Server.Shutdown` | internal/proxy/server.go:326-341 | the first call closes every registered connection once and changes no target; later calls change nothing |
| `Routing.Server.LookupDatabase` | internal/proxy/server.go:113-121 | a database is found exactly when the name exists on that adapter |
| `Routing.New` | internal/proxy/server.go:67-97 | on an accepted configuration construction fails only if the first switch does; a new server is open, without connections, and every database agrees with the global target |
| `Routing.BindPorts` | internal/proxy/server.go:77-86 | the listeners are the listen ports of the adapters in use, missing exactly when such an adapter has none, never on an accepted configuration |
| `Routing.Database.DropAll` | internal/proxy/database.go:175-187 | the registry is emptied, every connection in it closed exactly once, and their number returned |
| `Routing.Database.Apply` | internal/proxy/database.go:141-146 | the target becomes current, the previous one is returned, the registry is emptied as by DropAll |
| `Routing.Database.Clear` | internal/proxy/database.go:152-156 | the same with no current target |
| `Routing.Database.Register` | internal/proxy/database.go:159-164 | the connection joins the registry and belongs to this database |
| `Routing.Conn.Close` | internal/proxy/database.go:36-48 | the first call closes and deregisters, every later call changes nothing |
| `Switching.RunAgrees` | internal/proxy/server.go:174-236 | over every serial run, each database's target is the resolution of the global target and variables, or absent if it does not declare it |
| `Switching.RunIsLastSuccess` | internal/proxy/server.go:174-236 | a run ends where its last successful call alone would have put it; failed calls leave no trace |
| `Switching.CurrentAfterRun` | internal/proxy/server.go:174-236 | after any serial run with a success in it the globals are that success's and a database has a target exactly if it declares the name: the declared user, password, SSL mode, auth source and endpoint, with the template's text as its database |
| `Switching.SucceedsIff` | internal/proxy/server.go:184-209 | a call goes through if and only if some database declares the target and in each that does the template resolves to nothing or a valid identifier |
| `Switching.ReportsChain` | internal/proxy/server.go:211-230 | each successful call's previous target is what the last successful call reported as current |
| `Switching.ReportSays` | internal/proxy/server.go:211-230 | a successful call reports each database on the target asked for with its template's text as the database name, a valid identifier if not empty, or skipped exactly if it does not declare the target, and the number of dropped connections |
| `Overlap.CommitIsStep` | internal/proxy/server.go:211-235 | a commit that nothing overlaps is the reference step whatever the iteration order |
| `Overlap.LastWriterWins` | internal/proxy/server.go:211-235 | after any interleaving of commit writes each database holds its last writer's resolution and the globals are the last publisher's |
| `Overlap.OverlapSafeIffSameWish` | internal/proxy/server.go:174-236 | for any iteration orders, every overlap of two calls' commits leaves databases and globals agreeing if and only if the two calls expect the same target of every database |
| `Overlap.OverlapCanDisagree` | internal/proxy/server.go:174-236 | for every database on which two calls differ, some overlap leaves it where the one call put it while the other call's target and variables are published |
| `Example.RedAndBlueOverlap` | internal/proxy/server.go:174-236 | a two-database configuration on which that happens |
| `Example.StartWithoutTarget` | internal/proxy/server.go:63-97 | a server of an accepted configuration starts on a target one of its databases does not declare, that database being inactive |
| `Switching.CurrentIsDialable` | internal/proxy/database.go:110-136 | on an accepted configuration whatever becomes current has a host, a port in range and a user |
| `Switching.ResolveTarget` | internal/proxy/database.go:110-136 | a planned target is the declared one of that name field for field, with its template and endpoint resolved, and a non-empty resolved database is a valid identifier |
| `Switching.PlanIs` | internal/proxy/database.go:110-136 | planning succeeds, misses variables or fails exactly as the template's meaning and the identifier rule say, with those missing names |
| `Switching.FindTargetIsLast` | internal/proxy/database.go:66-79 | of targets with one name the last declared is the one found |
| `Switching.EveryTargetReachable` | internal/config/config.go:186-361 | on an accepted configuration every database and every target is found under its own name, none shadowed |
| `BsonTheorems.RoundTripDoc` | internal/proxy/bson.go:97-335 | decoding encoding ++ suffix gives the document, Go ints as int32, and exactly the encoding's length, for every NUL-free-keyed document below 2^31 bytes |
| `BsonTheorems.EncodingInjective` | internal/proxy/bson.go:97-187 | equal encodings come from documents that are equal once Go ints are int32 |
| `BsonTheorems.EncodingPrefixFree` | internal/proxy/bson.go:97-187 | no encoding is a proper prefix of another |
| `BsonTheorems.DecoderIgnoresSuffix` | internal/proxy/bson.go:193-228 | the decoder reads nothing past the declared length |
| `BsonTheorems.DecodedDocNormal` | internal/proxy/bson.go:193-306 | every decoded document is encodable and already normalised |
| `BsonTheorems.GrowthDoc` | internal/proxy/bson.go:122-129 | a document decoded from a message-sized body re-encodes, even re-keyed as an array, to at most 5 times its size |
| `BsonTheorems.DecodeEncodeDecode` | internal/proxy/bson.go:97-335 | so its length fits an int32 and decode after encode after decode is decode |
| `BsonLayout.SpellsDocIsEncode` | internal/proxy/bson.go:25-187 | for every document, a byte sequence is its encoding if and only if it is spelled as the BSON specification says: length word, then per element the literal type byte, key, NUL and payload bytes, then NUL |
| `BsonLayout.DecodesSpelled` | internal/proxy/bson.go:193-306 | the decoder reads every document so spelled, whatever follows |
| `BsonLayout.ReadsFixedWidth` | internal/proxy/bson.go:230-303 | on every buffer, the type bytes 01, 07, 08, 09, 0A, 10, 11 and 12 read the number, identifier or flag of the bytes at hand, weights and signs written out, or fail exactly for want of bytes |
| `BsonLayout.ReadsCounted` | internal/proxy/bson.go:230-326 | the same for 02 and 05 with their signed counts; every type byte outside the twelve fails |
| `BsonLayout.ReadsNested` | internal/proxy/bson.go:193-254 | the same for 03 and 04 over the document at that place, whose length word is the bytes consumed |
| `BsonLayout.ArrayKeys` | internal/proxy/bson.go:122-129 | array items are keyed by their index as a plain decimal numeral without leading zeros |
| `BsonLayout.ItoaIsDecimal` | internal/proxy/bson.go:122-129 | those numerals are digits only and, read in base ten, give the number back |
| `Bson.ParseDoc` | internal/proxy/bson.go:193-228 | total on every byte sequence; success consumes exactly the declared length, between 5 and the input length; what it reads of each type byte is stated in `BsonLayout` |
| `BsonCodec.AppendBSON` | internal/proxy/bson.go:97-106 | appending elements and back-patching the length yields the encoding after the given prefix |
| `BsonCodec.AppendElement` | internal/proxy/bson.go:108-176 | one element's bytes are appended, nested documents and arrays included, those being the bytes `BsonLayout.SpellsDocIsEncode` fixes |
| `BsonCodec.ReadDocument` | internal/proxy/bson.go:193-228 | the cursor loop computes the recursive decoder, terminating through the mutual recursion |
| `BsonCodec.ReadValue` | internal/proxy/bson.go:230-306 | the same for one value of any tag |
| `BsonCodec.ReadScalar` | internal/proxy/bson.go:232-303 | each fixed-width tag is read behind its own bounds test, to the values `BsonLayout.ReadsFixedWidth` fixes |
| `BsonCodec.ReadBinary` | internal/proxy/bson.go:255-266 | the length is checked, sign included, before the bytes are sliced |
| `BsonCodec.ReadString` | internal/proxy/bson.go:310-326 | the length counts the trailing NUL, which must be there |
| `MongoWire.ReadWrittenMessage` | internal/proxy/mongowire.go:57-92 | a written message is read back whole and the rest of the stream is left |
| `MongoWire.WriteReadMessage` | internal/proxy/mongowire.go:57-92 | writing what was read gives the very bytes read, header included |
| `MongoWire.MessageLayout` | internal/proxy/mongowire.go:80-92 | a message's bytes are its length, request id, response id and op code as little-endian words, then the body |
| `MongoWire.ReadsHeader` | internal/proxy/mongowire.go:57-76 | a stream starts with a message if and only if its first word is between 16 and 64 MiB and within the stream; the four words are read to the four fields |
| `MongoWire.OpMsgDecodes` | internal/proxy/mongowire.go:110-156 | with exactly one body section its document is returned whatever sequence sections and checksum surround it; with none or several the parse fails |
| `MongoWire.OpMsgAccepts` | internal/proxy/mongowire.go:110-156 | conversely, every accepted body is flags, well-formed sections with exactly one body, and a checksum if announced |
| `MongoWire.OpMsgRoundTrip` | internal/proxy/mongowire.go:98-156 | the parser inverts the encoder exactly when the checksum bit is clear |
| `MongoWire.ParseOpMsgLoop` | internal/proxy/mongowire.go:110-156 | the reslicing loop with its found flag computes that parse |
| `MongoWire.OpQueryRoundTrip` | internal/proxy/mongowire.go:162-183 | every field of a legacy query is recovered whatever follows the query document |
| `MongoWire.OpMsgLayout` | internal/proxy/mongowire.go:98-106 | an OP_MSG body is the flag word, a zero byte and the document |
| `MongoWire.OpQueryLayout` | internal/proxy/mongowire.go:162-183 | the legacy query so recovered is flags, collection and NUL, skip, limit, document, at those positions |
| `MongoDispatch.DispatchShape` | internal/proxy/mongoserver.go:43-134 | on every client stream: each frame before the first routable or undecodable one is read and answered once, then comes nothing, a rejection, one of three refusals with its own document, or dial, login, the forward of the frame's own bytes and registration. Every reply is tied to its request, speaks its transport and carries the hello reply, else the admin reply, else the unknown-database error of the name asked for |
| `MongoDispatch.NothingUpstreamBeforeRouting` | internal/proxy/mongoserver.go:43-134 | dialling, login, forwarding and registration happen only after a frame that names a configured database was read |
| `MongoDispatch.ExchangeAt` | internal/proxy/mongoserver.go:68-84 | the i-th frame of the prelude and its one reply, with the document it must carry, sit at positions 2i and 2i+1 of the trace |
| `MongoDispatch.PreludeIsLongest` | internal/proxy/mongoserver.go:55-60 | the prelude is exactly the frames before the first that routes or does not decode |
| `MongoDispatch.FramesAreTheStream` | internal/proxy/mongowire.go:57-92 | the frames of a stream are its bytes, each equal to what the writer would produce |
| `MongoDispatch.Session.DispatchMongo` | internal/proxy/mongoserver.go:43-85 | the read/decode/reply loop produces the trace and outcome that `MongoDispatch.DispatchShape` describes |
| `MongoDispatch.Session.RouteCommand` | internal/proxy/mongoserver.go:91-134 | dial, login, forward and register in order, each refusal answered once |
| `MongoDispatch.ReplyDecodes` | internal/proxy/mongohandshake.go:165-174 | a driver reads an OP_MSG reply as the document it was built from, tied to its request |
| `MongoDispatch.ReplyTells` | internal/proxy/mongohandshake.go:165-174 | on both transports the reply reads back through the framing as op code 2013 or 1, the request's id and, behind literal flag, cursor and count words, the document |
| `MongoDispatch.CommandDecodes` | internal/proxy/mongohandshake.go:139-158 | a driver's command is decoded to its document and routes by its own `$db` lookup |
| `MongoDispatch.TextOfFirst` | internal/proxy/mongohandshake.go:178-188 | that lookup is the text of the first element with the key, or empty when that is no string or there is none |
| `MongoDispatch.QueryDecodes` | internal/proxy/mongohandshake.go:139-158 | a legacy probe routes by its collection up to the first dot, or by all of it |
| `MongoDispatch.OtherOpCodes` | internal/proxy/mongohandshake.go:139-158 | op codes other than 2013 and 2004 are rejected |
| `MongoDispatch.LookupIsFirst` | internal/proxy/bson.go:79-86 | lookup finds the first element with the key, and only fails if there is none |
| `MySqlPacket.ReadWrittenId` | internal/proxy/mysqlwire.go:62-119 | for every payload length and maximum, reading what was written returns payload and rest, and the id is start + len/max mod 256 |
| `MySqlPacket.WritePacket` | internal/proxy/mysqlwire.go:84-119 | the write loop emits those frames, the empty closing frame of exact multiples included, and returns one more than the last id |
| `MySqlPacket.ReadPacket` | internal/proxy/mysqlwire.go:62-80 | the read loop computes the reassembling reader |
| `MySqlPacket.TruncatedFails` | internal/proxy/mysqlwire.go:62-80 | no proper prefix of a written payload is accepted |
| `MySqlPacket.ReadConsumes` | internal/proxy/mysqlwire.go:62-80 | a successful read consumes the payload plus four bytes per frame and leaves a suffix of the stream |
| `MySqlPacket.HeaderLayout` | internal/proxy/mysqlwire.go:84-119 | a frame's header is three length bytes, least significant first, and the id |
| `MySqlHandshake.LenencRoundTrip` | internal/proxy/mysqlwire.go:124-168 | every 64-bit length-encoded integer is read back at its position |
| `MySqlHandshake.LenencLayout` | internal/proxy/mysqlwire.go:124-137 | its bytes: one below 251, else FC, FD or FE and two, three or eight little-endian bytes |
| `MySqlHandshake.GreetingRoundTrip` | internal/proxy/mysqlwire.go:202-327 | a greeting is recovered field for field, the salt up to trailing NULs, the plugin if announced |
| `MySqlHandshake.GreetingReads` | internal/proxy/mysqlwire.go:202-293 | every full server greeting is read field for field: the second half of the salt is the announced length less eight, at least thirteen bytes, without trailing NULs |
| `MySqlHandshake.GreetingSpelled` | internal/proxy/mysqlwire.go:297-327 | where each field of the proxy's own greeting sits, byte by byte |
| `MySqlHandshake.SaltSurvives` | internal/proxy/mysqlwire.go:202-327 | the 20-byte salt is recovered if and only if its last byte is not NUL |
| `MySqlHandshake.NormaliseSalt` | internal/proxy/mysqlclient.go:43-54 | in place, every NUL becomes 1 and no other byte changes, so the salt survives |
| `MySqlHandshake.ResponseRoundTrip` | internal/proxy/mysqlwire.go:333-445 | every login whose auth fits its length byte is read back with the fields its capabilities announce |
| `MySqlHandshake.LoginRoundTrip` | internal/proxy/mysqlauth.go:45-62 | every login on the proxy's upstream capabilities with a 0, 20 or 32 byte scramble is read back field for field |
| `MySqlHandshake.LoginLayout` | internal/proxy/mysqlwire.go:333-355 | where each field of a login sits, byte by byte |
| `MySqlHandshake.ResponsePanics` | internal/proxy/mysqlwire.go:381-445 | on every byte sequence, parsing a login fails at run time if and only if it has 32 bytes, the two capability bits, a terminated user and a readable auth length, and the position after that length plus the length is at least 2^63 |
| `MySqlHandshake.ResponseThatPanics` | internal/proxy/mysqlwire.go:381-445 | logins of this kind for every length from 2^63 on |
| `MySqlHandshake.UpstreamCapsBits` | internal/proxy/mysqlauth.go:45-62 | bit by bit, the upstream capabilities are the desired ones the server has, the mandatory ones, and the database bit when asked |
| `MySqlHandshake.UpstreamBitNumbers` | internal/proxy/mysqlauth.go:45-62 | the same in the protocol's bit numbers |
| `MySqlHandshake.ProxyBitNumbers` | internal/proxy/mysqlclient.go:30-38 | the bits the proxy offers its own clients |
| `Scramble.ServerAccepts` | internal/proxy/mysqlwire.go:510-546 | both scrambles pass the check of a server that stores the double hash |
| `Scramble.ObfuscateTwice` | internal/proxy/mysqlauth.go:269-279 | XOR with the repeated nonce undoes itself |
| `Scramble.XorBit` | internal/proxy/mysqlwire.go:510-546 | exclusive or, bit by bit |
| `MySqlLogin.FinishSucceeds` | internal/proxy/mysqlauth.go:153-197 | for every server script the login loop succeeds if and only if it read an OK packet, not counting the answer to a key request |
| `MySqlLogin.FinishLawful` | internal/proxy/mysqlauth.go:153-264 | every message answers the packet just read, at most one each, with its id plus one and literal payload; auth switches are answered with a proof of the password for the new plugin and nonce; the non-empty password in clear goes out only on a secure link; RSA is given password and NUL under the nonce |
| `MySqlLogin.SucceedsIffLeads` | internal/proxy/mysqlauth.go:153-264 | the loop succeeds on exactly the scripts that lead to an OK: known plugins switched to, fast success passed over, full authentication answered, the key usable |
| `MySqlLogin.FinishPrompt` | internal/proxy/mysqlauth.go:153-264 | a switch to a known plugin and a full-authentication request are answered at once, before anything else is read |
| `MySqlLogin.ResponseProves` | internal/proxy/mysqlauth.go:65-74 | exactly the two plugins, or no name, have an auth response, and a server of that plugin that stores the double hash accepts it |
| `MySqlLogin.EncryptsMasked` | internal/proxy/mysqlauth.go:269-279 | what is encrypted is the password and a NUL, exclusive-or the repeated nonce |
| `MySqlLogin.SwitchToReads` | internal/proxy/mysqlauth.go:171-185 | an auth switch is FE, the plugin's name, NUL, the nonce and any trailing NULs |
| `MySqlLogin.PasswordOnlyThroughCrypto` | internal/proxy/mysqlauth.go:203-264 | on an insecure link two passwords the hashes and, draw by draw of its randomness, RSA do not tell apart give identical traces |
| `MySqlLogin.LoginHidesPassword` | internal/proxy/mysqlauth.go:92-147 | the same for the whole login when no TLS is asked for |
| `MySqlLogin.LawfulConceals` | internal/proxy/mysqlauth.go:153-264 | on an insecure link with a password, every payload written by the login loop is a scramble, the key request or a ciphertext |
| `MySqlLogin.Link.FinishAuth` | internal/proxy/mysqlauth.go:153-197 | the loop over plugin and salt produces the specified trace and verdict |
| `MySqlLogin.Link.CachingSha2More` | internal/proxy/mysqlauth.go:203-264 | the caching_sha2 follow-ups, RSA exchange included, do what the specification of one turn says |
| `MySqlLogin.Link.Authenticate` | internal/proxy/mysqlauth.go:92-147 | the whole login produces the specified trace, whose login `MySqlDispatch.LoginCarries` fixes, and returns the capabilities it sent |
| `MySqlDispatch.LoginDecided` | internal/proxy/mysqlauth.go:92-147 | once the login is out, success is exactly an OK read by the loop and everything after is lawful for the greeting's plugin and salt |
| `MySqlDispatch.LoginRefused` | internal/proxy/mysqlauth.go:92-147 | a login that cannot go out fails having sent at most a TLS request, and nothing at all when the server offers no TLS |
| `MySqlDispatch.LoginDecodes` | internal/proxy/mysqlauth.go:108-141 | the login sent parses back to what was put in, with capability bit 11 exactly when TLS was asked for |
| `MySqlDispatch.LoginCarries` | internal/proxy/mysqlauth.go:108-141 | a login goes out only for the two plugins or none named; it carries the account and database asked for, charset 45, and a proof of the password for that plugin and the greeting's nonce |
| `MySqlDispatch.LoginConceals` | internal/proxy/mysqlauth.go:92-147 | the same for every payload of a whole login without TLS, the login packet carrying a scramble in its auth field |
| `MySqlDispatch.TlsHidesPassword` | internal/proxy/mysqlauth.go:111-132 | with TLS asked for, what travels in the clear is the same for all passwords and the TLS request is all that is written there |
| `MySqlDispatch.SslRequestIsLoginHead` | internal/proxy/mysqlwire.go:359-365 | the TLS request is the first 32 bytes of the login that follows it |
| `MySqlDispatch.ClientLeg.DispatchMySQL` | internal/proxy/mysqlserver.go:44-131 | one verdict per parsed response with the next sequence id and the right code; registered and open upstream exactly when that verdict is OK; a run-time failure exactly when the parser has one, kept apart from a quiet return |
| `MySqlDispatch.OkMeansLoggedIn` | internal/proxy/mysqlserver.go:44-131 | the client hears OK only after the upstream's own OK, from a server with the same result-set framing |
| `MySqlDispatch.VerdictIs` | internal/proxy/mysqlserver.go:44-131 | on the response's own fields: the name looked up is its database, else its user; the upstream login uses the target's user and password and its database, else the client's, with TLS if its mode is `require`; each failure has its error number, 1049, 1105 or 1045 |
| `MySqlDispatch.FramingCheck` | internal/proxy/mysqlserver.go:109-119 | the capability test passes exactly when client and server announced the same DEPRECATE_EOF bit |
| `PgStartup.ParserInvertsEncoder` | internal/proxy/pgwire.go:38-123 | a body parses to a list if and only if the list has non-empty NUL-free keys and NUL-free values and the body is its encoding |
| `PgStartup.ParseStartupBody` | internal/proxy/pgwire.go:38-66 | the cursor loop computes that parse |
| `PgStartup.EncodeStartup` | internal/proxy/pgwire.go:101-123 | filling the preallocated array by position gives the frame, whose length prefix is its length |
| `PgStartup.FrameLayout` | internal/proxy/pgwire.go:101-123 | the frame's bytes: big-endian length, protocol 3.0, every key and value followed by a NUL in its place, a final NUL |
| `PgStartup.RewriteContents` | internal/proxy/server.go:435-449 | the upstream has exactly the target's user and at most one database, the target's, else the client's first |
| `PgStartup.RewriteIs` | internal/proxy/server.go:435-449 | position by position: user, database if any, then the client's pairs at exactly the indices whose key is neither `user` nor `database`, in increasing order |
| `PgStartup.OtherKeysKept` | internal/proxy/server.go:435-449 | every other key keeps its values, repeats and order included |
| `PgStartup.RewriteIdempotent` | internal/proxy/server.go:526-540 | rewriting twice is rewriting once |
| `PgStartup.FirstNonEmptyReachesUpstream` | internal/proxy/server.go:435-449 | for every parameter list, the upstream's database is the target's, else the client's first non-empty one, if and only if there is a target database, no client database, a non-empty first one, or none that is non-empty |
| `PgStartup.LookupIsFirstValue` | internal/proxy/pgwire.go:78-85 | lookup yields the first value given for the key, or the empty string |
| `PgStartup.FirstChoiceIsTheOnlyChoice` | internal/proxy/pgwire.go:78-85 | an empty first database parameter hides a later one |
| `PgStartup.UpstreamParams` | internal/proxy/server.go:435-449 | the appending loop computes the rewrite that `PgStartup.RewriteIs` lays out |
| `PgStartup.UpstreamStartupDecodes` | internal/proxy/server.go:526-540 | the frame sent upstream decodes to exactly those parameters |
| `PgStartup.MessageRoundTrip` | internal/proxy/pgwire.go:127-158 | a typed message is read back if and only if its body is at most 65536 bytes |
| `PgStartup.MessageLayout` | internal/proxy/pgwire.go:150-158 | its bytes: type, big-endian length of the rest, body |
| `Variables.Resolve` | internal/config/variables.go:46-86 | the one-pass loop computes the template's meaning: its text, its missing names, or malformed |
| `Variables.RequiredVars` | internal/config/variables.go:11-40 | the scan returns the names in first-occurrence order without repeats |
| `Variables.PlainBytes` | internal/config/variables.go:46-86 | the language on bytes: other bytes stand for themselves, `$$` for `$`, and any other `$` is an error |
| `Variables.NamedVariable` | internal/config/variables.go:46-86 | `${name}` stands for the variable's value; without one the name heads the missing list, once; unclosed it is an error |
| `Variables.RequiredNames` | internal/config/variables.go:11-40 | the names the scan finds, byte by byte, malformed templates included |
| `Variables.MissingIsRequiredMinusGiven` | internal/config/variables.go:11-86 | the missing list is the required list without the given names, duplicate-free, and resolution succeeds if and only if it is empty |
| `Variables.ParseRender` | internal/config/variables.go:46-86 | every list of pieces is the reading of the template that spells it out |
| `Variables.RenderParse` | internal/config/variables.go:46-86 | a template that parses is spelled out by its pieces |
| `Variables.EscapeResolves` | internal/config/variables.go:46-86 | doubling every dollar sign and resolving gives the string back |
| `Variables.ResolvableIffWellFormed` | internal/config/variables.go:46-86 | some variables resolve a template if and only if it is well formed |
| `Config.IdentifierResolves` | internal/config/config.go:16-21 | a valid identifier resolves if and only if every maximal run of dollar signs is even, to a valid identifier; otherwise it is malformed |
| `Config.ValidatedNameThatNeverResolves` | internal/config/config.go:319-321 | `a$b` is a valid identifier and resolves under no variables |
| `Config.AcceptedTemplateResolves` | internal/config/config.go:318-321 | an accepted target's database resolves under some variables if and only if it is well formed; without variables, if and only if its runs of dollar signs are even |
| `Config.TemplateThatNeverResolves` | internal/config/config.go:318-321 | `${A}$` names a variable, so the identifier rule passes it by, and resolves under no variables |
| `Config.DollarFreeResolvesToItself` | internal/config/variables.go:46-86 | a dollar-free name resolves to itself under all variables |
| `Config.Validate` | internal/config/config.go:186-361 | the loops with their seen-maps accept exactly the configurations that meet the declarative rules |
| `Config.CheckTarget` | internal/config/config.go:262-321 | one target's rules: name, inline endpoint or forward but not both, user, password, SSL mode, auth source, plain database name |
| `Config.AcceptedRules` | internal/config/config.go:186-361 | what acceptance means for each database and target, in the configuration's own words |
| `Config.IdentifierShape` | internal/config/config.go:16-21 | identifiers are 1 to 63 letters, digits and underscores, after the first also dollar signs and hyphens |
| `Config.AcceptedEndpoints` | internal/config/config.go:425-431 | every target of an accepted configuration resolves to its own host and port, or to those of the forward it names, the port in 1..65535 |
| `Config.AcceptedListeners` | internal/config/config.go:186-361 | adapters in use have listen ports in range, different adapters different ones |
| `Config.ListenersServe` | internal/config/config.go:127-145 | every configured database has a listener, and two share one exactly if they speak the same protocol |

## Left out

- Sockets, dial and read timeouts, TLS handshakes, listeners, accept loops and byte piping: streams and scripts of packets stand for them; a failing write to a peer is not modelled.
- Hash functions, RSA-OAEP, PEM and X.509 parsing and random salts are parameters; only digest lengths are used, and RSA is a function of key, plaintext and the draw of its random source.
- SCRAM logins to PostgreSQL and MongoDB (internal/proxy/auth.go, internal/proxy/mongoauth.go): drivers around a foreign library; their framing is covered by the codecs here.
- Contents of the MongoDB hello and admin replies (internal/proxy/mongoadmin.go): documents supplied by the environment of the routing loop, as is the hello test, whose lower-casing is Unicode.
- PostgreSQL preamble handling (SSLRequest, CancelRequest), error responses and the probe: easy members that do not touch routing state.
- Control socket, command line, YAML loading, warnings and all error wording; of errors only failure, codes and the missing-variable list are kept.
- UpsertParam (internal/proxy/pgwire.go:89-97): unused by the proxy.
- Apply's separate read of the previous target, which only feeds its report, is not an action of the step model; reports are related for serial calls only.
- Overlapping calls: each database's commit is one write in `Overlap.dfy`, and two calls overlap; the closing of connections meanwhile is the subject of `Schedules.dfy`.
- Config.AcceptedTemplateResolves: says when Resolve can succeed; whether the text then passes the identifier test of ResolveTarget depends on the values given.
- Routing.Conn.Close: the serial class model has no concurrency; exactly-once under interleaving is stated in Schedules.
- MySqlPacket.ReadConsumes: stated at the protocol's maximum only, since a smaller maximum admits frames longer than itself that the writer never emits.
- MongoDispatch.ReplyDecodes: OP_MSG transport only; the legacy OP_REPLY body has no parser in the proxy to invert, and its bytes are stated in MongoDispatch.ReplyTells.
