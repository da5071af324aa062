# A verified model of ngx-php

ngx-php runs PHP coroutines inside nginx. This project models the parts of it that carry real state or
arithmetic, and proves what they keep over all inputs and all runs. Each file is one component:

| file | component |
|---|---|
| `Keepalive.dfy` | the upstream connection pool: slots in two intrusive circular queues |
| `PoolSpec.dfy` | the pool as a recency list, and the ownership of connections as a state machine |
| `Socket.dfy` | connect, clear and read events on the heap, tied to the steps of that state machine |
| `Send.dfy`, `Recv.dfy` | non-blocking send and receive as step machines over event runs |
| `ConfFile.dfy` | the reader of PHP blocks in nginx's configuration, with its sliding 4096-byte buffer |
| `NamedArgs.dfy` | binding positional and named arguments into a call frame |
| `Mysql.dfy` | the MySQL driver's packet walk and result-set state machine |
| `Redis.dfy`, `RedisArray.dfy` | the Redis driver's command writer and reply parser; arrays of bulks, integers and nil |
| `QueryArgs.dfy`, `Cookie.dfy` | the scanners of query and post arguments and of cookies |
| `StringUtil.dfy` | string replacement with a size computed in advance |
| `Uthread.dfy` | the life of a coroutine against `phase_status` |
| `Output.dfy` | the output chain with its tail pointer and length, and the joining of a request body |
| `Common.dfy`, `Text.dfy` | shared types and facts on sequences and strings |

Code that changes state is a class or a method with loops, proved equal to a function on values; the
theorems are lemmas about those functions, mostly over whole runs. I/O is an argument: what the kernel, the
event engine, a file read or a piece of PHP code answers is given to each step, and the statements hold for
all answers. PHP strings and C buffers are sequences of bytes or characters.

## Where the code and its promise differ

Each of these is proved: a lemma shows the case, and another gives the exact condition under which the
promise holds, on what a caller has before the call. The one exception is named under "Left out": arrays in
Redis replies, of which some come back outside the condition.

- Ownership of connections fails when an upstream that holds one connects again (the old one leaks), and
  when a connection is cleared while pooling is off or its read event cannot be registered (the pointer to
  the closed connection stays, and the next clear closes it again).
- When the read event of a pooled connection cannot be added, `ngx_http_php_keepalive_get_peer` returns an
  error, but `ngx_http_php_socket_get_peer` reports the connection as found all the same.
- A chunk can be longer than the size a receive call asks for, when a larger buffer is still pending.
- A PHP block is accepted only if its closing brace is among the 4096 bytes from its start, whatever the
  block has in it; and the text that is handed out ends at the first NUL.
- When the warning about a missing reference becomes an exception, the frame of a named call is left with a
  slot that nothing was written to, if the parameter lies beyond the argument count. The flag that announces
  UNDEF slots depends on the order of the names, unlike all else in the frame: it does if it was not set
  before, at least two slots are added, and every slot that is added is named.
- A MySQL row of several columns whose first value is empty is taken for an OK packet and ends the result
  set; a result set without rows leaves the driver in state 2.
- A Redis argument comes back only if it is not empty, not "0", and has no CR or LF. The array loop takes
  each element of a reply to have two lines: behind an integer or a nil only nil elements come back.
- A query value with a `=` behind its first character is misread, and a `&` before the first `=` makes the
  splitter read a NULL key. An item without a `=` is added under the key before it, or lost if it is the
  last. A cookie value is cut at such a `=` too, and what is before it is taken for a name.
- Every header whose name is the start of "cookie", such as "c", is searched for cookies.
- MySQL lengths of more than one byte are read from the byte that announces them on, and a null value takes
  the rest of its row.
- A generator that is at its end when it is created is released, but the pointer to it is kept, and the
  handler of a script file that is entered next releases it again. A script that blocks without a yield
  waits forever, and so does a coroutine that bails out when it is resumed.

## Model

| member | source | states |
|---|---|---|
| Keepalive.Conf.constructor | src/ngx_http_php_keepalive.c:33-53 | makes exactly `max` distinct slots, all in the free queue, with both circular queues well formed |
| Keepalive.Conf.Valid | src/ngx_http_php_keepalive.c:44-50 | the two queues are circular, doubly linked, disjoint, and together hold exactly the slots made; the cache queue records the abstract pool |
| Keepalive.InsertHead | src/ngx_http_php_keepalive.c:78 | ngx_queue_insert_head on a well-formed ring gives the ring with the node in front |
| Keepalive.Remove | src/ngx_http_php_keepalive.c:77 | ngx_queue_remove on a well-formed ring gives the ring without that node |
| Keepalive.MemN2Cmp | src/ngx_http_php_keepalive.c:74 | the address comparison is zero exactly for equal bytes of equal length |
| Keepalive.Conf.GetPeer | src/ngx_http_php_keepalive.c:56-100 | the walk of the queue is the abstract lookup: the first slot of that address moves to the free queue and its connection to the peer; a miss changes nothing; a hit is Done or Error exactly as its read event could be added or not, and delivers the connection in both cases |
| Keepalive.Conf.TakeSlot | src/ngx_http_php_keepalive.c:122-136 | the slot used for a release is the first free one, or the last of the cache with its connection evicted, and never the sentinel when there are slots |
| Keepalive.Conf.FreePeer | src/ngx_http_php_keepalive.c:103-161 | is the abstract release: the connection becomes the newest entry with the address bytes of its peer, and only a full pool evicts |
| Keepalive.Conf.OnRead | src/ngx_http_php_keepalive.c:172-207 | an idle connection is closed and its slot freed unless the one-byte peek would block and the event can be registered |
| PoolSpec.AcquireTakesNewest | src/ngx_http_php_keepalive.c:67-97 | a lookup takes the most recently released connection of the address, and misses exactly when the cache has none; all others stay |
| PoolSpec.ReleaseEvictsOldest | src/ngx_http_php_keepalive.c:122-159 | a release keeps every idle connection, except that with no free slot exactly the one released longest ago is evicted |
| PoolSpec.ConnectTakes | src/ngx_http_php_socket.c:262-290 | a connect gives the upstream the newest idle connection of the address and takes exactly that out of the pool; without one the pool is left alone and the network decides what is held |
| PoolSpec.ClearParks | src/ngx_http_php_socket.c:401-440 | a clear puts the connection at the head of the pool, under the address it was made to, and closes nothing but the oldest idle one of a full pool; with pooling off or a failed event it closes the connection and leaves pool and pointer alone |
| PoolSpec.PeerCloses | src/ngx_http_php_keepalive.c:172-207 | a hangup of an idle connection takes exactly that out of the pool and closes it; any other event does nothing |
| PoolSpec.StepLinked | src/ngx_http_php_keepalive.c:67-206 | whatever the environment does, no connection comes to be pointed to from two places, the cache stays ordered by release, and the queues keep their total size |
| PoolSpec.ConnectOwned | src/ngx_http_php_socket.c:262-290 | connecting keeps one owner for each open connection if and only if the upstream held none, or failed without touching its pointer |
| PoolSpec.ClearOwned | src/ngx_http_php_socket.c:401-440 | clearing keeps it if and only if the upstream holds nothing, or pooling is on and the read event was registered |
| PoolSpec.OwnershipOverRuns | src/ngx_http_php_socket.c:106-131 | over any interleaving of connects, clears and peer closes, every open connection has exactly one owner and none is closed twice in every state, if and only if every step was a proper one |
| PoolSpec.StepOwned | src/ngx_http_php_socket.c:262-290 | one step of any kind keeps exact ownership if and only if it was a proper one |
| PoolSpec.ProperRunEndsOwned | src/ngx_http_php_socket.c:401-440 | such a run ends with exact ownership and at most `max` idle connections |
| PoolSpec.DoubleCloseWithoutPool | src/ngx_http_php_socket.c:422-440 | with pooling off, two clears close one connection twice |
| Socket.Cycle.Connect | src/ngx_http_php_socket.c:231-349 | is the connect step of the ownership machine, on the heap; back pointers stay right. The answer is an error exactly on a miss for which no connection was opened, or one that is connected could not register its events; OK exactly on a miss whose connection is connected and registered; and AGAIN else, a pooled connection among it |
| Socket.Cycle.OpenNew | src/ngx_http_php_socket.c:262-279 | a socket that connects or is connecting is a new open connection of the peer; without one the peer's pointer is untouched or null |
| Socket.Cycle.FromPool | src/ngx_http_php_socket.c:107-121 | every result of the pool other than "none" is a hit, also when the event could not be added |
| Socket.Cycle.Clear | src/ngx_http_php_socket.c:1260-1286 | is the clear step: the connection goes back to the pool, or is closed with the pointer left; what it closes is what the machine counts as closed |
| Socket.Cycle.ReadEvent | src/ngx_http_php_keepalive.c:172-207 | is the peer-close step: of all open connections only an idle one is closed by a read event |
| Socket.Cycle.Drive | src/ngx_http_php_socket.c:106-131 | any sequence of connects, clears and read events, on the heap, is a run of the ownership machine: every open connection has one owner and none is closed twice, throughout, if and only if each step is a proper one |
| Send.SendConserves | src/ngx_http_php_socket.c:492-549 | from the call that starts a request over any run of partial sends and write events, the wire has carried exactly the bytes before `pos`, each once and in order, and OK means that all went out |
| Send.NothingAfterLast | src/ngx_http_php_socket.c:510-513 | once the last byte is out, no write event sends anything |
| Send.Upload.UpstreamSend | src/ngx_http_php_socket.c:473-552 | the send loop on the upstream's fields computes the specified state and result for every sequence of kernel answers; `pos` advances by what the kernel took up to its first refusal, and the answers OK and error are characterised by that |
| Send.UpstreamCarries | src/ngx_http_php_socket.c:494-549 | one call of the send loop keeps the account of bytes; OK only with all of them out, AGAIN only with the send handler installed |
| Send.UpstreamAdvances | src/ngx_http_php_socket.c:492-552 | for all kernel answers: what goes out is what the kernel takes up to its first refusal, capped at the rest; OK if and only if that is all and the event could be registered; an error if and only if it could not, or the connection broke before the last byte |
| Send.WritesDeliver | src/ngx_http_php_socket.c:492-582 | over any run of write events a waiting request is sent as far as they let it, also behind one in which the connection broke, and is dropped if and only if they took its rest |
| Send.Upload.SocketSend | src/php/impl/php_ngx_sockets.c:213-267 | a new request replaces the old one, and is sent from its start by the same account |
| Send.Upload.WriteEvent | src/ngx_http_php_socket.c:555-582 | a write event that is not timed out, with the send handler and a queued request, advances by exactly what the kernel takes up to its first refusal, and drops the request if and only if that reaches its end; any other changes nothing |
| Recv.RecvConserves | src/ngx_http_php_socket.c:607-773 | over any run of receive calls and read events, what the script read with what waits in its variable equals the bytes taken from the socket |
| Recv.ReadsKeepChunk | src/ngx_http_php_socket.c:826-828 | after a delivery no read event touches the chunk or the socket before the next call |
| Recv.ChunkBound | src/ngx_http_php_socket.c:610-625 | the size a call asks for bounds every chunk if and only if no larger buffer is pending |
| Recv.UpstreamDelivers | src/ngx_http_php_socket.c:607-797 | for every input: the chunk is the first bytes the kernel has, exactly those are taken from the socket, and the buffer is given up, also at the end of the file; else it stays and nothing is taken; with the answer and the code of each case |
| Recv.ReadsDeliver | src/ngx_http_php_socket.c:800-830 | a receive call that found nothing is served by the first later read event that finds something, however many before it find nothing, fail or time out, and by no other |
| Recv.Download.UpstreamRecv | src/ngx_http_php_socket.c:585-797 | receiving into the allocated buffer computes the specified state and result for every input, and never writes outside it |
| Recv.Download.SocketRecvCall | src/ngx_http_php_socket.c:1058-1132 | a receive call starts a new chunk and delivers what the kernel has, or leaves the buffer for the read events; its answer is given for every case, and its handler is registered unless that fails behind an earlier call |
| Recv.Download.ReadEvent | src/ngx_http_php_socket.c:800-830 | a read event that is not timed out delivers into the buffer that is held: the chunk is what the kernel has, capped at its size, and the buffer is given up; with nothing there it stays; without a buffer nothing is received |
| ConfFile.Reader.ReadToken | src/ngx_php_conf_file.c:196-333 | fails to read if and only if a read it made failed or came short; otherwise, with its moving buffer and refills, it returns for every file and start what the bytes of the file decide: the text up to the first unmatched brace, the end of the file, or "too long", with the line counter raised by the line feeds passed |
| ConfFile.Reader.Refill | src/ngx_php_conf_file.c:263-290 | makes one read, and succeeds exactly if it gives all bytes: moving the token to the front and reading on then keeps the buffer equal to the part of the file it stands for |
| ConfFile.Reader.More | src/ngx_php_conf_file.c:230-295 | reads only when all bytes read were looked at, the file goes on and the token leaves room; reports the end, a full buffer or a failed read as it is |
| ConfFile.ScanFindsClose | src/ngx_php_conf_file.c:306-331 | a one-pass scan with a depth counter finds the first closing brace that closes more than was opened, and nothing exactly if there is none |
| ConfFile.OutcomeDecided | src/ngx_php_conf_file.c:232-329 | which result a file gets: a block if and only if its brace is among the first 4096 bytes, "too long" if and only if those are balanced and the file goes on; the text is whole if and only if it has no NUL |
| ConfFile.ParsesWhen | src/ngx_php_conf_file.c:420-456 | for every kind of parse and answer of the handler: a block parse succeeds if and only if the block is closed within one buffer of its start, any other if and only if nothing closes and the rest of the file is no longer than a buffer; and never where the handler or a read fails |
| ConfFile.ConfParse | src/ngx_php_conf_file.c:336-456 | passes the reader's result on, a read error exactly when a read failed, and succeeds exactly when the bytes of the file, the reads and the handler let it |
| NamedArgs.OrderIrrelevant | src/ngx_http_php8_zend_uthread.c:532-592 | for any set of distinct names, whether binding succeeds, the slots, the argument count and the extra parameters do not depend on the order |
| NamedArgs.CallOrderIrrelevant | src/ngx_http_php8_zend_uthread.c:245-334 | the same for a whole call with positional arguments before |
| NamedArgs.CallIsMeant | src/ngx_http_php8_zend_uthread.c:245-334 | the frame of every call: slot i holds what is to be stored for positional argument i, or UNDEF where none is given, also for the items of the table before the first name; where one cannot be passed the frame is exactly that of those before it; else the call succeeds if and only if each name can be bound on its own and no position comes behind a name, and the frame is what the set of names means |
| NamedArgs.ParamsPut | src/ngx_http_php8_zend_uthread.c:245-282 | the first loop puts each positional argument into its slot, up to the first that cannot be passed |
| NamedArgs.TablePuts | src/ngx_http_php8_zend_uthread.c:300-333 | an item of the table without a name goes to the next position, with what is to be stored for it there |
| NamedArgs.NamesBind | src/ngx_http_php8_zend_uthread.c:284-334 | from the first name on the names are bound one by one, and a position behind them is refused |
| NamedArgs.BindAllMeans | src/ngx_http_php8_zend_uthread.c:284-334 | binding all succeeds if and only if each could be bound on its own, and then each slot is the argument of its parameter, the old slot, or UNDEF, and the count is the least that covers them |
| NamedArgs.BindKeeps | src/ngx_http_php8_zend_uthread.c:561-592 | no bind overwrites an argument; every slot stays an argument or announced UNDEF, if and only if the argument is not one that cannot be passed to a parameter beyond the argument count |
| NamedArgs.BindStatus | src/ngx_http_php8_zend_uthread.c:532-592 | which error a bind ends with: the name is unknown, its place is taken, or what is passed must be a reference and is none |
| NamedArgs.UnwrittenSlot | src/ngx_http_php8_zend_uthread.c:309-320 | a call that fails so, with the unwritten slot below the argument count |
| NamedArgs.CallKeeps | src/ngx_http_php8_zend_uthread.c:245-334 | the same for whole calls: the frame is well formed if and only if it is not so that all positional arguments can be passed and the first item of the table that cannot has a name and belongs beyond the count reached; the table leaves the arguments before it |
| NamedArgs.NamesKeep | src/ngx_http_php8_zend_uthread.c:289-333 | the same for the names of the table, from any frame that names bound before have led to |
| NamedArgs.CallSeparates | src/ngx_http_php8_zend_uthread.c:273-281 | in the frame of every call, also a failed one, a by-value parameter holds no reference, unless the function is a trampoline |
| NamedArgs.PassMeans | src/ngx_http_php8_zend_uthread.c:254-281 | what is stored is the argument or the value it refers to; nothing is, exactly if a by-reference parameter gets a value and the warning becomes an exception |
| NamedArgs.FlagOrder | src/ngx_http_php8_zend_uthread.c:572-580 | for arguments that can be bound, the UNDEF flag is the same in every order of the names if and only if it was set before, or at most one slot is added, or one that is added is named by nobody |
| NamedArgs.FlagKnown | src/ngx_http_php8_zend_uthread.c:572-580 | and where it is the same, it is set exactly if it was before or there is such a gap |
| NamedArgs.FlagDependsOnOrder | src/ngx_http_php8_zend_uthread.c:572-580 | two calls with the same names in different order and different flags |
| NamedArgs.CacheSlot.GetArgOffset | src/ngx_http_php8_zend_uthread.c:478-515 | with or without a cache hit the offset is that of the first parameter of that name, or of the variadic one; the cache stays right |
| NamedArgs.Call.HandleNamedArg | src/ngx_http_php8_zend_uthread.c:532-592 | in memory: finds or makes the place, marks the gap, and keeps what was passed when the frame moves |
| NamedArgs.Call.CopyFrame | src/ngx_http_php8_zend_uthread.c:594-625 | copying the frame to a new segment keeps all passed arguments and makes the room asked for |
| NamedArgs.Call.PassParams | src/ngx_http_php8_zend_uthread.c:245-282 | the positional loop in memory: each slot below the count holds what is to be stored for its argument, or UNDEF; it fails exactly at an argument that cannot be passed, and sets the count back to it |
| NamedArgs.Call.PassTable | src/ngx_http_php8_zend_uthread.c:284-334 | the loop over the table: names are bound, and positions are refused behind a name |
| NamedArgs.Call.Extend | src/ngx_http_php8_zend_uthread.c:305 | more slots of the segment or of a new one: what was passed stays, and nothing beyond it was written to |
| NamedArgs.PushAndPass | src/ngx_http_php8_zend_uthread.c:228-334 | all argument passing of a call, in memory, gives the specified frame and status, which are what the arguments mean: the positional ones in their slots, then the set of names |
| Mysql.Client.ParseReadPacket | t/lib/mysql.php:243-300 | on every string of bytes the recursion ends, and does to the object what a walk over the packets cut from the string says |
| Mysql.Client.RowDataPacket | t/lib/mysql.php:485-500 | the loop over the columns appends the row that the data has from its start, one value after the other |
| Mysql.CutWire | t/lib/mysql.php:245-251 | the bytes of any packets below 65536 bytes are cut into these packets again |
| Mysql.CutBound | t/lib/mysql.php:245-251 | there are finitely many packets in every string of bytes: each moves the offset by at least four |
| Mysql.StopsAtEnd | t/lib/mysql.php:245-262 | an offset at or past the end decodes as a packet of no bytes and stops |
| Mysql.WalkEnds | t/lib/mysql.php:253-298 | which packets end the walk in which state, what is kept, and that only the end of rows changes the state |
| Mysql.NoMoreColumns | t/lib/mysql.php:279-295 | once rows are expected no further column is taken |
| Mysql.FieldRoundTrip | t/lib/mysql.php:426-473 | a column definition with strings up to 250 bytes is read back as it was written, numbers included |
| Mysql.RowRoundTrip | t/lib/mysql.php:485-500 | a row of values up to 250 bytes is read back under its columns |
| Mysql.Lengths | t/lib/mysql.php:120-151 | what every length announcement is read as: those of one byte as the protocol has them, longer ones with the announcing byte as their lowest, cut-off ones as null |
| Mysql.NullValue | t/lib/mysql.php:490-494 | a null value takes all that is left of the row, and leaves all but its first byte to the next |
| Mysql.SubstrIs | t/lib/mysql.php:492 | substr gives what is between two ends, each counted from the end if it is negative |
| Mysql.RowMapAt | t/lib/mysql.php:488-496 | where column names are distinct each value is found under its own |
| Mysql.ResultSetParses | t/lib/mysql.php:243-300 | of a result set the client gets all columns, and the rows before the first that looks like an OK packet; the final state is 0 or 2 as there is such a row or not |
| Mysql.ResultSetRoundTrip | t/lib/mysql.php:243-300 | all rows come back with final state 0 if and only if there is a row and no row of several columns starts with an empty value |
| Mysql.Query | t/lib/mysql.php:533-547 | the same on the object: after a reset and the parse of a result set it has the columns and the rows that can be read, and state 0 if and only if there is one |
| Redis.CommandRoundTrip | t/lib/redis.php:103-177 | parsing the text of a command returns its arguments if and only if none is empty, "0", or has a CR or LF |
| Redis.CommandIsRead | t/lib/redis.php:103-117 | by the protocol, whose lengths count, the text of a command is read as exactly its arguments, whatever is in them |
| Redis.ParseBulk | t/lib/redis.php:139-148 | a bulk reply is taken to be the first run without CR and LF behind its length, whatever the length says |
| Redis.StatusReply | t/lib/redis.php:150-152 | a status comes back without the spaces around it |
| Redis.NumberReply | t/lib/redis.php:139-185 | an integer of either sign, a sign written or not, comes back, a bulk of negative length is null and an error false |
| Redis.NullReply | t/lib/redis.php:139-187 | an array or bulk of negative size is null whatever follows, and so is a reply of no known kind |
| Redis.EmptyIsNull | t/lib/redis.php:163-175 | an element that is an error, 0, empty, the bulk "0" or an empty array is null in an array |
| RedisArray.ArrayRoundTrip | t/lib/redis.php:154-177 | an array of bulks, integers and nil comes back if its bulks are not empty, not "0" and free of CR and LF, its integers are not 0, and behind the first integer or nil there is only nil; and only then, unless behind that element a bulk has a CR or LF and a line of one starts with a plus sign |
| RedisArray.BehindOneLine | t/lib/redis.php:163-175 | behind an element of one line the loop gives back exactly nil elements, whatever else is there |
| RedisArray.WildArrayReturns | t/lib/redis.php:146-175 | such an array that comes back outside the condition |
| RedisArray.NilLosesPlace | t/lib/redis.php:163-175 | behind a nil element the first line of the rest is skipped |
| Redis.DataParse | t/lib/redis.php:136-188 | the recursion and its loop end on every string and compute the specified reply |
| Redis.WriteData | t/lib/redis.php:103-117 | the loop writes the text of the command |
| QueryArgs.PairsRoundTrip | src/php/impl/php_ngx_core.c:87-122 | pairs joined by `&` come back in order if and only if no value has a `=` behind its first character |
| QueryArgs.PairsToArray | src/php/impl/php_ngx_core.c:87-122 | and then the array is that of left-to-right updates |
| QueryArgs.FaultsWhen | src/php/impl/php_ngx_core.c:99-103 | a NULL key is read if and only if there is a `&` with no `=` before it |
| QueryArgs.ArgsScanned | src/php/impl/php_ngx_core.c:87-122 | of every query, as the items between its `&`: each item that another follows is added under the key it ends with, its own last one or one before it, the last item only under its own, and nothing at all if there is no key at a `&` |
| QueryArgs.CutItems | src/php/impl/php_ngx_core.c:87-122 | every string is such items |
| QueryArgs.KeySetAgain | src/php/impl/php_ngx_core.c:99-113 | an item without a `=` is added under the key before it if another item follows, and lost if not |
| QueryArgs.Split | src/php/impl/php_ngx_core.c:87-122 | on every input the cursor advances each turn and never passes the end; the array is that of the specified scan |
| QueryArgs.PostArgs | src/php/impl/php_ngx_core.c:127-208 | post arguments are the split of the concatenated body buffers |
| Text.JoinChain | src/php/impl/php_ngx_core.c:147-162 | measuring and copying a chain of buffers gives their concatenation |
| Cookie.CookieFound | src/php/impl/php_ngx_cookie.c:92-135 | of any header made of cookies the value of the first one whose name starts with the key is found, or nothing without one, if and only if no part of a value before it that ends in a later `=` starts with the key and its own value is clean, or such a part happens to be followed by that value |
| Cookie.CookieScanned | src/php/impl/php_ngx_cookie.c:92-135 | what is found in every case: of the first cookie whose name, or a part of whose value, starts with the key, what is behind the last cut |
| Cookie.HeaderScanned | src/php/impl/php_ngx_cookie.c:92-135 | what is found in any header, as its parts between the `;`, with or without a space: the first part with a cut that starts with the key counts, and of it what is behind the last cut; the first character behind a `;` is passed unseen |
| Cookie.CutHeader | src/php/impl/php_ngx_cookie.c:92-135 | every string is such parts |
| Cookie.RightByChance | src/php/impl/php_ngx_cookie.c:97-111 | a header in which a part of an earlier value starts with the key, and the right value is found all the same |
| Cookie.TailIsClean | src/php/impl/php_ngx_cookie.c:97-111 | what is behind the last cut has no later `=`, and is the whole value exactly if that has none |
| Cookie.MatchesIsPrefix | src/php/impl/php_ngx_cookie.c:102 | a name matches exactly when it starts with the key, ignoring case; a NUL in a key has to be the end of the name as well |
| Cookie.ValueTakenForName | src/php/impl/php_ngx_cookie.c:97-107 | a `=` in a value can make a match that no cookie is |
| Cookie.GetFromHeader | src/php/impl/php_ngx_cookie.c:92-135 | the loop with its found flag computes the specified scan |
| Cookie.StrNCaseCmp | src/php/impl/php_ngx_cookie.c:102 | the comparison ignores case and ends at a NUL or after n characters |
| Cookie.CookieGet | src/php/impl/php_ngx_cookie.c:78-137 | a header is looked at if and only if "cookie" starts with its name, ignoring case; of those the last in which something is found counts, and null if there is none. Of a request with one header of cookies among any others, the value of the first cookie whose name starts with the key is returned exactly under the condition of CookieFound |
| StringUtil.StrReplace | src/ngx_http_php_util.c:50-91 | the buffer whose size was computed in advance is filled exactly with the leftmost non-overlapping replacement and the terminator |
| StringUtil.Fill | src/ngx_http_php_util.c:70-83 | before and after each round the buffer holds the start of the result with a NUL behind it, and the pieces left are those of the text left |
| StringUtil.Occurrences | src/ngx_http_php_util.c:33-47 | the counting pass visits the positions at which the replacement cuts |
| StringUtil.SplitLeftmost | src/ngx_http_php_util.c:74-83 | each cut is at the leftmost occurrence that is left, and the last piece has none |
| StringUtil.SplitJoin | src/ngx_http_php_util.c:74-83 | the pieces glued with the substring are the string again |
| StringUtil.ReplaceBySelf | src/ngx_http_php_util.c:50-91 | replacing a substring by itself is the identity |
| StringUtil.SizeExact | src/ngx_http_php_util.c:61-62 | the size computed from the count is the length of the result and its terminator |
| Uthread.SafetyOverRuns | src/ngx_http_php_zend_uthread.c:345-533 | over any run, NGX_AGAIN goes with a live generator, every generator is released once and every start goes on to the output once, if and only if every operation was a behaved one |
| Uthread.StepSafe | src/ngx_http_php_handler.c:1074-1125 | one step keeps this if and only if a script does not block without a yield, a file handler finds no stale pointer, and a waiting generator does not bail out |
| Uthread.Started | src/ngx_http_php_zend_uthread.c:345-444 | what starting a script comes to: it waits exactly if its generator stands at a yield or it blocks, else it goes on to the output at once; a generator that was made is released unless it is held at a yield |
| Uthread.FileStarted | src/ngx_http_php_handler.c:904-943 | the script of a file waits exactly if it blocks, and there is nothing to resume |
| Uthread.Waiting | src/ngx_http_php_zend_uthread.c:512-524 | while a coroutine waits, re-entries start and release nothing; the resume that finds it at its end releases it once and re-enters the phase engine once |
| Uthread.WholeLife | src/ngx_http_php_zend_uthread.c:477-524 | the same for a coroutine's whole life, with any number of yields and of re-entries in between |
| Uthread.EndedAtOnce | src/ngx_http_php_handler.c:1121-1125 | the double release behind a generator that ended at once |
| Uthread.BlockedForever | src/ngx_http_php_zend_uthread.c:423-428 | after a script that blocks without a yield no event ever brings output, from any safe state |
| Uthread.BailedOutForever | src/ngx_http_php_zend_uthread.c:526-532 | a coroutine that bails out when it is resumed is released once, and the request waits for ever |
| Uthread.Context.InlineHandler | src/ngx_http_php_handler.c:1074-1125 | the handler of an inline script makes the specified step on the context's fields |
| Uthread.Context.FileHandler | src/ngx_http_php_handler.c:904-943 | so does the handler of a script file |
| Uthread.Context.CreateInline | src/ngx_http_php_zend_uthread.c:345-444 | so does the creation of the coroutine |
| Uthread.Context.ResumeUthread | src/ngx_http_php_zend_uthread.c:447-533 | so does its resumption |
| Output.Respond | src/ngx_http_php_handler.c:1139-1192 | for any run of writes the chain read from `out` is their concatenation, or one space for none; only the final buffer is marked; the length is that of the text, added to what a script set |
| Output.CountIsTotal | src/ngx_http_php_core.c:420-424 | the length counted from -1 is the sum of the lengths written |
| Output.Request.UbWrite | src/ngx_http_php_core.c:376-428 | a write appends one link through the tail pointer, which then designates the final link |
| Output.Request.SetOutput | src/ngx_http_php_handler.c:1139-1183 | an empty output gets one space, and the final buffer of the chain, and no other, is marked |
| Output.Request.ReadChain | src/ngx_http_php_handler.c:1192 | following the links from `out` meets the buffers in the order of the writes |
| Output.Body.ReadCallback | src/ngx_http_php_handler.c:766-833 | a body in memory is the concatenation of its buffers, and the phase engine is entered exactly if there is none or the handler waits for it |

## Left out

- Real sockets, timers, DNS resolution, file reads and logging: they appear as the answers a step is given.
- The Zend engine beyond the call frame: refcounts, exceptions as objects, longjmp; running PHP code is an outcome.
- Memory pools and allocation failure: allocation succeeds, and what a destroyed pool takes with it is not modelled.
- Overflow of C and PHP integers: sizes in `str_replace`, offsets and row lengths in the MySQL driver, and `intval` are unbounded integers.
- `ngx_exit` and `ngx_http_php_zend_uthread_exit`: ending a coroutine from inside itself or from PHP's error callback.
- Reading the request body before the phase dispatch of a handler, response headers and status codes.
- `zend_call_function` for PHP 7, `ngx_http_php_fnthread.c`, `ngx_http_php_output.c`, the memcached driver: near copies or thin wrappers.
- Directive setters, module tables, constants, request getters and the opcode tracer: no state to speak of.
- NULL arguments of `occurrences` and `str_replace`: strings are C strings that exist.
- Keepalive.Conf.FreePeer: starts behind the test of the read event, which `Socket.Cycle.Clear` makes; the connection it closes is returned instead of destroyed.
- Keepalive.Conf.OnRead: returns that the connection is to be closed; the close itself is counted by `Socket.Cycle.ReadEvent`.
- Socket.Cycle.Connect: the resolver and the error of a connect in progress are not modelled; `ngx_event_connect_peer` is nginx's and appears as its possible results.
- Send.Upload.UpstreamSend: a kernel that takes zero bytes for ever keeps the loop of the source running; here the answers are a finite list, whose end stands for a full socket.
- Recv.Download.UpstreamRecv: the order of the read timer and its deletion is not modelled.
- ConfFile.Reader.ReadToken: the dump of the configuration is not modelled; after a failed read the buffer is not described.
- NamedArgs.CacheSlot.GetArgOffset: user and internal functions, which the source searches in two loops, are one case; names have no NUL.
- NamedArgs.PushAndPass: references are values marked as such; separation and counting of references are not modelled.
- Mysql.ResultSetRoundTrip: NULL columns and lengths of 251 and more are parsed as the code does, but no encoding of them is claimed to come back, since the driver does not follow the protocol there.
- RedisArray.ArrayRoundTrip: that only the arrays described come back is not claimed where, behind an element of one line, a bulk has a CR or LF and a line of a bulk starts with a plus sign, because it is not so: such a line is read as a status with all that follows, which can be the text of the bulk itself, as `RedisArray.WildArrayReturns` shows. Statuses and nested arrays as elements are not modelled as elements.
- Redis.DataParse: `intval` of a string with a fraction or exponent is not modelled.
- QueryArgs.Split: a stale key is reused as it was; that its memory may have been freed if it was large is not modelled.
- Uthread.Context.ResumeUthread: a call of `next` or `valid` that the engine refuses is not modelled.
- Output.Body.ReadCallback: that a single buffer is taken without a copy is not modelled.
