# Protocols, filters and algorithms of a collection of small programs, verified in Dafny

The repository is a set of small daemons, stream classes and exercises. This project models the parts
of it that are hard to get right and proves what they are for. `dafny verify dfyconfig.toml` checks
everything.

Code that changes state is a class here, with the fields of the original and methods proved against
functions on values; what must hold over whole runs is proved about those functions. Concurrent parts
are state machines: an action that is not enabled changes nothing, `Exec` folds a list of actions, and a
theorem about `Exec(run)` for every `run` speaks about every interleaving. The classes beside a state
machine show that the real method bodies take exactly its steps; `register_fd`, `unregister_fd` and `stop`
of the select loop are composed of their steps with no other thread in between, while the steps
themselves interleave freely in the runs.

* **Leader election** (`NodeNames`, `Election`, `ElectionLimits`, `ElectionSettles`, `HAMasterObjects`).
  Workers create ephemeral sequential nodes, read the children with a one-shot watch, and decide from
  that snapshot, each as a separate step; a session can be interrupted (kept or replaced, with
  undelivered events lost), sessions expire, workers crash, and `reinit` leaves a worker with several
  nodes of the same id. The ids are any strings. For all of them a quiet worker leads exactly when the
  strings pick it, because any disagreement leaves an event or a session change to come. Left to itself
  after any run, the protocol comes to rest after a bounded number of steps in any order, and then the
  only leader is the worker the strings pick. An id is plain if its names split back into it. With plain
  ids the strings pick the owner of the lowest node, because the sequence field has ten digits; quiet
  workers agree with the lowest node on all runs over a set of ids if and only if all of them are plain;
  and two leaders on live nodes are the same worker on all runs if and only if no id of the set is cut
  to that of another worker while a third one can win. The ids of a host called `stand-by-1` are not
  plain, and one worker 0 on a host called `stand-by-0` makes `stand` the winner of every election among
  workers with plain ids.
* **HTTP response pipeline** (`ChunkedCoding`, `HttpLayers`, `HttpNormalForm`, `HttpAccounting`,
  `HttpTexts`, `HttpObjects`). Reordering over chunking over content-length control over the buffered client, and
  accounting outside. Any legal interleaving is put on the wire in one normal form, whose lines give names, values
  and numbers back; the message to go on is on the wire from the first call; for every buffer size
  the buffered and unbuffered paths keep the order of the calls; chunked bodies decode (section 4.1 of
  RFC 7230) to what was sent exactly when no piece is empty; the accounted total is the bytes sent and
  buffered.
* **LRU map** (`LruMap`). The object with stored list positions refines one list of key and value
  pairs; on that list, each operation's effect on every key is stated, hits return the last value added, the evicted key is the least recent, and the
  contents at a smaller capacity are always a subsequence of those at a larger one.
* **Circular list with a sentinel** (`RingList`). Pointers `next` and `prev` on the heap refine a sequence.
* **Chat server** (`ChatServer`). Total-order broadcast with one write in flight per session; the log is
  exactly the lines read, the arrivals and the first failures of the run.
* **Wake-up protocols** (`TaskQueue`, `SelectLoop`). No lost wake-up, no lost task, no callback after
  `unregister_fd`; a registered descriptor can still be served if and only if the loop has not ended.
* **Algorithms** (`RegexTable`, `MaxProduct`, `SumPairs`). Each method is tied to a declarative meaning: the
  language of the pattern, the greatest product over all partitions, a maximum matching.
* **Stream buffer with a putback area** (`PutbackBuffer`). Over whole runs the characters follow the
  file, and stepping back fails only when the putback area is used up.

Where the code falls short of its promise the exact condition is proved instead: `DecisionRightIffPlain`,
`AgreeIffPlain` and `OneLeaderIffNoClash` for the election; `ResultRightIffLiveFalse` and
`RightForAnyMemoryIffAllStarred` (row 0 of the pattern table is left unwritten in places);
`FitsExactlyTo58`, `SumsFitIffExtremesFit` and `RangeFitsIffDoubleFits` (32-bit arithmetic);
`ServedIffNotExited` (a registration that comes in after the end); `ChunkedRoundTrip` (an empty piece prints
the last chunk); `FailsIffEndedBeforeStatus` (the content-length filter's error comes back as a byte
count); `StatusSentIffShort` (a status line of 128 bytes or more); `EofKeepsWindowIff` (a failed refill
has already overwritten the putback area).

## Model

| member | source | states |
|---|---|---|
| NodeNames.SplitsBackIffPlain | python/daemon/zk_common.py:93-111 | for every id and number, `id-by-NNNNNNNNNN` splits into the sequence field and the id if and only if the first `-by-` of `id-by-` is at its end |
| NodeNames.SplitIdIsPlain | python/daemon/zk_common.py:111 | whatever name is split, the id that comes out is plain |
| NodeNames.ElectableIffPlain | python/daemon/zk_common.py:110-113 | some listing makes an id the elected one if and only if the id is plain; for any other id no listing of any names does |
| NodeNames.StandByHostIsCut | python/daemon/process.py:51-56 | every id of worker 0 on a host named `stand-by-1`, whatever its uuid, is not plain, and every name of it is cut to `stand` with the rest in place of the number |
| NodeNames.StandByAloneIsPlain | python/daemon/process.py:51-56 | the ids of worker 0 on a host named just `stand-by` are plain |
| NodeNames.NamePair | python/daemon/zk_common.py:111 | the name of any id splits; its second part is the cut id, and for a plain id the parts are the number field and the id |
| NodeNames.CutField | python/daemon/zk_common.py:111 | for an id that is not plain the first part does not depend on the number, or begins with a letter |
| NodeNames.DigitsOrder | python/daemon/zk_common.py:112 | zero-padded numerals of any one width are ordered as strings exactly as the numbers are |
| NodeNames.SeqFieldOrder | python/daemon/zk_common.py:112 | ten-digit sequence fields are ordered and distinguished as their numbers are |
| NodeNames.MinTupleIsMinimal | python/daemon/zk_common.py:112 | on any list of string pairs Python's `min` finds an entry that no entry is below |
| NodeNames.MinTupleIs | python/daemon/zk_common.py:112 | and that is the only such entry, in whatever order they are listed |
| NodeNames.SplitAllIs | python/daemon/zk_common.py:111 | the comprehension succeeds and keeps the order when every name splits |
| Election.SafeStep | python/daemon/zk_common.py:33-126 | every step of any worker, crash or expiry keeps the safety invariant, whatever the ids |
| Election.SafeAlways | python/daemon/zk_common.py:33-126 | the safety invariant holds in every reachable state |
| Election.LeaderHoldsLowestNode | python/daemon/zk_common.py:109-126 | in every run the node a leader was elected on is cut to its id, and is the lowest of those with plain ids while it lives if it is its own; with plain ids only it is its own and the lowest |
| Election.AtMostOneLeader | python/daemon/zk_common.py:109-126 | in every run, two leaders whose elected nodes live are the same worker, duplicates after `reinit` included, unless the ids clash |
| Election.LiveAlways | python/daemon/zk_common.py:33-126 | in every reachable state, whatever the ids, each worker is informed: it agrees with what the strings pick from the nodes, or an event, snapshot or session change is still to come |
| Election.BystanderStaysLive | python/daemon/zk_common.py:97-102 | a change of the nodes by others keeps a worker informed, because its armed watch fires |
| Election.QuietWorkersAgree | python/daemon/process.py:64-85 | with nothing in flight, `is_leader` is set exactly when the strings pick the worker from the live nodes; with plain ids only, when the lowest live node carries its id |
| Election.DisagreementIsPending | python/daemon/zk_common.py:97-122 | a running idle worker that disagrees with the nodes, by the strings or (plain ids) by the numbers, has an undelivered event or an unhandled session change |
| Election.OneLeaderWhenQuiet | python/daemon/process.py:64-85 | when all running workers are quiet and there is one, the only running leader is the worker the strings pick; with plain ids only, the owner of the lowest node |
| Election.EmptySnapshotMeansSessionChange | python/daemon/zk_common.py:110-112 | `min` gets an empty list only when the worker's session has changed |
| Election.LeadsIsLowest | python/daemon/zk_common.py:113 | with unique numbers, being the member of some lowest node and being that of the chosen lowest node are the same |
| Election.PicksIsLeads | python/daemon/zk_common.py:110-113 | with plain ids only, the strings pick exactly the owner of the lowest node |
| Election.ListingSplits | python/daemon/zk_common.py:110-111 | a listing of any children in any order splits into the pairs of all the nodes |
| Election.StringMinIsFirstNode | python/daemon/zk_common.py:110-113 | for any ids the string computation gives the pair of the first node, the same for every order of the listing |
| Election.StringMinIsLowestNode | python/daemon/zk_common.py:110-113 | with plain ids only, it names the member of the numerically lowest node |
| Election.DecisionIsNumeric | python/daemon/zk_common.py:109-122 | in every run, that holds of the snapshot a deciding worker has |
| ElectionLimits.DecisionRightIffPlain | python/daemon/zk_common.py:110-113 | over a set of ids, the strings name the member of the lowest node on every listing if and only if all the ids are plain |
| ElectionLimits.StandByZeroUnseatsAll | python/daemon/zk_common.py:110-122 | one worker 0 on a host named `stand-by-0` among workers with plain ids: every listing elects `stand` |
| ElectionLimits.AgreeIffPlain | python/daemon/zk_common.py:97-126 | in every run over a set of ids quiet workers agree with the lowest live node if and only if all the ids are plain |
| ElectionLimits.OneLeaderIffNoClash | python/daemon/zk_common.py:97-126 | in every run over a set of ids at most one running worker leads on a live node if and only if the ids do not clash |
| ElectionLimits.TwoLeaders | python/daemon/zk_common.py:97-126 | for any clashing ids, a run to two running leaders on live nodes |
| ElectionLimits.Join | python/daemon/zk_common.py:104-122 | `elect` of a new worker with nothing in between: its node, its decision, and the others left alone |
| ElectionSettles.CalmStepDescends | python/daemon/zk_common.py:33-126 | every step of the protocol that changes anything, the creation of a node with the events it makes included, lowers one measure of the whole system |
| ElectionSettles.CalmRunsEnd | python/daemon/zk_common.py:33-126 | from any state and in any order there are at most as many such steps as the measure says |
| ElectionSettles.ComesToRest | python/daemon/process.py:64-85 | so from any state some of them lead to one where none is left |
| ElectionSettles.StopsOnlyInElect | python/daemon/process.py:64-85 | a worker ends exactly when it is told to, or in `elect` of its main loop when a call fails for want of the session or the list of nodes is empty; handling a session change ends none |
| ElectionSettles.Reregisters | python/daemon/process.py:82-84 | the handling of a session change in one go: the worker runs on, owns a new node of its session, leads exactly when picked, and is quiet unless an event or its old watch was left over |
| ElectionSettles.NodesOfStep | python/daemon/zk_common.py:92-95 | nodes come only with a creation, one at a time with the present session, and go only with their session |
| ElectionSettles.SessionOfStep | python/daemon/zk_common.py:45-52 | a worker gets a new session only when it reconnects without its old one; resuming a live session loses nothing |
| ElectionSettles.NothingLeftMeansQuiet | python/daemon/process.py:64-85 | then every running worker is quiet, unless the sequence numbers are used up |
| ElectionSettles.ElectionSettles | python/daemon/process.py:64-85 | after any run and any such steps until none is left, the only running leader is the worker the strings pick; with plain ids only, the owner of the lowest node |
| HAMasterObjects.ZKBase.constructor | python/daemon/zk_common.py:20-31 | a new connection is running, with no change seen |
| HAMasterObjects.ZKBase.Listen | python/daemon/zk_common.py:33-43 | LOST and SUSPENDED set the flag as the interrupt step does and wake the loop; other states and a stopped service change nothing |
| HAMasterObjects.ZKBase.Reinit | python/daemon/zk_common.py:45-52 | restarts until the first state that is connected and no further, then clears the flag; the worker runs on and its record differs from before only as the step says |
| HAMasterObjects.HAMaster.constructor | python/daemon/zk_common.py:76-82 | a new master is not leader |
| HAMasterObjects.HAMaster.Elect | python/daemon/zk_common.py:109-122 | on any listing of any snapshot, `is_leader` becomes what the decide step says; with plain ids, whether the worker owns the lowest node; it raises exactly on an empty listing |
| HAMasterObjects.HAMaster.Reinit | python/daemon/zk_common.py:124-126 | up to the call of `elect` the object takes the step that gives up the leadership and goes on to create a node, which changes no other worker, node or session |
| ChunkedCoding.HexOfNumeral | boost_cpp/httpserver/client_io_filter.hpp:173-174 | parsing a printed hexadecimal length gives the length back |
| ChunkedCoding.NumeralLength | boost_cpp/httpserver/client_io_filter.hpp:172-174 | a number below base^k prints in at most k digits |
| ChunkedCoding.DechunkChunk | boost_cpp/httpserver/client_io_filter.hpp:163-183 | decoding one chunk in front of any bytes gives its data and goes on behind it; an empty one ends the body |
| ChunkedCoding.DechunkChunks | boost_cpp/httpserver/client_io_filter.hpp:163-195 | what a decoder makes of any list of pieces and the last chunk, empty pieces included |
| ChunkedCoding.ChunkedRoundTrip | boost_cpp/httpserver/client_io_filter.hpp:163-195 | decoding gives the concatenation and uses up all input if and only if no piece is empty |
| HttpLayers.StackIsBottom | boost_cpp/httpserver/asio_frontend.cc:200-203 | driving the three nested filters call by call is the same as giving the client the composed translation of the calls |
| HttpLayers.SputnKeeps | boost_cpp/httpserver/client.hpp:247-278 | writing through a buffer of any size loses, repeats and reorders nothing, and stays inside the array |
| HttpLayers.SputnBuffers | boost_cpp/httpserver/client.hpp:240-278 | what fits stays in the buffer |
| HttpLayers.FlushesAtOnce | boost_cpp/httpserver/asio_client.cc:86-146 | the 100 Continue, the end of the header and a flush put the whole buffer and their own text on the wire at once |
| HttpLayers.OtherCallsStep | boost_cpp/httpserver/asio_client.cc:81-173 | a piece of the body goes out alone, completion and chunking do nothing here, the other texts stay in the buffer while they fit |
| HttpLayers.WireGrows | boost_cpp/httpserver/client.hpp:259-267 | nothing on the wire is taken back |
| HttpLayers.StepOrderKept | boost_cpp/httpserver/asio_client.cc:81-173 | one client call appends exactly its own bytes to wire and buffer, body pieces only with an empty buffer |
| HttpLayers.OrderKept | boost_cpp/httpserver/asio_client.hpp:49-51 | over any calls with the body behind a flush, wire then buffer is all that was generated in call order |
| HttpLayers.BytesKept | boost_cpp/httpserver/asio_client.cc:81-173 | in any order of calls no byte is lost or repeated |
| HttpNormalForm.ClientConf | boost_cpp/httpserver/asio_client.cc:91-173 | the client's texts are plain: flush and request completion make no bytes, and a body piece is itself |
| HttpNormalForm.StatusSentIffShort | boost_cpp/httpserver/asio_client.cc:91-100 | the client sends the formatted status line if and only if it is shorter than 128 bytes |
| HttpNormalForm.StripBottom | boost_cpp/httpserver/client.hpp:38-52 | flushes anywhere in a run leave the calls that reach the client unchanged |
| HttpNormalForm.ReorderResponse | boost_cpp/httpserver/client_io_filter.hpp:255-327 | what the reordering filter makes of a legal response, for any interleaving |
| HttpNormalForm.NormalForm | boost_cpp/httpserver/client_io_filter.hpp:144-327 | the whole stack: status, length unless 204 or 304 (or the chunked header), headers in call order, trailer, body chunked or plain |
| HttpNormalForm.ByteOrder | boost_cpp/httpserver/client.hpp:240-278 | at every point of every legal response and for every buffer size, wire then buffer is all bytes so far in call order |
| HttpNormalForm.BufferEmptyAtBody | boost_cpp/httpserver/asio_client.cc:124-146 | at each piece of the body the buffer is empty |
| HttpNormalForm.WireIsNormalForm | boost_cpp/httpserver/asio_frontend.cc:200-203 | a complete response has put exactly the text of its normal form on the wire, nothing left in the buffer |
| HttpNormalForm.InterleavingsAgree | boost_cpp/httpserver/client_io_filter.hpp:253-327 | same status, framing, headers in order and pieces: identical wire and buffer, whatever the interleaving |
| HttpNormalForm.ChunkedBodyText | boost_cpp/httpserver/client_io_filter.hpp:163-195 | the body calls below the chunking filter print the chunked coding of the pieces |
| HttpNormalForm.ChunkedBodyDecodes | boost_cpp/httpserver/client_io_filter.hpp:157-195 | on the wire of a whole chunked response, what follows the header decodes to the body if and only if no piece is empty |
| HttpNormalForm.PlainBodyText | boost_cpp/httpserver/client_io_filter.hpp:165-166 | without chunking the body calls print the pieces in order |
| HttpNormalForm.PlainBodyOnWire | boost_cpp/httpserver/client_io_filter.hpp:163-195 | on the wire of a whole response without chunking, what follows the header is exactly the body |
| HttpTexts.DecimalOfNumeral | boost_cpp/httpserver/asio_client.cc:95-173 | reading a printed decimal number gives the number back |
| HttpTexts.HeaderReadsBack | boost_cpp/httpserver/asio_client.cc:148-162 | a header line splits back into its name and value, for every name without a colon |
| HttpTexts.LengthReadsBack | boost_cpp/httpserver/asio_client.cc:164-173 | the content length line gives the number back |
| HttpTexts.TrailerReadsBack | boost_cpp/httpserver/asio_client.cc:124-142 | the end of the header says whether the connection is kept |
| HttpTexts.StatusReadsBack | boost_cpp/httpserver/asio_client.cc:95-97 | the status line gives status and name back |
| HttpTexts.ContinueIsOnTheWire | boost_cpp/httpserver/asio_client.cc:102-109 | from the first call on the wire of every legal response with a 100 Continue begins with it, for every buffer size |
| HttpTexts.FlushAtAnyTime | boost_cpp/httpserver/client.hpp:51 | after any calls in any order a flush puts on the wire all that was held in the buffer |
| HttpTexts.HeadReachesClient | boost_cpp/httpserver/client_io_filter.hpp:144-327 | the client is told the status, then the content length (none for 204 and 304) or that the body is chunked, then the headers in call order, then the end of the header |
| HttpTexts.LengthReachesClientOnce | boost_cpp/httpserver/client_io_filter.hpp:223-244 | a content length reaches it only there, and never with a 204 or 304 |
| HttpAccounting.ResultsAddUp | boost_cpp/httpserver/client_io_filter.hpp:207-327 | results of any calls in any order add up to the bytes generated less EINVAL for each failure |
| HttpAccounting.TotalOfAnyRun | boost_cpp/httpserver/client_io_filter.hpp:10-141 | so does the 64-bit total, modulo 2^64 |
| HttpAccounting.FailsIffEndedBeforeStatus | boost_cpp/httpserver/client_io_filter.hpp:234-327 | a call fails if and only if a content length and the end of the header both come before the first status |
| HttpAccounting.LengthWithoutStatusFails | boost_cpp/httpserver/client_io_filter.hpp:240-325 | a content length of any value and the end of the header without a status: the call returns its text length less 22 |
| HttpAccounting.LegalNeverFails | boost_cpp/httpserver/client.hpp:38-52 | no legal response returns it |
| HttpAccounting.AccountingConserves | boost_cpp/httpserver/client_io_filter.hpp:10-141 | at every point of every legal response the total is the bytes on the wire and in the buffer |
| HttpAccounting.ResultIsGrowth | boost_cpp/httpserver/client_io_filter.hpp:268-326 | each call returns exactly the bytes it added, zero for held headers |
| HttpObjects.StaticOutputBufferer.constructor | boost_cpp/httpserver/client.hpp:273-277 | an empty buffer of any size from 1, its last place reserved |
| HttpObjects.StaticOutputBufferer.Sync | boost_cpp/httpserver/client.hpp:259-267 | the buffered bytes go behind the wire and the put pointer to the front |
| HttpObjects.StaticOutputBufferer.Overflow | boost_cpp/httpserver/client.hpp:247-257 | the reserved last place takes the character, then all goes out, index in range |
| HttpObjects.StaticOutputBufferer.Sputn | boost_cpp/httpserver/client.hpp:240-278 | the array with its pointer does what writing to the abstract buffer does, for every size |
| HttpObjects.ClientIO.PutHeader | boost_cpp/httpserver/asio_client.cc:148-162 | the four writes are one header line, and the count is its length |
| HttpObjects.ClientIO.PutTrailer | boost_cpp/httpserver/asio_client.cc:124-142 | date, connection line and empty line, counted |
| HttpObjects.ClientIO.Handle | boost_cpp/httpserver/asio_client.cc:81-173 | every client call takes the abstract client step and returns the length of its text, status lines of any length included; the connection has the 100 Continue, the end of the header and flushed text at once, and body pieces directly |
| HttpObjects.ConLenControllingFilter.Handle | boost_cpp/httpserver/client_io_filter.hpp:223-244 | every call takes the filter's step, state and result |
| HttpObjects.ChunkingFilter.SendChunk | boost_cpp/httpserver/client_io_filter.hpp:163-183 | size line, data and line end reach the filter below, counted |
| HttpObjects.ChunkingFilter.SendLastChunk | boost_cpp/httpserver/client_io_filter.hpp:185-195 | the last chunk precedes completion, counted |
| HttpObjects.ChunkingFilter.Handle | boost_cpp/httpserver/client_io_filter.hpp:157-195 | every call takes the filter's step, state and result |
| HttpObjects.ReorderingFilter.ReleaseHeaders | boost_cpp/httpserver/client_io_filter.hpp:319-322 | the loop sends the held headers in order |
| HttpObjects.ReorderingFilter.ReleaseHeld | boost_cpp/httpserver/client_io_filter.hpp:314-323 | the held length first, then the held headers |
| HttpObjects.ReorderingFilter.Handle | boost_cpp/httpserver/client_io_filter.hpp:269-326 | every call takes the filter's step, state and result |
| HttpObjects.AccountingFilter.SetAccount | boost_cpp/httpserver/client_io_filter.hpp:136-140 | only the switch changes |
| HttpObjects.AccountingFilter.Handle | boost_cpp/httpserver/client_io_filter.hpp:26-126 | every call takes the accounting step, state and result; the total grows by the result only while accounting is on |
| HttpObjects.NumbersFit | boost_cpp/httpserver/client_io_filter.hpp:172-174 | every 64-bit length fits the arrays the code prints numbers into |
| HttpObjects.Drive | boost_cpp/httpserver/asio_frontend.cc:200-203 | any calls on the stack of objects leave it where the abstract stack ends |
| HttpObjects.Respond | boost_cpp/httpserver/asio_frontend.cc:200-203 | a legal response through fresh objects with any buffer size puts exactly its normal form on the connection |
| LruMap.AlwaysOk | ceph_test/lru_map.hpp:32-78 | after any run no key is listed twice and the size is at most the capacity |
| LruMap.AlwaysByRecency | ceph_test/lru_map.hpp:32-78 | after any run the list is in order of last touch and holds last values |
| LruMap.HitIsLastAdded | ceph_test/lru_map.hpp:32-47 | in every run a hit returns the value last added for the key |
| LruMap.EvictedIsLeastRecent | ceph_test/lru_map.hpp:61-66 | a key that an add evicts was touched before every key that stays |
| LruMap.AddLaw | ceph_test/lru_map.hpp:49-67 | in every run an add leaves its key with its value and every other key with what it had, and the size one larger for a new key; only if the list was full and the key new, exactly the least recently touched key is gone |
| LruMap.FindLaw | ceph_test/lru_map.hpp:32-47 | in every run a find changes no key, value or size, and a hit comes to the front |
| LruMap.EraseLaw | ceph_test/lru_map.hpp:70-78 | in every run an erase takes its key and no other |
| LruMap.IncludedFind | ceph_test/lru_map.hpp:32-47 | a find keeps inclusion between two capacities, also when it hits only the larger |
| LruMap.IncludedAdd | ceph_test/lru_map.hpp:49-67 | an add keeps inclusion, also when only one side evicts |
| LruMap.IncludedErase | ceph_test/lru_map.hpp:70-78 | an erase keeps inclusion |
| LruMap.LruInclusion | ceph_test/lru_map.hpp:32-78 | fed the same operations, the smaller list is a subsequence of the larger, short by at most the difference of capacities |
| LruMap.HitsAreIncluded | ceph_test/lru_map.hpp:32-78 | every hit at the smaller capacity is the same hit, same value, at the larger |
| LruMap.TouchKey | ceph_test/lru_map.hpp:32-67 | a new node in front and the old one unlinked moves the key to the front of the abstract list |
| LruMap.UnlinkKey | ceph_test/lru_map.hpp:70-78 | unlinking the stored node removes exactly its key |
| LruMap.Lru.constructor | ceph_test/lru_map.hpp:18-23 | an empty map of the given capacity, a negative one converted to `size_t` |
| LruMap.Lru.FindKey | ceph_test/lru_map.hpp:32-47 | hit, value and new contents as the abstract find; every key still has its value |
| LruMap.Lru.Touch | ceph_test/lru_map.hpp:43-45 | the found key is in front, its stored position right |
| LruMap.Lru.PushFront | ceph_test/lru_map.hpp:49-60 | the key is in front with the new value and nowhere else |
| LruMap.Lru.DropBack | ceph_test/lru_map.hpp:61-66 | over capacity exactly the last key goes, from list and map |
| LruMap.Lru.AddKey | ceph_test/lru_map.hpp:49-67 | new contents as the abstract add; its key has the value, all others keep theirs, except the one at the back of a full list for a new key |
| LruMap.Lru.EraseKey | ceph_test/lru_map.hpp:70-78 | new contents as the abstract erase; its key is gone and no other |
| RingList.ListBase.constructor | ceph_test/test_iter.cc:15-18 | a new node is closed on itself |
| RingList.Buffers.constructor | ceph_test/test_iter.cc:195-198 | the ring of the sentinel alone, an empty sequence |
| RingList.Buffers.Begin | ceph_test/test_iter.cc:221-223 | the first node, or the sentinel of an empty list |
| RingList.Buffers.Back | ceph_test/test_iter.cc:228-230 | the node of the last element, or the sentinel |
| RingList.Buffers.Empty | ceph_test/test_iter.cc:267-269 | true exactly when the sequence is empty |
| RingList.ListBase.Insert | ceph_test/test_iter.cc:19-24 | four pointer writes put the node at its place in the circle, both directions |
| RingList.ListBase.Unlink | ceph_test/test_iter.cc:25-30 | the circle closes without the node, and the node on itself |
| RingList.FollowsRing | ceph_test/test_iter.cc:11-32 | following next gives the ring in order, prev its reverse, and both come round |
| RingList.Buffers.InsertBefore | ceph_test/test_iter.cc:250-254 | the value is inserted at the position and all other nodes stay |
| RingList.Buffers.PushBack | ceph_test/test_iter.cc:206-209 | appends, other nodes stay |
| RingList.Buffers.PushFront | ceph_test/test_iter.cc:211-214 | prepends, other nodes stay |
| RingList.Buffers.Erase | ceph_test/test_iter.cc:256-265 | exactly that element goes, its successor comes back, the node is closed on itself |
| RingList.Buffers.PopBack | ceph_test/test_iter.cc:236-241 | drops the last element, nothing on an empty list |
| RingList.Buffers.PopFront | ceph_test/test_iter.cc:243-248 | drops the first element, nothing on an empty list |
| RingList.Buffers.Destroy | ceph_test/test_iter.cc:271-279 | ends, deleting each element node exactly once in order and not the sentinel |
| ChatServer.StepKeeps | boost_cpp/tcp-chat-server.cpp:29-144 | every event keeps the invariant of order, single write and announcement |
| ChatServer.InvAlways | boost_cpp/tcp-chat-server.cpp:29-144 | it holds in every reachable state |
| ChatServer.TotalOrder | boost_cpp/tcp-chat-server.cpp:138-144 | in every run, delivered then queued is the welcome and one contiguous slice of the post log from joining to leaving |
| ChatServer.OneWriteInFlight | boost_cpp/tcp-chat-server.cpp:29-38 | before a failed write, a write is in flight exactly when the queue is non-empty |
| ChatServer.DepartureAnnouncedOnce | boost_cpp/tcp-chat-server.cpp:125-131 | each departed session is announced exactly once in the log and nobody else, even when read and write both fail |
| ChatServer.LogOfRun | boost_cpp/tcp-chat-server.cpp:50-144 | in every run the log, the clients and the reads in flight are what the accepts, reads and failures of the run say, without sessions and queues |
| ChatServer.PostsOfRun | boost_cpp/tcp-chat-server.cpp:50-144 | the lines in the log are exactly the lines read, in order, and the announcements as many as the sessions |
| ChatServer.DeliveredOfRun | boost_cpp/tcp-chat-server.cpp:75-91 | each successful write has delivered one message |
| ChatServer.SameOrderForAll | boost_cpp/tcp-chat-server.cpp:138-144 | any two sessions present for a stretch of the log get its messages, the same ones in the same order |
| ChatServer.Client.constructor | boost_cpp/tcp-chat-server.cpp:93-97 | a new session has nothing to send and no write in flight |
| ChatServer.Server.constructor | boost_cpp/tcp-chat-server.cpp:104-108 | no clients and an empty log |
| ChatServer.StretchOfLog | boost_cpp/tcp-chat-server.cpp:110-144 | what one session was sent for a stretch it was present for is that stretch |
| ChatServer.Client.PostMessage | boost_cpp/tcp-chat-server.cpp:29-38 | queues the message behind the others and starts a write only when idle |
| ChatServer.Client.OnWritten | boost_cpp/tcp-chat-server.cpp:75-85 | the front is delivered and the next write starts if there is more |
| ChatServer.Server.PostAll | boost_cpp/tcp-chat-server.cpp:138-144 | every client gets the message behind all others, no other session does |
| ChatServer.Server.OnAccept | boost_cpp/tcp-chat-server.cpp:110-136 | takes the accept step: the new session has the welcome alone, the clients before it one announcement more, and it is a client |
| ChatServer.Server.Greet | boost_cpp/tcp-chat-server.cpp:116-117 | the welcome is in flight, and nobody else sees a difference |
| ChatServer.Server.Enroll | boost_cpp/tcp-chat-server.cpp:120-132 | the session becomes a client and reads; the others stay as they are |
| ChatServer.Server.OnError | boost_cpp/tcp-chat-server.cpp:125-131 | removes a client, and announces it to the others once |
| ChatServer.Server.OnRead | boost_cpp/tcp-chat-server.cpp:50-65 | takes the read step: the line goes to every client once and to no other session; a failure takes the client out |
| ChatServer.Server.OnWrite | boost_cpp/tcp-chat-server.cpp:75-91 | takes the write step: the front message is delivered and the next goes out; a failure takes the client out |
| TaskQueue.InvAlways | TestCPP/C++生产者消费者:59-93 | conservation and the notification invariant hold in every reachable state |
| TaskQueue.NothingLost | TestCPP/C++生产者消费者:66-93 | in every interleaving, run then batch then queue is the pushed sequence |
| TaskQueue.RanWhatWasPushed | TestCPP/C++生产者消费者:66-76 | after the worker returned exactly the tasks pushed before it returned have run, in order |
| TaskQueue.ReturnsOnlyWhenDrained | TestCPP/C++生产者消费者:68 | it returns only with `stopped` set and everything pushed run |
| TaskQueue.NoLostWakeUp | TestCPP/C++生产者消费者:59-93 | a waiting worker with work or `stopped` set has been notified, and wakes to take it |
| TaskQueue.StateOfCalls | TestCPP/C++生产者消费者:59-93 | in every run the pushed tasks are those of the calls that passed the test and got the mutex, in that order; the calls still to push and the flag are what was called, too |
| TaskQueue.WorkerFinishes | TestCPP/C++生产者消费者:66-82 | in every run, unless it has returned, the worker's own steps run everything pushed, after which it waits, or has returned if `stop` was called |
| TaskQueue.TaskManager.constructor | TestCPP/C++生产者消费者:27-42 | starts in the initial state |
| TaskQueue.TaskManager.AddTaskTest | TestCPP/C++生产者消费者:84-86 | the unlocked test is its own step; -1 once stopped |
| TaskQueue.TaskManager.AddTaskPush | TestCPP/C++生产者消费者:87-91 | the task goes behind the others, and a waiting worker is notified |
| TaskQueue.TaskManager.StopAll | TestCPP/C++生产者消费者:59-63 | sets the flag, keeps the queue, and notifies a waiting worker |
| TaskQueue.TaskManager.EntryTest | TestCPP/C++生产者消费者:68-69 | returns exactly when stopped with nothing queued, waits exactly when neither |
| TaskQueue.TaskManager.EntrySwap | TestCPP/C++生产者消费者:70-72 | the batch is the queue, and the queue is empty |
| TaskQueue.TaskManager.Process | TestCPP/C++生产者消费者:78-82 | runs the batch in order |
| SelectLoop.AwakeAlways | ceph_test/test_select.cc:107-197 | the wake-up invariant holds in every reachable state |
| SelectLoop.NoLostWakeUp | ceph_test/test_select.cc:126-197 | in select on an outdated snapshot, or due to exit: a byte is in the pipe or a caller is about to write one |
| SelectLoop.OutdatedSelectReturns | ceph_test/test_select.cc:154 | then select returns on the pipe even if no descriptor is ready |
| SelectLoop.ExitsOnlyWhenDone | ceph_test/test_select.cc:137 | in every run in which the loop has ended, there is a step at which it ended, with the flag set and nothing registered |
| SelectLoop.ExitedForGood | ceph_test/test_select.cc:133-169 | once the loop has ended it stays ended with the flag set, and no callback is called whatever callers do |
| SelectLoop.LateRegistrationIsNotServed | ceph_test/test_select.cc:180-189 | for every descriptor and handler a run in which the registration returns 0 and comes in after the end, and no continuation serves it |
| SelectLoop.ServedIffNotExited | ceph_test/test_select.cc:133-197 | in every run, a registered descriptor can still be served, with its own handler, if and only if the loop has not ended, whatever callers and loop are in the middle of |
| SelectLoop.FaithfulAlways | ceph_test/test_select.cc:157-163 | the history of calls matches the registered set in every reachable state |
| SelectLoop.NoCallAfterUnregister | ceph_test/test_select.cc:157-197 | in every run a callback runs only for a descriptor registered at that point, with its own handler |
| SelectLoop.TaskManager.constructor | ceph_test/test_select.cc:96-105 | starts in the initial state |
| SelectLoop.TaskManager.SignalThread | ceph_test/test_select.cc:171-178 | the caller's write step |
| SelectLoop.TaskManager.Unlock | ceph_test/test_select.cc:183-187 | the caller's unlock step |
| SelectLoop.TaskManager.InsertLocked | ceph_test/test_select.cc:184-185 | the locked insert, which keeps an earlier handler |
| SelectLoop.TaskManager.RegisterFd | ceph_test/test_select.cc:180-189 | takes test, insert, signal and unlock; an earlier handler stays; -1 and no change once stopped |
| SelectLoop.TaskManager.UnregisterFd | ceph_test/test_select.cc:191-197 | takes erase, signal and unlock; exactly that descriptor is gone |
| SelectLoop.TaskManager.StopLoop | ceph_test/test_select.cc:126-131 | sets the flag and signals once, nothing the second time |
| SelectLoop.TaskManager.EntryBuild | ceph_test/test_select.cc:137-153 | exits, or snapshots the registered set under the lock |
| SelectLoop.TaskManager.EntryDispatch | ceph_test/test_select.cc:157-167 | calls exactly the ready descriptors still registered, each once with its handler, then takes up to 256 bytes out of the pipe |
| RegexTable.LastPlain | TestCPP/test_vec.cpp:66-68 | a word matches up to a plain last item exactly when its last character fits and the rest matches |
| RegexTable.LastStar | TestCPP/test_vec.cpp:69-73 | a word matches up to a starred last item exactly when it matches without it, or ends in a fitting character and still matches without that |
| RegexTable.CellIsMatch | TestCPP/test_vec.cpp:45-79 | every cell equals the declarative meaning on the prefixes, if the unwritten cells that end a plain item of the prefix are false |
| RegexTable.ResultRightIffLiveFalse | TestCPP/test_vec.cpp:57-78 | the returned value is the match for every string if and only if no unwritten cell of row 0 that ends a plain item held true |
| RegexTable.RightForAnyMemoryIffAllStarred | TestCPP/test_vec.cpp:57-78 | the returned value is the match for every string and whatever the memory held if and only if a `*` follows every character of the pattern |
| RegexTable.MatchIsLong | TestCPP/test_vec.cpp:45-79 | a matching word has a character for every plain item |
| RegexTable.TrueCellSpreads | TestCPP/test_vec.cpp:63-76 | from a true cell of row 0 the table says yes to the shortest word of the rest of the pattern |
| RegexTable.FillFirstRow | TestCPP/test_vec.cpp:57-61 | fills row 0 of the array and nothing else |
| RegexTable.FillRow | TestCPP/test_vec.cpp:63-76 | fills one row from the row above and nothing else |
| RegexTable.IsMatch | TestCPP/test_vec.cpp:45-79 | the result is the match of whole string and whole pattern, if the unwritten cells that end a plain item are false or a `*` follows every character |
| MaxProduct.BestOfJoined | TestCPP/algorithm.cc:6-39 | cutting two ropes apart never beats cutting them joined |
| MaxProduct.ProdAtMostBest | TestCPP/algorithm.cc:6-39 | every way to cut has at most this product |
| MaxProduct.BestIsReached | TestCPP/algorithm.cc:6-39 | and some way has it |
| MaxProduct.BestIsGreatest | TestCPP/algorithm.cc:6-39 | so it is the greatest product over all partitions that the function may use |
| MaxProduct.ClosedForm | TestCPP/algorithm.cc:6-39 | 3^k, 4*3^(k-1) or 2*3^k by the remainder modulo 3, for every length from 2 |
| MaxProduct.HalfReaches | TestCPP/algorithm.cc:22-36 | trying cut points only up to half the length loses nothing |
| MaxProduct.Entry | TestCPP/algorithm.cc:27-32 | the inner loop finds the best product for one length from the shorter ones |
| MaxProduct.Table | TestCPP/algorithm.cc:6-39 | the nested loops compute it |
| MaxProduct.MaxProductOf | TestCPP/algorithm.cc:6-39 | for every length at least 1 the result is the greatest product |
| MaxProduct.FitsExactlyTo58 | TestCPP/algorithm.cc:22-36 | every product in the loops fits a signed 32-bit integer if and only if the length is at most 58 |
| MaxProduct.ValueAt58And59 | TestCPP/algorithm.cc:6-39 | the value itself fits at 58 and not at 59 |
| SumPairs.Sort | TestCPP/leetcode/meeting.cpp:7 | sorted, and a permutation |
| SumPairs.FreedPartners | TestCPP/leetcode/meeting.cpp:8-21 | when both ends give up their partners, the partners sum to the target too |
| SumPairs.ExchangeEnds | TestCPP/leetcode/meeting.cpp:8-21 | pairing the two ends costs any matching at most one pair |
| SumPairs.SweepIsMaximum | TestCPP/leetcode/meeting.cpp:8-21 | no set of disjoint pairs summing to the target is larger than what the sweep finds |
| SumPairs.SumsFitIffExtremesFit | TestCPP/leetcode/meeting.cpp:6-18 | for one sorted vector: the sweep computes no sum outside a signed 32-bit integer for any 32-bit target if and only if it computes none for the smallest and for the largest such target |
| SumPairs.NoneBelow | TestCPP/leetcode/meeting.cpp:10-21 | the sweep for a larger target stays to the right of the one for a smaller target, so it computes no lower sums than that one is known to |
| SumPairs.NoneAbove | TestCPP/leetcode/meeting.cpp:10-21 | and the other way round for a smaller target |
| SumPairs.RangeFitsIffDoubleFits | TestCPP/leetcode/meeting.cpp:6-18 | for a range of numbers: no vector from it and no 32-bit target makes a sum overflow if and only if twice either bound fits |
| SumPairs.SumsFitIfEndsFit | TestCPP/leetcode/meeting.cpp:10-18 | if the sums of the two smallest and of the two largest numbers fit, every sum fits for every target |
| SumPairs.EndsNeedNotFit | TestCPP/leetcode/meeting.cpp:10-18 | a vector whose two smallest numbers overflow, though no 32-bit target brings the sweep to them |
| SumPairs.Sweep | TestCPP/leetcode/meeting.cpp:8-21 | the loop prints disjoint pairs that each sum to the target, as many as any matching |
| SumPairs.GetSumB | TestCPP/leetcode/meeting.cpp:6-22 | the same for every non-empty vector and target |
| SumPairs.Func | TestCPP/leetcode/meeting.cpp:24-31 | for every target one such answer, read at disjoint positions of the sorted vector and as many as possible; none for an empty vector |
| PutbackBuffer.PreBuffer.constructor | boost_cpp/stream/prebufferstream.cc:7-24 | an empty get area behind the putback area |
| PutbackBuffer.Source.Read | boost_cpp/stream/prebufferstream.cc:48 | any amount the system likes, in file order, only there |
| PutbackBuffer.PreBuffer.Slide | boost_cpp/stream/prebufferstream.cc:39-46 | the last characters, at most four, sit just below the read area and the rest is unchanged |
| PutbackBuffer.Refilled | boost_cpp/stream/prebufferstream.cc:39-51 | after slide and read the new get area continues the file without a gap |
| PutbackBuffer.PreBuffer.SlideAndRead | boost_cpp/stream/prebufferstream.cc:39-48 | the array after slide and read, for every size read returns |
| PutbackBuffer.PreBuffer.Fill | boost_cpp/stream/prebufferstream.cc:39-48 | and that from the putback area on it continues the file |
| PutbackBuffer.PreBuffer.SetGet | boost_cpp/stream/prebufferstream.cc:51 | the three pointers |
| PutbackBuffer.PreBuffer.Refill | boost_cpp/stream/prebufferstream.cc:39-53 | next character of the file with min(4, before) characters of putback, or end of file with pointers kept and the characters slid; then the buffer still holds the file if and only if the file repeats there |
| PutbackBuffer.PreBuffer.Underflow | boost_cpp/stream/prebufferstream.cc:34-55 | the character at the reader's place, without moving it; a failed one from a right buffer leaves it right if and only if the file repeats in the putback area, as it does after one read |
| PutbackBuffer.PreBuffer.Bumpc | boost_cpp/stream/prebufferstream.cc:34-55 | the same, and one place on |
| PutbackBuffer.PreBuffer.Ungetc | boost_cpp/stream/prebufferstream.cc:34-55 | one step back to what the array holds there, also after a failed refill; the previous character of the file while the buffer is right; refused exactly when the get area starts here |
| PutbackBuffer.Replay | boost_cpp/stream/prebufferstream.cc:34-55 | over any run of reads and steps back up to the first end of file, what is handed out follows the file, and a step back is refused only with the last four used up; at the end the buffer is right if and only if the file repeats there |
| PutbackBuffer.FollowsSnoc | boost_cpp/stream/prebufferstream.cc:34-55 | a right step after a run that follows the file gives a run that follows it |
| PutbackBuffer.EofKeepsWindowIff | boost_cpp/stream/prebufferstream.cc:39-50 | a slide with nothing read behind it keeps the buffer in step with the file if and only if the file repeats its characters in the putback area |
| PutbackBuffer.SecondRefillThenEof | boost_cpp/stream/prebufferstream.cc:39-50 | on the file `ab` read one character at a time: after the end, two steps back give `b` and `b` |

## Left out

- Election: one `_elect` of a worker at a time; the code does not serialise the watch thread with the main loop, and two at once can leave a stale decision.
- Election: `state` at python/daemon/process.py:83-84 is undefined there; the intended order is modelled, first `ZKBase.reinit`, then `HAMaster.reinit`. The end of the reconnect loop and the clearing of the flag are one step, and the loop is given states that end with a connection.
- ElectionSettles.ElectionSettles: no running worker takes a dead session for alive when the protocol is left alone; noticing that is an interruption.
- Election: ZooKeeper and kazoo are nondeterministic steps (a session kept or replaced, watches and events lost with it); nodes vanish only with their session; sequence numbers stay below 2^31 (ElectionSettles.ElectionSettles asks that they are not used up); jobs, delays and logging are not modelled.
- HTTP: `process` is handed the bare client at boost_cpp/httpserver/asio_frontend.cc:205, so the stack is built and not used there; the stack itself is modelled.
- HTTP: `init_env`, receiving (`recv_body`, `total_received`), failed writes and sockets; the date line is an opaque text; decorated clients held by value are references.
- HttpNormalForm.NormalForm: `send_chunked_transfer_encoding` only after the status, as it is not held by the reordering filter.
- HttpObjects.ClientIO.Handle: what follows the 128-byte array of a longer status line is a parameter, the same at each call.
- LruMap: the mutex (one call at a time) and `dump`; list iterators are references to nodes.
- RingList: the move constructor, which does not repoint the neighbours of the root, the mixed `operator!=`, const iterators, and erasing the end position, which the code does not allow for.
- ChatServer: sockets and stream buffers; the accept handler gets the session as a parameter and, like the code, ignores its error. `TotalOrder` counts a message as delivered when its write succeeds.
- TaskQueue: the version without the second lock in ceph_test/test_cp.cc; `stopped`, which the code leaves uninitialised, starts false here and in SelectLoop.
- SelectLoop: a failing select, a full pipe, and callbacks that themselves call the manager under its lock.
- RegexTable: for a pattern with a leading or doubled `*` only the recurrence of the table is proved, as it has no declarative meaning.
- MaxProduct.Table: integers are unbounded and lengths not negative, where the code makes an array of negative size; FitsExactlyTo58 gives the range in which 32 bits agree.
- SumPairs.Sort: stands for `std::sort` by insertion into a new sequence, not in place; sums are unbounded integers, in the range that SumPairs.RangeFitsIffDoubleFits gives for all vectors and SumPairs.SumsFitIffExtremesFit for one.
- PutbackBuffer: the write side (`overflow`, `flushoutput`, `sync`), whose scheme is that of the output buffer of the HTTP client, and one array used for both directions; the copy is taken as safe for overlapping ranges.
- PutbackBuffer.Replay: ends with the first failed refill; the single operations are specified after one too.
- `searchMatrix`, `reverse` in segments, the trie, the library HTTP example, the gRPC example, echo servers, the set-up of the front end and the language demonstrations.
