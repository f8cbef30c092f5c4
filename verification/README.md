# Verified models of GeeRPC, GeeCache and Gee

Three small Go systems from the 7days-golang repository, modelled in Dafny and proved
correct where their code makes a promise that no single function keeps alone.

* **GeeRPC** multiplexes many calls over one connection. `ClientProtocol` and
  `ServerProtocol` are the two ends as step machines: every lock, register, half frame,
  rendezvous, timeout, cancellation and termination is a step, and any interleaving of them
  is a run. The client is proved against an arbitrary peer, the server against an arbitrary
  client; `RpcSystem` joins them by two queues of header and body tokens. `RpcProgress` shows that
  every call comes to an end, `RpcHonest` where its error can come from, and `RpcOnce` that no
  call is taken up twice. `ServerFrames` counts what the server puts on the wire, and `RpcClient`
  holds the client's own objects, each method one critical section.
* **GeeCache** is a byte-budgeted LRU cache (`LruSpec`, `Lru`, `GeeCache`, `Fetches`), a hash
  ring whose collisions are won by the last writer (`Ring`, `ConsistentHash`), duplicate-call
  suppression (`SingleFlight`, `Flight`), and the cluster of nodes that uses all three
  (`Cluster`, `ClusterGetters`, `ClusterFetches`, `ClusterProgress`, `ClusterDeadlock`,
  `ClusterRing`).
* **Gee** is a route trie with wildcards and backtracking search (`TrieSpec`, `RouteExact`,
  `RouterSpec`, `RouteFinal`, `Router`) and a middleware chain whose driver is re-entered by its own
  handlers (`MiddlewareSpec`, `Onion`, `Middleware`).
* **Registry and discovery** let an RPC client find servers: leases pruned while they are
  listed, a comma-separated wire format, a cached list with its own expiry, round robin
  (`RegistrySpec`, `Registry`, `Wire`, `DiscoverySpec`, `Discovery`, `Staleness`), and a
  broadcast to all of them (`Broadcast`).

`Base`, `RpcTypes`, `ClientTable`, `Strings` and `Sorting` hold what several of them share.
A module named after a class holds the mutable objects; its `Spec` neighbour holds the
functions those objects are proved against, and the theorems about them.

Places where the code promises less than one might expect, each with the exact condition under
which the promise holds:

* A static route registered under an existing wildcard sibling takes over the wildcard's
  node, so the router is not always correct. A registration keeps it correct if and only if it
  is safe, a check made beforehand (`SafeExactly`, `AlwaysCorrectExactly`);
  `StaticOverWildcardIsUnsafe` is the smallest sequence that fails it. However it was built, a
  router is correct if and only if each node's pattern covers the way to the node and finitely
  many lookups per pattern are answered (`FinallyCorrectExactly`); an unsafe registration can be
  mended (`UnsafeCanBeMended`).
* A path is parsed like a pattern, so what follows its first segment that begins with `*` is
  lost: `a/:x` answers `a/*b/c` (`StarSegmentCutsPath`). By its own segments a path is answered
  rightly under all faithful registrations if and only if no segment of it but the last begins
  with a star (`FaithfulRouterExactly`), and under the same condition alone the parameters of
  the route found rebuild it (`LookupRebuildsPath`). What is said of a correct router is about
  the paths that meet it.
* A cluster can deadlock if and only if the routes of some non-empty key lead round in a circle
  (`NeverStuckExactly`). Nodes that list the same peers agree on all owners if and only if their
  rings have the same last writers (`RingsAgreeExactly`); no arrangement of their lists can
  make the cluster deadlock if and only if no two of them share a ring position
  (`CollisionFreeExactly`).
* A failed answer makes the asking node load the key for itself, so with agreeing rings and no
  peer failing the cluster runs at most one getter per key at a time if and only if the source
  answers the key or its owner is the only node (`OneGetterExactly`).
* A broadcast cancels the other calls after its first reply. It can be relied on to return no
  error if and only if no server fails and either no reply is wanted or there is at most one
  server (`NeverFailsExactly`).
* A key is fetched only once, as the comment at
  `7days-golang/GeeCache/geecache/geecache.go:32-33` has it, only among Gets that do not
  overlap: whatever the budget, two Gets of one key can both miss before either has entered
  `Do`, and then fetch it one after the other (`OverlapFetchesTwice`). If on one node each Get is
  over before the next one looks in the cache, and the node loads the keys itself, a key is
  fetched at most once if and only if the source answers it and the budget has room for the
  answers for all the keys in use (`FetchedOnceInTurnExactly`). In any case at most one fetch of
  it is in flight on the node (`OneGetterPerNode`).
* A pattern's parameters rebuild the path if and only if their names differ and a star has a
  name (`AlwaysRebuildsExactly`).
* A handler is stored under method, dash and pattern. Two routes share that key if and only if
  one method is the other with a dash and the start of the other's pattern behind it
  (`KeysShareExactly`); the one registered last then answers for both (`SharedKeyIsTaken`).
* A service error without text reaches the caller as success with a placeholder for the reply
  (`FineRunsAnswer`, `RepliesNeverCrossed`).
* A list of addresses survives the wire if and only if each address is well formed
  (`RoundTripExactly`).

Time is an input that never decreases, randomness an input, `time.Duration` an integer. A
service is any relation from a method and its arguments to outcomes.

## Model

| member | source | states |
|---|---|---|
| ClientProtocol.StepInv | 7days-golang/GeeRPC/geerpc/client.go:66-126 | Every step of every goroutine, against any peer, keeps: numbers are positions in the order of registration, only the lock's holder is inside `send`, and exactly one party owes each registered call its signal unless it was signalled or withdrawn. |
| ClientProtocol.CompletedExactlyOnce | 7days-golang/GeeRPC/geerpc/client.go:86-126 | Over every interleaving no call is signalled twice; after the terminator has stopped, every call whose `send` returned and that was not cancelled has been signalled exactly once; a cancelled call is pending no more. |
| ClientProtocol.ClosedIsShut | 7days-golang/GeeRPC/geerpc/client.go:48-57 | Once `Close` was called the connection is closed. |
| ClientProtocol.ClosedRegistersNothing | 7days-golang/GeeRPC/geerpc/client.go:66-76 | After `Close`, and after the terminator, no call is ever registered again. |
| ClientProtocol.EndsOnlyOnReadError | 7days-golang/GeeRPC/geerpc/client.go:99-126 | The receive loop ends only when a header or body cannot be read, never on a response to nobody or with an error. |
| ClientProtocol.SignalNeverBlocks | 7days-golang/GeeRPC/geerpc/client.go:267-276 | Whoever is about to signal a call (receiver, terminator or sender) finds its one-slot channel empty. |
| ClientProtocol.HolderCanMove | 7days-golang/GeeRPC/geerpc/client.go:86-97 | The goroutine holding `sending` always has an enabled step, so the two locks cannot deadlock. |
| RpcClient.Client.RegisterCall | 7days-golang/GeeRPC/geerpc/client.go:66-76 | Refines the table's registration: refused when closing or shut down, else the call is filed under the next number and carries it. |
| RpcClient.Client.RemoveCall | 7days-golang/GeeRPC/geerpc/client.go:78-84 | Refines the table's removal and returns the one call filed under the number, or nothing. |
| RpcClient.Client.TerminateCalls | 7days-golang/GeeRPC/geerpc/client.go:86-97 | Sets shutdown; every pending call gets the error and exactly one more signal; all stay pending. |
| RpcClient.Client.Deliver | 7days-golang/GeeRPC/geerpc/client.go:107-122 | One response completes at most the call of its number, once, with the header's error, the read error or the body. |
| RpcClient.Client.Turn | 7days-golang/GeeRPC/geerpc/client.go:101-122 | One whole turn on the input: the call of the header's number leaves `pending`, is signalled once, and its error and reply are what the header and the body behind it say; the loop goes on exactly if a body was behind it. |
| RpcClient.Client.Drain | 7days-golang/GeeRPC/geerpc/client.go:99-123 | The receive loop up to its first read error, in terms of the input alone: a pending call leaves if and only if a header with its number stands where headers and bodies have alternated so far, and then has one more signal and the error or reply of the first such header and what is behind it; all others are untouched. |
| RpcClient.Client.Receive | 7days-golang/GeeRPC/geerpc/client.go:99-126 | However the input is broken, every call pending at the start is completed exactly once: with what the first response read for it says, or with the connection's error if and only if none was read for it. |
| ServerProtocol.AnsweredExactlyOnce | 7days-golang/GeeRPC/geerpc/server.go:89-107 | No request's answer is finished twice though worker and timeout race; a finished handler means one answer; the codec is closed only after every accepted request has had its one answer. |
| ServerProtocol.EndsOnlyOnReadError | 7days-golang/GeeRPC/geerpc/server.go:89-107 | The request loop ends only when a header cannot be read, never after a request it cannot accept, a timeout or a failed write. |
| ServerFrames.OneFrameEach | 7days-golang/GeeRPC/geerpc/server.go:154-193 | An accepted request puts at most one header and one body on the wire, the body only behind its header; once the codec is closed it has put exactly one frame there, or lost it to a failed write. |
| ServerFrames.LossNeedsFailure | 7days-golang/GeeRPC/geerpc/server.go:154-160 | Without a failed write no answer is lost. |
| ServerProtocol.TimedOutWorkerIsStuck | 7days-golang/GeeRPC/geerpc/server.go:162-193 | After a timeout the worker never passes the `called` channel: it never writes, and it is never released. |
| ServerProtocol.DrainingShrinks | 7days-golang/GeeRPC/geerpc/server.go:105-106 | Once no more is read, every step makes a measure of the remaining work smaller. |
| ServerProtocol.DrainingMoves | 7days-golang/GeeRPC/geerpc/server.go:105-106 | Until the codec is closed some step is enabled, provided services can return or a timeout is set. |
| RpcSystem.ClientStepInv | 7days-golang/GeeRPC/geerpc/client.go:220-248 | A client step keeps the whole system's invariant: both wires hold whole frames, requests carry their own call's method and arguments, responses carry an outcome of the call numbered. |
| RpcSystem.ServerStepInv | 7days-golang/GeeRPC/geerpc/server.go:154-193 | A server step keeps the same invariant whatever order workers answer in. |
| RpcSystem.RepliesNeverCrossed | 7days-golang/GeeRPC/geerpc/client.go:99-126 | In every run of client, wires and concurrent server, a call signalled with no error holds an outcome of its own method on its own arguments; it is a proper reply unless the service can fail with an empty error text. |
| RpcProgress.StepShrinks | 7days-golang/GeeRPC/geerpc/client.go:86-126 | Every step of the joined system, of callers, receiver, request loop, handlers and workers, failing or not, makes a measure of what is left smaller; only closing what is closed does not. |
| RpcProgress.StepKept | 7days-golang/GeeRPC/geerpc/server.go:89-107 | While the connection is open no request gets lost: every call sent and still pending has its request or its response on a wire, at the server or in the receiver's hand. |
| RpcProgress.SomeoneMoves | 7days-golang/GeeRPC/geerpc/client.go:99-126 | Until every call has returned some step can be taken that needs no failure, cancellation or closing from outside, provided services can return or a timeout is set. |
| RpcProgress.EveryCallReturns | 7days-golang/GeeRPC/geerpc/client.go:250-276 | Every run, whatever fails in it, has a number of steps bounded by the number of calls; where no such step is left every call has returned, signalled exactly once unless it was cancelled. |
| RpcHonest.StepHonest | 7days-golang/GeeRPC/geerpc/client.go:99-126 | Every step of client, wires and server keeps: each error held, on a wire or in a header is its own call's service error, or a failing step about this very call is to blame for it. |
| RpcHonest.ErrorsHaveCauses | 7days-golang/GeeRPC/geerpc/server.go:154-193 | In every run the error a call holds is one its own service may answer to its own arguments, or the text of a failing step of the run about this call: a failed write, a closed connection, an unreadable body, the terminator, an unknown method, unreadable arguments or a timeout. |
| RpcHonest.FineRunsAnswer | 7days-golang/GeeRPC/geerpc/server.go:165-178 | In a run without any such step a signalled call holds an outcome of its own service: a value it may return with no error, or exactly the text of an error it may return; a call that returned uncancelled has been signalled once. |
| RpcHonest.FineRunsFinish | 7days-golang/GeeRPC/geerpc/client.go:250-276 | If nothing fails, all methods are known and every service can return, a run that can go on only by failing has every call returned with an outcome of its own service, but for those cancelled. |
| RpcOnce.TakenUpOnce | 7days-golang/GeeRPC/geerpc/server.go:89-107 | In every run the requests accepted are the calls' own, with their known methods and their arguments, in the order of registration and none of them twice. |
| RpcSystem.UnreadBodyEndsService | 7days-golang/GeeRPC/geerpc/server.go:127-136 | Once a request's body is left unread, as for an unknown method, no request is ever accepted again on the connection, if the codec refuses a body where it expects a header. |
| LruSpec.KeepLongest | 7days-golang/GeeCache/geecache/lru/lru.go:78-80 | A prefix of the recency list survives exactly when it is within the budget. |
| LruSpec.EvictionStops | 7days-golang/GeeCache/geecache/lru/lru.go:78-80 | The eviction loop has a stopping point if and only if the budget is not negative. |
| LruSpec.ShedKeeps | 7days-golang/GeeCache/geecache/lru/lru.go:78-80 | Dropping the last item while over the budget leaves the longest prefix that fits and reports the rest from the back. |
| Lru.Cache.Get | 7days-golang/GeeCache/geecache/lru/lru.go:41-49 | Returns the listed value and moves its entry to the front; list, map and byte counter keep agreeing. |
| Lru.Cache.RemoveOldest | 7days-golang/GeeCache/geecache/lru/lru.go:52-63 | Drops exactly the last entry from list, map and counter and reports it. |
| Lru.Cache.Evict | 7days-golang/GeeCache/geecache/lru/lru.go:78-80 | Terminates with the longest prefix that fits and reports the rest from the back. |
| Lru.Cache.Add | 7days-golang/GeeCache/geecache/lru/lru.go:66-81 | Keeps exactly the longest prefix of the promoted list that fits (all of it when the budget is 0); the callbacks are the remaining suffix, back to front. |
| LruSpec.StackInclusion | 7days-golang/GeeCache/geecache/lru/lru.go:41-81 | For any requests and any source, failing keys included, the list of the cache with the smaller positive budget is a prefix of the larger one's. |
| LruSpec.MoreMemoryMoreHits | 7days-golang/GeeCache/geecache/geecache.go:79-90 | More memory never turns a hit into a miss, so it never lowers the hit count. |
| LruSpec.TotalIsText | 7days-golang/GeeCache/geecache/lru/lru.go:66-81 | What a list weighs is the number of characters of its keys and values. |
| LruSpec.PutLooksUp | 7days-golang/GeeCache/geecache/lru/lru.go:66-77 | After an addition the key has the new value and every other key what it had. |
| LruSpec.ListedByRecency | 7days-golang/GeeCache/geecache/lru/lru.go:41-81 | Whatever the budget and the source, the list is in order of the last request for each key, and the empty key is never on it. |
| Fetches.ExactStack | 7days-golang/GeeCache/geecache/lru/lru.go:41-81 | A cache with a positive budget always holds exactly the part of the unlimited cache's list that fits. |
| Fetches.FetchedOnceExactly | 7days-golang/GeeCache/geecache/geecache.go:32-33 | Of one cache with one caller: whatever is asked among some keys, one request after the other, a key is fetched at most once if and only if the source answers it and the budget is 0 or has room for all their answers. |
| GeeCache.Group.Get | 7days-golang/GeeCache/geecache/geecache.go:79-90 | On a node by itself, answers what the getter answers (or the empty-key error), changes the cache as one demand-filled request, and asks the getter only on a miss. |
| GeeCache.Group.GetLocally | 7days-golang/GeeCache/geecache/geecache.go:128-137 | Asks the getter once and caches what it answers, if it answers. |
| GeeCache.Group.PopulateCache | 7days-golang/GeeCache/geecache/geecache.go:139-141 | Adds any key and value to the lazily created cache. |
| Ring.RemovalMovesOnlyItsKeys | 7days-golang/GeeCache/geecache/consistenthash/consistenthash.go:34-58 | Rebuilding without a peer keeps the owner of every key it did not own, collisions included. |
| Ring.InsertionMovesOnlyToIt | 7days-golang/GeeCache/geecache/consistenthash/consistenthash.go:34-58 | Inserting a new peer anywhere in the list moves keys only to it. |
| Ring.SameOwnersExactly | 7days-golang/GeeCache/geecache/consistenthash/consistenthash.go:46-58 | Two rings with the same virtual nodes answer alike at every hash if and only if every position was written last by the same peer in both. |
| Ring.OrderIrrelevantExactly | 7days-golang/GeeCache/geecache/consistenthash/consistenthash.go:34-43 | The owners do not depend on how the list of peers is arranged, repeated or batched if and only if no two peers share a position. |
| Ring.CollisionMakesOrderMatter | 7days-golang/GeeCache/geecache/consistenthash/consistenthash.go:34-43 | At a position shared by two peers the one added last wins. |
| Ring.ItoaIsNumeral | 7days-golang/GeeCache/geecache/consistenthash/consistenthash.go:37 | A replica's number is written in decimal digits that say it, without a zero in front. |
| Ring.NumeralIsItoa | 7days-golang/GeeCache/geecache/consistenthash/consistenthash.go:37 | Only one such numeral says a number, so different replicas have different names. |
| Ring.PointsAreNamed | 7days-golang/GeeCache/geecache/consistenthash/consistenthash.go:34-43 | The ring has a virtual node for every listed peer and every numeral below the number of replicas, at the hash of the two written together, and no other. |
| Ring.OwnerIsNearest | 7days-golang/GeeCache/geecache/consistenthash/consistenthash.go:46-58 | The owner is the peer of the last point written at the nearest position: at the hash or more with none between, or the least of all if none is. |
| Ring.NearestLastExists | 7days-golang/GeeCache/geecache/consistenthash/consistenthash.go:46-58 | Every ring with a virtual node has such a point for every hash. |
| ConsistentHash.Map.Add | 7days-golang/GeeCache/geecache/consistenthash/consistenthash.go:34-43 | Sorted slice and map hold exactly the virtual nodes written so far plus the new ones, so batching does not matter. |
| ConsistentHash.Map.Search | 7days-golang/GeeCache/geecache/consistenthash/consistenthash.go:53-55 | Binary search finds the first position not below the hash. |
| ConsistentHash.Map.Get | 7days-golang/GeeCache/geecache/consistenthash/consistenthash.go:46-58 | Returns the last writer of the clockwise-nearest virtual node, wrapping round; "" on an empty ring. |
| ConsistentHash.Pool.Set | 7days-golang/GeeCache/geecache/http.go:122-132 | Rebuilds the ring from the list and gives every listed peer its own getter. |
| ConsistentHash.Pool.PickPeer | 7days-golang/GeeCache/geecache/http.go:135-144 | Names a getter exactly when the key's owner is another peer, and then that peer's. |
| SingleFlight.OneExecutionPerKey | 7days-golang/GeeCache/geecache/singleflight/singleflight.go:16-45 | Over every interleaving at most one function execution per key is in flight. |
| SingleFlight.JoinedLeaderIsInside | 7days-golang/GeeCache/geecache/singleflight/singleflight.go:22-28 | A caller that joins finds a leader still inside `Do`, running or between the release and the delete. |
| SingleFlight.DeleteRemovesOwnEntry | 7days-golang/GeeCache/geecache/singleflight/singleflight.go:39-42 | The final delete removes the leader's own entry. |
| SingleFlight.CallersGetLeadersResult | 7days-golang/GeeCache/geecache/singleflight/singleflight.go:22-44 | Whatever value a caller's `Do` returned, the leader of its call had that value returned by its own function before. |
| Flight.Group.Enter | 7days-golang/GeeCache/geecache/singleflight/singleflight.go:17-33 | The first critical section on the real objects is the machine's join-or-lead step. |
| Flight.Group.Publish | 7days-golang/GeeCache/geecache/singleflight/singleflight.go:36-37 | Storing the result and releasing the waiters is the machine's return step. |
| Flight.Group.Leave | 7days-golang/GeeCache/geecache/singleflight/singleflight.go:39-44 | Deleting the entry is the machine's delete step, and the value returned is the one the machine says. |
| Flight.Group.Wake | 7days-golang/GeeCache/geecache/singleflight/singleflight.go:24-27 | A released waiter returns the value the machine says. |
| Cluster.StepInv | 7days-golang/GeeCache/geecache/geecache.go:79-141 | Every step of every Get on every node keeps caches genuine, suppressors consistent and each thread placed in its own node's suppressor for its own key. |
| Cluster.AnswersAreGenuine | 7days-golang/GeeCache/geecache/geecache.go:79-112 | Every Get in the cluster answers what the data source answers for its key, whatever peers fail. |
| Cluster.OneGetterPerNode | 7days-golang/GeeCache/geecache/geecache.go:92-105 | On one node at most one getter execution per key is in flight. |
| Cluster.OneGetterPerCluster | 7days-golang/GeeCache/geecache/geecache.go:92-105 | With agreeing rings, of two getter executions in flight for one key anywhere in the cluster, one belongs to a thread whose own forwarded request has failed. |
| Cluster.FailedNeedsCause | 7days-golang/GeeCache/geecache/geecache.go:114-126 | A thread's forwarded request fails only through a peer failure or a data source with an error for the key. |
| Cluster.CachesOnlyOwn | 7days-golang/GeeCache/geecache/geecache.go:107-141 | In every run a node has only keys in its cache that it is routed nowhere else for, or for which a forwarded request of its own has failed: a peer's answer is not cached. |
| ClusterGetters.OneGetterExactly | 7days-golang/GeeCache/geecache/geecache.go:92-126 | With agreeing rings and no peer failing, at most one getter execution for a key is ever in flight in the whole cluster, if and only if the source answers the key or its owner is the only node. |
| ClusterFetches.InTurnIsOneByOne | 7days-golang/GeeCache/geecache/geecache.go:79-105 | In every run of the cluster in which the Gets on a node take turns and the node loads their keys itself, its cache between Gets and its getter count are those of the requests taken one by one. |
| ClusterFetches.FetchedOnceInTurnExactly | 7days-golang/GeeCache/geecache/geecache.go:32-33 | Over all such runs with requests among some keys, the getter returns for a key at most once if and only if the source answers it and the budget is 0 or has room for all their answers. |
| ClusterFetches.OverlapFetchesTwice | 7days-golang/GeeCache/geecache/geecache.go:32-33 | Whatever the budget and the source, some run with two overlapping Gets of one key, no peer failing, fetches it twice. |
| Cluster.ForwardedAtMostOnce | 7days-golang/GeeCache/geecache/http.go:82-119 | With agreeing rings a request that came from a peer is never forwarded. |
| ClusterProgress.NeverStuckExactly | 7days-golang/GeeCache/geecache/geecache.go:92-126 | In every reachable state with an unfinished Get some thread can move without a peer failing, if and only if the routes of no non-empty key lead round in a circle among the nodes. |
| ClusterProgress.RankedExactly | 7days-golang/GeeCache/geecache/http.go:135-144 | Routes have no such circle if and only if some rank falls with every hop. |
| ClusterProgress.EveryGetReturns | 7days-golang/GeeCache/geecache/geecache.go:79-126 | Without such a circle, once no more requests come in only a bounded number of steps can follow, and when no thread can move every Get has returned. |
| ClusterProgress.WaitsForIsAcyclic | 7days-golang/GeeCache/geecache/geecache.go:92-126 | With agreeing rings no chain of threads waiting for each other is longer than four, so there is no cycle. |
| ClusterDeadlock.CycleDeadlocks | 7days-golang/GeeCache/geecache/geecache.go:92-105 | Along a routing cycle of any length, in a cluster of any size, a request goes once round and joins itself: a reachable state where nobody can move. |
| ClusterRing.RingsAgreeExactly | 7days-golang/GeeCache/geecache/http.go:122-144 | Nodes that list the same peers agree on every owner if and only if their rings have the same last writer at every position. |
| ClusterRing.CollisionFreeExactly | 7days-golang/GeeCache/geecache/http.go:122-144 | However the nodes arrange their lists of each other, the cluster never deadlocks, if and only if no two of them share a ring position. |
| TrieSpec.ParseOnto | 7days-golang/Gee/gee/router.go:20-34 | Parsing undoes joining for every list of parts parsing can yield. |
| TrieSpec.InsertUpdates | 7days-golang/Gee/gee/trie.go:37-51 | Insertion changes the pattern of exactly one node, the one its walk ends at. |
| TrieSpec.SearchSound | 7days-golang/Gee/gee/trie.go:54-73 | Search answers only with the pattern of a node whose own parts match the segments. |
| TrieSpec.SearchComplete | 7days-golang/Gee/gee/trie.go:54-73 | If any node with a pattern matches, search answers, even when an earlier sibling fails deeper down. |
| TrieSpec.SearchPrefersStatic | 7days-golang/Gee/gee/trie.go:24-73 | Of all the matching nodes with a pattern, search answers with the one that, from the left, goes by the segments themselves before wildcards. |
| RouteExact.SafeExactly | 7days-golang/Gee/gee/trie.go:13-51 | Registering one more pattern on a correct router leaves every path without an early star segment answered correctly, by its own segments, if and only if the registration is safe, a check on the trie and the pattern. |
| RouteExact.UnsafeBreaksAPath | 7days-golang/Gee/gee/trie.go:13-51 | For an unsafe registration, a path without an early star segment that is answered wrongly afterwards. |
| RouterSpec.AlwaysCorrectExactly | 7days-golang/Gee/gee/router.go:36-47 | A sequence of registrations keeps the router correct throughout, for every path without an early star segment, if and only if each was safe where it was made. |
| RouteFinal.FinallyCorrectExactly | 7days-golang/Gee/gee/router.go:36-47 | After any registrations, safe or not, the router is correct for those paths if and only if each node that search can reach has a pattern as general as the way to it and each registered pattern answers its own probes. |
| RouteFinal.UnsafeCanBeMended | 7days-golang/Gee/gee/trie.go:13-51 | `a/:x`, then `a/b`, then `a/:x` again is not safe throughout, and ends in a correct router. |
| RouterSpec.FaithfulRouterExactly | 7days-golang/Gee/gee/router.go:20-92 | For every path: whatever faithful registrations were made, it is answered exactly when some registered pattern matches its segments, and then with such a pattern, if and only if no segment of it but the last begins with a star. |
| RouterSpec.FaithfulOnParsed | 7days-golang/Gee/gee/router.go:36-92 | After faithful registrations what the parser leaves of any path is answered exactly when some non-empty registered pattern matches that, and with such a pattern. |
| RouterSpec.StarSegmentCutsPath | 7days-golang/Gee/gee/router.go:20-34 | The lookup of `a/*b/c` finds `a/:x`, which does not match its three segments. |
| RouterSpec.StaticOverWildcardIsUnsafe | 7days-golang/Gee/gee/trie.go:13-21 | `a/:x` followed by `a/b` is unsafe, for all ordinary a and b and any x. |
| RouterSpec.PatternDepth | 7days-golang/Gee/gee/router.go:36-47 | Whatever was registered, a node's pattern is a registered one that parses to exactly the node's depth. |
| RouterSpec.RouteIndexSafe | 7days-golang/Gee/gee/router.go:72-88 | Whatever was registered, a found pattern is non-empty, registered and has no more parts than the path has segments. |
| RouterSpec.AlwaysRebuildsExactly | 7days-golang/Gee/gee/router.go:75-88 | Substituting a matching pattern's bound parameters back rebuilds every path without an early star segment if and only if the parameter names differ and a star has a name. |
| RouterSpec.BindExactly | 7days-golang/Gee/gee/router.go:75-86 | The parameters are exactly the names of the wild parts, each bound by the last part of that name: to its segment, or for a named star to all segments from there on. |
| RouterSpec.LookupRebuildsPath | 7days-golang/Gee/gee/router.go:66-92 | A path found after faithful registrations yields a registered pattern that matches what the parser left of it; if that is well named, its parameters rebuild the path if and only if no segment but the last begins with a star. |
| RouterSpec.KeysShareExactly | 7days-golang/Gee/gee/router.go:45-46 | Two routes are stored under one handler key if and only if they are equal or one method is the other, a dash and x, where x and a dash begin the other's pattern. |
| RouterSpec.HandlerIsOwn | 7days-golang/Gee/gee/router.go:45-55 | If no other route shares its key, the handler stored for a route was registered for exactly that method and pattern. |
| RouterSpec.SharedKeyIsTaken | 7days-golang/Gee/gee/router.go:45-55 | A route that shares the key and is registered last takes the handler over. |
| Router.TrieNode.MatchChild | 7days-golang/Gee/gee/trie.go:13-21 | Finds the first child that fits, or none. |
| Router.TrieNode.MatchChildren | 7days-golang/Gee/gee/trie.go:24-34 | Collects the children that fit, in order. |
| Router.TrieNode.Insert | 7days-golang/Gee/gee/trie.go:37-51 | In-place insertion into the linked nodes yields the specified trie. |
| Router.TrieNode.Search | 7days-golang/Gee/gee/trie.go:54-73 | Backtracking over the linked nodes returns the node the specification answers with. |
| Router.Router.ParsePattern | 7days-golang/Gee/gee/router.go:20-34 | The loop computes the specified parts. |
| Router.Router.AddRoute | 7days-golang/Gee/gee/router.go:36-47 | Adds one registration: every method's trie stays the one built from its registrations in order, on disjoint nodes, and every handler key holds its last handler. |
| Router.Router.GetRoute | 7days-golang/Gee/gee/router.go:66-92 | Returns a node exactly when the specification has an answer, with that pattern and its parameters bound, never indexing past the segments; after faithful registrations the pattern matches what the parser left and, if well named, its parameters rebuild the path if and only if no segment but the last begins with a star, when it also matches the path's own segments. |
| Router.Router.BindParams | 7days-golang/Gee/gee/router.go:75-86 | The binding loop computes the specified parameter map. |
| Router.Router.HandlerFor | 7days-golang/Gee/gee/router.go:49-60 | A routed path always finds a stored handler; others get the 404 handler. |
| MiddlewareSpec.StartsInOrder | 7days-golang/Gee/gee/context.go:37-44 | For any handlers, each starts at most once and in order, none after a failure, and all start unless one fails or a panic escapes. |
| MiddlewareSpec.RecoveryCatches | 7days-golang/Gee/gee/recovery.go:11-23 | With the recovery middleware at any place, the chain from there on ends as the rest after it did, plus one failure if that panicked. |
| MiddlewareSpec.PanicIsFromBefore | 7days-golang/Gee/gee/recovery.go:11-23 | A panic that escapes the chain was raised by a handler placed before the recovery middleware. |
| MiddlewareSpec.ImplicitNextIsLast | 7days-golang/Gee/gee/context.go:37-44 | A handler that does not call Next behaves as if it called it last; adding that call to any handler changes no run. |
| Onion.LaterNextIsNothing | 7days-golang/Gee/gee/context.go:37-44 | Once the rest of the chain has run or been cut off, a handler's further calls of Next add nothing and what follows them still runs. |
| Onion.ChainPeels | 7days-golang/Gee/gee/context.go:37-44 | For handlers with any part before their Next and any part after it, the log and the outcome are those of the parts run by themselves: first parts from the outside in, second parts from the inside out; a failure in a first part cuts off only what is inside, a panic ends it all. |
| Onion.InAndOut | 7days-golang/Gee/gee/logger.go:9-13 | For any number of handlers that write before and after Next the log is all starts and first writings in order, then all second writings in reverse order. |
| Middleware.Context.Next | 7days-golang/Gee/gee/context.go:37-44 | The re-entrant index loop terminates with exactly the trace and outcome of nested continuations from the next handler on. |
| Middleware.Context.Run | 7days-golang/Gee/gee/recovery.go:11-23 | One handler's program, with its calls to Next, Fail and its recoveries, does what its continuation does; the index equals the handler's own exactly while the rest is pending. |
| Middleware.Context.Fail | 7days-golang/Gee/gee/context.go:105-108 | Moves the index past the last handler. |
| RegistrySpec.ListingUnique | 7days-golang/GeeRPC/geerpc/registry/registry.go:50-64 | A set of addresses has only one sorted listing. |
| RegistrySpec.StringLeExactly | 7days-golang/GeeRPC/geerpc/registry/registry.go:62 | The order of listings is the ascending one: a proper start comes first, else the smaller character at the first difference. |
| RegistrySpec.SteadyIsListed | 7days-golang/GeeRPC/geerpc/registry/registry.go:50-64 | An address whose heartbeats keep arriving less than the timeout apart is live for every listing after its first one. |
| RegistrySpec.DefaultHeartbeatIsListed | 7days-golang/GeeRPC/geerpc/registry/registry.go:95-110 | A sender ticking at the default interval is on every list that a registry with the default timeout gives out after its first heartbeat, if each arrives within a minute. |
| RegistrySpec.KeptComingIsListed | 7days-golang/GeeRPC/geerpc/registry/registry.go:50-64 | The list answered to the latest request has every address whose heartbeats have kept coming. |
| Registry.GeeRegistry.PutServer | 7days-golang/GeeRPC/geerpc/registry/registry.go:38-48 | Refreshes or adds one address; refines "last heartbeat per address". |
| Registry.GeeRegistry.AliveServers | 7days-golang/GeeRPC/geerpc/registry/registry.go:50-64 | Returns, in strictly ascending order, exactly the addresses whose last heartbeat is younger than the timeout (all if it is 0), whatever was pruned before, every address whose heartbeats kept coming among them; the pruning leaves the abstract state alone. |
| Registry.GeeRegistry.ServeHTTP | 7days-golang/GeeRPC/geerpc/registry/registry.go:70-84 | GET answers the joined listing, with every address whose heartbeats kept coming; POST with an address records it, without one fails with 500, other verbs with 405; the history of requests grows accordingly. |
| Wire.RoundTripExactly | 7days-golang/GeeRPC/geerpc/xclient/discovery_gee.go:53-59 | Discovery reads back exactly the list the registry wrote, the empty list included, if and only if every address is non-empty, comma-free and not surrounded by white space. |
| Wire.DecodeGivesAddresses | 7days-golang/GeeRPC/geerpc/xclient/discovery_gee.go:53-59 | Whatever the header, the decoded list holds only well-formed addresses. |
| Wire.PieceOfOne | 7days-golang/GeeRPC/geerpc/xclient/discovery_gee.go:53-59 | Whatever the addresses, everything decoded is a piece of one of those on the list. |
| Wire.TrimExactly | 7days-golang/GeeRPC/geerpc/xclient/discovery_gee.go:53-59 | A piece is read without the white space at its ends and otherwise as it is; there is only one way to do so. |
| Wire.KeptIs | 7days-golang/GeeRPC/geerpc/xclient/discovery_gee.go:53-59 | Each piece of the header gives one address in its place, trimmed, or none exactly if it is blank. |
| Strings.JoinSplit | 7days-golang/GeeRPC/geerpc/xclient/discovery_gee.go:53-54 | Splitting loses nothing but the separators. |
| DiscoverySpec.FairShare | 7days-golang/GeeRPC/geerpc/xclient/discovery.go:68-71 | From any start index, k selections give every position k/n turns, plus one to exactly the first k mod n positions. |
| DiscoverySpec.OneRound | 7days-golang/GeeRPC/geerpc/xclient/discovery.go:68-71 | Any n selections in a row visit each of the n positions exactly once. |
| DiscoverySpec.TurnAt | 7days-golang/GeeRPC/geerpc/xclient/discovery.go:68-71 | The j-th selection is j positions after the first, wrapping round. |
| DiscoverySpec.RoundRobinTurns | 7days-golang/GeeRPC/geerpc/xclient/discovery.go:57-75 | Consecutive round-robin answers are consecutive servers of the list. |
| Discovery.MultiServerDiscovery.Get | 7days-golang/GeeRPC/geerpc/xclient/discovery.go:57-75 | Picks by the mode, for any index left behind by an update: the server the generator has drawn, or the one at the index, which moves on; or fails with the code's two errors and leaves the index alone. |
| Discovery.MultiServerDiscovery.Update | 7days-golang/GeeRPC/geerpc/xclient/discovery.go:50-55 | Replaces the list and nothing else. |
| Discovery.GeeRegistryDiscovery.Refresh | 7days-golang/GeeRPC/geerpc/xclient/discovery_gee.go:41-63 | If the list was taken less than the timeout ago, keeps it and returns no error whatever the registry would answer; else takes the decoded header and the time, or returns the fetch's error and keeps the old list. |
| Discovery.GeeRegistryDiscovery.Get | 7days-golang/GeeRPC/geerpc/xclient/discovery_gee.go:65-70 | A refresh followed by a pick from the refreshed list; from a young list a pick whatever the registry would answer. |
| Discovery.GeeRegistryDiscovery.GetAll | 7days-golang/GeeRPC/geerpc/xclient/discovery_gee.go:72-76 | The refreshed list, or the fetch's error; a young list whatever the registry would answer. |
| Broadcast.BroadcastOutcome | 7days-golang/GeeRPC/geerpc/xclient/xclient.go:102-144 | When all goroutines are done, the error is the first one merged and the reply the first successful one merged; no error means every server succeeded undisturbed. |
| Broadcast.FirstComeFirstServed | 7days-golang/GeeRPC/geerpc/xclient/xclient.go:126-136 | At any time of any run the error is that of the first call merged with one and the reply, if wanted, that of the first merged without one, in the order of the steps; either cancels the rest. |
| Broadcast.HealthyBroadcast | 7days-golang/GeeRPC/geerpc/xclient/xclient.go:102-144 | If no server fails, an error can only be the cancellation after the first reply, and the reply is then set. |
| Broadcast.NeverFailsExactly | 7days-golang/GeeRPC/geerpc/xclient/xclient.go:102-144 | In every run a broadcast returns no error, if and only if no server fails and either no reply is wanted or there is at most one server. |
| Broadcast.Gathering.Finish | 7days-golang/GeeRPC/geerpc/xclient/xclient.go:126-136 | One goroutine's critical section on the shared error, reply and cancellation. |
| Staleness.StepInv | 7days-golang/GeeRPC/geerpc/xclient/discovery_gee.go:41-63 | Heartbeats, and the checks, listings, arrivals and lost replies of any number of Gets in any order, keep every cached server vouched for by a recent heartbeat. |
| Staleness.HandedOutIsRecent | 7days-golang/GeeRPC/geerpc/xclient/discovery_gee.go:65-76 | Whatever a Get may hand out after its refresh succeeded, whatever other Gets do meanwhile, belongs to an address that sent a heartbeat within the registry's timeout, the discovery's timeout and the listing's travel time, counted back from when that Get looked at the list. |
| Staleness.FetchesExactly | 7days-golang/GeeRPC/geerpc/xclient/discovery_gee.go:41-46 | In every run a Get that looks at the list asks the registry if and only if no listing has arrived within the discovery's timeout; otherwise it gets through to the list as it is. |

## Left out

- GeeORM: its meaning lives in the database and in reflection.
- Gob, JSON and protobuf encoding, sockets, HTTP transport, dialling, option negotiation and service registration by reflection: frames are whole header and body tokens delivered in order, and reading a token of the wrong kind is a read error.
- The client's error text passes through a format function in `7days-golang/GeeRPC/geerpc/client.go:113`; text with `%` in it would be changed, here it is kept.
- XClient: dialling, its map of clients, and a caller's context that ends during a broadcast.
- Key escaping between cache peers: group and key are delivered unchanged.
- Integer width: sequence numbers and byte counters do not wrap.
- Data races on a request's header after its timeout: each step is atomic, and critical sections under one mutex are single steps, except the terminator's.
- Call objects shared through a caller's own `done` channel: every call has its own one-slot channel.
- A panicking function inside duplicate-call suppression, and eviction callbacks that re-enter the cache.
- Requests that reach `HTTPPool.PickPeer` before `Set`: the code would use a nil ring.
- Manual `Update` of the registry-backed discovery in `Staleness`: the bound is about fetched lists.
- Clocks of registry and discovery are one clock in `Staleness`.
- Logging, HTML rendering, static files, the debug page and the example programs.
- Lru.Cache.Add: requires a budget that is not negative; `EvictionStops` shows the loop cannot stop otherwise.
- Lru.Cache.Evict: requires a budget that is not negative, for the same reason.
- GeeCache.Group.Get: models one caller on a node with no peers; concurrency and peers are in `Cluster`.
- Flight.Group.Publish: writes result and release in one step; nobody reads the result in between.
- GeeCache.Group.GetLocally: requires a budget that is not negative, as `Add` does.
- GeeCache.Group.PopulateCache: requires a budget that is not negative, as `Add` does.
- Fetches.FetchedOnceExactly: has one caller; `ClusterFetches` has the runs of the whole cluster, overlapping Gets included.
- ServerFrames.LossNeedsFailure: takes a frame for written once it is encoded; `7days-golang/GeeRPC/geerpc/codec/gob.go:37-43` drops the error of its last flush, which can lose a frame without a failed write.
- RpcProgress.EveryCallReturns: takes a request for sent once it is encoded, likewise, and lets each end notice that the other has closed the connection.
- RpcSystem.UnreadBodyEndsService: takes a body for refused where a header is expected; an argument type with a field such as `Seq` could be decoded as one.
- RegistrySpec.DefaultHeartbeatIsListed: a sender that stops after a failed heartbeat, as the code's does, is not steady any more.
- RpcClient.Client.Receive: has no caller running beside it; `ClientProtocol` has all of them.
