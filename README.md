# Round-robin load balancer and album handlers, in Dafny

This project models two small Go programs of one repository.

**The load balancer** (`simple-load-balancer/main.go`) holds an ordered, fixed
list of backends. Each backend is an address plus an `Alive` flag. A `uint64`
counter drives selection. Every inbound request advances the counter and is
forwarded to the backend at `(counter - 1) mod n`. Before it is handed to the
reverse proxy, the request's destination scheme, host and `Host` header are
rewritten to that backend. A health check probes each backend's host in order
and overwrites its flag. The flag is never consulted by selection.

**The album handlers** (`simple-api-gateway/handlers/album.go`) work on an
in-memory list of albums:
- list all albums;
- append one album when the request body binds;
- look up the first album with a given ID, or answer 404.

Modules:

- `Wrappers` (`wrappers.dfy`): `Option` and `Result`.
- `Http` (`http.dfy`): the parts of Go's `url.URL` and `http.Request` that the
  core reads or writes. `Url` is a value. `Request` is an object, because the
  proxy rewrites it in place.
- `RoundRobin` (`round_robin.dfy`): `uint64` counter arithmetic with explicit
  wrap-around at 2^64. `Selections(c, n, k)` is the list of backend indices
  picked by `k` consecutive selections starting from counter `c`. The fairness
  lemmas are proved about it.
- `LoadBalancing` (`load_balancer.dfy`) has two classes:
  - `Backend`: `url` is fixed, `alive` is mutable.
  - `LoadBalancer`: `servers` is an `array<Backend?>`, as Go's `make` leaves
    nil pointers until the loop fills them; `current` is the counter.

  It also holds the construction `NewLoadBalancer`, which follows the
  specification function `ParseAll`, and the request rewrite `Retarget`.
- `AlbumHandlers` (`albums.dfy`): the class `AlbumStore` holds the package-level
  album slice. `FirstWithId` is the find-first search, and there are lemmas
  about appending to the list.

External effects become parameters:
- `url.Parse` is `parse: string -> Result<Url, ParseError>`.
- The TCP probe of `isBackendAlive` is `reachable: string -> bool`. It is
  applied to the backend's host, which is what the probe dials.
- Gin's JSON binding is an `Option<Album>`.
- A JSON response is a `Reply(status, payload)`.

Three behaviours of the code shape the model:
- An empty address list is accepted by `NewLoadBalancer`
  (`simple-load-balancer/main.go:26-39`). Selecting from it afterwards would
  divide by zero (`main.go:44`), so `NextServer`, `NextServers` and
  `HandleRequest` require at least one backend.
- A new backend starts with `Alive == false`, Go's zero value, because only
  `URL` is set (`simple-load-balancer/main.go:35-37`).
- The periodic health check calls `HealthCheck` on the package-level `lb`,
  which `main` shadows with a local variable
  (`simple-load-balancer/main.go:82`, `:91`, `:115`). So in the running program
  the periodic check runs over an empty backend list. The model states what
  `HealthCheck` does on the load balancer it is called on.

## Model

| member | source | states |
|---|---|---|
| `RoundRobin.DecrementUndoesIncrement` | simple-load-balancer/main.go:43-44 | `(next - 1)` after the wrapping `AddUint64(&current, 1)` is the old counter value, also when the counter wraps from 2^64 - 1 to 0 |
| `RoundRobin.Selections` | simple-load-balancer/main.go:42-45 | k consecutive selections over n backends give k indices, each below n |
| `RoundRobin.CyclicOrder` | simple-load-balancer/main.go:43-44 | without a counter wrap, the selection after backend i is backend i + 1, or backend 0 after the last one (registration order) |
| `RoundRobin.CycleIsRotation` | simple-load-balancer/main.go:43-44 | without a counter wrap, n consecutive selections are the backend list rotated to start at the counter's slot |
| `RoundRobin.FullCycle` | simple-load-balancer/main.go:43-44 | n consecutive selections without a wrap pick each of the n backends exactly once |
| `RoundRobin.CycleRepeats` | simple-load-balancer/main.go:43-44 | without a counter wrap, selection n + 1 picks the same backend as selection 1 |
| `RoundRobin.Balanced` | simple-load-balancer/main.go:43-44 | m * n consecutive selections without a wrap pick every backend exactly m times |
| `RoundRobin.WrapRepeatsSlot` | simple-load-balancer/main.go:42-45 | across the 2^64 wrap with three backends, two consecutive selections both pick backend 0, so the rotation is broken there |
| `LoadBalancing.Backend.constructor` | simple-load-balancer/main.go:35-37 | a new backend has the parsed URL and `alive == false` |
| `LoadBalancing.Backend.SetAlive` | simple-load-balancer/main.go:63-67 | the flag becomes the given value; only this backend is modified, so no other backend and no counter changes |
| `LoadBalancing.ParseAll` | simple-load-balancer/main.go:29-33 | success exactly when every address parses, and then one URL per address, in order; on failure, the error of the first address that fails to parse |
| `LoadBalancing.FirstFailureDecides` | simple-load-balancer/main.go:29-33 | if address k is the first that fails to parse, construction fails with exactly its error |
| `LoadBalancing.LaterAddressesIgnored` | simple-load-balancer/main.go:29-33 | addresses after the first failing one do not affect the result |
| `LoadBalancing.Retarget` | simple-load-balancer/main.go:50-51 | the rewritten URL has the target's scheme and host, and the request's user, path, query and fragment |
| `LoadBalancing.LoadBalancer.constructor` | simple-load-balancer/main.go:39 | the load balancer holds the given backend array and the counter starts at 0 |
| `LoadBalancing.LoadBalancer.NextServer` | simple-load-balancer/main.go:42-45 | with n >= 1 backends, the counter goes up by 1 modulo 2^64 and the result is `servers[old counter mod n]`, which is the first element of `Selections`; only the counter changes, so no flag, URL or slot changes |
| `LoadBalancing.LoadBalancer.NextServers` | simple-load-balancer/main.go:57-58 | k requests in a row get exactly the backends `Selections(old counter, n, k)` names, and the counter ends at old counter + k modulo 2^64, so `FullCycle`, `CyclicOrder` and `Balanced` describe the backends the server actually picks |
| `LoadBalancing.LoadBalancer.ServeReverseProxy` | simple-load-balancer/main.go:50-52 | the request URL's scheme and host and the `Host` field become the target's; method, header, body, path and query are unchanged |
| `LoadBalancing.LoadBalancer.HandleRequest` | simple-load-balancer/main.go:57-61 | the request is rewritten to the backend at the old counter value mod n, and the counter advances by one |
| `LoadBalancing.LoadBalancer.HealthCheck` | simple-load-balancer/main.go:70-80 | afterwards every backend's flag is the probe result for its host; slots, order, URLs and the counter are unchanged |
| `LoadBalancing.NewLoadBalancer` | simple-load-balancer/main.go:26-40 | fails exactly when `ParseAll` fails, with the same error; otherwise a fresh load balancer with one fresh, distinct, not-alive backend per address, URLs in input order, counter 0 |
| `LoadBalancing.LivenessDoesNotSteer` | simple-load-balancer/main.go:42-45 | three backends with the second one unreachable: the health check leaves the flags up, down, up, and six selections after it still give A, B, C, A, B, C |
| `AlbumHandlers.FirstWithId` | simple-api-gateway/handlers/album.go:38-44 | no result exactly when no album has the ID; otherwise the index of an album with that ID, before which none has it |
| `AlbumHandlers.FirstWithIdAfterAppend` | simple-api-gateway/handlers/album.go:27-42 | after an append, a lookup finds the same album as before if there was one, else the appended album if its ID matches, else nothing |
| `AlbumHandlers.DuplicateIdShadowed` | simple-api-gateway/handlers/album.go:27-42 | an album posted with an ID already present is never the one a lookup of that ID returns |
| `AlbumHandlers.FreshIdFound` | simple-api-gateway/handlers/album.go:27-42 | an album posted with a new ID is found at the end of the list |
| `AlbumHandlers.AlbumStore.GetAlbums` | simple-api-gateway/handlers/album.go:12-14 | status 200 with exactly the current album list; nothing is modified |
| `AlbumHandlers.AlbumStore.PostAlbums` | simple-api-gateway/handlers/album.go:17-29 | when binding fails, the list is unchanged and no reply is written by the handler; otherwise the list becomes old + [album] and the reply is 201 with the whole new list |
| `AlbumHandlers.AlbumStore.GetAlbumByID` | simple-api-gateway/handlers/album.go:33-45 | status 200 with the first album whose ID matches, or 404 with `{"message": "album not found"}` when none does; nothing is modified |

## Left out

- Networking. The model leaves out the TCP dial of `isBackendAlive`, its
  2-second timeout and its log line. It also leaves out
  `httputil.NewSingleHostReverseProxy` and `proxy.ServeHTTP`, and so relaying
  the backend's response. Nor does it model `http.HandleFunc` or
  `http.ListenAndServe`. All of these are foreign I/O. The probe result is the
  parameter `reachable`.
- Concurrency. The model has no `sync.RWMutex` and no atomicity of
  `atomic.AddUint64`. It also leaves out `go healthCheck()` and the unbounded
  two-minute ticker loop. Each operation is one sequential step, so nothing is
  said about interleavings or lost updates.
- Concurrency in the album handlers. Gin serves each request in its own
  goroutine, and `PostAlbums` appends to `data.Albums` without a lock
  (`simple-api-gateway/handlers/album.go:27`). Concurrent posts can therefore
  lose an album. The model's `PostAlbums` result, `old(albums) + [album]`,
  holds only for calls that do not overlap.
- Output. All `fmt.Println`, `fmt.Printf` and `log` lines are left out, and so
  is the hard-coded address list of `main`.
- `url.Parse` internals. Parsing is the abstract parameter `parse`. `Url` keeps
  scheme, user, host, path, raw query and fragment. It drops `Opaque`,
  `RawPath`, `ForceQuery`, `OmitHost` and `RawFragment`.
- Gin. `BindJSON`, `Param` and `IndentedJSON` are inputs and outputs of the
  handlers. When binding fails, Gin's binder itself answers 400; that answer is
  not modelled, and the handler writes nothing.
- The gateway wiring in `simple-api-gateway/router/main.go` and
  `simple-api-gateway/main.go`. It only registers routes and starts a server.
- The `data` and `model` packages are not part of this model. `Album` has its
  `ID` plus a map of its other fields.
- The probe as a function of the host. `reachable` maps a host to one answer,
  so within one `HealthCheck` two backends with the same host get the same
  flag. In the code each backend is dialled separately
  (`simple-load-balancer/main.go:98-107`), and two dials of one host can
  differ.
- `RoundRobin.CyclicOrder`: stated only for `k` selections from a counter `c`
  with `c + k <= 2^64`, so that no selection reads a wrapped counter. Across
  the wrap `WrapRepeatsSlot` shows the order can break.
- `RoundRobin.CycleIsRotation`: stated only for counters with `c + n <= 2^64`.
  From a larger start the counter wraps inside the cycle, after 2^64 - c
  selections, and `WrapRepeatsSlot` shows the rotation can break there.
- `RoundRobin.FullCycle`: stated only for counters with `c + n <= 2^64`, for
  the same reason: a wrap inside the cycle can repeat a backend.
- `RoundRobin.CycleRepeats`: stated only for counters with `c + n < 2^64`, so
  that none of its n + 1 selections reads a wrapped counter.
- `RoundRobin.Balanced`: stated only for counters with `c + m * n <= 2^64`, for
  the same reason.
