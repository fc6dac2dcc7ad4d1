# Lab4-Go load balancer: routing and health bookkeeping in Dafny

This project models the routing and health-tracking core of the `cmd/lb`
load balancer. The balancer is a reverse proxy. It sends each client to a
backend chosen by a hash of the client address. It also polls the backends'
`/health` endpoints and keeps a list of active servers.

The model has three modules:

- `Fnv32` (`fnv32.dfy`) covers two things:
  - the 32-bit FNV-1 hash behind Go's `fnv.New32`: multiply by the prime
    16777619 modulo 2^32, then xor the byte, starting from the offset basis
    2166136261;
  - the bytes a Go string hands to it, which is its UTF-8 encoding.

  `Hash` is the fold over a byte sequence. `Absorb` is the hasher's
  state-machine view. `Write` is the hasher's `Write`, which never fails.
  The rounds of the three sample addresses used by the unit tests are
  written out and proved.
- `Seqs` (`seqs.dfy`) holds `Filter`, an order-preserving filter of a
  sequence, with its lemmas. Every loop of the balancer that walks the pool
  and appends what it keeps is proved equal to a `Filter`.
- `Balancer` (`balancer.dfy`) holds the routing and health parts:
  - `Scheme`, `EncryptAddress` and `GetServerIndexByAddress`;
  - the `HealthChecker` class, whose status map is updated in place by
    `CheckAllServers` and read by `GetHealthyServers`;
  - the `LoadBalancer` class, holding the pool and the `activeServers` slice
    that one tick of the health monitor rebuilds. A Go slice is a window on
    a backing array. `activeServers` is made with `make([]string, 3)`, and
    each tick truncates it to length 0 and appends to it again, never past
    its capacity. So the class keeps that backing array as `store` and the
    slice length as `activeLen`, and `ActiveServers()` is `store[..activeLen]`.
    `main` hands this same array to the monitors as their `result`, and the
    model covers that shared case as well as a separate `result` array.

  `MonitorTick` is one iteration of the ticker loop in
  `StartHealthMonitoring`. `MonitorRound` is one tick of every monitor that
  `CheckServersHealth` starts.

The program's package-level variables become fields or parameters:

- `serversPool` is `LoadBalancer.serversPool`, or a parameter of the health
  checker's methods.
- `activeServers` is `LoadBalancer.ActiveServers()` over the backing array
  `LoadBalancer.store`, or the `activeServers` parameter of
  `GetServerIndexByAddress`.
- The `https` flag is the parameter of `Scheme`.

The network probe `Health` becomes one of two things:

- the `health` function of a `HealthChecker`, or the `health` parameter of
  `MonitorRound`;
- in `MonitorTick`, the boolean outcome `up` of that tick's probe, since a
  real probe may answer differently from one tick to the next.

With Go's 64-bit `int`, `int(hashed) % len(activeServers)` reduces a
non-negative value, below 2^32, modulo a positive length. It therefore agrees
with Dafny's `%`. A 32-bit `int` is not covered; see "## Left out".

In two places the code does not do what a load balancer would be expected
to do. The model follows the code:

- **Selection over an empty list.** A balancer would be expected to report
  that no backend is available when the active list is empty. The code
  divides by `len(activeServers)`, which is zero, and panics. The model makes a non-empty
  list a precondition of `GetServerIndexByAddress`.
- **What the active list holds.** Routing is meant to use the servers whose
  health check passes. The monitor tick rebuilds `activeServers` from
  the non-empty entries of `serversPool`, not from `result`. So after any
  tick the active list is the whole configured pool, healthy or not. The
  model states this as what the code does (`ActiveIsWholePool`,
  `DefaultPoolAllActive`, `ServersHealthScenario`). In `main`, where
  `result` is the active list's own backing array, the rebuild also
  overwrites what the monitors recorded: after one round `result` is the
  whole pool whatever the probes answer (`MainHealthRound`).

## Model

| member | source | states |
|---|---|---|
| Balancer.Scheme | cmd/lb/balancer.go:63-68 | the scheme is "https" exactly when the flag is set and "http" exactly when it is not |
| Balancer.EncryptAddress | cmd/lb/balancer.go:146-154 | the result is the FNV-1 hash of the UTF-8 bytes of the address, a value below 2^32; the error branch returning 0 is never taken, because `Write` never fails |
| Fnv32.Write | cmd/lb/balancer.go:147-148 | writing to the FNV-1 hasher absorbs every byte: it reports all of them written and no error, and from a fresh hasher its state is the FNV-1 hash of the data |
| Fnv32.AbsorbFromBasisIsHash | cmd/lb/balancer.go:147-153 | a fresh hasher fed `data` byte by byte holds the fold `Hash(data)`, which starts at the offset basis and multiplies, then xors, per byte |
| Fnv32.AbsorbConcat | cmd/lb/balancer.go:147-153 | writing `a` then `b` to a hasher leaves the state that writing `a + b` does |
| Fnv32.EncodeRuneRoundTrip | cmd/lb/balancer.go:148 | the UTF-8 bytes of a character, as `[]byte(addr)` produces them, decode back to its code point |
| Fnv32.EncodeRune | cmd/lb/balancer.go:148 | a character takes the shortest UTF-8 form: one byte, namely its code, exactly below 0x80; two bytes exactly for 0x80..0x7FF, with lead byte 0xC2..0xDF; three bytes exactly for 0x800..0xFFFF, with lead byte 0xE0..0xEF; four bytes exactly from 0x10000 on, with lead byte 0xF0..0xF4; every later byte is a continuation byte 0x80..0xBF, so no overlong form occurs |
| Fnv32.Utf8 | cmd/lb/balancer.go:148 | `[]byte(addr)` is the concatenation of the UTF-8 encodings of the characters, so it has at least as many bytes as the address has characters |
| Fnv32.Utf8Snoc | cmd/lb/balancer.go:148 | the bytes of an address extended by one character are the address's bytes followed by that character's encoding |
| Fnv32.Utf8Concat | cmd/lb/balancer.go:148 | the bytes of a concatenation of two strings are the bytes of the first followed by the bytes of the second |
| Fnv32.Utf8Ascii | cmd/lb/balancer.go:148 | the bytes of an ASCII address are its character codes, one per character |
| Fnv32.HashOfFirstTestAddress | cmd/lb/balancer_test.go:23 | the FNV-1 hash of "192.168.0.0:80" is 65249880 |
| Fnv32.HashOfSecondTestAddress | cmd/lb/balancer_test.go:24 | the FNV-1 hash of "127.0.0.0:8080" is 958394273 |
| Fnv32.HashOfThirdTestAddress | cmd/lb/balancer_test.go:25 | the FNV-1 hash of "26.143.218.9:80" is 1282104361 |
| Balancer.GetServerIndexByAddress | cmd/lb/balancer.go:140-144 | over a non-empty active list, the index is the address hash modulo the list length and lies in [0, length) |
| Balancer.IndexDependsOnlyOnCount | cmd/lb/balancer.go:140-144 | for a fixed active-list length the same address always gets the same index, whatever the list holds |
| Balancer.TestVectorIndices | cmd/lb/balancer_test.go:23-29 | with three active servers, "192.168.0.0:80" goes to index 0, "127.0.0.0:8080" to 2 and "26.143.218.9:80" to 1 |
| Balancer.HealthChecker.constructor | cmd/lb/balancer.go:37-41 | a health checker starts with the given probe and an empty status table |
| Balancer.HealthChecker.CheckAllServers | cmd/lb/balancer.go:43-51 | afterwards every pool server is in the table with the probe's answer; entries of servers outside the pool keep their value; the key set grows by exactly the pool |
| Balancer.HealthChecker.GetHealthyServers | cmd/lb/balancer.go:53-61 | the result is the pool filtered, in order, by "present in the table and true" |
| Balancer.HealthyServersMembership | cmd/lb/balancer.go:53-61 | a server is in the healthy list exactly when it is in the pool and recorded true; a server missing from the table is never in it |
| Balancer.HealthyServersCount | cmd/lb/balancer.go:53-61 | the healthy list holds each healthy server as many times as the pool does and each other server not at all, so it is a sub-multiset of the pool |
| Balancer.CheckedThenHealthy | cmd/lb/balancer.go:43-61 | once the table agrees with the probe on the pool, the healthy list is the pool filtered by the probe |
| Balancer.CheckThenListHealthy | cmd/lb/balancer.go:43-61 | checking all servers and then listing the healthy ones gives the pool servers the probe accepts, in pool order |
| Seqs.Filter | cmd/lb/balancer.go:53-61 | a filtered list is no longer than its source and holds only kept elements of it |
| Seqs.FilterConcat | cmd/lb/balancer.go:53-61 | filtering distributes over concatenation, so the kept elements keep their relative order |
| Balancer.LoadBalancer.constructor | cmd/lb/balancer.go:28-33 | the balancer starts with its pool and a fresh backing array, one slot per pool server, whose slice holds one empty string per pool server |
| Balancer.LoadBalancer.MonitorTick | cmd/lb/balancer.go:165-175 | the active list becomes the non-empty pool entries in pool order, whatever the probe said; for a separate `result`, `result[index]` becomes the server if the probe answered and no other entry changes, and the backing array past the active list is unchanged; for a `result` that is the backing array, its slots past the active list are those left by the write to `index`; a non-empty server never clears an entry |
| Balancer.LoadBalancer.RebuildActive | cmd/lb/balancer.go:169-174 | truncating and re-appending makes the active list the non-empty pool entries in pool order, and leaves the backing array's slots past it unchanged |
| Balancer.LoadBalancer.Append | cmd/lb/balancer.go:172 | `append` within capacity writes the value into the first slot past the slice, grows the slice by one and changes no other slot |
| Balancer.LoadBalancer.MonitorRound | cmd/lb/balancer.go:156-175 | after one tick of each monitor, the active list is the non-empty pool entries; for a separate `result`, entry `i` holds server `i` when the probe accepts it and its old value otherwise, later entries are unchanged, and the backing array past the active list is unchanged; for a `result` that is the backing array, its slots past the active list hold what a separate `result` would; with no servers nothing changes |
| Balancer.Recorded | cmd/lb/balancer.go:165-167 | what the first `k` monitors record: slots at or past `k` keep their value, and the length is unchanged |
| Balancer.RecordedStep | cmd/lb/balancer.go:165-167 | one more monitor's tick changes only its own slot, to its server when the probe answers and to the old value otherwise |
| Balancer.ActiveIsWholePool | cmd/lb/balancer.go:169-174 | when no pool entry is empty, the rebuilt active list is the whole pool, healthy or not |
| Balancer.ActiveServersFromPool | cmd/lb/balancer.go:169-174 | the rebuilt active list holds a server exactly when it is a non-empty pool entry, and is no longer than the pool |
| Balancer.DefaultPoolAllActive | cmd/lb/balancer.go:28-33 | for the configured three-server pool, the rebuilt active list is that pool, of length 3 |
| Balancer.MainHealthRound | cmd/lb/balancer.go:124 | in `main`, which calls `CheckServersHealth` (lines 156-175) with the `activeServers` slice of line 33 as `result`, so that `result` is the backing array of the active list, one round leaves both `result` and the active list equal to the configured pool, whatever the probes answer |
| Balancer.ServersHealthScenario | cmd/lb/balancer_test.go:32-62 | two answering hosts and a silent "server3:8080" leave results [host1, host2, ""] after one tick; the active list is then the whole configured pool; the sample addresses go to indices 0, 2 and 1 of it |

## Left out

- `Health` (cmd/lb/balancer.go:70-84) is an HTTP GET with a timeout. Here it is a function or a boolean outcome, as described above. The timeout and the status-code test belong to that I/O.
- `Forward` (cmd/lb/balancer.go:86-119) is request cloning, header copying, body streaming and logging over the network. It is not modelled.
- The request handler and start-up in `main` (cmd/lb/balancer.go:121-138) are not modelled. They rely on `httptools` and `signal`, which are not part of this model. The handler reads `activeServers[len(serversPool)]`, one past the end of a list that holds at most `len(serversPool)` entries. With the three-server pool it always panics. It also forwards each request twice.
- Goroutines, `time.Tick` and the `sync.Mutex` in `StartHealthMonitoring` and `CheckServersHealth` (cmd/lb/balancer.go:156-179) are not modelled. Only the sequential effect of one tick is kept. Each tick writes its own index of `result` and then rebuilds the active list alike. When `result` is a separate array, one round's outcome does not depend on the order of the ticks. When it is the active list's backing array, as in `main`, the rebuild overwrites slots below the active list's length, and the model fixes the ticks in pool order. The Go program holds the mutex during the rebuild but not during the probe or the write to `result[index]`. So in `main`, one monitor's unlocked write races with another monitor's rebuild of the same array; the race is not modelled. The logging probe at line 176 is left out with the other I/O.
- Flags, the timeout and the global variables (cmd/lb/balancer.go:18-35) are not modelled as globals. They are parameters and fields instead.
- The package-level `healthChecker` is `&HealthChecker{}`, whose map is nil. Writing to it would panic, and the program never calls `CheckAllServers` on it. The model's table always exists; the nil map is not modelled.
- A Go string may hold bytes that are not valid UTF-8. Dafny strings are sequences of Unicode scalar values, so `[]byte(addr)` is modelled as the UTF-8 encoding. Such Go strings are not covered.
- The hasher's internals in Go's `hash/fnv` (a loop over the bytes) are not modelled as code. `Absorb` stands for them, and it computes the same rounds.
- Balancer.GetServerIndexByAddress: assumes Go's 64-bit `int`. With a 32-bit `int`, `int(hashed)` wraps hashes of 2^31 or more to negative values, and Go's `%` truncates toward zero, so the index can be negative: "127.0.0.4:80" hashes to 2302388285, which becomes -1992579011, and `% 3` gives -2.
- Balancer.LoadBalancer.MonitorRound: requires `|servers| <= result.Length` for every server. Go panics on an out-of-range `result[index]` only when that server's probe answers.
- The unit tests call `getServerIndexByAddress` and `checkServersHealth`, lower-case names that cmd/lb/balancer.go does not declare. Those tests are modelled against `GetServerIndexByAddress` and `CheckServersHealth`.
- In `TestServersHealth` the second host is taken from the first test server's URL, so the two hosts are equal. `ServersHealthScenario` allows any two hosts other than "server3:8080", which covers that case.
- `integration/balancer_test.go` needs a live balancer on the network. It is not modelled.
