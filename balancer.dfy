/**
 * The load balancer of `cmd/lb`: picking a backend by the hash of a client
 * address, the health checker's status table, and the monitoring tick that
 * records healthy backends and rebuilds the list of active servers.
 *
 * The package-level variables of the Go program (`serversPool`,
 * `activeServers`, the `https` flag) and the network probe `Health` are
 * parameters or fields here.
 */
module Balancer {
  import opened Fnv32
  import opened Seqs

  /** The backends the balancer is configured with. */
  const DefaultServersPool: seq<string> := ["server1:8080", "server2:8080", "server3:8080"]

  // ---------------------------------------------------------------------
  // Scheme
  // ---------------------------------------------------------------------

  /** The URL scheme used to reach backends: "https" when the flag is set, "http" otherwise. */
  function Scheme(https: bool): (r: string)
    ensures https <==> r == "https"
    ensures !https <==> r == "http"
  {
    if https then "https" else "http"
  }

  // ---------------------------------------------------------------------
  // Choosing a backend by client address
  // ---------------------------------------------------------------------

  /** What `EncryptAddress` returns when hashing fails. */
  const NoHash: uint32 := 0

  /**
   * The FNV-1 hash of the address's bytes. The error branch of the Go code
   * (returning 0 when `Write` fails) is kept, and is never taken.
   */
  function EncryptAddress(addr: string): (h: uint32)
    ensures h == Hash(Utf8(addr))
  {
    var w := Write(OffsetBasis, Utf8(addr));
    if w.failed then NoHash else w.state
  }

  /**
   * The index of the active server for a client address: the hash taken
   * modulo the number of active servers. The Go code divides by
   * `len(activeServers)` and so panics on an empty list; that is its
   * precondition here.
   */
  function GetServerIndexByAddress(addr: string, activeServers: seq<string>): (i: nat)
    requires |activeServers| > 0
    ensures i < |activeServers|
    ensures i == Hash(Utf8(addr)) as int % |activeServers|
  {
    EncryptAddress(addr) as int % |activeServers|
  }

  /** The chosen index depends on the address and the number of active servers only. */
  lemma IndexDependsOnlyOnCount(addr: string, a: seq<string>, b: seq<string>)
    requires |a| == |b| > 0
    ensures GetServerIndexByAddress(addr, a) == GetServerIndexByAddress(addr, b)
  {
  }

  /** With three active servers the three sample addresses go to servers 0, 2 and 1. */
  lemma TestVectorIndices(activeServers: seq<string>)
    requires |activeServers| == 3
    ensures GetServerIndexByAddress("192.168.0.0:80", activeServers) == 0
    ensures GetServerIndexByAddress("127.0.0.0:8080", activeServers) == 2
    ensures GetServerIndexByAddress("26.143.218.9:80", activeServers) == 1
  {
    HashOfFirstTestAddress();
    HashOfSecondTestAddress();
    HashOfThirdTestAddress();
  }

  // ---------------------------------------------------------------------
  // The health checker
  // ---------------------------------------------------------------------

  /** A server is healthy in a status table when it is recorded as healthy; a missing entry reads as false. */
  predicate IsHealthy(status: map<string, bool>, server: string)
  {
    server in status && status[server]
  }

  /** `IsHealthy` for one table, as a predicate to filter by. */
  function HealthyIn(status: map<string, bool>): string -> bool
  {
    s => IsHealthy(status, s)
  }

  /** The health checker: a table of servers to their last probe outcome, and the probe. */
  class HealthChecker {
    var serverHealthStatus: map<string, bool>
    /** The health probe (`Health` in the Go code, an HTTP GET of `/health`). */
    const health: string -> bool

    constructor (probe: string -> bool)
      ensures health == probe && serverHealthStatus == map[]
    {
      health := probe;
      serverHealthStatus := map[];
    }

    /**
     * Probes every server of the pool and records the outcome; servers not
     * in the pool keep their entries.
     */
    method CheckAllServers(serversPool: seq<string>)
      modifies this
      ensures forall s :: s in serversPool ==> s in serverHealthStatus && serverHealthStatus[s] == health(s)
      ensures forall s :: s !in serversPool && s in old(serverHealthStatus) ==>
                s in serverHealthStatus && serverHealthStatus[s] == old(serverHealthStatus)[s]
      ensures serverHealthStatus.Keys == old(serverHealthStatus).Keys + set s | s in serversPool
    {
      var i := 0;
      while i < |serversPool|
        invariant 0 <= i <= |serversPool|
        invariant forall s :: s in serversPool[..i] ==> s in serverHealthStatus && serverHealthStatus[s] == health(s)
        invariant forall s :: s !in serversPool[..i] && s in old(serverHealthStatus) ==>
                    s in serverHealthStatus && serverHealthStatus[s] == old(serverHealthStatus)[s]
        invariant serverHealthStatus.Keys == old(serverHealthStatus).Keys + set s | s in serversPool[..i]
      {
        var server := serversPool[i];
        assert serversPool[..i + 1] == serversPool[..i] + [server];
        if health(server) {
          serverHealthStatus := serverHealthStatus[server := true];
        } else {
          serverHealthStatus := serverHealthStatus[server := false];
        }
        i := i + 1;
      }
      assert serversPool[..i] == serversPool;
    }

    /** The servers of the pool recorded as healthy, in pool order. */
    method GetHealthyServers(serversPool: seq<string>) returns (healthyServers: seq<string>)
      ensures healthyServers == Filter(serversPool, HealthyIn(serverHealthStatus))
    {
      healthyServers := [];
      var i := 0;
      while i < |serversPool|
        invariant 0 <= i <= |serversPool|
        invariant healthyServers == Filter(serversPool[..i], HealthyIn(serverHealthStatus))
      {
        var server := serversPool[i];
        FilterPrefixStep(serversPool, i, HealthyIn(serverHealthStatus));
        if server in serverHealthStatus && serverHealthStatus[server] {
          healthyServers := healthyServers + [server];
        }
        i := i + 1;
      }
      assert serversPool[..i] == serversPool;
    }
  }

  /**
   * The healthy list holds a server exactly when it is in the pool and the
   * table records it as healthy; a server absent from the table is left out.
   */
  lemma {:induction false} HealthyServersMembership(status: map<string, bool>, serversPool: seq<string>, server: string)
    ensures server in Filter(serversPool, HealthyIn(status)) <==> server in serversPool && server in status && status[server]
    ensures server !in status ==> server !in Filter(serversPool, HealthyIn(status))
  {
    FilterMembership(serversPool, HealthyIn(status), server);
  }

  /** The healthy list holds each pool server as often as the pool does when it is healthy, and never otherwise. */
  lemma HealthyServersCount(status: map<string, bool>, serversPool: seq<string>, server: string)
    ensures multiset(Filter(serversPool, HealthyIn(status)))[server] ==
            if IsHealthy(status, server) then multiset(serversPool)[server] else 0
  {
    FilterCount(serversPool, HealthyIn(status), server);
  }

  /**
   * After a full check the table agrees with the probe on the pool, so the
   * healthy list is the pool filtered by the probe itself.
   */
  lemma {:induction false} CheckedThenHealthy(status: map<string, bool>, serversPool: seq<string>, health: string -> bool)
    requires forall s :: s in serversPool ==> s in status && status[s] == health(s)
    ensures Filter(serversPool, HealthyIn(status)) == Filter(serversPool, health)
  {
    forall i | 0 <= i < |serversPool|
      ensures HealthyIn(status)(serversPool[i]) == health(serversPool[i])
    {
      assert serversPool[i] in serversPool;
    }
    FilterCongruent(serversPool, HealthyIn(status), health);
  }

  /** Checking every server and then listing the healthy ones gives the pool servers the probe accepts, in order. */
  method CheckThenListHealthy(hc: HealthChecker, serversPool: seq<string>) returns (healthyServers: seq<string>)
    modifies hc
    ensures healthyServers == Filter(serversPool, hc.health)
  {
    hc.CheckAllServers(serversPool);
    healthyServers := hc.GetHealthyServers(serversPool);
    CheckedThenHealthy(hc.serverHealthStatus, serversPool, hc.health);
  }

  // ---------------------------------------------------------------------
  // Health monitoring
  // ---------------------------------------------------------------------

  /** An entry of the pool that names a server. */
  predicate NonEmpty(server: string)
  {
    server != ""
  }

  /**
   * What the monitors have recorded after one tick of each of the first
   * `|servers|` monitors, for a `result` that nothing else writes: slot `j`
   * holds server `j` when its probe answers, and keeps its value otherwise.
   */
  function Recorded(slots: seq<string>, servers: seq<string>, health: string -> bool): (r: seq<string>)
    ensures |r| == |slots|
    ensures forall j :: 0 <= j < |slots| && j >= |servers| ==> r[j] == slots[j]
  {
    seq(|slots|, j requires 0 <= j < |slots| => if j < |servers| && health(servers[j]) then servers[j] else slots[j])
  }

  /** Recording after one more monitor updates that monitor's slot only. */
  lemma RecordedStep(slots: seq<string>, servers: seq<string>, i: nat, health: string -> bool)
    requires i < |servers| && i < |slots|
    ensures Recorded(slots, servers[..i + 1], health) ==
            Recorded(slots, servers[..i], health)[i := if health(servers[i]) then servers[i] else slots[i]]
  {
  }

  /** Before any monitor has ticked, nothing is recorded. */
  lemma RecordedNone(slots: seq<string>, servers: seq<string>, health: string -> bool)
    ensures Recorded(slots, servers[..0], health) == slots
  {
  }

  /**
   * One more tick on a `result` that is the backing array: the monitor's
   * write, then the rebuild of the first `k` slots, keeps the slots from `k`
   * on equal to what an unshared `result` would record.
   */
  lemma SharedRoundStep(prev: seq<string>, after: seq<string>, slots: seq<string>, servers: seq<string>,
                        i: nat, health: string -> bool, k: nat)
    requires |prev| == |after| == |slots| && k <= |slots| && i < |servers| && i < |slots|
    requires prev[k..] == Recorded(slots, servers[..i], health)[k..]
    requires after[k..] == prev[i := if health(servers[i]) then servers[i] else prev[i]][k..]
    ensures after[k..] == Recorded(slots, servers[..i + 1], health)[k..]
  {
  }

  /** Writing the slot at `k` of a sequence that agrees with `before` from `k` on keeps it agreeing from `k + 1` on. */
  lemma TailAfterAppend(prev: seq<string>, before: seq<string>, k: nat, v: string)
    requires |prev| == |before| && k < |prev|
    requires prev[k..] == before[k..]
    ensures prev[k := v][k + 1..] == before[k + 1..]
  {
    assert prev[k := v][k + 1..] == prev[k..][1..];
  }

  /**
   * The balancer's shared state: the configured pool and the slice of
   * active servers. A Go slice is a window on a backing array; the monitor
   * tick truncates `activeServers` to length 0 and appends to it again, so
   * the backing array made by `make([]string, len(serversPool))` stays in
   * place (the appends never exceed its capacity, the length of the pool)
   * and `activeServers` is its first `activeLen` slots. A `result` slice
   * handed to the monitors may be that same array, as it is in `main`.
   */
  class LoadBalancer {
    const serversPool: seq<string>
    /** The backing array of `activeServers`. */
    const store: array<string>
    var activeLen: nat

    ghost predicate Valid()
      reads this
    {
      store.Length == |serversPool| && activeLen <= store.Length
    }

    /** `activeServers`: the slots of the backing array inside the slice. */
    function ActiveServers(): seq<string>
      reads this, store
      requires Valid()
    {
      store[..activeLen]
    }

    /** A balancer over `pool` whose active list starts as one empty entry per pool server. */
    constructor (pool: seq<string>)
      ensures Valid() && fresh(store)
      ensures serversPool == pool
      ensures |ActiveServers()| == |pool| && forall i :: 0 <= i < |pool| ==> ActiveServers()[i] == ""
    {
      serversPool := pool;
      store := new string[|pool|](_ => "");
      activeLen := |pool|;
    }

    /**
     * One tick of the monitor of `server`, whose probe gave `up`: a server
     * that answers is recorded at `result[index]`, then the active list is
     * rebuilt from the non-empty entries of the pool, which overwrites the
     * first slots of the backing array. The active list does not depend on
     * the probe or on `result`. When `result` is not the backing array only
     * `result[index]` can change; when it is, its first slots become the
     * active list and the slots after it are left as the write made them.
     */
    method MonitorTick(server: string, index: nat, result: array<string>, up: bool)
      requires Valid() && index < result.Length
      modifies this, result, store
      ensures Valid()
      ensures ActiveServers() == Filter(serversPool, NonEmpty)
      ensures result != store ==> result[..] == old(result[..])[index := if up then server else old(result[index])]
      ensures result != store ==> store[activeLen..] == old(store[..])[activeLen..]
      ensures result == store ==>
                store[activeLen..] == old(store[..])[index := if up then server else old(store[index])][activeLen..]
      ensures server != "" ==> forall j :: 0 <= j < result.Length && old(result[j]) != "" ==> result[j] != ""
    {
      if up {
        result[index] := server;
      }
      RebuildActive();
      forall j | 0 <= j < activeLen
        ensures store[j] != ""
      {
        assert store[j] in Filter(serversPool, NonEmpty);
      }
    }

    /**
     * The rebuild at the end of a tick: truncate `activeServers` to length 0
     * and append every non-empty pool entry, which writes the first slots
     * of the backing array and leaves the slots after them alone.
     */
    method RebuildActive()
      requires Valid()
      modifies this, store
      ensures Valid()
      ensures ActiveServers() == Filter(serversPool, NonEmpty)
      ensures store[activeLen..] == old(store[..])[activeLen..]
    {
      ghost var before := store[..];
      activeLen := 0;
      var pool := serversPool;
      var i := 0;
      while i < |pool|
        invariant 0 <= i <= |pool| && activeLen <= i
        invariant Valid()
        invariant ActiveServers() == Filter(pool[..i], NonEmpty)
        invariant store[activeLen..] == before[activeLen..]
      {
        FilterPrefixStep(pool, i, NonEmpty);
        if pool[i] != "" {
          ghost var prev, at := store[..], activeLen;
          Append(pool[i]);
          TailAfterAppend(prev, before, at, pool[i]);
        }
        i := i + 1;
      }
      assert pool[..i] == pool;
    }

    /**
     * `append(activeServers, value)` within the capacity of the backing
     * array: the value goes into the first slot past the slice, which grows
     * by one; no other slot changes.
     */
    method Append(value: string)
      requires Valid() && activeLen < store.Length
      modifies this, store
      ensures Valid()
      ensures activeLen == old(activeLen) + 1
      ensures store[..] == old(store[..])[old(activeLen) := value]
      ensures ActiveServers() == old(ActiveServers()) + [value]
    {
      store[activeLen] := value;
      activeLen := activeLen + 1;
    }

    /**
     * One tick of every monitor started by `CheckServersHealth(servers,
     * result)`: server `i` is probed with `health` and recorded at index `i`.
     * Each monitor writes its own index and rebuilds the active list alike,
     * so the order in which the ticks run does not matter. A shared `result`
     * ends with the active list in its first slots and the recordings after.
     */
    method MonitorRound(servers: seq<string>, result: array<string>, health: string -> bool)
      requires Valid() && |servers| <= result.Length
      modifies this, result, store
      ensures Valid()
      ensures result != store ==> result[..] == Recorded(old(result[..]), servers, health)
      ensures |servers| > 0 ==> ActiveServers() == Filter(serversPool, NonEmpty)
      ensures |servers| > 0 && result != store ==> store[activeLen..] == old(store[..])[activeLen..]
      ensures |servers| > 0 && result == store ==> store[activeLen..] == Recorded(old(store[..]), servers, health)[activeLen..]
      ensures |servers| == 0 ==> activeLen == old(activeLen) && store[..] == old(store[..]) && result[..] == old(result[..])
    {
      RecordedNone(old(result[..]), servers, health);
      RecordedNone(old(store[..]), servers, health);
      var i := 0;
      while i < |servers|
        invariant 0 <= i <= |servers|
        invariant Valid()
        invariant result != store ==> result[..] == Recorded(old(result[..]), servers[..i], health)
        invariant i == 0 ==> activeLen == old(activeLen) && store[..] == old(store[..]) && result[..] == old(result[..])
        invariant i > 0 ==> ActiveServers() == Filter(serversPool, NonEmpty)
        invariant i > 0 && result != store ==> store[activeLen..] == old(store[..])[activeLen..]
        invariant i > 0 && result == store ==> store[activeLen..] == Recorded(old(store[..]), servers[..i], health)[activeLen..]
      {
        ghost var prev := store[..];
        ghost var prevResult := result[..];
        var up := health(servers[i]);
        MonitorTick(servers[i], i, result, up);
        if result == store {
          SharedRoundStep(prev, store[..], old(store[..]), servers, i, health, activeLen);
        } else {
          RecordedStep(old(result[..]), servers, i, health);
          assert store[activeLen..] == prev[activeLen..];
        }
        i := i + 1;
      }
      assert servers[..i] == servers;
    }
  }

  /**
   * The rebuilt active list reads the pool, never the recorded results, so
   * when no pool entry is empty it is the whole pool, healthy or not.
   */
  lemma {:induction false} ActiveIsWholePool(serversPool: seq<string>)
    requires forall i :: 0 <= i < |serversPool| ==> serversPool[i] != ""
    ensures Filter(serversPool, NonEmpty) == serversPool
  {
    FilterKeepsAll(serversPool, NonEmpty);
  }

  /** An active list rebuilt from a pool keeps only named servers of that pool. */
  lemma {:induction false} ActiveServersFromPool(serversPool: seq<string>, server: string)
    ensures server in Filter(serversPool, NonEmpty) <==> server in serversPool && server != ""
    ensures |Filter(serversPool, NonEmpty)| <= |serversPool|
  {
    FilterMembership(serversPool, NonEmpty, server);
  }

  /** For the configured pool, every tick leaves all three servers active. */
  lemma DefaultPoolAllActive()
    ensures Filter(DefaultServersPool, NonEmpty) == DefaultServersPool
    ensures |Filter(DefaultServersPool, NonEmpty)| == 3
  {
    ActiveIsWholePool(DefaultServersPool);
  }

  /** A sequence of three given elements is their display. */
  lemma SeqOfThree<T>(s: seq<T>, a: T, b: T, c: T)
    requires |s| == 3 && s[0] == a && s[1] == b && s[2] == c
    ensures s == [a, b, c]
  {
  }

  /**
   * The health-monitoring scenario of the unit tests: the first two backends
   * answer, "server3:8080" does not, and after one tick of each monitor the
   * results are the two answering hosts and an empty entry, while the active
   * list of the configured balancer is its whole pool. The three sample
   * addresses then go to servers 0, 2 and 1 of that list.
   */
  method ServersHealthScenario(host1: string, host2: string) returns (result: seq<string>, active: seq<string>)
    requires host1 != "server3:8080" && host2 != "server3:8080"
    ensures result == [host1, host2, ""]
    ensures active == DefaultServersPool
    ensures GetServerIndexByAddress("192.168.0.0:80", active) == 0
    ensures GetServerIndexByAddress("127.0.0.0:8080", active) == 2
    ensures GetServerIndexByAddress("26.143.218.9:80", active) == 1
  {
    var lb := new LoadBalancer(DefaultServersPool);
    var results := new string[3](_ => "");
    var servers := [host1, host2, "server3:8080"];
    var health := s => s == host1 || s == host2;
    assert health(host1) && health(host2) && !health("server3:8080");
    lb.MonitorRound(servers, results, health);
    result := results[..];
    SeqOfThree(result, host1, host2, "");
    DefaultPoolAllActive();
    active := lb.ActiveServers();
    TestVectorIndices(active);
  }

  /**
   * The round `main` starts: `CheckServersHealth(serversPool, activeServers)`
   * hands the monitors the active list itself as `result`. After one tick of
   * each monitor, whatever the probes answer, `result` and the active list
   * both hold the whole configured pool.
   */
  method MainHealthRound(health: string -> bool) returns (result: seq<string>, active: seq<string>)
    ensures result == DefaultServersPool
    ensures active == DefaultServersPool
  {
    var lb := new LoadBalancer(DefaultServersPool);
    lb.MonitorRound(DefaultServersPool, lb.store, health);
    DefaultPoolAllActive();
    active := lb.ActiveServers();
    assert lb.store[..] == lb.store[..lb.activeLen];
    result := lb.store[..];
  }
}
