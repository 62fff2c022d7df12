/** The round-robin load balancer: its backends, the construction from address
    strings, the selection of the next backend, the health check and the rewrite
    of a request's destination.

    Locks (`sync.RWMutex`) and the atomic counter are not modelled: every
    operation is one sequential step. `url.Parse` is the parameter `parse`, and
    the TCP probe of `isBackendAlive` is the parameter `reachable`, applied to the
    host it dials. The periodic ticker that calls HealthCheck works on the
    package-level `lb`, which `main` shadows with a local variable, so in the
    running program that periodic check sees no backend at all; that wiring is
    not modelled. */
module LoadBalancing {
  import opened Wrappers
  import opened Http
  import opened RoundRobin

  /** One downstream server: its address and whether the last probe reached it. */
  class Backend {
    const url: Url
    var alive: bool

    /** `&Backend{URL: url}`: only the address is set, so `Alive` keeps Go's zero
        value `false` until a health check runs. */
    constructor (url: Url)
      ensures this.url == url && !alive
    {
      this.url := url;
      alive := false;
    }

    /** Overwrites the liveness flag and nothing else. */
    method SetAlive(alive: bool)
      modifies this
      ensures this.alive == alive
    {
      this.alive := alive;
    }
  }

  /** The URLs of `addrs` in order, or the error of the first one `parse` rejects. */
  function ParseAll(addrs: seq<string>, parse: string -> Result<Url, ParseError>): (r: Result<seq<Url>, ParseError>)
    ensures r.Success? <==> forall i :: 0 <= i < |addrs| ==> parse(addrs[i]).Success?
    ensures r.Success? ==>
      |r.value| == |addrs| && forall i :: 0 <= i < |addrs| ==> parse(addrs[i]) == Success(r.value[i])
    ensures r.Failure? ==>
      exists k :: 0 <= k < |addrs| && parse(addrs[k]) == Failure(r.error)
        && forall j :: 0 <= j < k ==> parse(addrs[j]).Success?
  {
    if addrs == [] then Success([])
    else
      match parse(addrs[0])
      case Failure(e) => Failure(e)
      case Success(u) =>
        match ParseAll(addrs[1..], parse)
        case Failure(e) => Failure(e)
        case Success(us) => Success([u] + us)
  }

  /** The first address that fails to parse decides the outcome: its error is
      the result. */
  lemma {:induction false} FirstFailureDecides(addrs: seq<string>, parse: string -> Result<Url, ParseError>, k: nat)
    requires k < |addrs| && parse(addrs[k]).Failure?
    requires forall j :: 0 <= j < k ==> parse(addrs[j]).Success?
    ensures ParseAll(addrs, parse) == Failure(parse(addrs[k]).error)
    decreases k
  {
    if k > 0 {
      FirstFailureDecides(addrs[1..], parse, k - 1);
    }
  }

  /** Addresses after the first failing one are never looked at: replacing
      them changes nothing. */
  lemma LaterAddressesIgnored(addrs: seq<string>, parse: string -> Result<Url, ParseError>, k: nat, rest: seq<string>)
    requires k < |addrs| && parse(addrs[k]).Failure?
    requires forall j :: 0 <= j < k ==> parse(addrs[j]).Success?
    ensures ParseAll(addrs[..k + 1] + rest, parse) == ParseAll(addrs, parse)
  {
    var other := addrs[..k + 1] + rest;
    assert forall j :: 0 <= j <= k ==> other[j] == addrs[j];
    FirstFailureDecides(addrs, parse, k);
    FirstFailureDecides(other, parse, k);
  }

  /** The request-URL part of serveReverseProxy: scheme and host come from the
      target, the user, path, query and fragment stay those of the request. */
  function Retarget(u: Url, target: Url): (r: Url)
    ensures r.scheme == target.scheme && r.host == target.host
    ensures r.user == u.user && r.path == u.path && r.rawQuery == u.rawQuery && r.fragment == u.fragment
  {
    u.(scheme := target.scheme, host := target.host)
  }

  /** The fixed, ordered set of backends and the round-robin counter. */
  class LoadBalancer {
    const servers: array<Backend?>
    var current: uint64

    /** Every slot holds its own backend. */
    ghost predicate Valid()
      reads servers
    {
      && (forall i :: 0 <= i < servers.Length ==> servers[i] != null)
      && (forall i, j :: 0 <= i < j < servers.Length ==> servers[i] != servers[j])
    }

    /** `&LoadBalancer{servers: backendServers}`: the counter starts at zero. */
    constructor (servers: array<Backend?>)
      ensures this.servers == servers && current == 0
    {
      this.servers := servers;
      current := 0;
    }

    /** getNextServer: the counter goes up by one (wrapping at 2^64) and the
        backend at the old counter value modulo the number of backends is picked,
        alive or not. With no backend Go divides by zero. */
    method NextServer() returns (b: Backend)
      requires Valid() && servers.Length >= 1
      modifies this`current
      ensures current == Increment(old(current))
      ensures b == servers[old(current) % servers.Length]
      ensures b == servers[Selections(old(current), servers.Length, 1)[0]]
    {
      var next := Increment(current);
      current := next;
      DecrementUndoesIncrement(old(current));
      b := servers[Decrement(next) % servers.Length];
    }

    /** `k` requests served one after another, as the HTTP server calls
        handleRequest: the backends getNextServer returns are exactly those the
        selection rule `Selections` names for the counter before the first call,
        so the fairness lemmas about `Selections` are statements about them. */
    method NextServers(k: nat) returns (picked: seq<Backend>)
      requires Valid() && servers.Length >= 1
      modifies this`current
      ensures current == (old(current) + k) % U64_MODULUS
      ensures |picked| == k
      ensures forall j :: 0 <= j < k ==> picked[j] == servers[Selections(old(current), servers.Length, k)[j]]
    {
      ghost var start := current;
      ghost var s := Selections(current, servers.Length, k);
      picked := [];
      var i := 0;
      while i < k
        invariant 0 <= i <= k && |picked| == i
        invariant current == (start + i) % U64_MODULUS
        invariant s[i..] == Selections(current, servers.Length, k - i)
        invariant forall j :: 0 <= j < i ==> picked[j] == servers[s[j]]
      {
        ghost var before := current;
        var b := NextServer();
        IncrementAfterSteps(start + i);
        assert s[i] == before % servers.Length;
        assert s[i + 1..] == s[i..][1..];
        picked := picked + [b];
        i := i + 1;
      }
    }

    /** serveReverseProxy up to the hand-off to the proxy: the destination
        scheme and host of `req`, and its Host header, become those of `target`;
        method, path, query, headers and body stay. */
    method ServeReverseProxy(target: Url, req: Request)
      modifies req
      ensures req.url == Retarget(old(req.url), target) && req.host == target.host
      ensures req.verb == old(req.verb) && req.header == old(req.header) && req.body == old(req.body)
    {
      req.url := req.url.(host := target.host);
      req.url := req.url.(scheme := target.scheme);
      req.host := target.host;
    }

    /** handleRequest: pick the next backend, then rewrite the request to it. */
    method HandleRequest(req: Request)
      requires Valid() && servers.Length >= 1
      modifies this`current, req
      ensures current == Increment(old(current))
      ensures var target := servers[old(current) % servers.Length].url;
        req.url == Retarget(old(req.url), target) && req.host == target.host
      ensures req.verb == old(req.verb) && req.header == old(req.header) && req.body == old(req.body)
    {
      var target := NextServer();
      ServeReverseProxy(target.url, req);
    }

    /** HealthCheck: probe each backend in order and store the result in its flag.
        Afterwards every flag is the probe result for that backend's host; the
        backends, their order and addresses, and the counter stay as they were. */
    method HealthCheck(reachable: string -> bool)
      requires Valid()
      modifies servers[..]
      ensures Valid()
      ensures forall i :: 0 <= i < servers.Length ==> servers[i].alive == reachable(servers[i].url.host)
    {
      var i := 0;
      while i < servers.Length
        invariant 0 <= i <= servers.Length
        invariant forall j :: 0 <= j < i ==> servers[j].alive == reachable(servers[j].url.host)
      {
        var b := servers[i];
        var alive := reachable(b.url.host);
        b.SetAlive(alive);
        i := i + 1;
      }
    }
  }

  /** NewLoadBalancer: one fresh, not-yet-alive backend per address, in order,
      and the counter at zero; or the error of the first address that does not
      parse, in which case no load balancer is built. An empty list is accepted. */
  method NewLoadBalancer(addrs: seq<string>, parse: string -> Result<Url, ParseError>)
    returns (r: Result<LoadBalancer, ParseError>)
    ensures r.Failure? <==> ParseAll(addrs, parse).Failure?
    ensures r.Failure? ==> r.error == ParseAll(addrs, parse).error
    ensures r.Success? ==>
      var lb := r.value;
      && fresh(lb) && fresh(lb.servers) && lb.Valid() && lb.current == 0
      && lb.servers.Length == |addrs|
      && forall i :: 0 <= i < |addrs| ==>
           fresh(lb.servers[i]) && lb.servers[i].url == ParseAll(addrs, parse).value[i] && !lb.servers[i].alive
  {
    var slots := new Backend?[|addrs|];
    var i := 0;
    while i < |addrs|
      invariant 0 <= i <= |addrs|
      invariant forall j :: 0 <= j < i ==> parse(addrs[j]).Success?
      invariant forall j :: 0 <= j < i ==>
        slots[j] != null && fresh(slots[j]) && Success(slots[j].url) == parse(addrs[j]) && !slots[j].alive
      invariant forall j, j' :: 0 <= j < j' < i ==> slots[j] != slots[j']
    {
      var parsed := parse(addrs[i]);
      if parsed.Failure? {
        FirstFailureDecides(addrs, parse, i);
        return Failure(parsed.error);
      }
      var b := new Backend(parsed.value);
      slots[i] := b;
      i := i + 1;
    }
    var lb := new LoadBalancer(slots);
    return Success(lb);
  }

  /** Three backends, the second unreachable: after the health check has
      marked B as down (the flags it leaves are `alive`), six selections still
      visit the backends in the fixed order A, B, C, A, B, C. */
  method LivenessDoesNotSteer() returns (picked: seq<string>, alive: seq<bool>)
    ensures alive == [true, false, true]
    ensures picked == ["a", "b", "c", "a", "b", "c"]
  {
    var parse := (s: string) => Success(Url("http", "", s, "", "", ""));
    var made := NewLoadBalancer(["a", "b", "c"], parse);
    assert made.Success?;
    var lb := made.value;
    var servers := lb.servers;
    assert ParseAll(["a", "b", "c"], parse).value == [parse("a").value, parse("b").value, parse("c").value];
    assert servers[0].url.host == "a" && servers[1].url.host == "b" && servers[2].url.host == "c";
    lb.HealthCheck((h: string) => h != "b");
    assert servers[0].alive && !servers[1].alive && servers[2].alive;
    alive := [servers[0].alive, servers[1].alive, servers[2].alive];
    var b0 := lb.NextServer();
    assert b0 == servers[0] && lb.current == 1;
    var b1 := lb.NextServer();
    assert b1 == servers[1] && lb.current == 2;
    var b2 := lb.NextServer();
    assert b2 == servers[2] && lb.current == 3;
    var b3 := lb.NextServer();
    assert b3 == servers[0] && lb.current == 4;
    var b4 := lb.NextServer();
    assert b4 == servers[1] && lb.current == 5;
    var b5 := lb.NextServer();
    assert b5 == servers[2];
    picked := [b0.url.host, b1.url.host, b2.url.host, b3.url.host, b4.url.host, b5.url.host];
  }
}
