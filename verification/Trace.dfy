/** The walk down the delegation chain, from the root servers to an authoritative one. */
module Trace {
  import opened Collections
  import opened Dns

  const MAX_STEPS: nat := 24

  const ROOT_SERVERS: seq<string> := ["198.41.0.4", "199.9.14.201", "192.33.4.12", "199.7.91.13"]

  datatype Record =
    | Address(owner: string, ip: string, v6: bool)
    | NameServer(owner: string, host: string)
    | Edns(owner: string)
    | Other(owner: string)

  datatype Response = Response(rcode: int, authoritative: bool, answers: seq<Record>, ns: seq<Record>, extra: seq<Record>)

  datatype HostAddress = HostAddress(ip: string, v4: bool)

  /** What one step meets outside: the server's response over UDP and, if that fails, over TCP (`None`
      for a failure), and the system resolver (`None` for an error). */
  datatype Exchange = Exchange(udp: Option<Response>, tcp: Option<Response>, lookup: string -> Option<seq<HostAddress>>)

  /** Everything outside: the exchange of the step with the given number and server, and which
      addresses are private or local. */
  datatype World = World(exchange: (nat, string) -> Exchange, private: string -> bool)

  /** `failed` stands for the error text of an exchange that yielded no response. */
  datatype TraceStep = TraceStep(
    ip: string, zone: string, nameserver: string, authoritative: bool, status: Status, failed: bool,
    answers: seq<Record>, authority: seq<Record>, additional: seq<Record>)

  datatype TraceResult = TraceResult(name: string, qtype: string, steps: seq<TraceStep>)

  datatype TraceError = NameRequired | UnsupportedType

  function TrimDot(s: string): string {
    if s != "" && s[|s| - 1] == '.' then s[..|s| - 1] else s
  }

  function Lower(s: string): string {
    seq(|s|, i requires 0 <= i < |s| => if 'A' <= s[i] <= 'Z' then (s[i] as int + 32) as char else s[i])
  }

  /** The form in which host names are compared. */
  function Canonical(name: string): string { Lower(TrimDot(name)) }

  function Received(e: Exchange): Option<Response> {
    if e.udp.Some? then e.udp else e.tcp
  }

  // --- The server to ask next, said simply -----------------------------------------------------

  /** The last usable address of the host in the additional section. */
  function Glue(extra: seq<Record>, v6: bool, host: string, private: string -> bool): Option<string> {
    if extra == [] then None
    else
      var r := extra[|extra| - 1];
      if r.Address? && r.v6 == v6 && Canonical(r.owner) == host && !private(r.ip) then Some(r.ip)
      else Glue(extra[..|extra| - 1], v6, host, private)
  }

  function UsableV4(private: string -> bool, seen: set<string>): HostAddress -> bool {
    (a: HostAddress) => a.v4 && !private(a.ip) && a.ip !in seen
  }

  function Looked(found: Option<seq<HostAddress>>, private: string -> bool, seen: set<string>): Option<string> {
    if found.None? then None
    else
      var a := First(found.value, UsableV4(private, seen));
      if a.Some? then Some(a.value.ip) else None
  }

  /** The IPv4 address a name server offers: its glue, else an address it resolves to. */
  function OfferV4(resp: Response, e: Exchange, private: string -> bool, r: Record): Option<string> {
    if !r.NameServer? then None
    else
      var host := Canonical(r.host);
      var v4 := Glue(resp.extra, false, host, private);
      if v4.Some? then v4 else Looked(e.lookup(host), private, {})
  }

  /** The address a name server offers: an IPv4 address, else its IPv6 glue. */
  function Offer(resp: Response, e: Exchange, private: string -> bool, r: Record): Option<string> {
    var v4 := OfferV4(resp, e, private, r);
    if !r.NameServer? then None
    else if v4.Some? then v4
    else Glue(resp.extra, true, Canonical(r.host), private)
  }

  function Offers(resp: Response, e: Exchange, private: string -> bool): Record -> bool {
    (r: Record) => Offer(resp, e, private, r).Some?
  }

  /** The offer of the first name server that offers anything. */
  function Head(resp: Response, e: Exchange, private: string -> bool, ns: seq<Record>): Option<string> {
    var leader := First(ns, Offers(resp, e, private));
    if leader.Some? then Offer(resp, e, private, leader.value) else None
  }

  lemma HeadSnoc(resp: Response, e: Exchange, private: string -> bool, ns: seq<Record>, i: nat)
    requires i < |ns|
    ensures Head(resp, e, private, ns[..i + 1]) ==
            var h := Head(resp, e, private, ns[..i]);
            if h.Some? then h else Offer(resp, e, private, ns[i])
  {
    hide Offer;
    assert ns[..i + 1] == ns[..i] + [ns[i]];
    FirstConcat(ns[..i], [ns[i]], Offers(resp, e, private));
    FirstIs(ns[..i], Offers(resp, e, private));
  }

  function StatusOf(rcode: int): Status {
    if rcode == 0 then OK
    else if rcode == 3 then NXDomain
    else if rcode == 2 then ServFail
    else if rcode == 5 then Refused
    else Status.Error
  }

  /** A record of the additional section gives the host this address, and the address may be used. */
  predicate Gives(r: Record, v6: bool, host: string, ip: string, private: string -> bool) {
    r.Address? && r.v6 == v6 && Canonical(r.owner) == host && r.ip == ip && !private(ip)
  }

  lemma {:induction false} GlueMeans(extra: seq<Record>, v6: bool, host: string, private: string -> bool)
    ensures match Glue(extra, v6, host, private)
            case None => forall r, ip | r in extra :: !Gives(r, v6, host, ip, private)
            case Some(ip) => exists i :: 0 <= i < |extra| && Gives(extra[i], v6, host, ip, private)
                                         && forall j, other | i < j < |extra| :: !Gives(extra[j], v6, host, other, private)
  {
    hide Canonical;
    if extra != [] {
      var n := |extra| - 1;
      var r := extra[n];
      if r.Address? && Gives(r, v6, host, r.ip, private) {
        assert Glue(extra, v6, host, private) == Some(r.ip);
      } else {
        GlueMeans(extra[..n], v6, host, private);
        assert extra == extra[..n] + [r];
      }
    }
  }

  /** The system resolver found this usable IPv4 address for the host. */
  predicate Finds(e: Exchange, host: string, ip: string, private: string -> bool) {
    e.lookup(host).Some? && exists a :: a in e.lookup(host).value && a.v4 && a.ip == ip && !private(ip)
  }

  /** Where an offered address comes from: the host's IPv4 glue, else an IPv4 address found for it, else
      its IPv6 glue; nothing is offered exactly when there is none of these. */
  lemma OfferMeans(resp: Response, e: Exchange, private: string -> bool, r: Record)
    requires r.NameServer?
    ensures var host := Canonical(r.host);
            match Offer(resp, e, private, r)
            case None => forall s, ip :: (s in resp.extra ==> !Gives(s, false, host, ip, private) && !Gives(s, true, host, ip, private))
                                         && !Finds(e, host, ip, private)
            case Some(ip) =>
              || (exists s :: s in resp.extra && Gives(s, false, host, ip, private))
              || ((forall s, other | s in resp.extra :: !Gives(s, false, host, other, private))
                  && (Finds(e, host, ip, private) ||
                      ((forall other :: !Finds(e, host, other, private)) && exists s :: s in resp.extra && Gives(s, true, host, ip, private))))
  {
    var host := Canonical(r.host);
    GlueMeans(resp.extra, false, host, private);
    GlueMeans(resp.extra, true, host, private);
    LookedMeans(e, host, private);
    hide Glue, Looked, Canonical, Finds, Gives;
  }

  lemma LookedMeans(e: Exchange, host: string, private: string -> bool)
    ensures match Looked(e.lookup(host), private, {})
            case None => forall ip :: !Finds(e, host, ip, private)
            case Some(ip) => Finds(e, host, ip, private)
  {
    if e.lookup(host).Some? { FirstIs(e.lookup(host).value, UsableV4(private, {})); }
  }

  /** Host names are compared without regard to case and to a final dot. */
  lemma SameHost(a: string, b: string)
    requires |a| == |b| && (a != "" ==> a[|a| - 1] != '.' && b[|b| - 1] != '.')
    requires forall i | 0 <= i < |a| :: a[i] == b[i] || ('A' <= a[i] <= 'Z' && a[i] as int + 32 == b[i] as int)
    ensures Canonical(a + ".") == Canonical(b) == Canonical(b + ".") == Canonical(a)
  {
    assert (a + ".")[..|a|] == a && (b + ".")[..|b|] == b;
    assert Lower(a) == Lower(b);
  }

  function NotEdns(): Record -> bool { (r: Record) => !r.Edns? }

  /** What a step records of the exchange with a server. */
  function Step(ip: string, received: Option<Response>): TraceStep {
    match received
    case None => TraceStep(ip, "", "", false, Status.Error, true, [], [], [])
    case Some(resp) =>
      var (zone, nameserver) :=
        if resp.ns != [] then
          (TrimDot(resp.ns[0].owner), if resp.ns[0].NameServer? then TrimDot(resp.ns[0].host) else "")
        else if resp.answers != [] then (TrimDot(resp.answers[0].owner), ip)
        else (".", ip);
      TraceStep(ip, zone, nameserver, resp.authoritative, StatusOf(resp.rcode), false,
                resp.answers, resp.ns, Filter(resp.extra, NotEdns()))
  }

  /** What a hop records, by what the server did: the UDP response if there is one, else the TCP response,
      else a failure. */
  lemma StepMeans(ip: string, e: Exchange)
    ensures var ts := Step(ip, Received(e));
            && ts.ip == ip && (ts.failed <==> e.udp.None? && e.tcp.None?)
            && (ts.failed ==> ts.status == Status.Error && !ts.authoritative)
            && (e.udp.Some? ==> Shows(ts, e.udp.value))
            && (e.udp.None? && e.tcp.Some? ==> Shows(ts, e.tcp.value))
  {
    if Received(e).Some? { FilterMembers(Received(e).value.extra, NotEdns()); }
    hide Filter;
  }

  ghost predicate Shows(ts: TraceStep, resp: Response) {
    && ts.authoritative == resp.authoritative && ts.answers == resp.answers && ts.authority == resp.ns
    && (forall r :: r in ts.additional <==> r in resp.extra && !r.Edns?)
    && (ts.status == OK <==> resp.rcode == 0) && (ts.status == NXDomain <==> resp.rcode == 3)
    && (ts.status == ServFail <==> resp.rcode == 2) && (ts.status == Refused <==> resp.rcode == 5)
    && ts.status != Timeout
    && (resp.ns == [] && resp.answers == [] ==> ts.zone == "." && ts.nameserver == ts.ip)
    && (resp.ns == [] && resp.answers != [] ==> IsTrimmed(ts.zone, resp.answers[0].owner) && ts.nameserver == ts.ip)
    && (resp.ns != [] ==> IsTrimmed(ts.zone, resp.ns[0].owner))
    && (resp.ns != [] && resp.ns[0].NameServer? ==> IsTrimmed(ts.nameserver, resp.ns[0].host))
    && (resp.ns != [] && !resp.ns[0].NameServer? ==> ts.nameserver == "")
  }

  /** `short` is `name` without its final dot, if it has one. */
  predicate IsTrimmed(short: string, name: string) {
    name == short + "." || (name == short && (name == "" || name[|name| - 1] != '.'))
  }

  /** The server the walk turns to after step `k` at server `ip`, if it goes on. */
  function Next(w: World, k: nat, ip: string): Option<string> {
    var e := w.exchange(k, ip);
    match Received(e)
    case None => None
    case Some(resp) => if resp.authoritative then None else Head(resp, e, w.private, resp.ns)
  }

  /** The walk from step `k` at server `ip`. */
  function Walk(w: World, k: nat, ip: string): seq<TraceStep>
    decreases MAX_STEPS - k
  {
    if k >= MAX_STEPS then []
    else
      var next := Next(w, k, ip);
      [Step(ip, Received(w.exchange(k, ip)))] + if next.Some? then Walk(w, k + 1, next.value) else []
  }

  // --- The referral list, as it is built -------------------------------------------------------

  predicate Describes(glue: map<string, string>, extra: seq<Record>, v6: bool, private: string -> bool, host: string) {
    Glue(extra, v6, host, private) == if host in glue then Some(glue[host]) else None
  }

  method GatherGlue(extra: seq<Record>, private: string -> bool) returns (glueV4: map<string, string>, glueV6: map<string, string>)
    ensures forall host :: Describes(glueV4, extra, false, private, host)
    ensures forall host :: Describes(glueV6, extra, true, private, host)
  {
    glueV4, glueV6 := map[], map[];
    for i := 0 to |extra|
      invariant forall host :: Describes(glueV4, extra[..i], false, private, host)
      invariant forall host :: Describes(glueV6, extra[..i], true, private, host)
    {
      var rr := extra[i];
      ghost var v4, v6 := glueV4, glueV6;
      if rr.Address? && !private(rr.ip) {
        var key := Canonical(rr.owner);
        if rr.v6 {
          glueV6 := glueV6[key := rr.ip];
        } else {
          glueV4 := glueV4[key := rr.ip];
        }
      }
      ghost var upTo := extra[..i + 1];
      assert upTo[..i] == extra[..i];
      forall host ensures Describes(glueV4, upTo, false, private, host) {
        assert Describes(v4, extra[..i], false, private, host);
      }
      forall host ensures Describes(glueV6, upTo, true, private, host) {
        assert Describes(v6, extra[..i], true, private, host);
      }
    }
    assert extra[..|extra|] == extra;
  }

  method PickV4(found: Option<seq<HostAddress>>, private: string -> bool, seen: set<string>) returns (r: Option<string>)
    ensures r == Looked(found, private, seen)
    ensures r.Some? ==> r.value !in seen && !private(r.value)
  {
    if found.None? {
      return None;
    }
    var addrs := found.value;
    FirstIs(addrs, UsableV4(private, seen));
    assert addrs[..0] == [];
    for i := 0 to |addrs|
      invariant First(addrs[..i], UsableV4(private, seen)).None?
    {
      assert addrs[..i + 1] == addrs[..i] + [addrs[i]] && addrs == addrs[..i + 1] + addrs[i + 1..];
      FirstConcat(addrs[..i], [addrs[i]], UsableV4(private, seen));
      FirstConcat(addrs[..i + 1], addrs[i + 1..], UsableV4(private, seen));
      if addrs[i].v4 && !private(addrs[i].ip) && addrs[i].ip !in seen {
        return Some(addrs[i].ip);
      }
    }
    assert addrs[..|addrs|] == addrs;
    return None;
  }

  ghost predicate Distinct(s: seq<string>) {
    forall i, j | 0 <= i < j < |s| :: s[i] != s[j]
  }

  lemma GlueIsUsable(extra: seq<Record>, v6: bool, host: string, private: string -> bool)
    ensures var g := Glue(extra, v6, host, private); g.Some? ==> !private(g.value)
  {
  }

  /** What has been collected so far: distinct usable addresses, the first of them the head. */
  ghost predicate Collected(next: seq<string>, seen: set<string>, head: Option<string>, private: string -> bool) {
    && Distinct(next)
    && (forall ip :: ip in next <==> ip in seen)
    && (forall ip | ip in next :: !private(ip))
    && head == if next == [] then None else Some(next[0])
  }

  lemma Collecting(next: seq<string>, seen: set<string>, head: Option<string>, private: string -> bool, ip: string)
    requires Collected(next, seen, head, private) && ip !in seen && !private(ip)
    ensures Collected(next + [ip], seen + {ip}, if head.Some? then head else Some(ip), private)
  {
  }

  /** The referral list of a response: distinct addresses, none of them private, led by the head. */
  method Referral(resp: Response, e: Exchange, private: string -> bool) returns (next: seq<string>)
    ensures Distinct(next) && forall ip | ip in next :: !private(ip)
    ensures Head(resp, e, private, resp.ns) == if next == [] then None else Some(next[0])
  {
    var glueV4, glueV6 := GatherGlue(resp.extra, private);
    next := [];
    var seen: set<string> := {};
    for i := 0 to |resp.ns|
      invariant Collected(next, seen, Head(resp, e, private, resp.ns[..i]), private)
    {
      HeadSnoc(resp, e, private, resp.ns, i);
      next, seen := Visit(resp, e, private, resp.ns[i], glueV4, glueV6, next, seen, Head(resp, e, private, resp.ns[..i]));
    }
    assert resp.ns[..|resp.ns|] == resp.ns;
  }

  /** One turn of the loop over the name servers. */
  method Visit(
    resp: Response, e: Exchange, private: string -> bool, rr: Record, glueV4: map<string, string>, glueV6: map<string, string>,
    given: seq<string>, known: set<string>, ghost head: Option<string>)
    returns (next: seq<string>, seen: set<string>)
    requires forall host :: Describes(glueV4, resp.extra, false, private, host) && Describes(glueV6, resp.extra, true, private, host)
    requires Collected(given, known, head, private)
    ensures Collected(next, seen, if head.Some? then head else Offer(resp, e, private, rr), private)
  {
    next, seen := given, known;
    if !rr.NameServer? {
      return;
    }
    var host := Canonical(rr.host);
    assert Describes(glueV4, resp.extra, false, private, host) && Describes(glueV6, resp.extra, true, private, host);
    GlueIsUsable(resp.extra, false, host, private);
    GlueIsUsable(resp.extra, true, host, private);
    assert given == [] ==> known == {};
    hide Glue;
    if host in glueV4 && glueV4[host] !in seen {
      Collecting(given, known, head, private, glueV4[host]);
      return next + [glueV4[host]], seen + {glueV4[host]};
    }
    var addrs := e.lookup(host);
    if addrs.Some? {
      var picked := PickV4(addrs, private, seen);
      if picked.Some? {
        Collecting(given, known, head, private, picked.value);
        next, seen := next + [picked.value], seen + {picked.value};
      }
      if |next| > 0 {
        return;
      }
    }
    if host in glueV6 && glueV6[host] !in seen {
      Collecting(given, known, head, private, glueV6[host]);
      next, seen := next + [glueV6[host]], seen + {glueV6[host]};
    }
  }

  /** The records of the additional section, without the EDNS pseudo-record. */
  method Additional(extra: seq<Record>) returns (records: seq<Record>)
    ensures records == Filter(extra, NotEdns())
  {
    records := [];
    assert extra[..0] == [];
    for i := 0 to |extra|
      invariant records == Filter(extra[..i], NotEdns())
    {
      FilterSnoc(extra, i, NotEdns());
      if extra[i].Edns? {
        continue;
      }
      records := records + [extra[i]];
    }
    assert extra[..|extra|] == extra;
  }

  /** One hop: what it records, and the servers to turn to. */
  method TakeStep(w: World, k: nat, ip: string) returns (ts: TraceStep, next: seq<string>, done: bool)
    ensures ts == Step(ip, Received(w.exchange(k, ip)))
    ensures Distinct(next) && forall server | server in next :: !w.private(server)
    ensures done <==> ts.failed || ts.authoritative
    ensures done ==> next == []
    ensures Next(w, k, ip) == if next == [] then None else Some(next[0])
  {
    var e := w.exchange(k, ip);
    var received := e.udp;
    if received.None? {
      received := e.tcp;
    }
    if received.None? {
      return TraceStep(ip, "", "", false, Status.Error, true, [], [], []), [], true;
    }
    var resp := received.value;
    var additional := Additional(resp.extra);
    hide Filter;
    ts := TraceStep(ip, ".", ip, resp.authoritative, StatusOf(resp.rcode), false, resp.answers, resp.ns, additional);
    if |resp.ns| > 0 {
      var first := resp.ns[0];
      ts := ts.(zone := TrimDot(first.owner), nameserver := if first.NameServer? then TrimDot(first.host) else "");
    } else if |resp.answers| > 0 {
      ts := ts.(zone := TrimDot(resp.answers[0].owner));
    }
    if resp.authoritative {
      return ts, [], true;
    }
    next := Referral(resp, e, w.private);
    done := false;
  }

  method Trace(w: World, name: string, qtype: string) returns (r: Result<TraceResult, TraceError>)
    ensures r.Ok? <==> name != "" && qtype in SUPPORTED_TYPES
    ensures r.Ok? ==> r.value == TraceResult(TrimDot(name), qtype, Walk(w, 0, ROOT_SERVERS[0]))
    ensures r.Err? ==> r.error == if name == "" then NameRequired else UnsupportedType
    ensures r.Ok? ==> 1 <= |r.value.steps| <= 24 && r.value.steps[0].ip == "198.41.0.4"
    ensures r.Ok? && |r.value.steps| < 24 ==> EndsAt(w, |r.value.steps|, r.value.steps)
  {
    WalkIsDelegation(w, 0, ROOT_SERVERS[0]);
    if name == "" {
      return Err(NameRequired);
    }
    if qtype !in SUPPORTED_TYPES {
      return Err(UnsupportedType);
    }
    var fqdn := if name[|name| - 1] == '.' then name else name + ".";
    assert TrimDot(fqdn) == TrimDot(name);
    var steps := Follow(w, ROOT_SERVERS);
    return Ok(TraceResult(TrimDot(fqdn), qtype, steps));
  }

  /** The loop over referral lists. */
  method Follow(w: World, roots: seq<string>) returns (steps: seq<TraceStep>)
    requires roots != []
    ensures steps == Walk(w, 0, roots[0])
  {
    hide Walk, Step, Next, Received, Distinct;
    var servers := roots;
    steps := [];
    for step := 0 to MAX_STEPS
      invariant servers != []
      invariant Walk(w, 0, roots[0]) == steps + Walk(w, step, servers[0])
    {
      var ts, next, done := TakeStep(w, step, servers[0]);
      WalkOn(w, step, servers[0], steps, ts);
      steps := steps + [ts];
      if done || |next| == 0 {
        assert steps + [] == steps;
        return;
      }
      servers := next;
    }
    WalkEnds(w, servers[0], steps);
  }

  /** What the next step adds to the walk so far. */
  lemma WalkOn(w: World, k: nat, ip: string, before: seq<TraceStep>, ts: TraceStep)
    requires k < MAX_STEPS && ts == Step(ip, Received(w.exchange(k, ip)))
    ensures var next := Next(w, k, ip);
            before + Walk(w, k, ip) == before + [ts] + if next.Some? then Walk(w, k + 1, next.value) else []
  {
    hide Step, Next, Received;
  }

  lemma WalkEnds(w: World, ip: string, before: seq<TraceStep>)
    ensures before + Walk(w, MAX_STEPS, ip) == before
  {
  }

  // --- What every walk looks like --------------------------------------------------------------

  /** The name server at place `i` is the first of the response that offers anything, and offers `ip`. */
  predicate LeadOffer(resp: Response, e: Exchange, private: string -> bool, i: int, ip: string) {
    && 0 <= i < |resp.ns| && Offer(resp, e, private, resp.ns[i]) == Some(ip)
    && forall j | 0 <= j < i :: Offer(resp, e, private, resp.ns[j]).None?
  }

  /** The server answered with `resp` over UDP, or over TCP after failing over UDP. */
  predicate Answered(e: Exchange, resp: Response) {
    e.udp == Some(resp) || (e.udp == None && e.tcp == Some(resp))
  }

  ghost predicate Refers(resp: Response, e: Exchange, private: string -> bool, to: string) {
    !resp.authoritative && exists i :: LeadOffer(resp, e, private, i, to)
  }

  predicate Ends(resp: Response, e: Exchange, private: string -> bool) {
    resp.authoritative || forall r | r in resp.ns :: Offer(resp, e, private, r) == None
  }

  /** The server answered with a non-authoritative referral led by `to`. */
  ghost predicate Leads(w: World, k: nat, ip: string, to: string) {
    exists resp :: Answered(w.exchange(k, ip), resp) && Refers(resp, w.exchange(k, ip), w.private, to)
  }

  /** The server failed over UDP and TCP, or answered with authority, or no name server of its response
      offers an address. */
  ghost predicate Stuck(w: World, k: nat, ip: string) {
    forall resp | Answered(w.exchange(k, ip), resp) :: Ends(resp, w.exchange(k, ip), w.private)
  }

  /** The walk goes on exactly where a referral leads. */
  lemma NextMeans(w: World, k: nat, ip: string)
    ensures match Next(w, k, ip)
            case None => Stuck(w, k, ip)
            case Some(to) => Leads(w, k, ip, to) && !Stuck(w, k, ip)
  {
    var e := w.exchange(k, ip);
    if Received(e).Some? {
      var resp := Received(e).value;
      assert Answered(e, resp);
      ReferralMeans(resp, e, w.private);
    }
    hide Refers, Ends, Head;
  }

  lemma ReferralMeans(resp: Response, e: Exchange, private: string -> bool)
    ensures if resp.authoritative then Ends(resp, e, private)
            else match Head(resp, e, private, resp.ns)
                 case None => Ends(resp, e, private)
                 case Some(to) => Refers(resp, e, private, to) && !Ends(resp, e, private)
  {
    HeadIsLeadOffer(resp, e, private);
    DeadEndIff(resp, e, private, resp.ns);
    if !resp.authoritative && Head(resp, e, private, resp.ns).Some? {
      var i :| LeadOffer(resp, e, private, i, Head(resp, e, private, resp.ns).value);
    }
  }

  lemma HeadIsLeadOffer(resp: Response, e: Exchange, private: string -> bool)
    ensures match Head(resp, e, private, resp.ns)
            case None => forall i | 0 <= i < |resp.ns| :: Offer(resp, e, private, resp.ns[i]).None?
            case Some(ip) => exists i :: LeadOffer(resp, e, private, i, ip)
  {
    hide Offer;
    FirstAt(resp.ns, Offers(resp, e, private), Other(""));
    var leader := First(resp.ns, Offers(resp, e, private));
    if leader == None {
      forall i | 0 <= i < |resp.ns| ensures Offer(resp, e, private, resp.ns[i]).None? {
        assert !Offers(resp, e, private)(resp.ns[i]);
      }
    } else {
      FirstAt(resp.ns, Offers(resp, e, private), leader.value);
      var i :| IsFirst(resp.ns, Offers(resp, e, private), i) && resp.ns[i] == leader.value;
      forall j | 0 <= j < i ensures Offer(resp, e, private, resp.ns[j]).None? {
        assert !Offers(resp, e, private)(resp.ns[j]);
      }
      assert LeadOffer(resp, e, private, i, Offer(resp, e, private, leader.value).value);
    }
  }

  /** Step `k` succeeded without being authoritative, and its referral leads to the step after it, whose
      server is not private. */
  ghost predicate Hands(w: World, k: nat, step: TraceStep, after: TraceStep) {
    && !step.failed && !step.authoritative
    && Leads(w, k, step.ip, after.ip) && !w.private(after.ip)
  }

  /** Step `k` records what its server answered. */
  predicate Records(w: World, k: nat, step: TraceStep) {
    step == Step(step.ip, Received(w.exchange(k, step.ip)))
  }

  /** Each step records its server's answer, and each but the last is an error-free, non-authoritative
      referral to the next. */
  ghost predicate Delegation(w: World, k: nat, steps: seq<TraceStep>) {
    && (forall i | 0 <= i < |steps| :: Records(w, k + i, steps[i]))
    && (forall i, j | 0 <= i && j == i + 1 && j < |steps| :: Hands(w, k + i, steps[i], steps[j]))
  }

  lemma DelegationExtends(w: World, k: nat, first: TraceStep, rest: seq<TraceStep>)
    requires rest != [] && Delegation(w, k + 1, rest)
    requires Records(w, k, first) && Hands(w, k, first, rest[0])
    ensures Delegation(w, k, [first] + rest)
  {
    hide Hands, Records;
    var steps := [first] + rest;
    forall i | 0 <= i < |steps| ensures Records(w, k + i, steps[i]) {
      if i > 0 { assert Records(w, k + 1 + (i - 1), rest[i - 1]); }
    }
    forall i, j | 0 <= i && j == i + 1 && j < |steps| ensures Hands(w, k + i, steps[i], steps[j]) {
      if i > 0 { assert Hands(w, k + 1 + (i - 1), rest[i - 1], rest[j - 1]); }
    }
  }

  /** The last of the steps before step `n` leads nowhere. */
  ghost predicate EndsAt(w: World, n: nat, steps: seq<TraceStep>) {
    n > 0 && steps != [] && Stuck(w, n - 1, steps[|steps| - 1].ip)
  }

  lemma EndsLater(w: World, n: nat, first: TraceStep, rest: seq<TraceStep>)
    requires EndsAt(w, n, rest)
    ensures EndsAt(w, n, [first] + rest)
  {
    hide Stuck;
    assert ([first] + rest)[|rest|] == rest[|rest| - 1];
  }

  /** A chain of at least one and at most 24 - `k` steps from `ip` that ends early only at a failure, an
      authoritative answer, or a referral that leads nowhere. */
  ghost predicate Complete(w: World, k: nat, ip: string, steps: seq<TraceStep>) {
    && 1 <= |steps| <= MAX_STEPS - k && steps[0].ip == ip
    && Delegation(w, k, steps)
    && (|steps| < MAX_STEPS - k ==> EndsAt(w, k + |steps|, steps))
  }

  lemma CompleteExtends(w: World, k: nat, ip: string, first: TraceStep, next: string, rest: seq<TraceStep>)
    requires Complete(w, k + 1, next, rest)
    requires Records(w, k, first) && first.ip == ip && !first.failed && !first.authoritative
    requires Leads(w, k, ip, next) && !w.private(next)
    ensures Complete(w, k, ip, [first] + rest)
  {
    hide Leads;
    DelegationExtends(w, k, first, rest);
    hide Delegation, Records, EndsAt;
    if |rest| < MAX_STEPS - (k + 1) { EndsLater(w, k + 1 + |rest|, first, rest); }
  }

  lemma CompleteAlone(w: World, k: nat, ip: string, only: TraceStep)
    requires k < MAX_STEPS && Records(w, k, only) && only.ip == ip
    requires Stuck(w, k, ip) || k + 1 == MAX_STEPS
    ensures Complete(w, k, ip, [only])
  {
    hide Records, Stuck;
  }

  /** Every walk is such a chain, whatever the servers answer. */
  lemma {:induction false} WalkIsDelegation(w: World, k: nat, ip: string)
    requires k < MAX_STEPS
    ensures Complete(w, k, ip, Walk(w, k, ip))
    decreases MAX_STEPS - k
  {
    var next := Next(w, k, ip);
    var first := Step(ip, Received(w.exchange(k, ip)));
    NextIsUsable(w, k, ip);
    NextMeans(w, k, ip);
    assert Records(w, k, first);
    hide Complete, Step, Next, Records, Received, Leads, Stuck;
    if next.None? || k + 1 == MAX_STEPS {
      assert Walk(w, k, ip) == [first];
      CompleteAlone(w, k, ip, first);
    } else {
      WalkIsDelegation(w, k + 1, next.value);
      CompleteExtends(w, k, ip, first, next.value, Walk(w, k + 1, next.value));
    }
  }

  lemma NextIsUsable(w: World, k: nat, ip: string)
    ensures var next := Next(w, k, ip);
            next.Some? ==>
              && !w.private(next.value)
              && !Step(ip, Received(w.exchange(k, ip))).failed && !Step(ip, Received(w.exchange(k, ip))).authoritative
    ensures Step(ip, Received(w.exchange(k, ip))).ip == ip
  {
    var e := w.exchange(k, ip);
    if Received(e).Some? { HeadIsUsable(Received(e).value, e, w.private, Received(e).value.ns); }
  }

  lemma HeadIsUsable(resp: Response, e: Exchange, private: string -> bool, ns: seq<Record>)
    ensures var h := Head(resp, e, private, ns); h.Some? ==> !private(h.value)
  {
    var leader := First(ns, Offers(resp, e, private));
    if leader.Some? && leader.value.NameServer? {
      var host := Canonical(leader.value.host);
      GlueIsUsable(resp.extra, false, host, private);
      GlueIsUsable(resp.extra, true, host, private);
      if e.lookup(host).Some? { FirstIs(e.lookup(host).value, UsableV4(private, {})); }
    }
  }

  /** A referral is a dead end exactly when no name server in it offers an address. */
  lemma DeadEndIff(resp: Response, e: Exchange, private: string -> bool, ns: seq<Record>)
    ensures Head(resp, e, private, ns).None? <==> forall r | r in ns :: Offer(resp, e, private, r).None?
  {
    hide Offer;
    FirstIs(ns, Offers(resp, e, private));
  }

  // --- Which address leads -----------------------------------------------------------------------

  function OffersV4(resp: Response, e: Exchange, private: string -> bool): Record -> bool {
    (r: Record) => OfferV4(resp, e, private, r).Some?
  }

  /** The head of the referral is an IPv4 address some name server offers. */
  ghost predicate IPv4Leads(resp: Response, e: Exchange, private: string -> bool, ns: seq<Record>) {
    exists r | r in ns :: OffersV4(resp, e, private)(r) && OfferV4(resp, e, private, r) == Head(resp, e, private, ns)
  }

  /** The first name server that offers anything offers an IPv4 address, or its IPv6 glue spells one that
      another name server offers, as an IPv4-mapped address does. */
  ghost predicate LeaderHasV4(resp: Response, e: Exchange, private: string -> bool, ns: seq<Record>) {
    var leader := First(ns, Offers(resp, e, private));
    && leader.Some? && leader.value.NameServer?
    && (OffersV4(resp, e, private)(leader.value) ||
        exists r | r in ns :: OffersV4(resp, e, private)(r) &&
          OfferV4(resp, e, private, r) == Glue(resp.extra, true, Canonical(leader.value.host), private))
  }

  /** A referral is led by an IPv4 address whenever some name server in it offers one, exactly when none
      does or the first that offers anything does: the IPv4 addresses of later ones do not count. */
  lemma IPv4LeadsIff(resp: Response, e: Exchange, private: string -> bool, ns: seq<Record>)
    ensures ((exists r | r in ns :: OffersV4(resp, e, private)(r)) ==> IPv4Leads(resp, e, private, ns)) <==>
            (forall r | r in ns :: !OffersV4(resp, e, private)(r)) || LeaderHasV4(resp, e, private, ns)
  {
    FirstIs(ns, Offers(resp, e, private));
    hide Glue, Looked, First;
  }

  /** IPv4 is preferred for each name server, not over the referral: an IPv6 address leads when the
      first name server has only that, even though the next one has IPv4 glue. */
  lemma LaterIPv4DoesNotLead(v6: string, v4: string, private: string -> bool) returns (resp: Response, e: Exchange)
    requires !private(v6) && !private(v4)
    ensures Glue(resp.extra, false, "b", private) == Some(v4) && NameServer("", "b") in resp.ns
    ensures Head(resp, e, private, resp.ns) == Some(v6)
  {
    e := Exchange(None, None, _ => None);
    resp := Response(0, false, [], [NameServer("", "a"), NameServer("", "b")], [Address("a", v6, true), Address("b", v4, false)]);
    assert Lower("a") == "a" && Lower("b") == "b";
    assert resp.extra[..1] == [Address("a", v6, true)];
    assert resp.extra[..1][..0] == [];
    assert Glue([], false, "a", private) == None;
    assert Glue(resp.extra[..1], false, "a", private) == None;
    assert Glue(resp.extra, false, "a", private) == None;
    assert Glue(resp.extra[..1], true, "a", private) == Some(v6);
    assert Glue(resp.extra, true, "a", private) == Some(v6);
    assert Offer(resp, e, private, resp.ns[0]) == Some(v6);
  }
}
