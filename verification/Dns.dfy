/** Resolvers, answers and per-resolver results, as the other modules exchange them. */
module Dns {
  import opened Collections

  datatype Resolver = Resolver(id: string, name: string, ip: string, port: int, protocol: string)

  newtype TTL = x: int | 0 <= x < 0x1_0000_0000

  datatype Answer = Answer(name: string, kind: string, ttl: TTL, value: string)

  datatype Status = OK | NXDomain | Timeout | ServFail | Refused | Error

  datatype ResolverResult = ResolverResult(resolver: Resolver, status: Status, answers: seq<Answer>)

  /** The answer values, in the order received. */
  function Values(answers: seq<Answer>): (vs: seq<string>)
    ensures |vs| == |answers|
    ensures forall i | 0 <= i < |answers| :: vs[i] == answers[i].value
  {
    seq(|answers|, i requires 0 <= i < |answers| => answers[i].value)
  }

  const SUPPORTED_TYPES: set<string> :=
    {"A", "AAAA", "CNAME", "MX", "NS", "PTR", "SOA", "TXT", "CAA", "SRV", "DS", "DNSKEY", "NAPTR", "TLSA", "SVCB", "HTTPS"}
}
