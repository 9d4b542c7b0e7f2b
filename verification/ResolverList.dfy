/** Which requests a check accepts, and which resolvers it then asks. */
module ResolverList {
  import opened Collections
  import opened Dns
  import Cache
  import Registry

  const MAX_RESOLVERS: nat := 200

  datatype Request = Request(name: string, qtype: string, ids: seq<string>, customs: seq<Resolver>, allowPrivate: bool)

  datatype Rejection = NameRequired | InvalidName | UnsupportedType | TooManyResolvers | PrivateName

  predicate DomainChar(c: char) {
    'a' <= c <= 'z' || 'A' <= c <= 'Z' || '0' <= c <= '9' || c == '.' || c == '_' || c == '-'
  }

  /** The characters a name may consist of. */
  lemma NameAlphabet(c: char)
    ensures DomainChar(c) <==> c in "abcdefghijklmnopqrstuvwxyz" || c in "ABCDEFGHIJKLMNOPQRSTUVWXYZ" || c in "0123456789._-"
  {
    SmallLetters(c);
    CapitalLetters(c);
    OtherCharacters(c);
  }

  lemma SmallLetters(c: char)
    ensures c in "abcdefghijklmnopqrstuvwxyz" <==> 'a' <= c <= 'z'
  {
    var small := "abcdefghijklmnopqrstuvwxyz";
    assert forall d | 0 <= d < 26 :: small[d] as int == 'a' as int + d;
    if 'a' <= c <= 'z' { assert small[c as int - 'a' as int] == c; }
  }

  lemma CapitalLetters(c: char)
    ensures c in "ABCDEFGHIJKLMNOPQRSTUVWXYZ" <==> 'A' <= c <= 'Z'
  {
    var capitals := "ABCDEFGHIJKLMNOPQRSTUVWXYZ";
    assert forall d | 0 <= d < 26 :: capitals[d] as int == 'A' as int + d;
    if 'A' <= c <= 'Z' { assert capitals[c as int - 'A' as int] == c; }
  }

  lemma OtherCharacters(c: char)
    ensures c in "0123456789._-" <==> '0' <= c <= '9' || c == '.' || c == '_' || c == '-'
  {
    var rest := "0123456789._-";
    assert forall d | 0 <= d < 10 :: rest[d] as int == '0' as int + d;
    assert rest[10] == '.' && rest[11] == '_' && rest[12] == '-';
    if '0' <= c <= '9' { assert rest[c as int - '0' as int] == c; }
  }

  /** `private` tells private or local names and addresses. */
  function ValidateRequest(private: string -> bool, req: Request): (r: Option<Rejection>)
    ensures r.None? <==>
              && req.name != "" && (forall c | c in req.name :: DomainChar(c)) && req.qtype in SUPPORTED_TYPES
              && |req.ids| + |req.customs| <= MAX_RESOLVERS
              && (private(req.name) ==> req.allowPrivate)
    ensures r == Some(NameRequired) <==> req.name == ""
    ensures r == Some(InvalidName) ==> exists c | c in req.name :: !DomainChar(c)
    ensures r == Some(UnsupportedType) ==> req.qtype !in SUPPORTED_TYPES
    ensures r == Some(TooManyResolvers) ==> |req.ids| + |req.customs| > 200
    ensures r == Some(PrivateName) ==> private(req.name) && !req.allowPrivate
  {
    if req.name == "" then Some(NameRequired)
    else if exists c | c in req.name :: !DomainChar(c) then Some(InvalidName)
    else if req.qtype !in SUPPORTED_TYPES then Some(UnsupportedType)
    else if |req.ids| + |req.customs| > MAX_RESOLVERS then Some(TooManyResolvers)
    else if !req.allowPrivate && private(req.name) then Some(PrivateName)
    else None
  }

  /** Accepted requests never share a cache key by accident: equal key texts are the same question. */
  lemma AcceptedKeysAreDistinct(private: string -> bool, q: Request, r: Request, id: string, id': string)
    requires ValidateRequest(private, q).None? && ValidateRequest(private, r).None?
    ensures Cache.Preimage(id, q.name, q.qtype) == Cache.Preimage(id', r.name, r.qtype) <==>
            id == id' && q.name == r.name && q.qtype == r.qtype
  {
    assert '|' !in q.qtype && '|' !in r.qtype;
    if Cache.Preimage(id, q.name, q.qtype) == Cache.Preimage(id', r.name, r.qtype) {
      Cache.PreimageInjective(id, q.name, q.qtype, id', r.name, r.qtype);
    }
  }

  // --- The list --------------------------------------------------------------------------------

  datatype ListError = NotFound(id: string) | PrivateCustom(ip: string)

  /** The disabled IDs in the settings; none if the settings cannot be read. */
  function DisabledSet(settings: Option<seq<string>>): set<string> {
    if settings.Some? then set id | id in settings.value else {}
  }

  function EnabledID(disabled: set<string>): string -> bool { id => id !in disabled }

  function EnabledResolver(disabled: set<string>): Resolver -> bool { (r: Resolver) => r.id !in disabled }

  function Unknown(known: seq<Resolver>): string -> bool { id => Registry.Last(known, id).None? }

  function PrivateServer(private: string -> bool): Resolver -> bool { (r: Resolver) => private(r.ip) }

  function Lookup(known: seq<Resolver>, id: string): seq<Resolver> {
    var found := Registry.Last(known, id);
    if found.Some? then [found.value] else []
  }

  /** The registered resolvers of the known IDs in `ids`, in order. */
  function Lookups(known: seq<Resolver>, ids: seq<string>): seq<Resolver> {
    if ids == [] then [] else Lookup(known, ids[0]) + Lookups(known, ids[1..])
  }

  lemma {:induction false} LookupsConcat(known: seq<Resolver>, a: seq<string>, b: seq<string>)
    ensures Lookups(known, a + b) == Lookups(known, a) + Lookups(known, b)
  {
    hide Lookup;
    if a == [] {
      assert a + b == b;
    } else {
      assert (a + b)[1..] == a[1..] + b;
      LookupsConcat(known, a[1..], b);
    }
  }

  /** When all the IDs are known, the looked-up resolvers are theirs, one by one. */
  lemma {:induction false} LookupsPointwise(known: seq<Resolver>, ids: seq<string>)
    requires First(ids, Unknown(known)).None?
    ensures var r := Lookups(known, ids);
            |r| == |ids| && forall k | 0 <= k < |ids| :: Some(r[k]) == Registry.Last(known, ids[k]) && r[k].id == ids[k]
  {
    if ids != [] {
      LookupsPointwise(known, ids[1..]);
      Registry.LastIs(known, ids[0]);
    }
  }

  /** The registered resolvers a request selects. */
  function Selected(known: seq<Resolver>, disabled: set<string>, req: Request): seq<Resolver> {
    if req.ids != [] then Lookups(known, Filter(req.ids, EnabledID(disabled)))
    else Filter(known, EnabledResolver(disabled))
  }

  function Truncate(list: seq<Resolver>): seq<Resolver> {
    if |list| > MAX_RESOLVERS then list[..MAX_RESOLVERS] else list
  }

  function Listing(private: string -> bool, known: seq<Resolver>, disabled: set<string>, req: Request): Result<seq<Resolver>, ListError> {
    var missing := First(Filter(req.ids, EnabledID(disabled)), Unknown(known));
    var local := First(req.customs, PrivateServer(private));
    if missing.Some? then Err(NotFound(missing.value))
    else if !req.allowPrivate && local.Some? then Err(PrivateCustom(local.value.ip))
    else Ok(Truncate(Selected(known, disabled, req) + req.customs))
  }

  /** The requested resolvers, in the order of their IDs, or the first enabled ID that is unknown. */
  method Requested(registry: Registry.Registry, disabled: set<string>, ids: seq<string>) returns (r: Result<seq<Resolver>, ListError>)
    requires registry.Valid()
    ensures var known, wanted := registry.resolvers, Filter(ids, EnabledID(disabled));
            var missing := First(wanted, Unknown(known));
            r == if missing.Some? then Err(NotFound(missing.value)) else Ok(Lookups(known, wanted))
  {
    var list := [];
    ghost var known := registry.resolvers;
    assert ids[..0] == [];
    for i := 0 to |ids|
      invariant First(Filter(ids[..i], EnabledID(disabled)), Unknown(known)).None?
      invariant list == Lookups(known, Filter(ids[..i], EnabledID(disabled)))
    {
      if ids[i] in disabled {
        DisabledID(disabled, ids, i);
        continue;
      }
      var found := registry.Get(ids[i]);
      if found == None {
        UnknownID(known, disabled, ids, i);
        return Err(NotFound(ids[i]));
      }
      KnownID(known, disabled, ids, i);
      list := list + [found.value];
    }
    assert ids[..|ids|] == ids;
    return Ok(list);
  }

  /** A disabled ID is passed over. */
  lemma DisabledID(disabled: set<string>, ids: seq<string>, i: nat)
    requires i < |ids| && ids[i] in disabled
    ensures Filter(ids[..i + 1], EnabledID(disabled)) == Filter(ids[..i], EnabledID(disabled))
  {
    FilterSnoc(ids, i, EnabledID(disabled));
  }

  /** What a known ID adds to the search. */
  lemma KnownID(known: seq<Resolver>, disabled: set<string>, ids: seq<string>, i: nat)
    requires i < |ids| && ids[i] !in disabled && Registry.Last(known, ids[i]).Some?
    requires First(Filter(ids[..i], EnabledID(disabled)), Unknown(known)).None?
    ensures var before, upTo := Filter(ids[..i], EnabledID(disabled)), Filter(ids[..i + 1], EnabledID(disabled));
            && First(upTo, Unknown(known)).None?
            && Lookups(known, upTo) == Lookups(known, before) + [Registry.Last(known, ids[i]).value]
  {
    FilterSnoc(ids, i, EnabledID(disabled));
    hide Filter, Registry.Last;
    var before := Filter(ids[..i], EnabledID(disabled));
    FirstConcat(before, [ids[i]], Unknown(known));
    LookupsConcat(known, before, [ids[i]]);
    LookupsOne(known, ids[i]);
    hide Lookups;
  }

  lemma LookupsOne(known: seq<Resolver>, id: string)
    requires Registry.Last(known, id).Some?
    ensures Lookups(known, [id]) == [Registry.Last(known, id).value]
  {
    hide Registry.Last;
  }

  /** An unknown ID ends the search. */
  lemma UnknownID(known: seq<Resolver>, disabled: set<string>, ids: seq<string>, i: nat)
    requires i < |ids| && ids[i] !in disabled && Registry.Last(known, ids[i]).None?
    requires First(Filter(ids[..i], EnabledID(disabled)), Unknown(known)).None?
    ensures First(Filter(ids, EnabledID(disabled)), Unknown(known)) == Some(ids[i])
  {
    FilterAround(ids, i, EnabledID(disabled));
    FirstAround(Filter(ids[..i], EnabledID(disabled)), ids[i], Filter(ids[i + 1..], EnabledID(disabled)), Unknown(known));
  }

  /** All the registered resolvers that are not disabled. */
  method AllEnabled(registry: Registry.Registry, disabled: set<string>) returns (list: seq<Resolver>)
    ensures list == Filter(registry.resolvers, EnabledResolver(disabled))
  {
    list := [];
    var all := registry.resolvers;
    assert all[..0] == [];
    for i := 0 to |all|
      invariant list == Filter(all[..i], EnabledResolver(disabled))
    {
      FilterSnoc(all, i, EnabledResolver(disabled));
      if all[i].id in disabled {
        continue;
      }
      list := list + [all[i]];
    }
    assert all[..|all|] == all;
  }

  /** Appends the custom resolvers, unless one of them is private and that is not allowed. */
  method AddCustoms(selected: seq<Resolver>, req: Request, private: string -> bool) returns (r: Result<seq<Resolver>, ListError>)
    ensures var local := First(req.customs, PrivateServer(private));
            r == if !req.allowPrivate && local.Some? then Err(PrivateCustom(local.value.ip)) else Ok(selected + req.customs)
  {
    var list := selected;
    var customs := req.customs;
    assert customs[..0] == [];
    for i := 0 to |customs|
      invariant list == selected + customs[..i]
      invariant !req.allowPrivate ==> First(customs[..i], PrivateServer(private)).None?
    {
      assert customs[..i + 1] == customs[..i] + [customs[i]] && customs == customs[..i + 1] + customs[i + 1..];
      FirstConcat(customs[..i], [customs[i]], PrivateServer(private));
      FirstConcat(customs[..i + 1], customs[i + 1..], PrivateServer(private));
      if !req.allowPrivate && private(customs[i].ip) {
        return Err(PrivateCustom(customs[i].ip));
      }
      list := list + [customs[i]];
    }
    assert customs[..|customs|] == customs;
    return Ok(list);
  }

  method BuildResolverList(registry: Registry.Registry, settings: Option<seq<string>>, req: Request, private: string -> bool)
    returns (r: Result<seq<Resolver>, ListError>)
    requires registry.Valid()
    ensures r == Listing(private, registry.resolvers, DisabledSet(settings), req)
    ensures r.Ok? ==>
              && |r.value| <= 200
              && (forall s | s in r.value :: s in req.customs ||
                    (s in registry.resolvers && (settings.Some? ==> s.id !in settings.value)))
              && (!req.allowPrivate ==> forall s | s in r.value :: s in registry.resolvers || !private(s.ip))
    ensures settings == None && req.ids == [] && r.Ok? && |registry.resolvers| + |req.customs| <= 200 ==>
              r.value == registry.resolvers + req.customs
    ensures settings.Some? && req.ids == [] && r.Ok? && |registry.resolvers| + |req.customs| <= 200 ==>
              forall s | s in registry.resolvers && s.id !in settings.value :: s in r.value
  {
    FilterMembers(registry.resolvers, EnabledResolver(DisabledSet(settings)));
    FilterBounds(registry.resolvers, EnabledResolver(DisabledSet(settings)));
    ghost var expected := Listing(private, registry.resolvers, DisabledSet(settings), req);
    if expected.Ok? {
      NoDisabledResolver(private, registry.resolvers, DisabledSet(settings), req);
      if !req.allowPrivate { ListIsGuarded(private, registry.resolvers, DisabledSet(settings), req); }
    }
    FilterAll(registry.resolvers, EnabledResolver({}));
    var disabled := DisabledSet(settings);
    var list;
    if |req.ids| > 0 {
      var requested := Requested(registry, disabled, req.ids);
      if requested.Err? {
        return requested;
      }
      list := requested.value;
    } else {
      list := AllEnabled(registry, disabled);
    }
    r := AddCustoms(list, req, private);
    if r.Err? {
      return;
    }
    if |r.value| > MAX_RESOLVERS {
      r := Ok(r.value[..MAX_RESOLVERS]);
    }
  }

  // --- What the list contains ------------------------------------------------------------------

  /** An accepted request with explicit IDs gets exactly the registered resolvers of the enabled
      IDs, in order, followed by its custom resolvers; nothing is cut off. It fails exactly when an
      enabled ID is unknown or a custom resolver is private where that is not allowed. */
  lemma ExplicitListIsExact(private: string -> bool, known: seq<Resolver>, disabled: set<string>, req: Request)
    requires ValidateRequest(private, req).None? && req.ids != []
    ensures var wanted := Filter(req.ids, EnabledID(disabled));
            var r := Listing(private, known, disabled, req);
            && (r.Ok? <==> && (forall id | id in wanted :: Registry.Last(known, id).Some?)
                           && (req.allowPrivate || forall c | c in req.customs :: !private(c.ip)))
            && (r.Ok? ==>
                  && |r.value| == |wanted| + |req.customs| <= MAX_RESOLVERS
                  && r.value[|wanted|..] == req.customs
                  && forall k | 0 <= k < |wanted| :: Some(r.value[k]) == Registry.Last(known, wanted[k]) && r.value[k].id == wanted[k])
    ensures forall id :: id in Filter(req.ids, EnabledID(disabled)) <==> id in req.ids && id !in disabled
  {
    FilterMembers(req.ids, EnabledID(disabled));
    var wanted := Filter(req.ids, EnabledID(disabled));
    FilterBounds(req.ids, EnabledID(disabled));
    FirstIs(wanted, Unknown(known));
    FirstIs(req.customs, PrivateServer(private));
    if First(wanted, Unknown(known)).None? {
      LookupsPointwise(known, wanted);
    }
  }

  /** With or without explicit IDs: at most 200 resolvers are asked, and each of them is one of the
      request's own custom resolvers or a registered resolver that is not disabled. */
  lemma NoDisabledResolver(private: string -> bool, known: seq<Resolver>, disabled: set<string>, req: Request)
    requires Listing(private, known, disabled, req).Ok?
    ensures var list := Listing(private, known, disabled, req).value;
            |list| <= MAX_RESOLVERS && forall r | r in list :: r in req.customs || (r in known && r.id !in disabled)
  {
    var wanted := Filter(req.ids, EnabledID(disabled));
    var selected := Selected(known, disabled, req);
    if req.ids != [] {
      FilterMembers(req.ids, EnabledID(disabled));
      LookupsPointwise(known, wanted);
      forall k | 0 <= k < |selected| ensures selected[k] in known && selected[k].id !in disabled {
        assert wanted[k] in wanted;
        Registry.LastIs(known, wanted[k]);
      }
    } else {
      FilterMembers(known, EnabledResolver(disabled));
    }
  }

  /** With or without explicit IDs: unless private addresses are allowed, every resolver that is asked is a
      registered one or has no private address. */
  lemma ListIsGuarded(private: string -> bool, known: seq<Resolver>, disabled: set<string>, req: Request)
    requires Listing(private, known, disabled, req).Ok? && !req.allowPrivate
    ensures forall r | r in Listing(private, known, disabled, req).value :: r in known || !private(r.ip)
  {
    NoDisabledResolver(private, known, disabled, req);
    FirstIs(req.customs, PrivateServer(private));
  }

  /** The first custom resolver with a private address. */
  predicate FirstPrivate(private: string -> bool, customs: seq<Resolver>, i: int) {
    0 <= i < |customs| && private(customs[i].ip) && forall j | 0 <= j < i :: !private(customs[j].ip)
  }

  /** Without explicit IDs: the list is made unless a custom resolver is private where that is not allowed,
      and the error names the first such; it is the enabled registered resolvers followed by the custom
      ones, or the first 200 of these. */
  lemma ImplicitListIsExact(private: string -> bool, known: seq<Resolver>, disabled: set<string>, req: Request)
    requires req.ids == []
    ensures var r := Listing(private, known, disabled, req);
            && (r.Ok? <==> req.allowPrivate || forall c | c in req.customs :: !private(c.ip))
            && (r.Err? ==> exists i :: FirstPrivate(private, req.customs, i) && r.error == PrivateCustom(req.customs[i].ip))
    ensures var r := Listing(private, known, disabled, req);
            var all := Filter(known, EnabledResolver(disabled)) + req.customs;
            r.Ok? ==> r.value == if |all| <= 200 then all else all[..200]
    ensures forall r :: r in Filter(known, EnabledResolver(disabled)) <==> r in known && r.id !in disabled
  {
    FilterMembers(known, EnabledResolver(disabled));
    FirstIs(req.customs, PrivateServer(private));
    PrivateIsFirst(private, req.customs);
    assert Filter(req.ids, EnabledID(disabled)) == [];
  }

  lemma PrivateIsFirst(private: string -> bool, customs: seq<Resolver>)
    ensures var local := First(customs, PrivateServer(private));
            local.Some? ==> exists i :: FirstPrivate(private, customs, i) && customs[i] == local.value
  {
    var local := First(customs, PrivateServer(private));
    if local.Some? {
      FirstAt(customs, PrivateServer(private), local.value);
      var i :| IsFirst(customs, PrivateServer(private), i) && customs[i] == local.value;
      assert FirstPrivate(private, customs, i);
    }
  }

  /** With explicit IDs an unknown one is reported first, the first of them that is enabled; else the first
      private custom resolver. */
  lemma ExplicitErrorIsFirst(private: string -> bool, known: seq<Resolver>, disabled: set<string>, req: Request)
    requires Listing(private, known, disabled, req).Err?
    ensures match Listing(private, known, disabled, req).error
            case NotFound(id) => exists i :: FirstMissing(known, disabled, req.ids, i) && req.ids[i] == id
            case PrivateCustom(ip) =>
              && (forall i :: !FirstMissing(known, disabled, req.ids, i))
              && exists i :: FirstPrivate(private, req.customs, i) && req.customs[i].ip == ip
  {
    PrivateIsFirst(private, req.customs);
    MissingIsFirst(known, disabled, req.ids);
    hide First, Filter, FirstMissing, FirstPrivate;
  }

  /** The first enabled ID that no registered resolver has. */
  predicate FirstMissing(known: seq<Resolver>, disabled: set<string>, ids: seq<string>, i: int) {
    && 0 <= i < |ids| && Missing(known, disabled, ids[i])
    && forall j | 0 <= j < i :: !Missing(known, disabled, ids[j])
  }

  predicate Missing(known: seq<Resolver>, disabled: set<string>, id: string) {
    id !in disabled && forall r | r in known :: r.id != id
  }

  lemma {:induction false} MissingIsFirst(known: seq<Resolver>, disabled: set<string>, ids: seq<string>)
    ensures var missing := First(Filter(ids, EnabledID(disabled)), Unknown(known));
            && (missing.Some? ==> exists i :: FirstMissing(known, disabled, ids, i) && ids[i] == missing.value)
            && (missing.None? ==> forall i :: !FirstMissing(known, disabled, ids, i))
  {
    if ids != [] {
      MissingIsFirst(known, disabled, ids[1..]);
      MissingHead(known, disabled, ids);
      hide First, Filter, Missing;
      if Missing(known, disabled, ids[0]) {
        assert FirstMissing(known, disabled, ids, 0);
      } else {
        forall i ensures FirstMissing(known, disabled, ids, i + 1) <==> FirstMissing(known, disabled, ids[1..], i) {
          MissingShifts(known, disabled, ids, i);
        }
        forall i | FirstMissing(known, disabled, ids, i) ensures FirstMissing(known, disabled, ids[1..], i - 1) {
          MissingShifts(known, disabled, ids, i - 1);
        }
      }
    }
  }

  lemma MissingHead(known: seq<Resolver>, disabled: set<string>, ids: seq<string>)
    requires ids != []
    ensures First(Filter(ids, EnabledID(disabled)), Unknown(known)) ==
            if Missing(known, disabled, ids[0]) then Some(ids[0])
            else First(Filter(ids[1..], EnabledID(disabled)), Unknown(known))
  {
    Registry.LastIs(known, ids[0]);
    assert Unknown(known)(ids[0]) <==> forall r | r in known :: r.id != ids[0];
    hide Registry.Last;
    var rest := Filter(ids[1..], EnabledID(disabled));
    FirstConcat([ids[0]], rest, Unknown(known));
    assert [] + rest == rest;
  }

  lemma MissingShifts(known: seq<Resolver>, disabled: set<string>, ids: seq<string>, i: int)
    requires ids != [] && !Missing(known, disabled, ids[0])
    ensures FirstMissing(known, disabled, ids, i + 1) <==> FirstMissing(known, disabled, ids[1..], i)
  {
    hide Missing;
    if FirstMissing(known, disabled, ids, i + 1) {
      assert i + 1 != 0;
      forall j | 0 <= j < i ensures !Missing(known, disabled, ids[1..][j]) {
        assert ids[1..][j] == ids[j + 1];
      }
    }
    if FirstMissing(known, disabled, ids[1..], i) {
      forall j | 0 <= j < i + 1 ensures !Missing(known, disabled, ids[j]) {
        if j > 0 { assert ids[1..][j - 1] == ids[j]; }
      }
    }
  }

  /** Without explicit IDs the custom resolvers come last and are the first to be cut off: all of them
      are asked exactly when they fit beside the enabled registered ones. */
  lemma CustomsAreKeptIff(private: string -> bool, known: seq<Resolver>, disabled: set<string>, req: Request)
    requires ValidateRequest(private, req).None? && req.ids == []
    requires Listing(private, known, disabled, req).Ok?
    ensures var enabled := Filter(known, EnabledResolver(disabled));
            Listing(private, known, disabled, req).value == enabled + req.customs <==> |enabled| + |req.customs| <= MAX_RESOLVERS
  {
  }

  lemma {:induction false} FilterAll<T>(s: seq<T>, p: T -> bool)
    requires forall x | x in s :: p(x)
    ensures Filter(s, p) == s
  {
    if s != [] {
      FilterAll(s[1..], p);
      assert s == [s[0]] + s[1..];
    }
  }

  /** With 200 registered resolvers an accepted request loses the custom resolver it asks for. */
  lemma CustomIsCutOff(private: string -> bool, custom: Resolver, qtype: string) returns (known: seq<Resolver>, req: Request)
    requires !private("a") && !private(custom.ip) && qtype in SUPPORTED_TYPES
    ensures req == Request("a", qtype, [], [custom], false) && ValidateRequest(private, req).None?
    ensures Listing(private, known, {}, req).Ok? && custom !in Listing(private, known, {}, req).value
  {
    var other := custom.(id := custom.id + "x");
    known := seq(MAX_RESOLVERS, _ => other);
    req := Request("a", qtype, [], [custom], false);
    FilterAll(known, EnabledResolver({}));
    FirstIs(req.customs, PrivateServer(private));
    assert |other.id| != |custom.id|;
    hide Filter, First;
    assert First(Filter(req.ids, EnabledID({})), Unknown(known)) == None by { NoneRequested(known); }
    assert Truncate(known + req.customs) == known;
  }

  lemma NoneRequested(known: seq<Resolver>)
    ensures First(Filter([], EnabledID({})), Unknown(known)) == None
  {
  }
}
