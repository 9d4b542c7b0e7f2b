/** The known resolvers: a list in load order and an index by ID. */
module Registry {
  import opened Collections
  import opened Dns

  predicate Usable(r: Resolver) { r.ip != "" }

  /** The last entry with the given ID. */
  function Last(list: seq<Resolver>, id: string): Option<Resolver> {
    if list == [] then None
    else if list[|list| - 1].id == id then Some(list[|list| - 1])
    else Last(list[..|list| - 1], id)
  }

  lemma {:induction false} LastIs(list: seq<Resolver>, id: string)
    ensures Last(list, id).None? <==> forall k | 0 <= k < |list| :: list[k].id != id
    ensures Last(list, id).Some? ==> exists k :: 0 <= k < |list| && Some(list[k]) == Last(list, id) && list[k].id == id
                                                 && forall j | k < j < |list| :: list[j].id != id
  {
    if list == [] {
    } else if list[|list| - 1].id == id {
      assert Some(list[|list| - 1]) == Last(list, id);
    } else {
      LastIs(list[..|list| - 1], id);
    }
  }

  lemma {:induction false} LastConcat(a: seq<Resolver>, b: seq<Resolver>, id: string)
    ensures Last(a + b, id) == if Last(b, id).Some? then Last(b, id) else Last(a, id)
  {
    if b == [] {
      assert a + b == a;
    } else {
      assert (a + b)[..|a + b| - 1] == a + b[..|b| - 1];
      LastConcat(a, b[..|b| - 1], id);
    }
  }

  /** What is kept of a list to load: the entries that have an address, no others. */
  lemma KeptHaveAddress(given: seq<Resolver>)
    ensures forall r :: r in Filter(given, Usable) <==> r in given && r.ip != ""
  {
    FilterMembers(given, Usable);
  }

  class Registry {
    var resolvers: seq<Resolver>
    var byID: map<string, Resolver>

    /** The index finds, for every ID, the last entry with that ID. */
    ghost predicate Valid()
      reads this
    {
      && (forall r | r in resolvers :: Usable(r))
      && forall id :: Last(resolvers, id) == if id in byID then Some(byID[id]) else None
    }

    constructor ()
      ensures Valid() && resolvers == []
    {
      resolvers, byID := [], map[];
    }

    /** Replaces the contents by the usable entries of `given`. */
    method Load(given: seq<Resolver>)
      modifies this
      ensures Valid() && resolvers == Filter(given, Usable)
      ensures forall r :: r in resolvers <==> r in given && r.ip != ""
    {
      resolvers, byID := [], map[];
      Append(given);
      KeptHaveAddress(given);
      assert [] + Filter(given, Usable) == Filter(given, Usable);
    }

    /** Adds the usable entries of `given`; a later entry hides an earlier one with its ID from `Get`. */
    method Append(given: seq<Resolver>)
      requires Valid()
      modifies this
      ensures Valid() && resolvers == old(resolvers) + Filter(given, Usable)
    {
      assert given[..0] == [];
      for i := 0 to |given|
        invariant Valid() && resolvers == old(resolvers) + Filter(given[..i], Usable)
      {
        FilterSnoc(given, i, Usable);
        if Usable(given[i]) {
          ghost var before := resolvers;
          resolvers := resolvers + [given[i]];
          byID := byID[given[i].id := given[i]];
          assert before == resolvers[..|resolvers| - 1];
        }
      }
      assert given[..|given|] == given;
    }

    /** `loaded` is the parsed resolver file, `None` if it cannot be read or parsed. */
    method LoadFile(loaded: Option<seq<Resolver>>) returns (ok: bool)
      requires Valid()
      modifies this
      ensures Valid() && ok == loaded.Some?
      ensures resolvers == old(resolvers) + if ok then Filter(loaded.value, Usable) else []
    {
      if loaded == None {
        return false;
      }
      Append(loaded.value);
      return true;
    }

    /** Rebuilds the registry from the built-in list and the file, each if configured. Reloading is
        loading the concatenation. */
    method Reload(builtin: Option<seq<Resolver>>, file: Option<Option<seq<Resolver>>>) returns (ok: bool)
      modifies this
      ensures Valid() && ok == (file != Some(None))
      ensures resolvers == Filter((if builtin.Some? then builtin.value else []) +
                                  (if file.Some? && file.value.Some? then file.value.value else []), Usable)
    {
      var all := [];
      if builtin.Some? {
        all := all + builtin.value;
        assert all == builtin.value;
      }
      Load(all);
      ghost var base := resolvers;
      if file == None {
        assert all + [] == all;
        return true;
      }
      ok := LoadFile(file.value);
      ghost var added := if ok then file.value.value else [];
      FilterConcat(all, added, Usable);
      assert base + [] == base;
    }

    method Get(id: string) returns (r: Option<Resolver>)
      requires Valid()
      ensures r == Last(resolvers, id)
    {
      return if id in byID then Some(byID[id]) else None;
    }
  }

  /** A merged entry is listed beside the one with its ID; only the merged one is found. */
  lemma MergedIsListedBeside(first: Resolver, second: Resolver)
    requires first.id == second.id && Usable(first) && Usable(second)
    ensures Filter([first] + [second], Usable) == [first, second]
    ensures Last([first, second], first.id) == Some(second)
  {
    FilterConcat([first], [second], Usable);
  }

  /** Listing and lookup agree on every entry exactly when no ID is listed twice with different
      entries: an entry from the file does not replace a built-in one with its ID, it is listed
      beside it. */
  lemma ListedIsFoundIff(list: seq<Resolver>)
    ensures (forall k | 0 <= k < |list| :: Last(list, list[k].id) == Some(list[k])) <==>
            (forall j, k | 0 <= j < |list| && 0 <= k < |list| && list[j].id == list[k].id :: list[j] == list[k])
  {
    forall k | 0 <= k < |list| ensures Last(list, list[k].id).Some? && Last(list, list[k].id).value in list
                                       && Last(list, list[k].id).value.id == list[k].id {
      LastIs(list, list[k].id);
    }
    hide Last;
    if forall k | 0 <= k < |list| :: Last(list, list[k].id) == Some(list[k]) {
    } else {
      var k :| 0 <= k < |list| && Last(list, list[k].id) != Some(list[k]);
      var j :| 0 <= j < |list| && list[j] == Last(list, list[k].id).value;
      assert list[j].id == list[k].id && list[j] != list[k];
    }
  }
}
