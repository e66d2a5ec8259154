/**
 The inventory object: hosts and computed groups that are edited in place, and selectors evaluated over them as the
 code does it, with a set that is built up term by term.
 */
module SelectorInventory {
  import opened Wrappers
  import opened Selector

  datatype EditError = ComputedGroup | NoSuchHost(host: Name)

  class Inventory {
    const x: Lexis
    var hosts: map<Name, Host>
    var groups: map<Name, seq<string>>

    ghost function Value(): Fleet
      reads this
    {
      Fleet(hosts, groups)
    }

    constructor (x: Lexis, hosts: map<Name, Host>, groups: map<Name, seq<string>>)
      ensures this.x == x && Value() == Fleet(hosts, groups)
    {
      this.x, this.hosts, this.groups := x, hosts, groups;
    }

    method Members(group: Name, seen: set<Name>) returns (r: Result<set<Name>, Error>)
      requires Opened(Value(), seen)
      ensures r == Selector.Members(x, Value(), group, seen)
      decreases |groups.Keys - seen|, 0
    {
      hide Terms, Selector.Resolve, Selector.Atom;
      if group in seen {
        return Err(Cycle(group));
      }
      var found := set n | n in hosts && group in hosts[n].groups;
      assert found == Tagged(Value(), group);
      if group in groups && groups[group] != [] {
        FewerLeft(Value(), seen, group);
        var more := Resolve(Join(groups[group]), seen + {group});
        if more.Err? {
          return more;
        }
        return Ok(found + more.value);
      }
      if found == {} && group !in groups {
        return Err(UnknownGroup(group));
      }
      r := Ok(found);
    }

    method Atom(atom: string, seen: set<Name>) returns (r: Result<set<Name>, Error>)
      requires Opened(Value(), seen)
      ensures r == Selector.Atom(x, Value(), atom, seen)
      decreases |groups.Keys - seen|, 1
    {
      hide Selector.Members;
      if atom == "all" || atom == "*" {
        return Ok(hosts.Keys);
      }
      if atom != "" && atom[0] == '@' {
        r := Members(atom[1..], seen);
        return;
      }
      if '=' in atom {
        var k := IndexOf(atom, '=');
        return Ok(set n | n in hosts && x.glob(LabelOf(hosts[n], atom[..k]), atom[k + 1..]));
      }
      if '*' in atom || '?' in atom || '[' in atom {
        return Ok(set n | n in hosts && x.glob(n, atom));
      }
      if atom !in hosts {
        return Err(UnknownHost(atom));
      }
      r := Ok({atom});
    }

    /** `_resolve`: the plain terms first, then the others, each in the order given. */
    method Resolve(expr: string, seen: set<Name>) returns (r: Result<set<Name>, Error>)
      requires Opened(Value(), seen)
      ensures r == Selector.Resolve(x, Value(), expr, seen)
      decreases |groups.Keys - seen|, 2
    {
      hide Terms, Selector.Atom, Union, Refine;
      var terms := Terms(x, expr);
      if terms == [] {
        return Err(EmptyTarget);
      }
      var chosen := hosts.Keys;
      if HasPlain(terms) {
        chosen := {};
        NoTermsYet(x, Value(), terms, seen, chosen);
        for i := 0 to |terms|
          invariant Union(x, Value(), terms[..i], seen) == Ok(chosen)
        {
          UnionStep(x, Value(), terms, i, seen);
          if terms[i].op == Plain {
            var a := Atom(terms[i].atom, seen);
            if a.Err? {
              UnionFails(x, Value(), terms, i + 1, seen);
              return a;
            }
            chosen := chosen + a.value;
          }
        }
        assert terms[..|terms|] == terms;
      }
      ghost var start := chosen;
      NoTermsYet(x, Value(), terms, seen, start);
      for i := 0 to |terms|
        invariant start <= hosts.Keys
        invariant Refine(x, Value(), start, terms[..i], seen) == Ok(chosen)
      {
        RefineStep(x, Value(), start, terms, i, seen);
        if terms[i].op == And {
          var a := Atom(terms[i].atom, seen);
          if a.Err? {
            RefineFails(x, Value(), start, terms, i + 1, seen);
            return a;
          }
          chosen := chosen * a.value;
        } else if terms[i].op == Not {
          var a := Atom(terms[i].atom, seen);
          if a.Err? {
            RefineFails(x, Value(), start, terms, i + 1, seen);
            return a;
          }
          chosen := chosen - a.value;
        }
      }
      assert terms[..|terms|] == terms;
      r := Ok(chosen);
    }

    /** `regroup`: the hosts of a group that is assigned, not computed. It stops at a name that is no host. */
    method Regroup(group: Name, add: seq<Name>, remove: seq<Name>) returns (r: Result<(), EditError>)
      modifies this`hosts
      ensures r == Err(ComputedGroup) <==> group in groups
      ensures r.Ok? <==> group !in groups && forall n :: n in add || n in remove ==> n in old(hosts)
      ensures r == Err(ComputedGroup) ==> hosts == old(hosts)
      ensures hosts.Keys == old(hosts).Keys && forall n :: n in hosts ==> hosts[n].labels == old(hosts)[n].labels
      ensures forall g :: g != group ==> Tagged(Value(), g) == Tagged(old(Value()), g)
      ensures r.Ok? ==>
                Tagged(Value(), group) == (Tagged(old(Value()), group) + (set n | n in add)) - (set n | n in remove)
    {
      if group in groups {
        return Err(ComputedGroup);
      }
      r := AddTo(group, add);
      if r.Ok? {
        r := RemoveFrom(group, remove);
      }
    }

    method AddTo(group: Name, names: seq<Name>) returns (r: Result<(), EditError>)
      modifies this`hosts
      ensures r != Err(ComputedGroup) && (r.Ok? <==> forall n :: n in names ==> n in old(hosts))
      ensures hosts.Keys == old(hosts).Keys && forall n :: n in hosts ==> SameBut(hosts[n], old(hosts)[n], group)
      ensures r.Ok? ==> forall n :: n in hosts ==>
          (group in hosts[n].groups <==> group in old(hosts)[n].groups || n in names)
    {
      for i := 0 to |names|
        invariant hosts.Keys == old(hosts).Keys
        invariant forall n :: n in hosts ==> SameBut(hosts[n], old(hosts)[n], group)
        invariant forall n :: n in names[..i] ==> n in hosts
        invariant forall n :: n in hosts ==> (group in hosts[n].groups <==>
            group in old(hosts)[n].groups || n in names[..i])
      {
        var n := names[i];
        assert names[..i + 1] == names[..i] + [n];
        if n !in hosts {
          return Err(NoSuchHost(n));
        }
        var h := hosts[n];
        if group !in h.groups {
          hosts := hosts[n := h.(groups := h.groups + [group])];
        }
      }
      assert names[..|names|] == names;
      r := Ok(());
    }

    method RemoveFrom(group: Name, names: seq<Name>) returns (r: Result<(), EditError>)
      modifies this`hosts
      ensures r != Err(ComputedGroup) && (r.Ok? <==> forall n :: n in names ==> n in old(hosts))
      ensures hosts.Keys == old(hosts).Keys && forall n :: n in hosts ==> SameBut(hosts[n], old(hosts)[n], group)
      ensures r.Ok? ==> forall n :: n in hosts ==>
          (group in hosts[n].groups <==> group in old(hosts)[n].groups && n !in names)
    {
      for i := 0 to |names|
        invariant hosts.Keys == old(hosts).Keys
        invariant forall n :: n in hosts ==> SameBut(hosts[n], old(hosts)[n], group)
        invariant forall n :: n in names[..i] ==> n in hosts
        invariant forall n :: n in hosts ==> (group in hosts[n].groups <==>
            group in old(hosts)[n].groups && n !in names[..i])
      {
        var n := names[i];
        assert names[..i + 1] == names[..i] + [n];
        if n !in hosts {
          return Err(NoSuchHost(n));
        }
        hosts := hosts[n := hosts[n].(groups := Without(hosts[n].groups, group))];
      }
      assert names[..|names|] == names;
      r := Ok(());
    }
  }

  /** Hosts with the same labels and, apart from one group, in the same groups. */
  ghost predicate SameBut(a: Host, b: Host, group: Name) {
    a.labels == b.labels && forall g :: g != group ==> (g in a.groups <==> g in b.groups)
  }

  function Without(names: seq<Name>, name: Name): (r: seq<Name>)
    ensures forall n :: n in r <==> n in names && n != name
  {
    if names == [] then []
    else
      assert forall n :: n in names <==> n == names[0] || n in names[1..];
      (if names[0] == name then [] else [names[0]]) + Without(names[1..], name)
  }

  lemma NoTermsYet(x: Lexis, f: Fleet, terms: seq<Term>, seen: set<Name>, chosen: set<Name>)
    requires Opened(f, seen) && chosen <= f.hosts.Keys
    ensures Union(x, f, terms[..0], seen) == Ok({}) && Refine(x, f, chosen, terms[..0], seen) == Ok(chosen)
  {
  }

  lemma UnionStep(x: Lexis, f: Fleet, terms: seq<Term>, i: nat, seen: set<Name>)
    requires Opened(f, seen) && i < |terms|
    ensures var before, a := Union(x, f, terms[..i], seen), Selector.Atom(x, f, terms[i].atom, seen);
            Union(x, f, terms[..i + 1], seen) ==
            if before.Err? || terms[i].op != Plain then before else if a.Err? then a else Ok(before.value + a.value)
  {
    hide Selector.Atom;
    assert terms[..i + 1][..i] == terms[..i];
  }

  lemma RefineStep(x: Lexis, f: Fleet, chosen: set<Name>, terms: seq<Term>, i: nat, seen: set<Name>)
    requires Opened(f, seen) && i < |terms| && chosen <= f.hosts.Keys
    ensures var before, a := Refine(x, f, chosen, terms[..i], seen), Selector.Atom(x, f, terms[i].atom, seen);
            Refine(x, f, chosen, terms[..i + 1], seen) ==
            if before.Err? || terms[i].op == Plain then before
            else if a.Err? then a
            else Ok(if terms[i].op == And then before.value * a.value else before.value - a.value)
  {
    hide Selector.Atom;
    assert terms[..i + 1][..i] == terms[..i];
  }

  lemma {:induction false} UnionFails(x: Lexis, f: Fleet, terms: seq<Term>, i: nat, seen: set<Name>)
    requires Opened(f, seen) && i <= |terms| && Union(x, f, terms[..i], seen).Err?
    ensures Union(x, f, terms, seen) == Union(x, f, terms[..i], seen)
    decreases |terms|
  {
    hide Selector.Atom;
    if i < |terms| {
      assert terms[..|terms| - 1][..i] == terms[..i];
      UnionFails(x, f, terms[..|terms| - 1], i, seen);
    } else {
      assert terms[..i] == terms;
    }
  }

  lemma {:induction false} RefineFails(x: Lexis, f: Fleet, chosen: set<Name>, terms: seq<Term>, i: nat, seen: set<Name>)
    requires Opened(f, seen) && chosen <= f.hosts.Keys && i <= |terms| && Refine(x, f, chosen, terms[..i], seen).Err?
    ensures Refine(x, f, chosen, terms, seen) == Refine(x, f, chosen, terms[..i], seen)
    decreases |terms|
  {
    hide Selector.Atom;
    if i < |terms| {
      assert terms[..|terms| - 1][..i] == terms[..i];
      RefineFails(x, f, chosen, terms[..|terms| - 1], i, seen);
    } else {
      assert terms[..i] == terms;
    }
  }
}
