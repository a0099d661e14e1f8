/** mcp_code_indexer/utils/dependency_injection.py: a name-keyed container of
    instances and factories. A factory is an opaque function from the call's
    arguments to the outcome of calling it. */
module DependencyInjection {
  import opened Wrappers
  import opened PyValue

  /** The text of the KeyError an unregistered name raises. */
  function Unregistered(name: string): string {
    "No dependency registered for '" + name + "'"
  }

  /** For a name of plain characters without a double quote, `str` of the
      KeyError shows the text between double quotes: it holds single quotes. */
  lemma UnregisteredMessage(name: string)
    requires forall i :: 0 <= i < |name| ==> PlainChar(name[i]) && name[i] != '"'
    ensures KeyErrorMessage(Unregistered(name)) == "\"" + Unregistered(name) + "\""
  {
    var prefix := "No dependency registered for '";
    var m := prefix + name + "'";
    assert m == Unregistered(name);
    assert m[|m| - 1] == '\'';
    forall i | 0 <= i < |m| ensures PlainChar(m[i]) && m[i] != '"' {
      if i < |prefix| {
        assert m[i] == prefix[i];
      } else if i < |prefix| + |name| {
        assert m[i] == name[i - |prefix|];
      }
    }
    StrReprDouble(m);
  }

  class DependencyContainer<T, A> {
    var instances: map<string, T>
    var factories: map<string, A -> Call<T>>

    constructor ()
      ensures instances == map[] && factories == map[]
    {
      instances := map[];
      factories := map[];
    }

    /** `register`: the name now maps to the instance; factories are untouched. */
    method Register(name: string, instance: T)
      modifies this
      ensures instances == old(instances)[name := instance]
      ensures factories == old(factories)
    {
      instances := instances[name := instance];
    }

    /** `register_factory`: the name now maps to the factory; instances are untouched. */
    method RegisterFactory(name: string, factory: A -> Call<T>)
      modifies this
      ensures factories == old(factories)[name := factory]
      ensures instances == old(instances)
    {
      factories := factories[name := factory];
    }

    /** `get`: a stored instance wins; otherwise the factory is called once and a
        result it returns is cached as the instance; otherwise KeyError. An
        exception from the factory propagates and caches nothing. */
    method Get(name: string, args: A) returns (r: Call<T>)
      modifies this
      ensures factories == old(factories)
      ensures name in old(instances) ==> r == Returned(old(instances)[name]) && instances == old(instances)
      ensures name !in old(instances) && name in factories ==> r == factories[name](args)
      ensures name !in old(instances) && name in factories && r.Returned? ==> instances == old(instances)[name := r.value]
      ensures name !in old(instances) && name in factories && r.Raised? ==> instances == old(instances)
      ensures name !in old(instances) && name !in factories ==>
                r == Raised(KeyErrorMessage(Unregistered(name))) && instances == old(instances)
      ensures r.Returned? ==> name in instances && instances[name] == r.value
    {
      if name in instances {
        return Returned(instances[name]);
      }
      if name in factories {
        r := factories[name](args);
        if r.Returned? {
          instances := instances[name := r.value];
        }
        return;
      }
      r := Raised(KeyErrorMessage(Unregistered(name)));
    }

    /** `has`: the name is among the instances or the factories. */
    predicate Has(name: string)
      reads this
    {
      name in instances || name in factories
    }

    /** `clear`: both tables are emptied, so `Has` holds for no name. */
    method Clear()
      modifies this
      ensures instances == map[] && factories == map[]
      ensures forall name :: !Has(name)
    {
      instances := map[];
      factories := map[];
    }
  }

  /** Register, then get: the registered instance comes back whether or not a
      factory of that name exists, and once a factory has produced a value
      the second `get` returns the same value without calling it. */
  method RegisterThenGet<T, A>(c: DependencyContainer<T, A>, name: string, x: T, args: A) returns (r1: Call<T>, r2: Call<T>)
    modifies c
    ensures r1 == Returned(x) && r2 == Returned(x)
    ensures c.instances == old(c.instances)[name := x] && c.factories == old(c.factories)
  {
    c.Register(name, x);
    r1 := c.Get(name, args);
    r2 := c.Get(name, args);
  }

  /** A factory's first result is cached: every later `get` returns it. */
  method FactoryCalledOnce<T, A>(c: DependencyContainer<T, A>, name: string, f: A -> Call<T>, args1: A, args2: A)
      returns (r1: Call<T>, r2: Call<T>)
    requires name !in c.instances
    modifies c
    ensures r1 == f(args1)
    ensures r1.Returned? ==> r2 == r1
    ensures r1.Raised? ==> r2 == f(args2)
  {
    c.RegisterFactory(name, f);
    r1 := c.Get(name, args1);
    r2 := c.Get(name, args2);
  }
}
