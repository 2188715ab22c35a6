/** Engine extensions (_zeitgeist/engine/extension.py).

    An extension class names the methods it publishes (`PUBLIC_METHODS`) and
    carries two hooks: one applied to every event before it is inserted and
    one applied to every event before it is returned. The collection keeps
    the loaded extensions by class name, in the order they were first
    loaded, and a table from published method name to the bound method. */
module Extensions {
  import opened Wrappers
  import opened Datamodel

  /** The exceptions the collection raises. */
  datatype Error = TypeError | ValueError | KeyError | AttributeError

  /** An extension class, as far as the collection looks at it: its name,
      whether it derives from `Extension`, its `PUBLIC_METHODS` (`None` when
      left at the base class's `None`), the attribute names its instances
      have, and its two hooks. */
  datatype ExtensionClass = ExtensionClass(
    name: string,
    isExtensionSubclass: bool,
    publicMethods: Option<seq<string>>,
    attributes: set<string>,
    insertHook: Event -> Option<Event>,
    getHook: Option<Event> -> Option<Event>)

  /** What `getattr(obj, method)` yields: the method `name` of the instance of
      class `owner`. */
  datatype BoundMethod = BoundMethod(owner: string, name: string)

  /** The hooks `Extension` itself defines: both hand the event back as is. */
  ghost predicate HasDefaultHooks(c: ExtensionClass)
  {
    && (forall e :: c.insertHook(e) == Some(e))
    && (forall o :: c.getHook(o) == o)
  }

  /** A class that keeps the default hooks. */
  function PlainExtension(name: string, publicMethods: seq<string>): (c: ExtensionClass)
    ensures HasDefaultHooks(c)
  {
    var attributes := set m | m in publicMethods;
    ExtensionClass(name, true, Some(publicMethods), attributes, e => Some(e), o => o)
  }

  predicate Distinct(s: seq<string>)
  {
    forall i, j :: 0 <= i < j < |s| ==> s[i] != s[j]
  }

  // ---------------------------------------------------------------------
  // Hook chains

  /** The insert hooks applied in turn; the first `None` blocks the event
      and the later hooks are not called. */
  function InsertChain(hooks: seq<ExtensionClass>, e: Event): Option<Event>
  {
    if hooks == [] then Some(e)
    else
      match hooks[0].insertHook(e)
      case None => None
      case Some(e') => InsertChain(hooks[1..], e')
  }

  /** The get hooks applied in turn; every hook is called, also with the
      `None` an earlier hook returned. */
  function GetFold(hooks: seq<ExtensionClass>, o: Option<Event>): Option<Event>
  {
    if hooks == [] then o else GetFold(hooks[1..], hooks[0].getHook(o))
  }

  /** `apply_get_hooks`: no event stays no event; otherwise the fold. */
  function GetChain(hooks: seq<ExtensionClass>, o: Option<Event>): Option<Event>
  {
    if o.None? then None else GetFold(hooks, o)
  }

  /** Running two lists of insert hooks in a row is running the first and,
      unless it blocked the event, the second on its result. */
  lemma {:induction false} InsertChainAppend(a: seq<ExtensionClass>, b: seq<ExtensionClass>, e: Event)
    ensures InsertChain(a + b, e) ==
      match InsertChain(a, e)
      case None => None
      case Some(x) => InsertChain(b, x)
  {
    if a != [] {
      assert (a + b)[0] == a[0] && (a + b)[1..] == a[1..] + b;
      match a[0].insertHook(e)
      case None =>
        assert InsertChain(a + b, e) == None;
      case Some(e') =>
        InsertChainAppend(a[1..], b, e');
        assert InsertChain(a + b, e) == InsertChain(a[1..] + b, e');
    } else {
      assert a + b == b;
    }
  }

  /** Once a hook blocks an event no later hook can bring it back. */
  lemma InsertBlockedStaysBlocked(a: seq<ExtensionClass>, b: seq<ExtensionClass>, e: Event)
    requires InsertChain(a, e).None?
    ensures InsertChain(a + b, e).None?
  {
    InsertChainAppend(a, b, e);
  }

  /** Get hooks compose: the second list sees whatever the first returned,
      `None` included. */
  lemma {:induction false} GetFoldAppend(a: seq<ExtensionClass>, b: seq<ExtensionClass>, o: Option<Event>)
    ensures GetFold(a + b, o) == GetFold(b, GetFold(a, o))
  {
    if a != [] {
      assert (a + b)[0] == a[0] && (a + b)[1..] == a[1..] + b;
      GetFoldAppend(a[1..], b, a[0].getHook(o));
      assert GetFold(a + b, o) == GetFold(a[1..] + b, a[0].getHook(o));
    } else {
      assert a + b == b;
    }
  }

  /** With only the default hooks, both chains hand every event back
      unchanged. */
  lemma {:induction false} DefaultHooksIdentity(hooks: seq<ExtensionClass>, e: Event, o: Option<Event>)
    requires forall i :: 0 <= i < |hooks| ==> HasDefaultHooks(hooks[i])
    ensures InsertChain(hooks, e) == Some(e)
    ensures GetChain(hooks, o) == o
    ensures GetFold(hooks, o) == o
  {
    if hooks != [] {
      assert HasDefaultHooks(hooks[0]);
      assert hooks[0].insertHook(e) == Some(e);
      assert hooks[0].getHook(o) == o;
      DefaultHooksIdentity(hooks[1..], e, o);
    }
  }

  /** A get hook after one that blocked the event is still called, and may
      hand an event back: `apply_get_hooks` passes the `None` on. */
  lemma GetHooksSeeBlockedEvents(first: ExtensionClass, second: ExtensionClass, e: Event, x: Event)
    requires first.getHook(Some(e)) == None
    requires second.getHook(None) == Some(x)
    ensures GetChain([first, second], Some(e)) == Some(x)
  {
    assert [first, second][1..] == [second];
    assert [second][1..] == [];
    assert GetFold([first, second], Some(e)) == GetFold([second], None);
    assert GetFold([second], None) == GetFold([], Some(x));
  }

  // ---------------------------------------------------------------------
  // Method registration

  /** The method table after registering `names` of class `c` in turn, and
      how that ends: each name is looked up on the instance first
      (AttributeError when missing), then refused if already registered
      (ValueError). The names before the failing one stay registered. */
  datatype Registration = Registration(methods: map<string, BoundMethod>, outcome: Outcome<Error>)

  function RegisterAll(methods: map<string, BoundMethod>, c: ExtensionClass, names: seq<string>): Registration
    decreases names
  {
    if names == [] then Registration(methods, Pass)
    else if names[0] !in c.attributes then Registration(methods, Fail(AttributeError))
    else if names[0] in methods then Registration(methods, Fail(ValueError))
    else RegisterAll(methods[names[0] := BoundMethod(c.name, names[0])], c, names[1..])
  }

  /** Registration never drops or rebinds a method already in the table. */
  lemma {:induction false} RegisterAllKeeps(methods: map<string, BoundMethod>, c: ExtensionClass, names: seq<string>)
    decreases names
    ensures forall k :: k in methods ==>
      k in RegisterAll(methods, c, names).methods && RegisterAll(methods, c, names).methods[k] == methods[k]
  {
    if names != [] && names[0] in c.attributes && names[0] !in methods {
      RegisterAllKeeps(methods[names[0] := BoundMethod(c.name, names[0])], c, names[1..]);
    }
  }

  /** Registration succeeds exactly when the names are pairwise distinct,
      all defined on the instance and none registered yet; it then adds
      exactly those names, each bound to `c`. */
  lemma {:induction false} RegisterAllPass(methods: map<string, BoundMethod>, c: ExtensionClass, names: seq<string>)
    decreases names
    ensures RegisterAll(methods, c, names).outcome.Pass? <==>
      Distinct(names) && (forall n :: n in names ==> n in c.attributes && n !in methods)
    ensures RegisterAll(methods, c, names).outcome.Pass? ==>
      && RegisterAll(methods, c, names).methods.Keys == methods.Keys + (set n | n in names)
      && forall n :: n in names ==> RegisterAll(methods, c, names).methods[n] == BoundMethod(c.name, n)
  {
    if names != [] {
      var n0, rest := names[0], names[1..];
      assert names == [n0] + rest;
      var m' := methods[n0 := BoundMethod(c.name, n0)];
      RegisterAllPass(m', c, rest);
      RegisterAllKeeps(m', c, rest);
      if n0 in c.attributes && n0 !in methods {
        if Distinct(names) && (forall n :: n in names ==> n in c.attributes && n !in methods) {
          forall n | n in rest ensures n in c.attributes && n !in m' {
            var j :| 0 <= j < |rest| && rest[j] == n;
            assert names[j + 1] == n;
          }
        }
        if RegisterAll(m', c, rest).outcome.Pass? {
          forall i, j | 0 <= i < j < |names| ensures names[i] != names[j] {
            assert names[j] == rest[j - 1];
            if i > 0 {
              assert names[i] == rest[i - 1];
            }
          }
        }
      }
    }
  }

  /** Removes `n` from an ordering of names. */
  function Without(order: seq<string>, n: string): (r: seq<string>)
    ensures forall x :: x in r <==> x in order && x != n
    ensures Distinct(order) ==> Distinct(r)
  {
    if order == [] then []
    else if order[0] == n then Without(order[1..], n)
    else
      var rest := Without(order[1..], n);
      assert Distinct(order) ==> Distinct([order[0]] + rest) by {
        if Distinct(order) {
          assert Distinct(order[1..]) && order[0] !in rest;
          DistinctCons(order[0], rest);
        }
      }
      [order[0]] + rest
  }

  lemma DistinctCons(x: string, s: seq<string>)
    requires x !in s && Distinct(s)
    ensures Distinct([x] + s)
  {
    var r := [x] + s;
    forall i, j | 0 <= i < j < |r| ensures r[i] != r[j] {
      assert r[j] == s[j - 1];
      if i > 0 {
        assert r[i] == s[i - 1];
      }
    }
  }

  /** Distinct names are as many as their set. */
  lemma {:induction false} DistinctCard(s: seq<string>)
    requires Distinct(s)
    ensures |set x | x in s| == |s|
  {
    if s != [] {
      var rest := s[1..];
      assert Distinct(rest);
      DistinctCard(rest);
      assert (set x | x in s) == (set x | x in rest) + {s[0]};
      assert s[0] !in rest;
    }
  }

  // ---------------------------------------------------------------------
  // The collection

  /** The whole state of a collection, as a value: loaded extensions, hook
      order and method table. */
  datatype Registry = Registry(extensions: map<string, ExtensionClass>, order: seq<string>, methods: map<string, BoundMethod>)

  /** What `load` makes of state `s` and the outcome it reports: nothing
      changes on TypeError or ValueError from the class checks; a failed
      registration keeps the methods registered before it; a complete one
      also stores the extension, appending its name to the hook order the
      first time. */
  function LoadInto(s: Registry, c: ExtensionClass): (Registry, Outcome<Error>)
  {
    if !c.isExtensionSubclass then (s, Fail(TypeError))
    else if c.publicMethods.None? then (s, Fail(ValueError))
    else
      var reg := RegisterAll(s.methods, c, c.publicMethods.value);
      if reg.outcome.Fail? then (s.(methods := reg.methods), reg.outcome)
      else (Registry(s.extensions[c.name := c], if c.name in s.order then s.order else s.order + [c.name], reg.methods), Pass)
  }

  /** Loading `cs` in turn from state `s`, stopping at the first failure,
      whose state and outcome are the result. */
  function LoadAll(s: Registry, cs: seq<ExtensionClass>): (Registry, Outcome<Error>)
    decreases |cs|
  {
    if cs == [] then (s, Pass)
    else
      var (s', r) := LoadInto(s, cs[0]);
      if r.Fail? then (s', r) else LoadAll(s', cs[1..])
  }

  /** When every default went in, each of them is loaded under its class
      name, whatever the earlier ones registered. */
  lemma {:induction false} LoadAllStoresEach(s: Registry, cs: seq<ExtensionClass>)
    requires LoadAll(s, cs).1.Pass?
    ensures forall i :: 0 <= i < |cs| ==> cs[i].name in LoadAll(s, cs).0.extensions
    ensures s.extensions.Keys <= LoadAll(s, cs).0.extensions.Keys
    decreases |cs|
  {
    if cs != [] {
      var (s', r) := LoadInto(s, cs[0]);
      LoadAllStoresEach(s', cs[1..]);
      forall i | 0 <= i < |cs| ensures cs[i].name in LoadAll(s, cs).0.extensions {
        if i > 0 {
          assert cs[i] == cs[1..][i - 1];
        }
      }
    }
  }

  class ExtensionsCollection {
    /** The loaded extensions by class name. */
    var extensions: map<string, ExtensionClass>
    /** The order in which the hooks run: the class names, in the order they
        were first stored. */
    var order: seq<string>
    /** The published methods by name. */
    var methods: map<string, BoundMethod>

    /** Every stored extension is stored under its own name, published its
        methods (pairwise distinct) and finds each of them bound to itself. */
    ghost predicate Loaded(n: string)
      reads this
      requires n in extensions
    {
      var c := extensions[n];
      && c.name == n
      && c.publicMethods.Some?
      && Distinct(c.publicMethods.value)
      && forall m :: m in c.publicMethods.value ==> m in methods && methods[m] == BoundMethod(n, m)
    }

    ghost predicate Valid()
      reads this
    {
      && (forall n :: n in extensions <==> n in order)
      && Distinct(order)
      && (forall n :: n in extensions ==> Loaded(n))
    }

    constructor ()
      ensures Valid()
      ensures extensions == map[] && order == [] && methods == map[]
    {
      extensions, order, methods := map[], [], map[];
    }

    /** The collection's state as a value. */
    function State(): Registry
      reads this
    {
      Registry(extensions, order, methods)
    }

    /** The loaded extensions in hook order. */
    function Hooks(): (hs: seq<ExtensionClass>)
      reads this
      requires forall n :: n in order ==> n in extensions
      ensures |hs| == |order|
      ensures forall i :: 0 <= i < |order| ==> hs[i] == extensions[order[i]]
    {
      var o, ext := order, extensions;
      seq(|o|, i requires 0 <= i < |o| && o[i] in ext => ext[o[i]])
    }

    /** `__len__`: the number of loaded extensions, one per class name in
        the hook order. */
    function Count(): (n: nat)
      reads this
      requires Valid()
      ensures n == |order|
    {
      DistinctCard(order);
      assert extensions.Keys == set x | x in order;
      |extensions|
    }

    /** `__getattr__`: the published method of that name, or AttributeError. */
    function GetAttr(name: string): (r: Result<BoundMethod, Error>)
      reads this
      ensures r.Ok? <==> name in methods
      ensures r.Ok? ==> r.value == methods[name]
      ensures r.Err? ==> r.error == AttributeError
    {
      if name in methods then Ok(methods[name]) else Err(AttributeError)
    }

    /** Every method a loaded extension published is reachable by name and
        bound to that extension. */
    lemma LoadedMethodsReachable(n: string, m: string)
      requires Valid() && n in extensions
      requires extensions[n].publicMethods.Some? && m in extensions[n].publicMethods.value
      ensures GetAttr(m) == Ok(BoundMethod(n, m))
    {
      assert Loaded(n);
    }

    /** `_register_method`: refuses a name already taken, otherwise adds
        exactly that name. */
    method RegisterMethod(name: string, m: BoundMethod) returns (r: Outcome<Error>)
      requires Valid()
      modifies this
      ensures Valid()
      ensures extensions == old(extensions) && order == old(order)
      ensures name in old(methods) ==> r == Fail(ValueError) && methods == old(methods)
      ensures name !in old(methods) ==> r == Pass && methods == old(methods)[name := m]
    {
      if name in methods {
        return Fail(ValueError);
      }
      methods := methods[name := m];
      forall n | n in extensions ensures Loaded(n) {
        assert old(Loaded(n));
      }
      return Pass;
    }

    /** `load`: TypeError for a class not derived from `Extension` and
        ValueError for one that published no method list, both with nothing
        changed; otherwise the methods are registered in turn and, when all
        went in, the extension is stored under its class name. */
    method Load(c: ExtensionClass) returns (r: Outcome<Error>)
      requires Valid()
      modifies this
      ensures Valid()
      ensures !c.isExtensionSubclass ==> r == Fail(TypeError)
      ensures c.isExtensionSubclass && c.publicMethods.None? ==> r == Fail(ValueError)
      ensures !c.isExtensionSubclass || c.publicMethods.None? ==>
        methods == old(methods) && extensions == old(extensions) && order == old(order)
      ensures c.isExtensionSubclass && c.publicMethods.Some? ==>
        var reg := RegisterAll(old(methods), c, c.publicMethods.value);
        && methods == reg.methods
        && r == reg.outcome
        && (r.Pass? ==> extensions == old(extensions)[c.name := c]
                        && order == (if c.name in old(order) then old(order) else old(order) + [c.name]))
        && (r.Fail? ==> extensions == old(extensions) && order == old(order))
      ensures (State(), r) == LoadInto(old(State()), c)
    {
      if !c.isExtensionSubclass {
        return Fail(TypeError);
      }
      if c.publicMethods.None? {
        return Fail(ValueError);
      }
      var names := c.publicMethods.value;
      var i := 0;
      while i < |names|
        invariant 0 <= i <= |names|
        invariant Valid()
        invariant extensions == old(extensions) && order == old(order)
        invariant RegisterAll(old(methods), c, names) == RegisterAll(methods, c, names[i..])
      {
        var name := names[i];
        assert names[i..][0] == name && names[i..][1..] == names[i + 1..];
        if name !in c.attributes {
          return Fail(AttributeError);
        }
        r := RegisterMethod(name, BoundMethod(c.name, name));
        if r.Fail? {
          return;
        }
        i := i + 1;
      }
      assert names[i..] == [];
      RegisterAllPass(old(methods), c, names);
      extensions := extensions[c.name := c];
      if c.name !in order {
        order := order + [c.name];
      }
      forall n | n in extensions ensures Loaded(n) {
        if n != c.name {
          assert old(Loaded(n));
        }
      }
      return Pass;
    }

    /** `__init__` with a list of default extensions: loads them in turn and
        stops at the first that fails. */
    method LoadDefaults(defaults: seq<ExtensionClass>) returns (r: Outcome<Error>)
      requires Valid()
      modifies this
      ensures Valid()
      ensures (State(), r) == LoadAll(old(State()), defaults)
      ensures r.Pass? ==> forall i :: 0 <= i < |defaults| ==> defaults[i].name in extensions
    {
      var i := 0;
      while i < |defaults|
        invariant 0 <= i <= |defaults|
        invariant Valid()
        invariant LoadAll(old(State()), defaults) == LoadAll(State(), defaults[i..])
      {
        assert defaults[i..][0] == defaults[i] && defaults[i..][1..] == defaults[i + 1..];
        r := Load(defaults[i]);
        if r.Fail? {
          return;
        }
        i := i + 1;
      }
      assert defaults[i..] == [];
      LoadAllStoresEach(old(State()), defaults);
      return Pass;
    }

    /** `unload`: KeyError when no extension of that class name is loaded;
        otherwise the stored extension's methods and the extension itself
        are removed, and nothing else changes. */
    method Unload(c: ExtensionClass) returns (r: Outcome<Error>)
      requires Valid()
      modifies this
      ensures Valid()
      ensures c.name !in old(extensions) ==>
        r == Fail(KeyError) && methods == old(methods) && extensions == old(extensions) && order == old(order)
      ensures c.name in old(extensions) ==>
        && r == Pass
        && old(extensions[c.name].publicMethods).Some?
        && methods == old(methods) - (set m | m in old(extensions[c.name].publicMethods.value))
        && extensions == old(extensions) - {c.name}
        && order == Without(old(order), c.name)
    {
      if c.name !in extensions {
        return Fail(KeyError);
      }
      assert Loaded(c.name);
      var names := extensions[c.name].publicMethods.value;
      var i := 0;
      while i < |names|
        invariant 0 <= i <= |names|
        invariant extensions == old(extensions) && order == old(order)
        invariant methods == old(methods) - (set m | m in names[..i])
      {
        assert names[..i + 1] == names[..i] + [names[i]];
        methods := methods - {names[i]};
        i := i + 1;
      }
      assert names[..i] == names;
      extensions := extensions - {c.name};
      order := Without(order, c.name);
      forall n | n in extensions ensures Loaded(n) {
        assert old(Loaded(n));
        assert old(Loaded(c.name));
        forall m | m in extensions[n].publicMethods.value
          ensures m !in names
        {
          assert old(methods)[m] == BoundMethod(n, m);
          assert forall k :: k in names ==> old(methods)[k] == BoundMethod(c.name, k);
        }
      }
      return Pass;
    }

    /** `apply_insert_hooks`: the event after every extension's insert hook,
        or `None` from the first hook that blocks it. */
    method ApplyInsertHooks(e: Event) returns (r: Option<Event>)
      requires Valid()
      ensures r == InsertChain(Hooks(), e)
    {
      var cur := e;
      var i := 0;
      while i < |order|
        invariant 0 <= i <= |order|
        invariant InsertChain(Hooks(), e) == InsertChain(Hooks()[i..], cur)
      {
        var hs := Hooks()[i..];
        assert hs[0] == extensions[order[i]] && hs[1..] == Hooks()[i + 1..];
        var out := extensions[order[i]].insertHook(cur);
        if out.None? {
          return None;
        }
        cur := out.value;
        i := i + 1;
      }
      assert Hooks()[i..] == [];
      return Some(cur);
    }

    /** `apply_get_hooks`: `None` for no event; otherwise the event after
        every extension's get hook. */
    method ApplyGetHooks(o: Option<Event>) returns (r: Option<Event>)
      requires Valid()
      ensures o.None? ==> r.None?
      ensures r == GetChain(Hooks(), o)
    {
      if o.None? {
        return None;
      }
      r := o;
      var i := 0;
      while i < |order|
        invariant 0 <= i <= |order|
        invariant GetFold(Hooks(), o) == GetFold(Hooks()[i..], r)
      {
        var hs := Hooks()[i..];
        assert hs[0] == extensions[order[i]] && hs[1..] == Hooks()[i + 1..];
        r := extensions[order[i]].getHook(r);
        i := i + 1;
      }
      assert Hooks()[i..] == [];
    }
  }
}
