/**
 * The two caching decorators of nonstdlib/meta.py (and the copy of
 * `singleton` in classes.py): `memoize`, a grow-only table from argument
 * tuples to results, and `singleton`, a table holding at most one instance
 * of the decorated class, guarded by a check of the class's `__init__`.
 */
module Meta {
  import opened Wrappers

  /** What one call of the wrapped function does: return a value or raise. */
  datatype Outcome<R> = Returned(value: R) | Raised(error: Error)

  /**
   * One call of the `memoize` wrapper on `args`, given the cache so far:
   * a cached result is returned as it is; otherwise the function runs, and
   * its result is stored only if it returned.
   */
  function MemoCall<A(==), R(==)>(f: A -> Outcome<R>, cache: map<A, R>, args: A): (Outcome<R>, map<A, R>) {
    if args in cache then (Returned(cache[args]), cache)
    else
      match f(args)
      case Returned(v) => (Returned(v), cache[args := v])
      case Raised(e) => (Raised(e), cache)
  }

  /** Every cached result is what the function returns for that key. */
  predicate CacheAgrees<A(==), R(==)>(f: A -> Outcome<R>, cache: map<A, R>) {
    forall a :: a in cache ==> f(a) == Returned(cache[a])
  }

  /** `small` is contained in `large`: no entry removed or changed. */
  predicate Grows<A(==), R(==)>(small: map<A, R>, large: map<A, R>) {
    forall a :: a in small ==> a in large && large[a] == small[a]
  }

  /** Memoizing is transparent: a call answers what the function itself answers. */
  lemma MemoCallTransparent<A, R>(f: A -> Outcome<R>, cache: map<A, R>, args: A)
    requires CacheAgrees(f, cache)
    ensures MemoCall(f, cache, args).0 == f(args)
    ensures CacheAgrees(f, MemoCall(f, cache, args).1)
  {
  }

  /**
   * Entries are never overwritten or removed; the only entry a call adds is
   * its own arguments, and only when the function returned.
   */
  lemma MemoCallGrows<A, R>(f: A -> Outcome<R>, cache: map<A, R>, args: A)
    ensures Grows(cache, MemoCall(f, cache, args).1)
    ensures MemoCall(f, cache, args).1.Keys == cache.Keys + (if MemoCall(f, cache, args).0.Returned? then {args} else {})
  {
  }

  /** After a call that returned, the same arguments are answered from the cache. */
  lemma MemoCallThenHit<A, R>(f: A -> Outcome<R>, cache: map<A, R>, args: A)
    requires MemoCall(f, cache, args).0.Returned?
    ensures args in MemoCall(f, cache, args).1
    ensures MemoCall(f, MemoCall(f, cache, args).1, args) == MemoCall(f, cache, args)
  {
  }

  /**
   * The function returned by `memoize(function)`, with the dictionary it
   * closes over. `calls` records each time the wrapped function runs.
   */
  class Memoized<A(==), R(==)> {
    const wrapped: A -> Outcome<R>
    var previousResults: map<A, R>
    ghost var calls: seq<A>

    /**
     * The cache agrees with the function and holds exactly the arguments
     * of the calls that returned, and the function is called twice on the
     * same arguments only when the first call raised.
     */
    ghost predicate Valid()
      reads this
    {
      CacheAgrees(wrapped, previousResults) &&
      (forall a :: a in previousResults ==> a in calls) &&
      (forall i :: 0 <= i < |calls| && wrapped(calls[i]).Returned? ==> calls[i] in previousResults) &&
      (forall i, j :: 0 <= i < j < |calls| && calls[i] == calls[j] ==> wrapped(calls[i]).Raised?)
    }

    /** `memoize(function)`: an empty cache. */
    constructor(wrapped: A -> Outcome<R>)
      ensures Valid()
      ensures this.wrapped == wrapped && previousResults == map[] && calls == []
    {
      this.wrapped := wrapped;
      previousResults := map[];
      calls := [];
    }

    /** `decorator(*args)`. */
    method Call(args: A) returns (r: Outcome<R>)
      requires Valid()
      modifies this
      ensures Valid()
      ensures (r, previousResults) == MemoCall(wrapped, old(previousResults), args)
      ensures calls == old(calls) + (if args in old(previousResults) then [] else [args])
      ensures r == wrapped(args)
    {
      if args in previousResults {
        return Returned(previousResults[args]);
      }
      calls := calls + [args];
      r := wrapped(args);
      if r.Returned? {
        previousResults := previousResults[args := r.value];
      }
      forall i, j | 0 <= i < j < |calls| && calls[i] == calls[j]
        ensures wrapped(calls[i]).Raised?
      {
        if j == |calls| - 1 {
          assert old(calls)[i] == args;
          if wrapped(args).Returned? {
            assert false;
          }
        } else {
          assert old(calls)[i] == calls[i] && old(calls)[j] == calls[j];
        }
      }
    }
  }

  /**
   * What `inspect.getargspec(cls.__init__)` reports, or that it raised
   * `TypeError` (a class whose `__init__` cannot be inspected).
   */
  datatype InitSignature =
    | NotInspectable
    | Signature(positional: seq<string>, variable: Option<string>, keyword: Option<string>)

  /**
   * The check `singleton` makes when it decorates a class: `__init__` must
   * take `self` alone, with no `*args` and no `**kwargs`; one that cannot
   * be inspected is accepted.
   */
  function CheckInit(init: InitSignature): (r: Result<()>)
    ensures r.Err? ==> r.error == TypeError
    ensures init.NotInspectable? ==> r.Ok?
  {
    match init
    case NotInspectable => Ok(())
    case Signature(positional, variable, keyword) =>
      if |positional| != 1 then Err(TypeError)
      else if variable.Some? || keyword.Some? then Err(TypeError)
      else Ok(())
  }

  /** `__init__(self)` is the one inspectable signature accepted. */
  lemma CheckInitAccepts(init: InitSignature)
    ensures CheckInit(init).Ok? <==>
      init.NotInspectable? || (|init.positional| == 1 && init.variable.None? && init.keyword.None?)
  {
  }

  /** The constructors rejected: an extra argument, `*args`, `**kwargs`. */
  lemma CheckInitRejects(self: string, name: string)
    ensures CheckInit(Signature([self, name], None, None)) == Err(TypeError)
    ensures CheckInit(Signature([self], Some(name), None)) == Err(TypeError)
    ensures CheckInit(Signature([self], None, Some(name))) == Err(TypeError)
    ensures CheckInit(Signature([], None, None)) == Err(TypeError)
  {
  }

  /** An object made by calling the decorated class. */
  class Instance {
    const cls: string

    constructor(cls: string)
      ensures this.cls == cls
    {
      this.cls := cls;
    }
  }

  /**
   * `get_instance`, the function `singleton(cls)` returns, with the
   * `instances` table it closes over; `constructed` counts the calls of
   * `cls()`.
   */
  class SingletonFactory {
    const cls: string
    var instances: map<string, Instance>
    ghost var constructed: nat

    /** The table holds at most the decorated class, and `cls()` ran once exactly when it does. */
    ghost predicate Valid()
      reads this
    {
      instances.Keys <= {cls} &&
      constructed == (if cls in instances then 1 else 0) &&
      (cls in instances ==> instances[cls].cls == cls)
    }

    constructor(cls: string)
      ensures Valid()
      ensures this.cls == cls && instances == map[] && constructed == 0
    {
      this.cls := cls;
      instances := map[];
      constructed := 0;
    }

    /** The first call constructs the instance; every later call returns that same object. */
    method GetInstance() returns (obj: Instance)
      requires Valid()
      modifies this
      ensures Valid()
      ensures cls in instances && obj == instances[cls] && obj.cls == cls
      ensures cls in old(instances) ==> obj == old(instances[cls]) && constructed == old(constructed)
      ensures cls !in old(instances) ==> fresh(obj) && constructed == old(constructed) + 1
    {
      if cls !in instances {
        var made := new Instance(cls);
        instances := instances[cls := made];
        constructed := constructed + 1;
      }
      return instances[cls];
    }
  }

  /** `singleton(cls)`: the `__init__` check, then a factory with an empty table. */
  method Singleton(cls: string, init: InitSignature) returns (r: Result<SingletonFactory>)
    ensures r.Err? <==> CheckInit(init).Err?
    ensures r.Err? ==> r.error == TypeError
    ensures r.Ok? ==> fresh(r.value) && r.value.Valid() && r.value.cls == cls && r.value.instances == map[]
  {
    var checked := CheckInit(init);
    if checked.Err? {
      return Err(checked.error);
    }
    var factory := new SingletonFactory(cls);
    return Ok(factory);
  }

  /** Two calls of `get_instance` return the same object, constructed once. */
  method SameInstanceTwice(factory: SingletonFactory) returns (a: Instance, b: Instance)
    requires factory.Valid()
    modifies factory
    ensures a == b && factory.constructed == 1
  {
    a := factory.GetInstance();
    b := factory.GetInstance();
  }
}
