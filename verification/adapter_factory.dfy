/**
 The adapter factory: a process-wide slot holding at most one adapter,
 filled on first request.
 */
module AdapterFactory {
  import opened Php
  import opened Driver
  import opened ConnectionManager
  import opened MysqliAdapter

  datatype Factory = Factory(instance: Option<Adapter>)

  /** `createAdapter`: the existing instance whenever there is one; otherwise
      a new mysqli adapter around a new connection manager, whatever type was
      asked for (every type falls to the default branch). */
  function CreateAdapter(f: Factory, adapterType: string): (r: (Factory, Adapter))
    ensures r.0.instance == Some(r.1)
    ensures f.instance.Some? ==> r == (f, f.instance.value)
    ensures f.instance.None? ==>
              && GetCurrentConnection(r.1.manager) == NullLink
              && !r.1.isClosing
              && r.1.flagCache == [] && r.1.typeCache == []
  {
    if f.instance.Some? then (f, f.instance.value)
    else
      var a := NewAdapter(Fresh());
      (Factory(Some(a)), a)
  }

  /** `getAdapter`: creates the instance only when there is none. */
  function GetAdapter(f: Factory): (r: (Factory, Adapter))
    ensures r.0.instance == Some(r.1)
    ensures f.instance.Some? ==> r == (f, f.instance.value)
    ensures f.instance.None? ==> r == CreateAdapter(f, "mysqli")
  {
    if f.instance.None? then CreateAdapter(f, "mysqli") else (f, f.instance.value)
  }

  /** The adapter type argument never matters. */
  lemma AdapterTypeIgnored(f: Factory, t1: string, t2: string)
    ensures CreateAdapter(f, t1) == CreateAdapter(f, t2)
  {
  }

  /** Every request after the first returns the same instance and leaves the slot alone. */
  lemma GetAdapterStable(f: Factory)
    ensures GetAdapter(GetAdapter(f).0) == GetAdapter(f)
  {
  }
}
