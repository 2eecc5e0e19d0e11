/**
 Registration of the legacy function names. Each name not yet defined is
 bound to a forwarder that fetches the singleton adapter and calls the
 mapped method with the arguments unchanged. The process's function table
 is a map from name to binding; defining a function is inserting a binding.
 */
module Functions {
  import opened Php
  import opened Driver
  import opened ConnectionManager
  import opened MysqliAdapter
  import opened AdapterFactory
  import opened FunctionTable

  /** A forwarder created here, or a function defined by something else. */
  datatype Binding = Forwarder(target: string) | Foreign(id: nat)

  type Bindings = map<string, Binding>

  /** The function table, whether the native `mysql` extension is loaded,
      and the adapter singleton. */
  datatype Registry = Registry(functions: Bindings, extensionLoaded: bool, factory: Factory)

  /** The legacy names of the rows of `ms`. */
  function Names(ms: seq<(string, string)>): set<string>
  {
    set i | 0 <= i < |ms| :: ms[i].0
  }

  /** `createFunction`: defines `name` as a forwarder to `adapterMethod`. */
  function CreateFunction(fs: Bindings, name: string, adapterMethod: string): (r: Bindings)
    ensures name in r && r[name] == Forwarder(adapterMethod)
    ensures forall n :: n != name ==> (n in r <==> n in fs)
    ensures forall n :: n != name && n in fs ==> r[n] == fs[n]
  {
    fs[name := Forwarder(adapterMethod)]
  }

  /** The loop of `register`: each row whose name is not yet a function gets a
      forwarder; rows whose name exists are skipped. A PHP array has no
      duplicate keys, hence the requirement on `ms`. */
  function BindAll(fs: Bindings, ms: seq<(string, string)>): (r: Bindings)
    requires DistinctNames(ms)
    ensures forall n :: n in fs ==> n in r && r[n] == fs[n]
    ensures forall i :: 0 <= i < |ms| ==> ms[i].0 in r
    ensures forall i :: 0 <= i < |ms| && ms[i].0 !in fs ==> r[ms[i].0] == Forwarder(ms[i].1)
    ensures r.Keys <= fs.Keys + Names(ms)
    ensures (forall i :: 0 <= i < |ms| ==> ms[i].0 in fs) ==> r == fs
    decreases |ms|
  {
    if |ms| == 0 then fs
    else
      var name, adapterMethod := ms[0].0, ms[0].1;
      var rest := ms[1..];
      assert forall i :: 1 <= i < |ms| ==> ms[i] == rest[i - 1];
      var fs' := if name in fs then fs else CreateFunction(fs, name, adapterMethod);
      var r := BindAll(fs', rest);
      assert Names(ms) == {name} + Names(rest) by {
        forall n | n in Names(ms) ensures n in {name} + Names(rest) {
          var i :| 0 <= i < |ms| && ms[i].0 == n;
          if i > 0 { assert rest[i - 1].0 == n; }
        }
      }
      r
  }

  /** `register`: nothing when the `mysql` extension is loaded; otherwise the
      adapter is fetched (and created if needed) before the table is bound. */
  function Register(reg: Registry): (r: Registry)
    ensures reg.extensionLoaded ==> r == reg
    ensures r.extensionLoaded == reg.extensionLoaded
    ensures forall n :: n in reg.functions ==> n in r.functions && r.functions[n] == reg.functions[n]
    ensures r.functions.Keys <= reg.functions.Keys + Names(Mappings)
    ensures !reg.extensionLoaded ==>
              && r.factory == GetAdapter(reg.factory).0
              && (forall i :: 0 <= i < |Mappings| ==> Mappings[i].0 in r.functions)
              && (forall i :: 0 <= i < |Mappings| && Mappings[i].0 !in reg.functions ==>
                    r.functions[Mappings[i].0] == Forwarder(Mappings[i].1))
  {
    if reg.extensionLoaded then reg
    else
      var got := GetAdapter(reg.factory);
      MappingsOneToOne();
      Registry(BindAll(reg.functions, Mappings), false, got.0)
  }

  /** A second `register` changes no binding and leaves the singleton alone. */
  lemma RegisterIdempotent(reg: Registry)
    ensures Register(Register(reg)) == Register(reg)
  {
    if !reg.extensionLoaded {
      MappingsOneToOne();
      GetAdapterStable(reg.factory);
    }
  }

  /** One call of the adapter: receiver, method name and arguments. */
  datatype Invocation = Invocation(receiver: Adapter, adapterMethod: string, args: seq<Datum>)

  /** What calling a function by name does. */
  datatype Dispatch =
    | Forwarded(factory: Factory, call: Invocation)  // a forwarder ran
    | External(id: nat)                              // some other definition ran
    | Undefined                                      // PHP stops with "call to undefined function"

  /** Calling `name` with `args`: a forwarder fetches the singleton adapter and
      calls its method with the arguments as given. */
  function CallFunction(reg: Registry, name: string, args: seq<Datum>): (r: Dispatch)
    ensures r.Undefined? <==> name !in reg.functions
    ensures r.External? <==> name in reg.functions && reg.functions[name].Foreign?
    ensures r.External? ==> r.id == reg.functions[name].id
    ensures r.Forwarded? ==>
              && reg.functions[name] == Forwarder(r.call.adapterMethod)
              && r.call.args == args
              && r.factory == GetAdapter(reg.factory).0
              && r.call.receiver == GetAdapter(reg.factory).1
  {
    if name !in reg.functions then Undefined
    else match reg.functions[name]
      case Foreign(id) => External(id)
      case Forwarder(adapterMethod) =>
        var got := GetAdapter(reg.factory);
        Forwarded(got.0, Invocation(got.1, adapterMethod, args))
  }

  /** A forwarded call has run: the singleton now holds the adapter state the
      method left behind, since PHP's adapter is one shared object. */
  function Resume(reg: Registry, next: Adapter): (r: Registry)
    ensures r.functions == reg.functions && r.extensionLoaded == reg.extensionLoaded
    ensures GetAdapter(r.factory) == (r.factory, next)
  {
    reg.(factory := Factory(Some(next)))
  }

  /** Calling a name bound to the `connect` method forwards to it; once that
      `connect` has run on the singleton and its state is written back, the
      link it made current is what the next forwarded call resolves when it
      is given none. */
  lemma ConnectThenForward(reg: Registry, connectName: string, args: seq<Datum>, d: Driver,
                           host: string, user: string, password: string,
                           name: string, args2: seq<Datum>, explicit: Link)
    requires connectName in reg.functions && reg.functions[connectName] == Forwarder("connect")
    requires name in reg.functions && reg.functions[name].Forwarder? && explicit.falsy
    ensures CallFunction(reg, connectName, args).Forwarded?
    ensures CallFunction(reg, connectName, args).call.adapterMethod == "connect"
    ensures var first := CallFunction(reg, connectName, args);
            var made := Connect(first.call.receiver, d, host, user, password, false, 0);
            var next := CallFunction(Resume(reg.(factory := first.factory), made.state), name, args2);
            && next.Forwarded?
            && next.call.receiver == made.state
            && GetConnection(next.call.receiver.manager, explicit) == made.value
  {
  }

  /** After `register` with the extension absent, each table name that was not
      defined before calls its method on the one adapter instance `register`
      created or found, passing the arguments through, and creates nothing. */
  lemma CallAfterRegister(reg: Registry, i: nat, args: seq<Datum>)
    requires !reg.extensionLoaded && i < |Mappings| && Mappings[i].0 !in reg.functions
    ensures var after := Register(reg);
            var d := CallFunction(after, Mappings[i].0, args);
            && d.Forwarded?
            && d.call == Invocation(GetAdapter(reg.factory).1, Mappings[i].1, args)
            && d.factory == after.factory
  {
    GetAdapterStable(reg.factory);
  }

  /** With the extension loaded, `register` defines nothing, so a legacy name
      that was not defined stays undefined. */
  lemma LoadedExtensionDefinesNothing(reg: Registry, name: string)
    requires reg.extensionLoaded && name !in reg.functions
    ensures CallFunction(Register(reg), name, []).Undefined?
  {
  }
}
