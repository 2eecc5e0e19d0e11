/**
 The library entry point: a run-once initializer that defines the legacy
 constants and then registers the legacy functions.
 */
module Mysql2i {
  import opened Php
  import opened Constants
  import opened FunctionTable
  import opened Functions

  /** Process-wide state the initializer touches: the constant table, the
      function registry, and the `initialized` flag. */
  datatype Runtime = Runtime(constants: Symbols, registry: Registry, initialized: bool)

  /** `initialize`: nothing when already initialized; otherwise constants, then
      functions, then the flag. An Error from the constants step ends the call
      before the functions are registered and before the flag is set. */
  function Initialize(rt: Runtime): (r: Completion<Runtime>)
    ensures rt.initialized ==> r == Completion(rt, None)
    ensures !rt.initialized ==> r.state.constants == Constants.Initialize(rt.constants).state
    ensures !rt.initialized ==> r.error == Constants.Initialize(rt.constants).error
    ensures r.error.None? <==> r.state.initialized
    ensures r.error.Some? ==> r.state.registry == rt.registry
    ensures !rt.initialized && r.error.None? ==> r.state.registry == Register(rt.registry)
    ensures forall n :: n in rt.constants ==> n in r.state.constants && r.state.constants[n] == rt.constants[n]
  {
    if rt.initialized then Completion(rt, None)
    else
      var c := Constants.Initialize(rt.constants);
      if c.error.Some? then Completion(rt.(constants := c.state), c.error)
      else Completion(Runtime(c.state, Register(rt.registry), true), None)
  }

  /** A second call repeats the first one's outcome and changes nothing more. */
  lemma InitializeIdempotent(rt: Runtime)
    ensures Initialize(Initialize(rt).state) == Initialize(rt)
  {
    InitializeStable(rt.constants);
  }

  /** The state after `n` calls in a row, each on the state the last one left. */
  function InitializeTimes(rt: Runtime, n: nat): (r: Runtime)
    ensures n == 0 || rt.initialized ==> r == rt
    ensures forall c :: c in rt.constants ==> c in r.constants && r.constants[c] == rt.constants[c]
    decreases n
  {
    if n == 0 then rt else InitializeTimes(Initialize(rt).state, n - 1)
  }

  /** Any number of calls, at least one, leaves constants, function bindings
      and the flag exactly as one call does. */
  lemma {:induction false} InitializeRepeatedly(rt: Runtime, n: nat)
    requires n >= 1
    ensures InitializeTimes(rt, n) == Initialize(rt).state
    decreases n
  {
    if n > 1 {
      InitializeIdempotent(rt);
      InitializeRepeatedly(Initialize(rt).state, n - 1);
    }
  }

  /** On a fresh process with the mysqli constants present and the `mysql`
      extension absent, one call defines all seven constants and every legacy
      function. */
  lemma FirstInitializeDefinesEverything(rt: Runtime)
    requires !rt.initialized && !rt.registry.extensionLoaded
    requires forall i :: 0 <= i < |Aliases| ==> Aliases[i].1 in rt.constants
    ensures var r := Initialize(rt);
            && r.error.None? && r.state.initialized
            && (forall i :: 0 <= i < |Aliases| ==> Aliases[i].0 in r.state.constants)
            && (forall i :: 0 <= i < |Mappings| ==> Mappings[i].0 in r.state.registry.functions)
  {
    InitializeDefinesAll(rt.constants);
  }
}
