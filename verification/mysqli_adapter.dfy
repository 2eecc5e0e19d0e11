/**
 The mysqli adapter: its state (the connection manager, the closing flag and
 the two lazily built lookup tables) and the operations that do more than
 forward to the driver. Each operation returns the adapter's next state, the
 value handed back to the legacy caller, and the driver calls it issued, in
 order, so that "answers false without touching the driver" is a statement
 about that list.
 */
module MysqliAdapter {
  import opened Php
  import opened Driver
  import opened FieldTables
  import opened ConnectionManager

  datatype Adapter = Adapter(manager: Manager, isClosing: bool, typeCache: Table, flagCache: Table)

  datatype Step<+T> = Step(state: Adapter, value: T, calls: seq<Call>)

  /** A new adapter around the given manager: not closing, both caches empty. */
  function NewAdapter(m: Manager): (a: Adapter)
    ensures a.manager == m && !a.isClosing
    ensures a.typeCache == [] && a.flagCache == []
  {
    Adapter(m, false, [], [])
  }

  // ---------------------------------------------------------------------------
  // Link tests
  // ---------------------------------------------------------------------------

  /** `$link instanceof \mysqli && !$link->connect_errno`: the reuse test of `connect`. */
  predicate Connected(l: Link)
  {
    l.isMysqli && l.connectErrno == 0
  }

  /** The test `close` applies before marking the adapter as closing. */
  predicate Closable(l: Link)
  {
    !l.falsy && Connected(l)
  }

  /** The test `affectedRows` applies: also requires host information. */
  predicate Answerable(l: Link)
  {
    Closable(l) && l.hasHostInfo
  }

  /** The test `query` applies: also requires the ping to succeed. */
  predicate Live(l: Link)
  {
    Answerable(l) && l.pingOk
  }

  /** A calls list that contains a query, of any text, on any link. */
  predicate RunsQuery(calls: seq<Call>)
  {
    exists i :: 0 <= i < |calls| && calls[i].RunQuery?
  }

  // ---------------------------------------------------------------------------
  // Connections
  // ---------------------------------------------------------------------------

  /** `connect`: reuse a current link that is a mysqli without connection
      error; otherwise open one from host, user and password (the new-link
      and client-flag arguments are not used), make it current and clear the
      closing flag. */
  function Connect(a: Adapter, d: Driver, host: string, user: string, password: string,
                   newLink: bool, clientFlags: int): (r: Step<Link>)
    ensures Connected(GetCurrentConnection(a.manager)) ==>
              r.value == GetCurrentConnection(a.manager) && r.calls == [] && r.state == a
    ensures !Connected(GetCurrentConnection(a.manager)) ==>
              && r.value == d.connect(host, user, password)
              && r.calls == [Open(host, user, password)]
              && GetCurrentConnection(r.state.manager) == r.value
              && !r.state.isClosing
    ensures r.state.typeCache == a.typeCache && r.state.flagCache == a.flagCache
  {
    var current := GetCurrentConnection(a.manager);
    if Connected(current) then Step(a, current, [])
    else
      var link := d.connect(host, user, password);
      Step(a.(manager := SetCurrentConnection(a.manager, link), isClosing := false),
           link, [Open(host, user, password)])
  }

  const PersistentPrefix: string := "p:"

  /** `pconnect`: always opens a link for the host marked persistent, makes it
      current, and leaves the closing flag as it was. */
  function PConnect(a: Adapter, d: Driver, host: string, user: string, password: string,
                    newLink: bool, clientFlags: int): (r: Step<Link>)
    ensures r.value == d.connect(PersistentPrefix + host, user, password)
    ensures r.calls == [Open(PersistentPrefix + host, user, password)]
    ensures GetCurrentConnection(r.state.manager) == r.value
    ensures r.state.isClosing == a.isClosing
    ensures r.state.typeCache == a.typeCache && r.state.flagCache == a.flagCache
  {
    var link := d.connect(PersistentPrefix + host, user, password);
    Step(a.(manager := SetCurrentConnection(a.manager, link)), link,
         [Open(PersistentPrefix + host, user, password)])
  }

  /** `close`: always reports success and never releases or replaces a link;
      it only marks the adapter as closing, and only when it is not closing
      already and the resolved link is an error-free mysqli. */
  function Close(a: Adapter, link: Link): (r: Step<bool>)
    ensures r.value
    ensures r.calls == []
    ensures r.state.manager == a.manager
    ensures r.state.typeCache == a.typeCache && r.state.flagCache == a.flagCache
    ensures r.state.isClosing <==> a.isClosing || Closable(GetConnection(a.manager, link))
  {
    if a.isClosing then Step(a, true, [])
    else
      var l := GetConnection(a.manager, link);
      if !Closable(l) then Step(a, true, [])
      else Step(a.(isClosing := true), true, [])
  }

  // ---------------------------------------------------------------------------
  // Escaping
  // ---------------------------------------------------------------------------

  /** `escapeString`: uses only the current link; `addslashes` when that link
      is falsy, the driver otherwise. */
  function EscapeString(a: Adapter, d: Driver, text: string): (r: Step<string>)
    ensures r.state == a
    ensures GetCurrentConnection(a.manager).falsy ==> r.value == AddSlashes(text) && r.calls == []
    ensures !GetCurrentConnection(a.manager).falsy ==>
              && r.value == d.realEscape(GetCurrentConnection(a.manager), text)
              && r.calls == [RealEscape(GetCurrentConnection(a.manager), text)]
  {
    var l := GetCurrentConnection(a.manager);
    if l.falsy then Step(a, AddSlashes(text), [])
    else Step(a, d.realEscape(l, text), [RealEscape(l, text)])
  }

  /** `realEscapeString`: resolves the link; `addslashes` when it is falsy, not
      a mysqli, or the adapter is closing, the driver otherwise. */
  function RealEscapeString(a: Adapter, d: Driver, text: string, link: Link): (r: Step<string>)
    ensures r.state == a
    ensures var l := GetConnection(a.manager, link);
            l.falsy || !l.isMysqli || a.isClosing <==> r.calls == []
    ensures r.calls == [] ==> r.value == AddSlashes(text)
    ensures r.calls != [] ==>
              var l := GetConnection(a.manager, link);
              r.value == d.realEscape(l, text) && r.calls == [RealEscape(l, text)]
  {
    var l := GetConnection(a.manager, link);
    if l.falsy || !l.isMysqli || a.isClosing then Step(a, AddSlashes(text), [])
    else Step(a, d.realEscape(l, text), [RealEscape(l, text)])
  }

  // ---------------------------------------------------------------------------
  // Guarded connection operations
  // ---------------------------------------------------------------------------

  /** `query`: answers false, without running the query, unless the resolved
      link is a truthy, error-free mysqli with host information that answers
      a ping. The tests short-circuit: the ping is itself a call, issued
      exactly once and only when the other tests pass, before the query. */
  function Query(a: Adapter, d: Driver, sql: string, link: Link): (r: Step<Reply<Datum>>)
    ensures r.state == a
    ensures var l := GetConnection(a.manager, link);
            Live(l) <==> RunQuery(l, sql) in r.calls
    ensures var l := GetConnection(a.manager, link);
            !Live(l) ==> r.value == False && !RunsQuery(r.calls)
    ensures var l := GetConnection(a.manager, link);
            Live(l) ==> r.value == Value(d.answer(RunQuery(l, sql)))
    ensures var l := GetConnection(a.manager, link);
            forall c :: c in r.calls ==> c == Ping(l) || c == RunQuery(l, sql)
    ensures var l := GetConnection(a.manager, link);
            !Answerable(l) ==> r.calls == []
    ensures var l := GetConnection(a.manager, link);
            Answerable(l) ==> r.calls == [Ping(l)] + (if l.pingOk then [RunQuery(l, sql)] else [])
  {
    var l := GetConnection(a.manager, link);
    if !Answerable(l) then Step(a, False, [])
    else if !l.pingOk then Step(a, False, [Ping(l)])
    else Step(a, Value(d.answer(RunQuery(l, sql))), [Ping(l), RunQuery(l, sql)])
  }

  /** `affectedRows`: the tests of `query` without the ping. */
  function AffectedRows(a: Adapter, d: Driver, link: Link): (r: Step<Reply<Datum>>)
    ensures r.state == a
    ensures var l := GetConnection(a.manager, link);
            !Answerable(l) ==> r.value == False && r.calls == []
    ensures var l := GetConnection(a.manager, link);
            Answerable(l) ==> r.value == Value(d.answer(AffectedRowsOf(l))) && r.calls == [AffectedRowsOf(l)]
  {
    var l := GetConnection(a.manager, link);
    if !Answerable(l) then Step(a, False, [])
    else Step(a, Value(d.answer(AffectedRowsOf(l))), [AffectedRowsOf(l)])
  }

  /** `selectDb`: false for a falsy or non-mysqli link and for an empty name
      ("" or "0"), both without calling the driver; an `Exception` thrown by
      the driver also becomes false. */
  function SelectDb(a: Adapter, d: Driver, db: string, link: Link): (r: Step<bool>)
    ensures r.state == a
    ensures var l := GetConnection(a.manager, link);
            (l.falsy || !l.isMysqli || EmptyString(db)) <==> r.calls == []
    ensures r.calls == [] ==> !r.value
    ensures var l := GetConnection(a.manager, link);
            r.calls != [] ==>
              && r.calls == [Select(l, db)]
              && (r.value <==> d.selectDb(l, db) == Some(true))
  {
    var l := GetConnection(a.manager, link);
    if l.falsy || !l.isMysqli then Step(a, false, [])
    else if EmptyString(db) then Step(a, false, [])
    else
      var ok := match d.selectDb(l, db) case None => false case Some(b) => b;
      Step(a, ok, [Select(l, db)])
  }

  // ---------------------------------------------------------------------------
  // Guarded result operations
  // ---------------------------------------------------------------------------

  /** The result-handle operations that test their handle first. */
  datatype ResultOp =
    | DataSeekOp(offset: int)
    | FetchAssocOp
    | FetchObjectOp(className: string, params: seq<Datum>)
    | FreeResultOp
    | NumFieldsOp
    | NumRowsOp

  /** The driver call each one makes; `fetchObject` drops an empty parameter list. */
  function ResultCall(op: ResultOp, res: ResultHandle): Call
  {
    match op
    case DataSeekOp(offset) => DataSeek(res, offset)
    case FetchAssocOp => FetchAssoc(res)
    case FetchObjectOp(cls, params) => FetchObject(res, cls, if |params| == 0 then None else Some(params))
    case FreeResultOp => FreeResult(res)
    case NumFieldsOp => NumFields(res)
    case NumRowsOp => NumRows(res)
  }

  predicate IsResult(res: ResultHandle)
  {
    !res.falsy && res.isResult
  }

  /** `dataSeek`, `fetchAssoc`, `fetchObject`, `freeResult`, `numFields`,
      `numRows`: false without a driver call unless given a truthy
      `mysqli_result`. */
  function OnResult(a: Adapter, d: Driver, res: ResultHandle, op: ResultOp): (r: Step<Reply<Datum>>)
    ensures r.state == a
    ensures IsResult(res) <==> r.calls != []
    ensures !IsResult(res) ==> r.value == False
    ensures IsResult(res) ==>
              r.calls == [ResultCall(op, res)] && r.value == Value(d.answer(ResultCall(op, res)))
  {
    if !IsResult(res) then Step(a, False, [])
    else Step(a, Value(d.answer(ResultCall(op, res))), [ResultCall(op, res)])
  }

  // ---------------------------------------------------------------------------
  // Field flags and types
  // ---------------------------------------------------------------------------

  /** Each cache is either still empty or holds the table built from the
      driver's constants. */
  predicate CachesBuiltFrom(a: Adapter, d: Driver)
  {
    && (a.flagCache == [] || a.flagCache == InitFlagCache(d.constants))
    && (a.typeCache == [] || a.typeCache == InitTypeCache(d.constants))
  }

  /** `fieldFlags`: builds the flag table on first use, fetches the field's
      bitmask and decodes it. */
  function FieldFlags(a: Adapter, d: Driver, res: ResultHandle, offset: int): (r: Step<string>)
    ensures CachesBuiltFrom(a, d) ==>
              && r.value == DecodeFlags(d.fieldFlags(res, offset), InitFlagCache(d.constants))
              && r.state.flagCache == InitFlagCache(d.constants)
              && CachesBuiltFrom(r.state, d)
    ensures r.state == a.(flagCache := r.state.flagCache)
    ensures r.calls == [FetchFieldDirect(res, offset)]
  {
    var cache := if a.flagCache == [] then InitFlagCache(d.constants) else a.flagCache;
    Step(a.(flagCache := cache), DecodeFlags(d.fieldFlags(res, offset), cache),
         [FetchFieldDirect(res, offset)])
  }

  /** `fieldType`: builds the type table on first use, fetches the field's
      type code and names it, or gives null for an unknown code. */
  function FieldType(a: Adapter, d: Driver, res: ResultHandle, offset: int): (r: Step<Option<string>>)
    ensures CachesBuiltFrom(a, d) ==>
              && r.value == Lookup(InitTypeCache(d.constants), d.fieldType(res, offset))
              && r.state.typeCache == InitTypeCache(d.constants)
              && CachesBuiltFrom(r.state, d)
    ensures r.state == a.(typeCache := r.state.typeCache)
    ensures r.calls == [FetchFieldDirect(res, offset)]
  {
    var cache := if a.typeCache == [] then InitTypeCache(d.constants) else a.typeCache;
    Step(a.(typeCache := cache), Lookup(cache, d.fieldType(res, offset)),
         [FetchFieldDirect(res, offset)])
  }
}
