/**
 The mysqli driver as the shim sees it. Links and result handles are
 abstract values described only by the attributes the shim inspects; every
 driver primitive is an uninterpreted total function held in a `Driver`
 record, and the calls the shim issues are recorded as `Call` values.
 */
module Driver {
  import opened Php

  /** A value passed or stored where a connection is expected: `id`
      distinguishes sessions; the other fields are what the shim tests. */
  datatype Link = Link(
    id: nat,
    falsy: bool,          // PHP truthiness: null, false, 0, "" ...
    isMysqli: bool,       // `instanceof \mysqli`
    connectErrno: int,    // `->connect_errno`
    hasHostInfo: bool,    // `isset(->host_info)`
    pingOk: bool)         // `->ping()` succeeds

  /** PHP `null` in a link position: no link given, or none stored. */
  const NullLink: Link := Link(0, true, false, 0, false, false)

  /** A value passed where a result set is expected. */
  datatype ResultHandle = ResultHandle(id: nat, falsy: bool, isResult: bool)

  /** An opaque PHP value: a driver answer or a forwarded argument. */
  datatype Datum = Datum(id: int)

  /** One call into the driver. */
  datatype Call =
    | Open(host: string, user: string, password: string)
    | Ping(link: Link)
    | RunQuery(link: Link, sql: string)
    | AffectedRowsOf(link: Link)
    | Select(link: Link, db: string)
    | RealEscape(link: Link, text: string)
    | FetchFieldDirect(result: ResultHandle, offset: int)
    | DataSeek(result: ResultHandle, offset: int)
    | FetchAssoc(result: ResultHandle)
    | FetchObject(result: ResultHandle, className: string, params: Option<seq<Datum>>)
    | FreeResult(result: ResultHandle)
    | NumFields(result: ResultHandle)
    | NumRows(result: ResultHandle)

  /** The driver's behaviour, left uninterpreted. `selectDb` yields `None`
      when `mysqli_select_db` throws an `Exception`; `constants` is the "mysqli" group of
      `get_defined_constants(true)`, `None` when the extension is not loaded. */
  datatype Driver = Driver(
    connect: (string, string, string) -> Link,
    realEscape: (Link, string) -> string,
    answer: Call -> Datum,
    selectDb: (Link, string) -> Option<bool>,
    fieldFlags: (ResultHandle, int) -> int,
    fieldType: (ResultHandle, int) -> int,
    constants: Option<seq<(string, int)>>)
}
