# mysql2i in Dafny

mysql2i is a PHP compatibility layer. It brings back the removed `mysql_*`
functions and `MYSQL_*` constants on top of the mysqli extension. Most of its
adapter methods just forward a call to the matching `mysqli_*` function. This
project models the parts that have logic of their own and proves properties
about them. The mysqli driver itself stays abstract.

- **Connection state** (`ConnectionManager`, `MysqliAdapter`, `AdapterProperties`):
  - The state is the manager's current-link slot plus the adapter's closing flag.
  - It covers how a link argument is resolved, reuse-if-healthy `connect`, and persistent `pconnect`.
  - It covers `close`, which only sets a flag, and the two escape functions with their `addslashes` fallback.
  - It covers the guards that answer `false` without calling the driver.
  - A link is an abstract value with the five attributes the shim tests: truthiness, being a `mysqli`, `connect_errno`, having `host_info`, and answering a ping.
  - Each adapter operation returns three things: the next adapter state, the value handed to the legacy caller, and the driver calls it made. A statement like "answers false and never runs the query" is then a statement about that list.
- **Field flags and types** (`FieldTables`, `MysqliAdapter.FieldFlags`, `MysqliAdapter.FieldType`):
  - Two tables are built from the mysqli constant list, given as (name, value) pairs: flag bit to flag name, where the first name wins, and type code to type name, where the last name wins.
  - A field's flag bitmask decodes to the legacy string: matching names are space-joined, `PRI_KEY` is renamed `PRIMARY_KEY`, and the result is lower-cased.
  - A type code decodes to its name, or to null.
- **Set-up layers** (`Constants`, `FunctionTable`, `Functions`, `AdapterFactory`, `Mysql2i`):
  - The seven constant aliases are defined only when missing.
  - The 48-entry function table is registered; names that already exist are skipped.
  - The forwarders dispatch to a lazily created adapter singleton.
  - The initializer runs once.
  - The process's constant and function tables are maps.
- **PHP runtime** (`Php`) supplies the functions the shim relies on:
  - `addslashes` and, as its inverse, `stripslashes`;
  - ASCII `strtolower`, `implode` and `str_replace`;
  - `empty()` on strings;
  - `&` on 64-bit integers.

## Model

| member | source | states |
|---|---|---|
| ConnectionManager.Fresh | src/Mysql2i/Core/ConnectionManager.php:15 | a new manager holds no current connection, so resolving a null link gives null |
| ConnectionManager.GetCurrentConnection | src/Mysql2i/Core/ConnectionManager.php:22-25 | returns the stored link, and the manager holds nothing besides it |
| ConnectionManager.CurrentConnectionRoundTrip | src/Mysql2i/Core/ConnectionManager.php:22-53 | writing back the link just read changes nothing, and a call without a link resolves to that link |
| ConnectionManager.SetCurrentConnection | src/Mysql2i/Core/ConnectionManager.php:33-36 | the slot is overwritten with no check, even with a falsy value; the current link afterwards is exactly the one given; a call that passes a truthy link still resolves to that link |
| ConnectionManager.GetConnection | src/Mysql2i/Core/ConnectionManager.php:46-53 | a non-empty explicit link is returned as is; an empty one resolves to the stored current link |
| ConnectionManager.SetThenResolve | src/Mysql2i/Core/ConnectionManager.php:22-53 | after the slot is set, a call without a link resolves to the stored link, whatever was stored before |
| MysqliAdapter.NewAdapter | src/Mysql2i/Adapter/MysqliAdapter.php:22-42 | a new adapter wraps the given manager, is not closing, and has empty flag and type caches |
| MysqliAdapter.Connect | src/Mysql2i/Adapter/MysqliAdapter.php:90-103 | if the current link is a mysqli with no connect error: returns it, opens nothing, changes nothing. Otherwise: opens one link from host, user and password; makes it current; clears the closing flag. The caches are never touched |
| MysqliAdapter.PConnect | src/Mysql2i/Adapter/MysqliAdapter.php:582-589 | always opens a link for "p:" + host with no reuse check and makes it current; the closing flag and caches stay as they were |
| MysqliAdapter.Close | src/Mysql2i/Adapter/MysqliAdapter.php:71-85 | always returns true, calls nothing, and leaves the current link alone. Afterwards the adapter is closing exactly when it already was or the resolved link is a truthy mysqli with no connect error |
| MysqliAdapter.EscapeString | src/Mysql2i/Adapter/MysqliAdapter.php:202-211 | uses the current link only; gives `addslashes` without a driver call when that link is falsy, and one driver escape call on it otherwise |
| MysqliAdapter.RealEscapeString | src/Mysql2i/Adapter/MysqliAdapter.php:619-628 | falls back to `addslashes` with no driver call exactly when the resolved link is falsy or not a mysqli, or the adapter is closing; otherwise it is one driver escape on the resolved link |
| MysqliAdapter.Query | src/Mysql2i/Adapter/MysqliAdapter.php:604-614 | the query reaches the driver exactly when the resolved link is truthy, a mysqli, free of connect errors, has host info and answers the ping; otherwise false; a link failing one of the first four tests gets no call at all, and a link that passes them gets exactly one ping, then the query only if the ping succeeds |
| MysqliAdapter.AffectedRows | src/Mysql2i/Adapter/MysqliAdapter.php:47-56 | the same tests as `query` without the ping: false and no call, or one driver call and its answer |
| MysqliAdapter.SelectDb | src/Mysql2i/Adapter/MysqliAdapter.php:658-675 | no driver call exactly for a falsy or non-mysqli link or an empty name ("" or "0"), and then false; otherwise one select call; a failure, or an `Exception` the driver throws, becomes false |
| MysqliAdapter.OnResult | src/Mysql2i/Adapter/MysqliAdapter.php:125-132 | the result-handle operations call the driver exactly when given a truthy `mysqli_result`, and otherwise answer false; `fetchObject` passes no parameter list when it is empty (lines 258-269) |
| MysqliAdapter.FieldFlags | src/Mysql2i/Adapter/MysqliAdapter.php:286-306 | builds the flag table from the constants on first use, then keeps it; one direct field fetch; the value is the decoded bitmask; nothing but the flag cache changes |
| MysqliAdapter.FieldType | src/Mysql2i/Adapter/MysqliAdapter.php:369-378 | builds the type table on first use, then keeps it; one direct field fetch; the value is the table's name for the code, or null when the code is absent |
| FieldTables.Lookup | src/Mysql2i/Adapter/MysqliAdapter.php:377 | `array_key_exists` followed by a read: absent exactly when the key is not in the table, and otherwise an entry of the table |
| FieldTables.FlagCapture | src/Mysql2i/Adapter/MysqliAdapter.php:394 | a name matches the flag pattern exactly when it ends in "_FLAG" and contains "MYSQLI_" at a position that leaves room for that final "_FLAG"; the capture starts at the leftmost "MYSQLI_" and runs to the final "_FLAG" |
| FieldTables.StandardFlagName | src/Mysql2i/Adapter/MysqliAdapter.php:394 | "MYSQLI_" + x + "_FLAG" captures exactly x |
| FieldTables.TypeCapture | src/Mysql2i/Adapter/MysqliAdapter.php:416 | a name matches the type pattern exactly when it starts with "MYSQLI_TYPE_", and the capture is the rest of the name |
| FieldTables.MatchesBothPatterns | src/Mysql2i/Adapter/MysqliAdapter.php:394-416 | a name matches both the flag and the type pattern exactly when it starts with "MYSQLI_TYPE_" and ends with "_FLAG" |
| FieldTables.FirstWinsKeys | src/Mysql2i/Adapter/MysqliAdapter.php:393-399 | the flag table has one entry per value that occurs among the candidates, and no other entries |
| FieldTables.FirstWinsSpec | src/Mysql2i/Adapter/MysqliAdapter.php:393-399 | each flag entry is the first candidate with its value, and entries come in order of first occurrence |
| FieldTables.Put | src/Mysql2i/Adapter/MysqliAdapter.php:417 | `$t[$k] = $v`: the key then maps to the new value and every other key keeps its lookup |
| FieldTables.FirstFlagName | src/Mysql2i/Adapter/MysqliAdapter.php:393-399 | the reference for the flag table, read off the constant list: none exactly when no flag constant has the value; otherwise the capture of the first flag constant with it |
| FieldTables.LastTypeName | src/Mysql2i/Adapter/MysqliAdapter.php:415-419 | the reference for the type table: none exactly when no type constant has the value; otherwise the capture of the last type constant with it |
| FieldTables.FlagTableMeaning | src/Mysql2i/Adapter/MysqliAdapter.php:393-399 | the first-wins table built from a constant list has one entry per value, and looking up a value gives the first flag constant's name |
| FieldTables.TypeTableMeaning | src/Mysql2i/Adapter/MysqliAdapter.php:415-419 | the last-wins table built from a constant list has one entry per value, and looking up a value gives the last type constant's name |
| FieldTables.InitFlagCache | src/Mysql2i/Adapter/MysqliAdapter.php:385-400 | empty when the mysqli constants are absent; otherwise one entry per value, and each value maps to the capture of the first constant matching the flag pattern with that value |
| FieldTables.InitTypeCache | src/Mysql2i/Adapter/MysqliAdapter.php:407-420 | empty when the mysqli constants are absent; otherwise one entry per value, and each value maps to the capture of the last constant matching the type pattern with that value |
| FieldTables.LastWinsSpec | src/Mysql2i/Adapter/MysqliAdapter.php:415-419 | the type table has one entry per value that occurs, and maps each value to the name of the last candidate with that value |
| FieldTables.FlagNames | src/Mysql2i/Adapter/MysqliAdapter.php:294-299 | the chosen names are exactly the names of table entries whose value shares a bit with the mask |
| FieldTables.FlagNamesAppend | src/Mysql2i/Adapter/MysqliAdapter.php:295-299 | names come in table order, one per matching entry: an entry added at the end adds its name at the end when it shares a bit with the mask, and nothing otherwise |
| FieldTables.FlagNamesFirstConstants | src/Mysql2i/Adapter/MysqliAdapter.php:294-299 | against the table built from a constant list, the chosen names are exactly the first flag constants' names for the values that share a bit with the mask |
| FieldTables.DecodeFlags | src/Mysql2i/Adapter/MysqliAdapter.php:301-305 | the decoded string has no upper-case letter |
| FieldTables.DecodeFlagsByName | src/Mysql2i/Adapter/MysqliAdapter.php:294-305 | renaming and lower-casing the joined string equals joining the legacy spelling of each matching name |
| FieldTables.PrimaryKeyFlag | src/Mysql2i/Adapter/MysqliAdapter.php:302-303 | a set `PRI_KEY` bit shows up as the token "primary_key" |
| AdapterProperties.ConnectTwiceReuses | src/Mysql2i/Adapter/MysqliAdapter.php:90-96 | once `connect` produced a usable link, a second `connect` with any arguments returns the same link, opens nothing and changes nothing |
| AdapterProperties.ConnectIgnoresNewLinkAndFlags | src/Mysql2i/Adapter/MysqliAdapter.php:90-103 | the new-link and client-flag arguments have no effect |
| AdapterProperties.PConnectIgnoresCurrent | src/Mysql2i/Adapter/MysqliAdapter.php:582-589 | `pconnect` opens and returns the same link whatever the adapter held |
| AdapterProperties.CloseIdempotent | src/Mysql2i/Adapter/MysqliAdapter.php:71-85 | a second `close` changes nothing and still returns true |
| AdapterProperties.ClosedAdapterEscapesLocally | src/Mysql2i/Adapter/MysqliAdapter.php:619-628 | once `close` has marked the adapter as closing, `realEscapeString` uses `addslashes` for every link and calls nothing |
| AdapterProperties.ReconnectKeepsLocalEscaping | src/Mysql2i/Adapter/MysqliAdapter.php:71-103 | after `close` and a `connect` that reuses the link, the adapter is still closing, and escaping still uses `addslashes` |
| AdapterProperties.FreshConnectRestoresDriverEscaping | src/Mysql2i/Adapter/MysqliAdapter.php:97-102 | opening a new mysqli link sends escaping to the driver again |
| AdapterProperties.ExplicitLinkIsNotStored | src/Mysql2i/Core/ConnectionManager.php:46-53 | an explicit link given to `query`, `affectedRows`, `selectDb`, `realEscapeString` or `close` steers that call only; a later call without a link still resolves to the previous current link |
| AdapterProperties.QueryGuardIsStricter | src/Mysql2i/Adapter/MysqliAdapter.php:47-56 | whenever `query` reaches the driver, `affectedRows` on the same link does too |
| AdapterProperties.EscapeOperationsAgree | src/Mysql2i/Adapter/MysqliAdapter.php:202-211 | with no current link both escape functions give `addslashes`; with a healthy current link and the adapter not closing they behave identically |
| AdapterProperties.FieldFlagsBuildsTableOnce | src/Mysql2i/Adapter/MysqliAdapter.php:288-290 | after the first `fieldFlags` the table is fixed: later calls change no state and decode against the same table |
| AdapterProperties.FieldTypeBuildsTableOnce | src/Mysql2i/Adapter/MysqliAdapter.php:371-373 | likewise for `fieldType` and the type table |
| AdapterProperties.FieldTypeNamesLastConstant | src/Mysql2i/Adapter/MysqliAdapter.php:369-420 | `fieldType` names a code after the last type constant with that value, and gives null for an unknown code |
| AdapterProperties.FieldFlagsNamesFirstConstants | src/Mysql2i/Adapter/MysqliAdapter.php:286-400 | the names `fieldFlags` decodes are exactly the first flag constants' names for the values that share a bit with the field's bitmask |
| AdapterFactory.CreateAdapter | src/Mysql2i/Core/AdapterFactory.php:26-41 | an existing instance is returned and the slot is untouched; otherwise a new adapter is stored and returned, with no current link, not closing and with empty caches |
| AdapterFactory.AdapterTypeIgnored | src/Mysql2i/Core/AdapterFactory.php:34-38 | every adapter type gives the same result, through the default branch |
| AdapterFactory.GetAdapter | src/Mysql2i/Core/AdapterFactory.php:48-55 | creates an instance only when the slot is empty, and otherwise returns the stored one |
| AdapterFactory.GetAdapterStable | src/Mysql2i/Core/AdapterFactory.php:48-55 | every request after the first returns the same instance and leaves the slot alone |
| FunctionTable.MappingsOneToOne | src/Mysql2i/Compatibility/Functions.php:30-79 | the table has 48 rows; the 48 legacy names are pairwise distinct, and so are the 48 method names |
| Functions.CreateFunction | src/Mysql2i/Compatibility/Functions.php:96-108 | the name becomes a forwarder to the method; every other name keeps its definition or stays undefined |
| Functions.BindAll | src/Mysql2i/Compatibility/Functions.php:82-86 | existing definitions are kept; every name in the table ends up defined; names that were undefined forward to their mapped method; nothing outside the table is added |
| Functions.Register | src/Mysql2i/Compatibility/Functions.php:19-87 | with the `mysql` extension loaded, nothing changes. Otherwise: the adapter singleton is fetched, every table name is defined, names that were undefined forward to their mapped method, and earlier definitions are kept |
| Functions.RegisterIdempotent | src/Mysql2i/Compatibility/Functions.php:82-86 | a second `register` changes no binding and leaves the singleton alone |
| Functions.CallFunction | src/Mysql2i/Compatibility/Functions.php:99-105 | calling an undefined name fails; a foreign definition runs itself, the one bound to the name; a forwarder calls its method on the singleton with the arguments unchanged |
| Functions.Resume | src/Mysql2i/Core/AdapterFactory.php:48-55 | after a forwarded method has run, the singleton holds the adapter state that method left behind; function bindings are unchanged |
| Functions.ConnectThenForward | src/Mysql2i/Compatibility/Functions.php:99-105 | the adapter is shared: when a name bound to the `connect` method is called, `connect` runs on the singleton and its state is written back; the next forwarded call then receives that adapter, and a call without a link resolves to the link `connect` returned |
| Functions.CallAfterRegister | src/Mysql2i/Compatibility/Functions.php:82-105 | after `register`, a table name that was undefined calls its method on the adapter instance `register` fetched, with the arguments unchanged |
| Functions.LoadedExtensionDefinesNothing | src/Mysql2i/Compatibility/Functions.php:22-24 | with the extension loaded, an undefined legacy name stays undefined |
| Constants.Initialize | src/Mysql2i/Core/Constants.php:17-46 | succeeds exactly when every alias has its legacy name or its counterpart defined; existing names keep their values; every name added, with or without an error, is one of the seven legacy names and gets its counterpart's value; the aliases before the first one missing both names are all defined; that alias and every later one whose legacy name was undefined stay undefined; the error names exactly that alias's counterpart |
| Constants.DefineAllAddsCounterparts | src/Mysql2i/Core/Constants.php:19-45 | whether or not the run stops, each name it adds is the legacy name of an alias whose counterpart was defined, and gets that counterpart's value |
| Constants.DefineAllErrorAtFirstMissing | src/Mysql2i/Core/Constants.php:19-45 | the run raises an error exactly when some alias has neither name defined, and then it names the counterpart of the first such alias |
| Constants.DefineAllStopsAtFirstMissing | src/Mysql2i/Core/Constants.php:19-45 | every alias before the first one missing both names ends up defined; from that alias on, no undefined legacy name is defined, because the error ends the run |
| Constants.InitializeStable | src/Mysql2i/Core/Constants.php:17-46 | running `initialize` on its own outcome repeats that outcome, even after an error |
| Constants.InitializeNoop | src/Mysql2i/Core/Constants.php:19-45 | when the seven names are already defined, nothing changes |
| Constants.InitializeDefinesAll | src/Mysql2i/Core/Constants.php:17-46 | with the mysqli constants present, all seven legacy names end up defined |
| Mysql2i.Initialize | src/Mysql2i/Mysql2i.php:28-41 | nothing happens when already initialized. Otherwise constants come first, then functions, then the flag: the flag is set exactly when the constants step succeeds, and on an error functions are not registered. Constants defined before are kept |
| Mysql2i.InitializeIdempotent | src/Mysql2i/Mysql2i.php:28-41 | a second call changes nothing |
| Mysql2i.InitializeTimes | src/Mysql2i/Mysql2i.php:30-32 | zero calls, or any number on an initialized runtime, change nothing; existing constants always keep their values |
| Mysql2i.InitializeRepeatedly | src/Mysql2i/Mysql2i.php:28-41 | n >= 1 calls leave constants, function bindings and the flag exactly as one call does |
| Mysql2i.FirstInitializeDefinesEverything | src/Mysql2i/Mysql2i.php:35-40 | with mysqli present and mysql absent, the first call defines all seven constants and all 48 functions, and sets the flag |

## Left out

- Pure forwarding methods are not modelled, because the driver is abstract and they add nothing beyond "calls the driver". These are `clientEncoding`, `errno`, `error`, `fetchArray`, `fetchRow`, `fetchLengths`, `fieldLen`, `fieldName`, `fieldTable`, `fieldSeek`, the `get*Info` methods, `info`, `insertId`, `listProcesses`, `ping`, `setCharset`, `stat`, `threadId`, `unbufferedQuery` and `dbQuery`.
- `createDb`, `dropDb`, `listDbs`, `listTables` and `listFields` are not modelled, because their results depend on `mysqli_errno` after a real query.
- `result`, `dbName`, `tablename` and `fetchField` are not modelled, because their cursor walking only means something under mysqli's internal cursor rules.
- The driver (`mysqli_connect`, ping, escaping, queries, field metadata) is a set of uninterpreted functions in `Driver.Driver`, so networking and persistent pooling are left out.
- `Driver.Driver.constants` stands in for `get_defined_constants(true)['mysqli']`.
- The regular expressions are written out as prefix and suffix tests. PCRE's `$` also matches before a final newline; this is not modelled, because constant names contain no newline.
- Defining a function with `eval` is modelled as inserting a binding into a map. PHP compares function names case-insensitively; the map compares them exactly, and every name the shim defines is lower-case.
- Strings are sequences of characters; `addslashes`, `strtolower` and `str_replace` act on them one character at a time, as PHP's do on bytes.
- src/bootstrap.php (autoloading) and src/Mysql2i/Adapter/AdapterInterface.php (signatures only) are not part of this model.
- Constants.Initialize: a missing `MYSQLI_*` counterpart is modelled as PHP 8's Error, which ends the call. Earlier PHP versions warned and used the constant's name as its value; that is not modelled.
- Mysql2i.Initialize: the `initialized` flag is true after every call that returns normally. After a call that an undefined `MYSQLI_*` constant aborts, the flag stays false, as the code's order implies.
- Functions.CallFunction: the forwarder's arguments are opaque values. Turning a method name and its arguments into a run of `Connect`, `Query` and the rest is not modelled, nor is the value the method returns. Writing the adapter's next state back into the singleton is a separate step, `Functions.Resume`.
- Driver exceptions and Errors are not modelled; they propagate out of the shim. Examples: `mysqli_connect` throws `mysqli_sql_exception` by default from PHP 8.1, so `connect` then stores no link. `ping` and `mysqli_query` can throw in that mode, and the `@` before them does not stop an exception. `mysqli_real_escape_string` raises a TypeError on a truthy non-mysqli link.
- MysqliAdapter.SelectDb: only an `Exception` from `mysqli_select_db` is caught and becomes false. An `Error`, for example on a link already closed by user code, propagates; this is not modelled.
- Driver.Driver: `connect` is a function of host, user and password. Two opens with the same arguments return the same link, whereas PHP opens a new session each time; a retry after a failed link gets the same failed link back.
- AdapterProperties.PConnectIgnoresCurrent: its statement about the returned link holds because `Driver.Driver.connect` is deterministic. The statement about the calls made does not depend on that.
- MysqliAdapter.FieldFlags and MysqliAdapter.FieldType: their decoding ensures assume each cache is either empty or built from the same constant list. A cache filled from a different list is not described.
