# openvpn-notifier: the client-roster controller in Dafny

This project models the core of `openvpn-notifier`, the part of the program
that watches an OpenVPN management interface. On every tick it asks the
server for its `status` output, reads the response up to the `END` line and
parses the `CLIENT_LIST` lines into a roster (client name to client record).
It then either

- counts a failed poll, and sends one alert when three failures in a row are
  reached, or
- compares the new roster with the stored one, reports every client that
  disconnected (with its old record) and every client that connected (with
  its new record), and stores the new roster.

The model is split into five modules, one file each:

| file | module | what it holds |
|---|---|---|
| `wrappers.dfy` | `Wrappers` | `Option` and `Result` |
| `text.dfy` | `Text` | the Rust string operations the parser uses: `split` on one character, `trim`, `ends_with`, `u16`/`i64` to text, `i64::from_str`, and the syntax `f64::from_str` accepts |
| `status.dfy` | `Status` | the `Client` record, `parse_client`, `parse_status_output`, and a writer of status lines used to state the round trip |
| `response.dfy` | `Response` | the read loop of `get_new_clients`, as written and with the end of the stream handled |
| `controller.dfy` | `Controller` | the failure counter and alert, the roster diff, and the `TcpController` class with `new` and `update_connected_clients` |

How the model maps the program:

- **State in place.** `TcpController` is a class. `clients` and
  `failedCalls` are fields that the methods update. The dispatcher is a ghost
  log `events` that every notification call appends to.
- **Map iteration order.** A `HashMap`'s iteration order is unspecified. The
  two loops of a successful tick take their next name with a
  nondeterministic choice (`:|`) from the names not yet visited. Properties
  are therefore stated as sets, as "no duplicates", and as multisets.
- **Panics.** Where the Rust code panics, the parser returns `Err`. That
  happens on an index past the last field, or on an `unwrap` of a failed
  `i64` or `f64` parse. A poll whose response holds such a line ends in
  `Aborted`, and `UpdateConnectedClients` then returns `aborted` and changes
  nothing. This is not a failed poll: the panic ends the process.
- **Malformed client lines.** `parse_client` panics on a malformed client
  line and the process exits; the model follows the code and does not count
  such a poll as failed.
- **Byte counters.** They are kept as the text of their fields. The model
  checks that text against the grammar `f64::from_str` accepts but never
  turns it into a number.
- **The network.** The connection is an input. `None` means connecting or
  writing the command failed. `Some(lines)` means the server sent these lines
  and then closed the stream.

## Model

| member | source | states |
|---|---|---|
| Text.Split | src/openvpn/mod.rs:105 | `split` on one character gives at least one piece, no piece holds the separator, and joining the pieces with the separator gives back the text |
| Text.SplitJoin | src/openvpn/mod.rs:120-121 | splitting a join of separator-free pieces gives back exactly those pieces |
| Text.HostPart | src/openvpn/mod.rs:123 | the first `:`-separated piece is a prefix of the field with no colon, and it is followed by a colon whenever it is shorter than the field |
| Text.HostPartOf | src/openvpn/mod.rs:123 | for `host:rest` with a colon-free host, the first piece is `host` |
| Text.TrimEndRemovesTrailingWhitespace | src/openvpn/mod.rs:97 | `trim_end` keeps a prefix that does not end in whitespace and removes only whitespace |
| Text.TrimStartRemovesLeadingWhitespace | src/openvpn/mod.rs:97 | `trim_start` keeps a suffix that does not start with whitespace and removes only whitespace |
| Text.DecimalString | src/openvpn/mod.rs:78 | the port's `to_string` is a non-empty run of digits with no leading zero |
| Text.DecimalStringValue | src/openvpn/mod.rs:78 | the digits of `DecimalString(n)` read back as `n` |
| Text.ParseI64 | src/openvpn/mod.rs:124 | `parse::<i64>` succeeds only on an optional sign followed by one or more digits, with the value inside the `i64` range |
| Text.IntStringRoundTrip | src/openvpn/mod.rs:124 | every `i64` written in decimal parses back to itself |
| Status.ParseClient | src/openvpn/mod.rs:119-135 | a parsed record has a tab-free name, an address with no colon and no tab, and a start time inside the `i64` range |
| Status.ParseClientFields | src/openvpn/mod.rs:119-126 | `parse_client` succeeds exactly when there are at least nine fields, field 8 is an `i64`, and fields 5 and 6 are floats. The name is field 1, the address is field 2 cut at its first colon, the start time is field 8 and the counters are fields 5 and 6. A short line fails at the first of the indices 1, 2 and 8 it lacks |
| Status.ParseStatusLine | src/openvpn/mod.rs:119-135 | the line a server writes for a record parses back to that record |
| Status.CollectClients | src/openvpn/mod.rs:104-117 | a successfully parsed roster files every record under its own name and has no `UNDEF` key |
| Status.ParseStatusOutput | src/openvpn/mod.rs:104-117 | the loop over the response's lines builds the same result as the fold `CollectClients` over `split('\n')` |
| Status.CollectErrorSticks | src/openvpn/mod.rs:109-110 | once a tagged line fails to parse, the whole parse fails with that line's error |
| Status.CollectFails | src/openvpn/mod.rs:109-110 | the parse fails if and only if some line starting with `CLIENT_LIST` fails `parse_client` |
| Status.CollectOnlyTagged | src/openvpn/mod.rs:109 | removing every line that does not start with `CLIENT_LIST` does not change the result |
| Status.CollectStep | src/openvpn/mod.rs:107-113 | a successful parse is the parse of all lines but the last, with the last line's record inserted under its name if it has one |
| Status.CollectKeepsRecord | src/openvpn/mod.rs:111-112 | the name of every tagged, parsable, non-`UNDEF` line is a key of the roster |
| Status.CollectLastWins | src/openvpn/mod.rs:112 | the roster stores, under a name, the record of the last line that carries that name |
| Status.CollectKeyHasLine | src/openvpn/mod.rs:107-113 | every record in the roster comes from some line of the response |
| Status.CollectStatusLines | src/openvpn/mod.rs:104-117 | the status lines written for a sequence of records parse to the roster of those records, later duplicates winning |
| Status.StatusOutputRoundTrip | src/openvpn/mod.rs:104-135 | a complete response (an untagged header, one line per record, `END`), joined with newlines and parsed, gives the roster of the records |
| Response.CompleteAfterEndLine | src/openvpn/mod.rs:97 | a buffer whose last line is `END` followed by any whitespace line ending passes the loop's exit test |
| Response.AsWrittenAfterHolds | src/openvpn/mod.rs:96-99 | after `k` turns of the loop as written, the buffer holds the first `k` lines, or all of them once the stream is closed |
| Response.AsWrittenNeverExits | src/openvpn/mod.rs:96-99 | when no prefix of the server's lines is complete, the loop as written never exits, and every turn after the stream closes leaves it unchanged |
| Response.AsWrittenSpinsOnClosedStream | src/openvpn/mod.rs:96-99 | a server that closes the connection without sending anything keeps the loop as written spinning on an empty buffer |
| Response.LinesRead | src/openvpn/mod.rs:96-99 | the read consumes exactly the shortest complete run of lines, or reports `None` when no run is complete before the stream ends |
| Response.AsWrittenAgrees | src/openvpn/mod.rs:96-99 | whenever the loop as written exits, it exits after exactly the lines the corrected loop reads, with the same buffer, and not earlier |
| Response.ReadResponse | src/openvpn/mod.rs:96-99 | the corrected loop returns the shortest complete run of lines, or `None` (a failed poll) when the stream closes before `END` |
| Controller.StreakAlertsOnce | src/openvpn/mod.rs:42-52 | a run of consecutive failures alerts exactly once, at the failure that brings the count to 3, and never if the count was already past 3 |
| Controller.FailedCallsGrow | src/openvpn/mod.rs:43 | over a run of failures the counter grows by exactly one per failure |
| Controller.NoRealertWithoutSuccess | src/openvpn/mod.rs:38-52 | after an alert, no later poll alerts again unless a success comes in between |
| Controller.RearmedAfterSuccess | src/openvpn/mod.rs:38-40 | after a success, a new run of `k` failures alerts once if `k` reaches 3 and not at all otherwise |
| Controller.DisconnectEventOf | src/openvpn/mod.rs:54-59 | a disconnection report names a stored client missing from the new roster and carries its old record |
| Controller.ConnectEventOf | src/openvpn/mod.rs:61-66 | a connection report names a new client missing from the stored roster and carries its new record |
| Controller.DisconnectStep | src/openvpn/mod.rs:54-59 | visiting one more stored name reports it once if it vanished, and keeps the report free of duplicates |
| Controller.ConnectStep | src/openvpn/mod.rs:61-66 | visiting one more new name reports it once if it appeared, and keeps the report free of duplicates |
| Controller.Vanished | src/openvpn/mod.rs:54-59 | the first loop, in any visiting order, reports every vanished name exactly once with its old record, and nothing else |
| Controller.Appeared | src/openvpn/mod.rs:61-66 | the second loop, in any visiting order, reports every new name exactly once with its new record, and nothing else |
| Controller.PassesReconcile | src/openvpn/mod.rs:54-66 | the two loops' reports, one after the other, are a reconciliation: all disconnections first, then all connections, no duplicates |
| Controller.ReconciliationEventAt | src/openvpn/mod.rs:54-66 | in a reconciliation, the events before the split point are disconnections of vanished names and the ones after it are connections of new names |
| Controller.ReconciliationKindAt | src/openvpn/mod.rs:54-66 | an event of a reconciliation is a disconnection exactly when it sits before the split point |
| Controller.ReconciliationNames | src/openvpn/mod.rs:54-66 | the disconnected names are exactly the old keys minus the new ones, and the connected names exactly the new keys minus the old ones |
| Controller.DisconnectedNamesExact | src/openvpn/mod.rs:54-59 | the disconnected names are exactly the old keys minus the new ones |
| Controller.ConnectedNamesExact | src/openvpn/mod.rs:61-66 | the connected names are exactly the new keys minus the old ones |
| Controller.ConnectedNameReported | src/openvpn/mod.rs:61-66 | every name that appeared is connected somewhere in the tick |
| Controller.ReconciliationSilent | src/openvpn/mod.rs:54-66 | no event names a client present in both rosters or `UNDEF`, and equal key sets produce no event |
| Controller.ReconciliationUpToOrder | src/openvpn/mod.rs:54-66 | any two ticks for the same rosters send the same disconnections and the same connections, each group a permutation of the other |
| Controller.FirstClientConnects | src/openvpn/mod.rs:61-66 | from an empty roster, one new client gives exactly one connection carrying its record |
| Controller.LastClientDisconnects | src/openvpn/mod.rs:54-59 | a client missing from an empty new roster gives exactly one disconnection carrying its old record |
| Controller.GetNewClients | src/openvpn/mod.rs:91-102 | with the corrected read loop, a poll fails when connecting fails or the stream closes before `END`, aborts on a malformed client line, and otherwise yields the parsed, well-formed roster |
| Controller.TcpController.constructor | src/openvpn/mod.rs:83-88 | the controller starts with the connection string `address:port`, the given roster, no failures and no events |
| Controller.TcpController.Start | src/openvpn/mod.rs:72-89 | `new` yields a controller exactly when the first poll (with the corrected read loop) yields a roster, seeded with that roster, `failedCalls = 0` and no events |
| Controller.TcpController.Reconcile | src/openvpn/mod.rs:36-69 | a failure adds one to the counter, keeps the roster and sends only the alert at exactly 3. A success resets the counter, appends a reconciliation of the old and new rosters to the log and stores the new roster |
| Controller.TcpController.UpdateConnectedClients | src/openvpn/mod.rs:35-70 | a tick aborts, changing nothing, exactly when the response holds a malformed client line. Otherwise it counts a failure or reconciles, as `Reconcile` states. The poll uses the corrected read loop |

## Left out

- Status.ParseClient: does not model the panic in `Local.timestamp` (mod.rs:138) for an `i64` start time outside chrono's date range. Such a line is accepted by the model, although the program would panic.
- Local-time conversion and the `duration` field (mod.rs:137-146) are left out: they depend on the time zone and the wall clock. Records keep only the integer start time.
- Byte counters are never turned into `f64` values (mod.rs:125-126): floating point is out of scope. Only their syntax is checked.
- Controller.TcpController.Reconcile: `failedCalls` is unbounded, so the `usize` overflow of `failed_calls += 1` (mod.rs:43) is not modelled. It would take 2^64 failed polls in a row.
- Controller.GetNewClients: a read error, where `expect` panics at mod.rs:98, is not modelled. The connection input only says whether connecting and writing succeeded, and which lines arrived before the stream closed.
- Controller.GetNewClients: uses the corrected read loop of the Findings row (mod.rs:96-99). On a stream closed before `END` it reports a failed poll where the program hangs. `Response.AsWrittenAgrees` shows that the two agree whenever the program's loop exits.
- Controller.TcpController.Start: uses the corrected read loop of the Findings row (mod.rs:96-99). On a stream closed before `END` it returns `None` where the program hangs in `new`. `Response.AsWrittenAgrees` shows that the two agree whenever the program's loop exits.
- Controller.TcpController.UpdateConnectedClients: uses the corrected read loop of the Findings row (mod.rs:96-99). On a stream closed before `END` it counts a failed poll where the program hangs. `Response.AsWrittenAgrees` shows that the two agree whenever the program's loop exits.
- TCP itself (connect, write, buffered reads at mod.rs:92-94) is left out as I/O. It is represented by the connection input.
- The diagnostic `eprintln!` at mod.rs:44-47 is left out: it has no effect on state.
- The notification sink (src/dispatcher/mod.rs), which formats messages and delivers them over HTTP, is not part of this model. Its calls are the ghost event log.
- Configuration parsing (src/conf/mod.rs) and the main loop with its sleep (src/main.rs) are not part of this model.
- Each loop's notification calls are collected in a sequence that `Reconcile` appends to the log. The order of the log is the same as the program's, but the dispatcher is not called one step at a time.

## Findings

| source | as written | input that shows it | evidently intended | confidence | as-written member | corrected member |
|---|---|---|---|---|---|---|
| src/openvpn/mod.rs:96-99 | the loop calls `read_line` until the trimmed buffer ends with `END`; at end of stream `read_line` returns `Ok(0)` and appends nothing, so the loop never exits | a server that accepts the connection and closes it without sending `END` (for example, sending nothing: incoming lines `[]`) | stop at end of stream and report a failed poll, like any other connection failure | high; not executed | Response.AsWrittenSpinsOnClosedStream | Response.ReadResponse |
