# trance: a verified model of the relay's bookkeeping

trance is a small TCP relay written in C++ (`trance.cpp`). It listens on a
port, and for every accepted downstream connection it opens an upstream
connection to a fixed remote host. Whatever arrives on one side it forwards to
the other, and it prints a coloured trace of each chunk. This project models the part of the relay
that makes decisions and keeps state once the system calls are replaced by their results:

- **`Relay`** (`relay.dfy`): class `Trance` with the fields `_master` (tracked
  descriptors), `_cur` (the ready set of the last poll), `_maxfd`, `_fd_map`
  (the partner of each descriptor), `_client_fd_map` (marks upstream
  descriptors with 1) and the 1025-byte buffer `_buf`. It covers `add_fd`,
  `remove_fd`, `poll` (with the ready set given), `receive`, `send`, one
  dispatch of `process` for a ready descriptor (`Dispatch`, split into the
  listener branch `Accept` and the data branch `Forward`), and one pass of
  process's `for` loop (`Cycle`). `is_fd_set`, `has_fd`, `max_fd` and
  `Server::is_listener` are the read-only functions `IsFdSet`, `HasFd`, `MaxFd`
  and `IsListener`. `Dispatched` and `Replay` state one dispatch and a whole
  pass on values (`Books`: the fields a dispatch reads and writes), and
  `Dispatch` and `Cycle` are proved to do exactly that. `std::map::operator[]` is `Subscript`, which inserts the
  key with value 0 when it is missing, as the C++ operator does. The pairing
  invariant (`Symmetric`: every tracked descriptor but the listener has a
  distinct tracked partner that points back) is proved to be kept by a teardown, by the
  registration of a fresh pair, and by a whole pass.
- **`Transfer`** (`transfer.dfy`): the partial-write loop of `Trance::send` as a
  function of the results of the successive `::send` calls. `Trance.Send` is
  the imperative loop, proved equal to that function.
- **`Trace`** (`trace.dfy`): `trace_client` / `trace_server`. `cout << buf`
  prints the buffer up to its first NUL (`CString`). It comes with a reader
  (`Untrace`) that recovers the direction and the payload from a trace block.
- **`Cli`** (`cli.dfy`): `main`'s option and argument handling. `atoi` is
  modelled as: skip white space, read an optional sign, read the longest run of
  digits. `strchr(host, ':')` followed by `*p = 0` is a split at the first ':'.
  `Decide` returns either the usage exit status or the parameters the relay is
  started with.
- **`Outcomes`** (`outcomes.dfy`): an `Option` datatype.

The C buffers and strings are `seq<char>`, one `char` per C byte.

The system calls are inputs to the model:

- An `Event` carries, for one ready descriptor:
  - the raw `::accept` result;
  - the `Client::connect` result (`None` when it throws);
  - what `::recv` stored;
  - the results of the successive `::send` calls.
- `WellFormed` states what those calls are allowed to report: `::recv` never
  stores more than it was asked for, and `::send` never reports more than it
  was offered.

## Behaviour as written

The model reproduces the code, including these behaviours:

- **The send offset is the last result, not a running total.** After a partial
  write, the next call is offered the buffer from the last call's count. The loop
  ends successfully only when a single call reports at least `size` bytes.
  - `Transfer.SendResendsTail`: after a partial write of `p` bytes and a full
    write of the remaining `n - p`, the next call is offered the last `p` bytes
    again.
  - `Transfer.SendDelivery`: the bytes the calls accepted are exactly the
    buffer only when every call before the last one reported 0.
  - With `size == 0` the loop is not entered and `send` falls off its end
    without a return value (`NoReturnValue`).
- **A failed accept is paired anyway.** `Server::accept` returns 0 when
  `::accept` fails, and `process` pairs that 0 like a real descriptor.
  `Relay.TwoFailedAccepts` shows that two failed accepts in a row break the
  pairing: the first upstream descriptor still points at 0, but 0 now points at
  the second one.
- **A failed read still sends and traces.** On a read error or an orderly
  close, `receive` untracks the descriptor and its partner and leaves their
  `_fd_map` entries in place. After that teardown `process` still calls `send`
  with size 0 and still prints a trace of the buffer's old contents.
- **`send`'s result is ignored.** `process` discards what `send` returns.
  So a write that fails, or whose calls accept nothing, never tears the pair
  down. In `Relay.Trance.Forward` the tracked set is unchanged whenever the
  read returned data.
- **Upstream data is traced as client data.** `_client_fd_map` marks the
  descriptors returned by `connect`. So data read from the remote side is
  traced with `trace_client`, in red, and data from the accepted side with
  `trace_server`.
- **A connect that throws ends the whole relay.** The exception leaves the
  pass and `process()` (`ConnectThrew`), not just that one connection.
- **Each `-c` decrements the colour flag.** The flag is an int starting at 1,
  and any nonzero value means colour is on. So colour is off only when `-c` is
  given exactly once.
- **A coloured server trace opens with `<[`,** the same as a client trace.
  Only the colour differs. Plain traces use `<[` and `>[`.

## Model

| member | source | states |
|---|---|---|
| Relay.Trance.constructor | trance.cpp:147-155 | only the listener is tracked, `_maxfd` is the listener, both maps are empty, and the pairing invariant holds |
| Relay.Trance.AddFd | trance.cpp:161-166 | fd becomes tracked; `_maxfd` becomes fd if fd is larger and otherwise stays; all other fields are unchanged |
| Relay.Trance.RemoveFd | trance.cpp:168-170 | only fd stops being tracked; `_maxfd`, the ready set and both maps are unchanged |
| Relay.Trance.Poll | trance.cpp:225-230 | the ready set is the tracked descriptors that are readable; nothing else changes |
| Relay.Subscript | trance.cpp:252-253 | `operator[]` returns the stored value and keeps the map, or returns 0 and inserts the key with 0 when it is missing |
| Relay.Trance.Receive | trance.cpp:188-207 | on -1 or 0: returns 0 and applies `Teardown`: untracks fd and `_fd_map[fd]`, and leaves `_fd_map` unchanged when fd was in it; otherwise: returns the count, at most 1024, with the bytes in the buffer and a NUL after them; pairs stay symmetric |
| Relay.Trance.Send | trance.cpp:209-223 | the outcome and the bytes the calls accepted are those of `Transfer.SendRun` on the buffer's first `size` bytes; the calls are made on the fd it is given |
| Relay.Trance.Accept | trance.cpp:239-249 | the accept result (0 on failure) and the connect result point at each other in `_fd_map`; the upstream one is marked 1 in `_client_fd_map`; both are tracked; `_maxfd` grows to cover them; a connect that throws changes nothing |
| Relay.Trance.Forward | trance.cpp:250-259 | the trace is `trace_client` exactly when `_client_fd_map[i] == 1`, else `trace_server`, of the bytes read (or of the old buffer when nothing was read); the bytes go to `_fd_map[i]`, the partner; what was sent is `SendRun` of the bytes read; `_buf[0]` is NUL afterwards; a failed read tears the pair down |
| Relay.Trance.Dispatch | trance.cpp:238-259 | one ready descriptor: the listener branch or the data branch, with each branch's full effect on the fields and the buffer, and the data sent to `_fd_map[i]`; the new fields and the step are exactly `Dispatched` of the old fields |
| Relay.DispatchedAnswers | trance.cpp:238-259 | whatever the bookkeeping, a dispatch logs the step its call results call for: the accepted pair or the thrown connect on the listener, otherwise the count read and the `SendRun` of those bytes |
| Relay.Trance.Sweep | trance.cpp:237-261 | the loop: descriptors are visited in increasing order up to the growing `_maxfd`, each ready one dispatched and logged, until a connect throws, so a thrown pass has logged every ready descriptor below the listener; the snapshots chain the dispatches from the old fields to the new ones |
| Relay.Trance.Cycle | trance.cpp:237-261 | every ready descriptor is dispatched once, in increasing order, until a connect throws; a thrown pass still covers every ready descriptor below the listener. The bookkeeping before the pass and after each entry form a chain (`Chained`): each entry, its destination `_fd_map[i]` and its trace included, is `Dispatched` from the bookkeeping the previous entry left, starting from the old fields and ending at the new ones. Each entry also answers its call results (`Answers`). The pairing invariant survives the pass when the pairs were symmetric and a new pair is fresh |
| Relay.ChainedIsReplay | trance.cpp:237-261 | a chain is the left-to-right replay (`Replay`) of its descriptors from its first bookkeeping, so the state a pass leaves and its log are determined by the fields it started from and the call results |
| Relay.ReplayAnswers | trance.cpp:237-261 | every entry of a replayed pass is the step its call results call for |
| Relay.ChainedAnswers | trance.cpp:237-261 | every entry of a chained pass is the step its call results call for |
| Relay.ChainedExtend | trance.cpp:237-238 | one more dispatch from a chain's last bookkeeping extends the chain |
| Relay.PassShape | trance.cpp:237-261 | a finished pass's log lies in the ready set and is ascending; only its last entry can be a thrown connect, and it is exactly when the pass threw, on the listener; without a throw it covers every ready descriptor, and with one every ready descriptor below the listener |
| Relay.TeardownKeepsPairs | trance.cpp:198-202 | removing a tracked descriptor and its partner keeps every other pair symmetric |
| Relay.TeardownIdempotent | trance.cpp:188-203 | a second failing receive on the same descriptor leaves the tracked set and `_fd_map` as the first one left them |
| Relay.TeardownFromPartner | trance.cpp:188-203 | after a tracked pair is torn down, a failing receive on the partner leaves the tracked set and `_fd_map` unchanged |
| Relay.PairingKeepsPairs | trance.cpp:244-249 | registering two fresh, distinct descriptors as partners keeps the pairing symmetric |
| Relay.ScanStart | trance.cpp:237-238 | a pass starts from a state where the pass invariant holds, when the pairs are symmetric and every ready descriptor is tracked |
| Relay.ScanTeardown | trance.cpp:250-252 | a data dispatch keeps the pass invariant, also for a descriptor whose partner was torn down earlier in the pass |
| Relay.ScanPairing | trance.cpp:240-249 | registering a pair unknown at the start of the pass keeps the pass invariant |
| Relay.ScannedSkip | trance.cpp:237-238 | a descriptor that is not ready adds nothing to the pass log |
| Relay.ScannedExtend | trance.cpp:237-238 | dispatching a ready descriptor appends it to the log; the log stays ascending and within the ready set, and still covers every ready descriptor below it |
| Transfer.FirstStop | trance.cpp:212-221 | the index of the first call result that ends the loop (-1, or at least `size`), with every earlier result neither |
| Transfer.SendOutcomeAtFirstStop | trance.cpp:212-221 | send returns -1 if the first call that ends the loop reported -1, and 0 if it reported at least `size` |
| Transfer.SendDelivery | trance.cpp:211-221 | on success the bytes the calls accepted end with the whole buffer, and equal it exactly iff every earlier call reported 0 |
| Transfer.SendAtOnce | trance.cpp:212-220 | a first call that accepts everything sends exactly the buffer and returns 0 |
| Transfer.SendResendsTail | trance.cpp:211-217 | a partial write of p bytes followed by a full write of the rest is followed by a call offered the last p bytes again |
| Trace.CString | trance.cpp:268 | `cout << buf` prints the prefix of the buffer before its first NUL |
| Trace.CStringStopsAtNul | trance.cpp:205-206 | bytes after the first NUL never reach the trace |
| Trace.CStringOfText | trance.cpp:268 | a buffer without NUL is printed whole |
| Trace.UntraceClient | trance.cpp:266-271 | every client trace reads back as a client block carrying the buffer's C string |
| Trace.UntraceServer | trance.cpp:272-277 | every server trace reads back as a server block carrying the buffer's C string |
| Trace.UntraceParts | trance.cpp:266-277 | a block that reads back is exactly its banner, its payload and its closing text |
| Trace.UntraceInverse | trance.cpp:266-277 | a block that reads back with a NUL-free payload is exactly the trace of that payload |
| Trace.TraceDirectionsDiffer | trance.cpp:266-277 | in either colour mode, a client trace never equals a server trace |
| Cli.SkipSpaces | trance.cpp:323 | what is skipped is white space, and what remains does not start with white space |
| Cli.LeadingDigits | trance.cpp:323 | the longest digit prefix: all digits, followed by a non-digit or the end |
| Cli.AtoiOfNumeral | trance.cpp:323 | `atoi` reads back the decimal numeral of every natural number, even when text that does not start with a digit follows |
| Cli.AtoiOfNegative | trance.cpp:323 | `atoi` of a minus sign followed by a numeral is the negative number |
| Cli.SplitAtColon | trance.cpp:328-333 | the host is the text before the first ':', and the port text is what follows it; there is no port text iff there is no ':' |
| Cli.Decide | trance.cpp:285-346 | `-h` gives usage and 0; an unknown option gives usage and -1; anything other than two arguments, a port below 1 or a remote port below 1 gives usage and 0; otherwise the relay starts with the port, the host before ':', the remote port or 80, and colour on iff `-c` was not given exactly once |

## Left out

- The socket layer is not modelled: `Socket`, `Server::create_listener`, `bind`, `listen`, `close`, and the `Client` and `Server` constructors. Their results enter as `Event` fields and constructor parameters.
- `select`'s blocking is not modelled, and neither is its failure, which throws "select". `Poll` takes the readable set as given.
- `process`'s outer `while (true)` loop is not modelled; `Cycle` is one pass of it.
- `gethostbyname` and the `Trance` constructor's remote address are not modelled. `Decide` ends where `Trance t(port, host, remote_port, _color)` would be built.
- Output is not modelled as I/O. The traces are returned strings. The `printf` and `perror` messages and the `usage()` text are omitted.
- Exception propagation to `main`'s `catch` is not modelled; a throwing connect is the `ConnectThrew` step, which ends the pass.
- `getopt` is not modelled. `Decide` takes the option characters it returns, with '?' or any other letter for an unknown option.
- The `-v` counter is kept but never used, as in the source.
- `FD_SETSIZE` is not modelled: descriptors are non-negative integers without an upper bound.
- The 16-bit truncation of `htons(port)` is not modelled.
- Cli.AtoiOfNumeral: does not model `atoi`'s overflow on values above `INT_MAX`, because integers here are unbounded.
- Cli.AtoiOfNegative: likewise does not model overflow below `INT_MIN`.
- Cli.Decide: a port or remote port beyond the range of `int` is read as its exact value, with no overflow.
- Relay.Trance.Send: when the supplied `::send` results run out while the loop is still running, the model stops with `StillSending`. The real loop would keep calling `::send`.
- Relay.Trance.Cycle: the pairing invariant is proved only for passes whose new pair is fresh and distinct. A failed accept (0 reused) is covered by `Relay.TwoFailedAccepts` instead.
- The evaluation order of `send(_fd_map[i], receive(i))` is not modelled, because both orders give the same partner: `receive` only inserts the key with 0 when it is missing, the value `operator[]` would produce anyway.
