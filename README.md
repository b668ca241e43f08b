# aker scheduler loop and WRP dispatcher, modelled in Dafny

This project models two parts of aker, a parental-control agent for network
devices that blocks client devices (by MAC address) according to a time-based
schedule.

- **The scheduler loop** (`src/scheduler.c`). One pass of `scheduler_thread`
  works in three steps. First it polls the schedule file's version and
  reloads the file when the version is positive and new. The reload goes
  through `process_schedule_data`, which destroys the previous schedule and
  installs the decoded one, or NULL when decoding fails. Then, when there is
  a schedule and the clock can be read, it computes the list of blocked MACs
  and compares it with the remembered one. Finally it sleeps.
  `scheduler.dfy` has this pass in two forms:
  - the pure function `Step` over `LoopState`, with `Run` for a bounded
    sequence of passes;
  - the class `Scheduler`, whose fields `fileVersion`, `currentSchedule` and
    `currentBlockedMacs` are updated in place like the C variables. Its
    methods are proved equal to `Step` and `Run`.

  Every call to `destroy_schedule` is recorded in a ghost log, and every
  `sleep` in a ghost counter.
- **The WRP dispatcher** (`src/wrp_interface.c`). `wrp_process` zeroes the
  response. For a create, update or retrieve request it then:
  - builds a reply that echoes the transaction id and path and swaps source
    and destination;
  - routes by substring tests on the destination to at most one handler;
  - sets status 200 when the handler's result is at least 0, and 400
    otherwise;
  - clears the request's four string fields.

  `wrp_cleanup` releases a retrieve response's payload.
  `wrp_interface.dfy` gives the dispatcher as the function `Process` and as
  the in-place method `WrpProcess` over two `WrpMsg` objects, proved equal to
  `Process`.

`strings.dfy` models `strstr` as `Contains`, a test that one sequence
occurs inside another. `common.dfy` holds `Option` (a NULL-able pointer),
`int32` and `byte`.

## Collaborators that become inputs

Neither file's collaborators are modelled. They become inputs instead:

- `get_schedule_file_version` is an `int32`.
- `read_file_from_disk` is an optional byte sequence (`None` is NULL).
- `decode_schedule` is a `DecodeOutcome`: its status, and whether it wrote
  its out-parameter and with what.
- `clock_gettime` is an optional number of seconds (`None` when it fails).
- `get_blocked_at_time` is a function of the schedule and the time.
- The WRP handlers are given by their return values and the payload they
  leave (`Handlers`).
- The four endpoint strings are a parameter (`Endpoints`).

## The decoder assumption and double destruction

Line 135 destroys the previous schedule but does not clear
`current_schedule`. That variable is then passed to `decode_schedule` as its
out-parameter. The code of `decode_schedule` is not part of this model, so
`DecodeOutcome` keeps open whether it writes the out-parameter.

- `UntouchedFailureDestroysTwice`: when decoding fails without writing the
  out-parameter, line 140 destroys the already-destroyed schedule a second
  time.
- `UntouchedSuccessDangles`: when decoding succeeds without writing it, the
  active schedule is the destroyed one.
- `WritingDecoderDestroysOnce`: when the decoder always writes its
  out-parameter, and never writes the schedule being replaced, nothing is
  destroyed twice.
- `RunDestroysNothingTwice`: extends that result to any number of passes,
  for a decoder that always writes and hands out distinct schedules.

The model follows the code as written. Which case the real decoder is in
cannot be decided from the files modelled here.

## Behaviour of the code worth knowing

- **Repeated observation.** An absent (NULL) blocked list is announced on
  every pass, even when the previous pass saw no list either, because the
  skip at lines 99-105 needs two non-NULL strings (`ObserveTwice`).
- **Lower versions.** Any positive version that differs from the recorded
  one triggers a reload, a lower one included (`Step`).
- **No schedule.** Without an active schedule nothing is evaluated, and the
  remembered list stays as it was (`Step`).
- **Checksum endpoint.** If `PERSISTENT_MD5_ENDPOINT` extends
  `PERSISTENT_SCHEDULE_ENDPOINT`, the first-match routing never reaches the
  checksum branch (`ExtendedEndpointShadowed`). The real constants are in a
  header that is not part of this model.

## Model

| member | source | states |
|---|---|---|
| `Scheduler.ReplaceSchedule` | src/scheduler.c:132-145 | the previous schedule (when non-NULL) is the first one destroyed; on decode failure the last one destroyed is what the out-parameter then holds and the active schedule becomes NULL; on success it is what the decoder wrote (or the old, destroyed pointer if it wrote nothing); one destroy call per non-NULL previous schedule plus one per failure |
| `Scheduler.UntouchedFailureDestroysTwice` | src/scheduler.c:134-141 | a failed decode that leaves its out-parameter untouched makes `destroy_schedule` receive the previous schedule twice |
| `Scheduler.UntouchedSuccessDangles` | src/scheduler.c:134-139 | a successful decode that leaves its out-parameter untouched leaves the destroyed schedule active |
| `Scheduler.WritingDecoderDestroysOnce` | src/scheduler.c:132-145 | with a decoder that writes its out-parameter (not the old schedule), no schedule is destroyed twice and the active one is not destroyed |
| `Scheduler.Observe` | src/scheduler.c:88-111 | in all four NULL/non-NULL cases the remembered list becomes the latest result; the announce block is skipped exactly when both are non-NULL and equal |
| `Scheduler.ObserveTwice` | src/scheduler.c:88-106 | observing the same list twice skips the second announcement exactly when the list is non-NULL |
| `Scheduler.Step` | src/scheduler.c:59-120 | reload iff the polled version is positive and differs; the version is recorded whatever the read and decode do; the schedule changes only when a reload read data; evaluation happens iff a schedule is present and the clock read succeeded, uses the newest schedule and leaves the remembered list equal to its result; announce is skipped iff old and new lists are equal non-NULL strings |
| `Scheduler.StepVersionIsLatestPositive` | src/scheduler.c:60-67 | after a pass the recorded version is the polled one when positive, else unchanged |
| `Scheduler.VersionIndependentOfOutcome` | src/scheduler.c:62-73 | two passes polling the same version make the same reload decision and record the same version, whatever the read and the decoder return |
| `Scheduler.SameVersionReloadsOnce` | src/scheduler.c:60-67 | a version just reloaded (successfully or not) does not trigger a reload on the next pass |
| `Scheduler.Run` | src/scheduler.c:59-121 | n passes hand `destroy_schedule` at most 2n schedules, and the recorded version is the initial one or positive |
| `Scheduler.RunSnoc` | src/scheduler.c:59-121 | a run of n+1 passes is a run of n passes followed by one `Step`, in state and destroy calls |
| `Scheduler.RunVersionIsLatestPositive` | src/scheduler.c:59-67 | after any number of passes the recorded version is the most recent positive polled version, or the initial one |
| `Scheduler.RunScheduleIsLatest` | src/scheduler.c:59-74 | after any number of passes the active schedule is the one left by the last pass that reloaded data (NULL on a failed decode, the written schedule on success, the earlier one if the decoder wrote nothing), or the initial one if no pass did |
| `Scheduler.StepKeepsNoneTwice` | src/scheduler.c:59-74 | with a writing decoder, one pass keeps "no schedule destroyed twice, active schedule not destroyed, none of the decoder's later schedules destroyed" |
| `Scheduler.FirstPassKeepsNoneTwice` | src/scheduler.c:59-74 | the same invariant carried from the first pass of a run to the rest |
| `Scheduler.RunDestroysNothingTwice` | src/scheduler.c:59-145 | over any number of passes, with a decoder that always writes and hands out distinct schedules, no schedule is destroyed twice and the active schedule at the end is not destroyed |
| `Scheduler.Scheduler.constructor` | src/scheduler.c:35-41 | the loop starts with version 0, no schedule and no remembered list |
| `Scheduler.Scheduler.ProcessScheduleData` | src/scheduler.c:132-145 | updates `currentSchedule` in place and logs the destroy calls exactly as `ReplaceSchedule` says; nothing else changes |
| `Scheduler.Scheduler.Iterate` | src/scheduler.c:59-120 | one in-place pass, including the `continue` path, ends in the state `Step` gives, with its destroy calls, its announce decision and one sleep |
| `Scheduler.Scheduler.RunPasses` | src/scheduler.c:59-121 | n in-place passes end in the state `Run` gives and sleep n times |
| `Strings.Contains` | src/wrp_interface.c:65 | `strstr` finds the empty needle always, a needle longer than the haystack never, and one of equal length exactly when the two are equal |
| `Strings.ContainsTransitive` | src/wrp_interface.c:92-98 | an occurrence of an endpoint inside an occurrence is an occurrence: the fact behind routing precedence |
| `WrpInterface.RetrieveRoute` | src/wrp_interface.c:92-103 | the chosen route's endpoint occurs in the destination and no endpoint tested before it does; `Invalid` when none occurs |
| `WrpInterface.RouteReachable` | src/wrp_interface.c:92-98 | a retrieve route is taken by some destination iff no earlier-tested endpoint occurs in its own endpoint, and then its endpoint itself takes it |
| `WrpInterface.ExtendedEndpointShadowed` | src/wrp_interface.c:92-95 | when the checksum endpoint extends the persistent-schedule endpoint, no destination reaches the checksum branch |
| `WrpInterface.Dispatch` | src/wrp_interface.c:65-103 | create/update calls `process_message_cu` iff the destination contains the schedule endpoint, else none with -1 and no payload; retrieve calls `process_message_ret_all` with the data file or the checksum file, or `process_message_ret_now`, as the first matching endpoint says; the bare-schedule and unmatched cases call none, give -1 and no payload |
| `WrpInterface.Process` | src/wrp_interface.c:42-120 | other kinds: zeroed response, request untouched, no handler, -1; create/update/retrieve: reply echoes transaction id and path and swaps source and destination, keeps the kind, status 200 iff result ≥ 0 else 400, request's string fields cleared; create/update calls the handler iff the destination contains the schedule endpoint; retrieve calls the handler of the first matching endpoint, and the bare-schedule and unmatched cases call none, return -1, leave no payload and give 400 |
| `WrpInterface.WrpProcess` | src/wrp_interface.c:42-120 | the in-place version: the new response, the cleared request and the result are those of `Process`, and the handlers invoked are at most one, the one `Process` names |
| `WrpInterface.WrpCleanup` | src/wrp_interface.c:122-134 | returns 0 iff the message is a retrieve, otherwise -1; releases the payload iff the message is a retrieve and has one, and then releases exactly that payload |

## Left out

- Signal handling (`signal` registrations and `sig_handler`): asynchronous process control ending in `exit`, not part of one pass.
- The unbounded `while (1)`, `sleep` and the clock: the loop is cut off after a given number of passes (`Run`, `RunPasses`), a sleep is a ghost counter of the in-place `Scheduler` (the pure `Step` and `Run` do not count sleeps), and the time is an input.
- Debug logging, including the `info_period` counter, which only decides whether a log line is printed.
- The bodies of `get_schedule_file_version`, `read_file_from_disk`, `decode_schedule`, `get_blocked_at_time`, `destroy_schedule`, `process_message_cu`, `process_message_ret_all`, `process_message_ret_now` and `aker_free`: they are not part of this model and appear as inputs or as ghost records.
- What `destroy_schedule` does with a NULL argument (line 140 can pass one when the decoder writes NULL and fails): the call is recorded, but only non-NULL schedules count as destroyed.
- The values of the endpoint constants and of the message-type codes: they live in headers that are not part of this model, so the endpoints are parameters and the kinds a datatype.
- Memory ownership (`strdup`, `free`): the remembered blocked list is modelled as a value, and `strcmp` as sequence equality (strings have no embedded NUL).
- Concurrency between the scheduler thread and request handling: the files have no synchronisation to model.
- Other fields of `wrp_msg_t` (payload size, headers, content type and the other union members) and any effect of the handlers on the messages other than the response payload.
- Process: requires a create, update or retrieve request to carry a destination; such a request with a NULL `dest` would pass NULL to `strstr` in C, which is undefined behaviour, so it is not modelled.
- WrpProcess: requires `msg` and `response` to be distinct objects; a call with the same message for both (the `memset` would then erase the request) is not modelled.
- WrpCleanup: the released buffer is reported, not marked on the message; the pointer stays set, so a second call on the same message releases it again, which the model shows only by that call's result.
