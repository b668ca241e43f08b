/**
 * The schedule evaluation loop of aker's scheduler thread (src/scheduler.c).
 *
 * One pass of `scheduler_thread`'s `while (1)` loop polls the schedule file's
 * version, reloads and decodes the file when the version changed, evaluates
 * the active schedule at the current time and compares the resulting list of
 * blocked MAC addresses with the one it remembers, and finally sleeps.
 *
 * The pass is given twice: as the pure function `Step` over a `LoopState`
 * (with `Run` for a bounded sequence of passes), which the lemmas reason
 * about, and as the class `Scheduler`, whose fields are updated in place the
 * way the C globals are, with methods proved against `Step` and `Run`.
 *
 * The calls this file makes into code that is not modelled become inputs:
 * `get_schedule_file_version` is an `int32`, `read_file_from_disk` an
 * optional byte sequence, `decode_schedule` a `DecodeOutcome`,
 * `clock_gettime` an optional number of seconds and `get_blocked_at_time` a
 * function of the schedule and the time. `destroy_schedule` is recorded in a
 * ghost log of the schedules it was handed.
 */
module Scheduler {
  import opened Wrappers
  import opened CTypes

  /** A decoded schedule (`schedule_t`). Its rules are not modelled; its identity is. */
  class Schedule {}

  /** What `decode_schedule` left in its out-parameter `&current_schedule`. */
  datatype OutParam = Untouched | Wrote(value: Schedule?)

  /**
   * The effect of one call of `decode_schedule(len, data, &current_schedule)`:
   * its return status (0 is success) and what it did to the out-parameter.
   * The decoder's source is not part of this model, so whether it always
   * writes its out-parameter is left open here and made explicit where a
   * property depends on it.
   */
  datatype DecodeOutcome = DecodeOutcome(status: int, out: OutParam)
  {
    predicate Failed() { status != 0 }
  }

  /**
   * The state one pass of the loop reads and writes: the last file version
   * seen (`file_version`, local to the thread), the active schedule
   * (`current_schedule`, file-scoped, NULL as `null`) and the remembered list
   * of blocked MACs (`current_blocked_macs`, function-static, NULL as `None`).
   */
  datatype LoopState = LoopState(fileVersion: int32, schedule: Schedule?, blockedMacs: Option<string>)

  /** The state before the first pass. */
  const INITIAL := LoopState(0, null, None)

  /** What the collaborators of one pass return. */
  datatype Inputs = Inputs(
    polledVersion: int32,                        // get_schedule_file_version()
    fileData: Option<seq<byte>>,                 // read_file_from_disk(&data): NULL or the bytes
    decode: DecodeOutcome,                       // decode_schedule(data_size, data, &current_schedule)
    clock: Option<int>,                          // clock_gettime: None when it fails, else tv_sec
    blockedAt: (Schedule, int) -> Option<string> // get_blocked_at_time(schedule, unix_time)
  )

  /*-------------------------------------------------------------------------*/
  /*  process_schedule_data                                                  */
  /*-------------------------------------------------------------------------*/

  /** The active schedule after `process_schedule_data` and the arguments it passed to `destroy_schedule`, in order. */
  datatype Replacement = Replacement(schedule: Schedule?, destroyCalls: seq<Schedule?>)

  /**
   * `process_schedule_data`: the previous schedule, when there is one, is
   * destroyed first; the decoder then writes (or not) into the same variable;
   * on failure whatever the variable then names is destroyed and it becomes
   * NULL.
   */
  function ReplaceSchedule(current: Schedule?, d: DecodeOutcome): (r: Replacement)
    ensures current != null ==> |r.destroyCalls| >= 1 && r.destroyCalls[0] == current
    ensures d.Failed() ==> r.schedule == null
    ensures !d.Failed() && d.out.Wrote? ==> r.schedule == d.out.value
    ensures !d.Failed() && d.out.Untouched? ==> r.schedule == current
    ensures |r.destroyCalls| == (if current != null then 1 else 0) + (if d.Failed() then 1 else 0)
    ensures d.Failed() ==> r.destroyCalls[|r.destroyCalls| - 1] == (if d.out.Wrote? then d.out.value else current)
  {
    var first := if current != null then [current] else [];
    var afterDecode := if d.out.Wrote? then d.out.value else current;
    if d.Failed() then Replacement(null, first + [afterDecode])
    else Replacement(afterDecode, first)
  }

  /** No schedule occurs twice in `log`: no schedule was destroyed twice. */
  ghost predicate NoneTwice(log: seq<Schedule?>)
  {
    forall s | s in log && s != null :: multiset(log)[s] <= 1
  }

  /**
   * If the decoder fails WITHOUT writing its out-parameter, `current_schedule`
   * still names the schedule destroyed at line 135, and line 140 destroys it
   * again.
   */
  lemma UntouchedFailureDestroysTwice(current: Schedule, d: DecodeOutcome)
    requires d.Failed() && d.out.Untouched?
    ensures multiset(ReplaceSchedule(current, d).destroyCalls)[current] == 2
    ensures !NoneTwice(ReplaceSchedule(current, d).destroyCalls)
  {
    var r := ReplaceSchedule(current, d);
    assert r.destroyCalls == [current, current];
  }

  /**
   * If the decoder succeeds without writing its out-parameter, the active
   * schedule is the one that was just destroyed.
   */
  lemma UntouchedSuccessDangles(current: Schedule, d: DecodeOutcome)
    requires !d.Failed() && d.out.Untouched?
    ensures ReplaceSchedule(current, d).schedule == current
    ensures current in ReplaceSchedule(current, d).destroyCalls
  {
  }

  /**
   * With a decoder that always writes its out-parameter, and never writes the
   * schedule it is replacing, nothing is destroyed twice and the schedule left
   * active is not one that was destroyed.
   */
  lemma WritingDecoderDestroysOnce(current: Schedule?, d: DecodeOutcome)
    requires d.out.Wrote? && (d.out.value != null ==> d.out.value != current)
    ensures var r := ReplaceSchedule(current, d);
      NoneTwice(r.destroyCalls) && (r.schedule != null ==> r.schedule !in r.destroyCalls)
  {
    var r := ReplaceSchedule(current, d);
    forall s | s in r.destroyCalls && s != null
      ensures multiset(r.destroyCalls)[s] <= 1
    {
    }
  }

  /*-------------------------------------------------------------------------*/
  /*  Change detection on the list of blocked MACs (lines 88-111)            */
  /*-------------------------------------------------------------------------*/

  /** The remembered list after one comparison, and whether the announce block is reached. */
  datatype Observation = Observation(remembered: Option<string>, announce: bool)

  /**
   * The four cases on the remembered string and the fresh one: none to some
   * (strdup), none to none (nothing), some to some (replace when `strcmp`
   * differs, else skip the announcement with `continue`), some to none
   * (free and forget). Strings have no embedded NUL, so `strcmp` equality is
   * sequence equality.
   */
  function Observe(remembered: Option<string>, latest: Option<string>): (o: Observation)
    ensures o.remembered == latest
    ensures !o.announce <==> remembered.Some? && latest.Some? && remembered.value == latest.value
  {
    match remembered
    case None =>
      if latest.Some? then Observation(latest, true) else Observation(None, true)
    case Some(current) =>
      if latest.Some? then
        if current != latest.value then Observation(latest, true)
        else Observation(remembered, false)
      else Observation(None, true)
  }

  /**
   * Observing the same list twice: the second time the announcement is
   * skipped exactly when the list is not NULL. An absent list is announced
   * every time, because the skip needs two non-NULL strings.
   */
  lemma ObserveTwice(remembered: Option<string>, latest: Option<string>)
    ensures Observe(Observe(remembered, latest).remembered, latest).announce <==> latest.None?
  {
  }

  /*-------------------------------------------------------------------------*/
  /*  One pass of the loop                                                   */
  /*-------------------------------------------------------------------------*/

  /** The version check at lines 62-63. */
  predicate FileChanged(fileVersion: int32, polled: int32)
  {
    polled > 0 && polled != fileVersion
  }

  /**
   * The new state of one pass and what happened in it: whether the file was
   * reloaded, the arguments passed to `destroy_schedule`, whether the blocked
   * list was evaluated and whether the announce block ran. Every path of a
   * pass ends in exactly one `sleep`, the `continue` path included; that is
   * counted by the in-place `Scheduler.Iterate`, not here.
   */
  datatype StepResult = StepResult(
    state: LoopState,
    reloaded: bool,
    destroyCalls: seq<Schedule?>,
    evaluated: bool,
    announced: bool)

  /** One pass of `scheduler_thread`'s loop. */
  function Step(s: LoopState, inp: Inputs): (r: StepResult)
    // the version check, and the version recorded before any read or decode
    ensures r.reloaded <==> inp.polledVersion > 0 && inp.polledVersion != s.fileVersion
    ensures r.state.fileVersion == if r.reloaded then inp.polledVersion else s.fileVersion
    // the schedule is replaced only when a reload read some data
    ensures !(r.reloaded && inp.fileData.Some?) ==> r.state.schedule == s.schedule && r.destroyCalls == []
    ensures r.reloaded && inp.fileData.Some? ==>
      Replacement(r.state.schedule, r.destroyCalls) == ReplaceSchedule(s.schedule, inp.decode)
    // evaluation needs a schedule and a clock reading, and uses the newest schedule
    ensures r.evaluated <==> inp.clock.Some? && r.state.schedule != null
    ensures !r.evaluated ==> r.state.blockedMacs == s.blockedMacs && !r.announced
    ensures r.evaluated ==> r.state.blockedMacs == inp.blockedAt(r.state.schedule, inp.clock.value)
    ensures r.evaluated ==>
      (!r.announced <==> s.blockedMacs.Some? && r.state.blockedMacs.Some? && s.blockedMacs == r.state.blockedMacs)
  {
    var changed := FileChanged(s.fileVersion, inp.polledVersion);
    var version := if changed then inp.polledVersion else s.fileVersion;
    var replaced :=
      if changed && inp.fileData.Some? then ReplaceSchedule(s.schedule, inp.decode)
      else Replacement(s.schedule, []);
    if inp.clock.Some? && replaced.schedule != null then
      var o := Observe(s.blockedMacs, inp.blockedAt(replaced.schedule, inp.clock.value));
      StepResult(LoopState(version, replaced.schedule, o.remembered), changed, replaced.destroyCalls, true, o.announce)
    else
      StepResult(LoopState(version, replaced.schedule, s.blockedMacs), changed, replaced.destroyCalls, false, false)
  }

  /**
   * After a pass the recorded version is the polled one whenever that is
   * positive, and unchanged otherwise (a positive version equal to the
   * recorded one does not reload, but leaves the same value).
   */
  lemma StepVersionIsLatestPositive(s: LoopState, inp: Inputs)
    ensures Step(s, inp).state.fileVersion == if inp.polledVersion > 0 then inp.polledVersion else s.fileVersion
  {
  }

  /**
   * The version bookkeeping does not depend on what the read and the decoder
   * return: two passes that poll the same version record the same version
   * and make the same reload decision.
   */
  lemma VersionIndependentOfOutcome(s: LoopState, a: Inputs, b: Inputs)
    requires a.polledVersion == b.polledVersion
    ensures Step(s, a).state.fileVersion == Step(s, b).state.fileVersion
    ensures Step(s, a).reloaded == Step(s, b).reloaded
  {
  }

  /**
   * A version is reloaded at most once in a row: a pass that polls the version
   * the previous pass reloaded does not reload, even if that reload failed.
   */
  lemma SameVersionReloadsOnce(s: LoopState, first: Inputs, second: Inputs)
    requires Step(s, first).reloaded
    requires second.polledVersion == first.polledVersion
    ensures !Step(Step(s, first).state, second).reloaded
  {
  }

  /*-------------------------------------------------------------------------*/
  /*  A bounded number of passes                                             */
  /*-------------------------------------------------------------------------*/

  /** The state after a sequence of passes and every `destroy_schedule` argument, in order. */
  datatype RunResult = RunResult(state: LoopState, destroyCalls: seq<Schedule?>)

  /**
   * `scheduler_thread`'s loop, cut off after `|inputs|` passes. A pass hands
   * `destroy_schedule` at most two schedules, and the recorded version is
   * only ever replaced by a positive one.
   */
  function Run(s: LoopState, inputs: seq<Inputs>): (r: RunResult)
    ensures |r.destroyCalls| <= 2 * |inputs|
    ensures r.state.fileVersion == s.fileVersion || r.state.fileVersion > 0
    decreases |inputs|
  {
    if inputs == [] then RunResult(s, [])
    else
      var first := Step(s, inputs[0]);
      var rest := Run(first.state, inputs[1..]);
      RunResult(rest.state, first.destroyCalls + rest.destroyCalls)
  }

  /** Running one more pass is one more `Step`. */
  lemma {:induction false} RunSnoc(s: LoopState, inputs: seq<Inputs>, last: Inputs)
    ensures Run(s, inputs + [last]).state == Step(Run(s, inputs).state, last).state
    ensures Run(s, inputs + [last]).destroyCalls == Run(s, inputs).destroyCalls + Step(Run(s, inputs).state, last).destroyCalls
    decreases |inputs|
  {
    if inputs == [] {
      assert [] + [last] == [last];
    } else {
      var first := Step(s, inputs[0]);
      assert (inputs + [last])[1..] == inputs[1..] + [last];
      RunSnoc(first.state, inputs[1..], last);
    }
  }

  /** The most recent positive polled version, or `initial` when no pass polled one. */
  function LatestPositiveVersion(initial: int32, inputs: seq<Inputs>): int32
    decreases |inputs|
  {
    if inputs == [] then initial
    else if inputs[|inputs| - 1].polledVersion > 0 then inputs[|inputs| - 1].polledVersion
    else LatestPositiveVersion(initial, inputs[..|inputs| - 1])
  }

  /** After any number of passes the recorded version is the latest positive polled version. */
  lemma {:induction false} RunVersionIsLatestPositive(s: LoopState, inputs: seq<Inputs>)
    ensures Run(s, inputs).state.fileVersion == LatestPositiveVersion(s.fileVersion, inputs)
    decreases |inputs|
  {
    if inputs != [] {
      var earlier, last := inputs[..|inputs| - 1], inputs[|inputs| - 1];
      assert inputs == earlier + [last];
      RunSnoc(s, earlier, last);
      RunVersionIsLatestPositive(s, earlier);
      StepVersionIsLatestPositive(Run(s, earlier).state, last);
    }
  }

  /**
   * The active schedule after `inputs`, read from the end: the last pass
   * that reloaded (its polled version differs from the latest positive one
   * before it) and read some data decides it. That pass leaves NULL when its
   * decode failed, the schedule the decoder wrote when it wrote one, and
   * otherwise the schedule active before it. Without such a pass the initial
   * schedule stays.
   */
  function LatestSchedule(s: LoopState, inputs: seq<Inputs>): Schedule?
    decreases |inputs|
  {
    if inputs == [] then s.schedule
    else
      var earlier, last := inputs[..|inputs| - 1], inputs[|inputs| - 1];
      if FileChanged(LatestPositiveVersion(s.fileVersion, earlier), last.polledVersion) && last.fileData.Some? then
        if last.decode.Failed() then null
        else if last.decode.out.Wrote? then last.decode.out.value
        else LatestSchedule(s, earlier)
      else LatestSchedule(s, earlier)
  }

  /** After any number of passes the active schedule is the one the last reload with data left. */
  lemma {:induction false} RunScheduleIsLatest(s: LoopState, inputs: seq<Inputs>)
    ensures Run(s, inputs).state.schedule == LatestSchedule(s, inputs)
    decreases |inputs|
  {
    if inputs != [] {
      var earlier, last := inputs[..|inputs| - 1], inputs[|inputs| - 1];
      assert inputs == earlier + [last];
      RunSnoc(s, earlier, last);
      RunVersionIsLatestPositive(s, earlier);
      RunScheduleIsLatest(s, earlier);
    }
  }

  /** What each pass's decoder writes into its out-parameter (`null` where it writes nothing). */
  function Written(inputs: seq<Inputs>): (w: seq<Schedule?>)
    ensures |w| == |inputs|
    ensures forall k :: 0 <= k < |inputs| && inputs[k].decode.out.Wrote? ==> w[k] == inputs[k].decode.out.value
    decreases |inputs|
  {
    if inputs == [] then []
    else [if inputs[0].decode.out.Wrote? then inputs[0].decode.out.value else null] + Written(inputs[1..])
  }

  /** The assumption on `decode_schedule` under which the loop destroys nothing twice. */
  ghost predicate DecoderAlwaysWrites(inputs: seq<Inputs>)
  {
    forall k :: 0 <= k < |inputs| ==> inputs[k].decode.out.Wrote?
  }

  /** One pass keeps "nothing destroyed twice, and the active schedule not destroyed" over the log and what is still to come. */
  lemma StepKeepsNoneTwice(s: LoopState, log: seq<Schedule?>, inp: Inputs, later: seq<Schedule?>)
    requires inp.decode.out.Wrote?
    requires NoneTwice(log + [s.schedule] + [inp.decode.out.value] + later)
    ensures var r := Step(s, inp); NoneTwice(log + r.destroyCalls + [r.state.schedule] + later)
  {
    var r := Step(s, inp);
    var before := log + [s.schedule] + [inp.decode.out.value] + later;
    var after := log + r.destroyCalls + [r.state.schedule] + later;
    forall x | x in after && x != null
      ensures multiset(after)[x] <= 1
    {
      assert multiset(after)[x] <= multiset(before)[x];
    }
  }

  /** The first pass of a run keeps the hypothesis of `RunDestroysNothingTwice` for the passes after it. */
  lemma FirstPassKeepsNoneTwice(s: LoopState, log: seq<Schedule?>, inputs: seq<Inputs>)
    requires inputs != [] && DecoderAlwaysWrites(inputs)
    requires NoneTwice(log + [s.schedule] + Written(inputs))
    ensures var first := Step(s, inputs[0]);
      DecoderAlwaysWrites(inputs[1..]) &&
      NoneTwice((log + first.destroyCalls) + [first.state.schedule] + Written(inputs[1..]))
  {
    var first := Step(s, inputs[0]);
    var later := Written(inputs[1..]);
    assert log + [s.schedule] + Written(inputs) == log + [s.schedule] + [inputs[0].decode.out.value] + later;
    StepKeepsNoneTwice(s, log, inputs[0], later);
    assert log + first.destroyCalls + [first.state.schedule] + later
        == (log + first.destroyCalls) + [first.state.schedule] + later;
    forall k | 0 <= k < |inputs[1..]|
      ensures inputs[1..][k].decode.out.Wrote?
    {
      assert inputs[1..][k] == inputs[k + 1];
    }
  }

  /**
   * Under a decoder that always writes its out-parameter and hands out
   * schedules distinct from each other, from the active one and from those
   * already destroyed, no number of passes destroys a schedule twice, and the
   * active schedule at the end has not been destroyed.
   */
  lemma {:induction false} RunDestroysNothingTwice(s: LoopState, log: seq<Schedule?>, inputs: seq<Inputs>)
    requires DecoderAlwaysWrites(inputs)
    requires NoneTwice(log + [s.schedule] + Written(inputs))
    ensures var r := Run(s, inputs); NoneTwice(log + r.destroyCalls + [r.state.schedule])
    decreases |inputs|
  {
    if inputs == [] {
      assert log + Run(s, inputs).destroyCalls + [Run(s, inputs).state.schedule] == log + [s.schedule] + Written(inputs);
    } else {
      var first := Step(s, inputs[0]);
      FirstPassKeepsNoneTwice(s, log, inputs);
      RunDestroysNothingTwice(first.state, log + first.destroyCalls, inputs[1..]);
      var rest := Run(first.state, inputs[1..]);
      assert log + Run(s, inputs).destroyCalls == (log + first.destroyCalls) + rest.destroyCalls;
    }
  }

  /*-------------------------------------------------------------------------*/
  /*  The loop state updated in place                                        */
  /*-------------------------------------------------------------------------*/

  /**
   * The variables `scheduler_thread` and `process_schedule_data` update in
   * place, with the ghost record of every `destroy_schedule` argument and
   * of every `sleep`.
   */
  class Scheduler {
    var fileVersion: int32
    var currentSchedule: Schedule?
    var currentBlockedMacs: Option<string>
    ghost var destroyLog: seq<Schedule?>
    ghost var sleeps: nat

    function State(): LoopState
      reads this
    {
      LoopState(fileVersion, currentSchedule, currentBlockedMacs)
    }

    constructor ()
      ensures State() == INITIAL && destroyLog == [] && sleeps == 0
    {
      fileVersion := 0;
      currentSchedule := null;
      currentBlockedMacs := None;
      destroyLog := [];
      sleeps := 0;
    }

    /** `process_schedule_data(len, data)`; `d` is what the decoder does with `data`. */
    method ProcessScheduleData(data: seq<byte>, d: DecodeOutcome)
      modifies this
      ensures currentSchedule == ReplaceSchedule(old(currentSchedule), d).schedule
      ensures destroyLog == old(destroyLog) + ReplaceSchedule(old(currentSchedule), d).destroyCalls
      ensures fileVersion == old(fileVersion) && currentBlockedMacs == old(currentBlockedMacs)
      ensures sleeps == old(sleeps)
    {
      if currentSchedule != null {
        destroyLog := destroyLog + [currentSchedule];  // destroy_schedule(current_schedule)
      }
      // decode_schedule(len, data, &current_schedule)
      if d.out.Wrote? {
        currentSchedule := d.out.value;
      }
      if d.status != 0 {
        destroyLog := destroyLog + [currentSchedule];  // destroy_schedule(current_schedule)
        currentSchedule := null;
        return;
      }
    }

    /** One pass of the loop; `announced` tells whether the announce block ran. */
    method Iterate(inp: Inputs) returns (announced: bool)
      modifies this
      ensures State() == Step(old(State()), inp).state
      ensures destroyLog == old(destroyLog) + Step(old(State()), inp).destroyCalls
      ensures announced == Step(old(State()), inp).announced
      ensures sleeps == old(sleeps) + 1
    {
      var newFileVersion := inp.polledVersion;
      var fileChanged := newFileVersion > 0 && newFileVersion != fileVersion;
      if fileChanged {
        fileVersion := newFileVersion;
        var data := inp.fileData;
        if data.Some? {
          ProcessScheduleData(data.value, inp.decode);
        }
      }
      announced := false;
      if inp.clock.Some? && currentSchedule != null {
        var blockedMacs := inp.blockedAt(currentSchedule, inp.clock.value);
        if currentBlockedMacs.None? {
          if blockedMacs.Some? {
            currentBlockedMacs := blockedMacs;
          }
        } else {
          if blockedMacs.Some? {
            if currentBlockedMacs.value != blockedMacs.value {
              currentBlockedMacs := blockedMacs;
            } else {
              sleeps := sleeps + 1;  // sleep(SLEEP_TIME); continue
              return;
            }
          } else {
            currentBlockedMacs := None;
          }
        }
        announced := true;
      }
      sleeps := sleeps + 1;  // sleep(SLEEP_TIME)
    }

    /** `|inputs|` passes of the loop. */
    method RunPasses(inputs: seq<Inputs>)
      modifies this
      ensures State() == Run(old(State()), inputs).state
      ensures destroyLog == old(destroyLog) + Run(old(State()), inputs).destroyCalls
      ensures sleeps == old(sleeps) + |inputs|
    {
      for k := 0 to |inputs|
        invariant State() == Run(old(State()), inputs[..k]).state
        invariant destroyLog == old(destroyLog) + Run(old(State()), inputs[..k]).destroyCalls
        invariant sleeps == old(sleeps) + k
      {
        RunSnoc(old(State()), inputs[..k], inputs[k]);
        assert inputs[..k + 1] == inputs[..k] + [inputs[k]];
        var _ := Iterate(inputs[k]);
      }
      assert inputs[..|inputs|] == inputs;
    }
  }
}
