/**
 * The WRP message dispatcher of aker (src/wrp_interface.c).
 *
 * `wrp_process` zeroes the response, and for a create, update or retrieve
 * request builds a reply envelope, routes the request by its destination to at
 * most one handler, sets the status from the handler's result and takes over
 * the request's string fields. `wrp_cleanup` releases the payload of a
 * retrieve response.
 *
 * The endpoint strings are parameters (`Endpoints`), `strstr` is
 * `Strings.Contains`, and the handlers `process_message_cu`,
 * `process_message_ret_all` and `process_message_ret_now`, whose source is
 * not part of this model, are given by their results (`Handlers`).
 *
 * `Process` is the dispatcher as a function from the request to the reply,
 * the released request and the handler called; `WrpProcess` does the same in
 * place on two `WrpMsg` objects, field by field, and is proved against it.
 */
module WrpInterface {
  import opened Wrappers
  import opened CTypes
  import opened Strings

  /**
   * `msg_type` of a `wrp_msg_t`. `Unknown` is the value 0 that `memset`
   * leaves; `Other` stands for every kind this file does not handle.
   */
  datatype MsgType = Unknown | Create | Retrieve | Update | Other(code: int)

  /** The kinds `wrp_process` handles. */
  predicate IsCrud(t: MsgType)
  {
    t.Create? || t.Update? || t.Retrieve?
  }

  /**
   * The parts of a `wrp_msg_t` this file reads or writes: its kind and the
   * fields of its CRUD payload. A field is `None` where the C pointer is NULL.
   */
  datatype Msg = Msg(
    msgType: MsgType,
    transactionUuid: Option<string>,
    source: Option<string>,
    dest: Option<string>,
    path: Option<string>,
    payload: Option<seq<byte>>,
    status: int)

  /** A message after `memset(…, 0, sizeof(wrp_msg_t))`. */
  const ZEROED := Msg(Unknown, None, None, None, None, None, 0)

  /** SCHEDULE_ENDPOINT, PERSISTENT_SCHEDULE_ENDPOINT, PERSISTENT_MD5_ENDPOINT and NOW_ENDPOINT. */
  datatype Endpoints = Endpoints(schedule: string, persistentSchedule: string, persistentMd5: string, now: string)

  /*-------------------------------------------------------------------------*/
  /*  Routing of retrieve requests                                           */
  /*-------------------------------------------------------------------------*/

  /** The branches of the retrieve case, in the order they are tested. */
  datatype Route = PersistentSchedule | PersistentMd5 | Now | BareSchedule | Invalid

  /** The position of a route in the chain of tests; `Invalid` is what is left. */
  function Rank(r: Route): nat
  {
    match r
    case PersistentSchedule => 0
    case PersistentMd5 => 1
    case Now => 2
    case BareSchedule => 3
    case Invalid => 4
  }

  /** The endpoint a route tests for. */
  function EndpointOf(r: Route, e: Endpoints): string
    requires r != Invalid
  {
    match r
    case PersistentSchedule => e.persistentSchedule
    case PersistentMd5 => e.persistentMd5
    case Now => e.now
    case BareSchedule => e.schedule
  }

  /**
   * The route a retrieve request to `dest` takes: first match wins. The
   * destination contains the chosen route's endpoint and none of the
   * endpoints tested before it; `Invalid` when it contains none.
   */
  function RetrieveRoute(dest: string, e: Endpoints): (r: Route)
    ensures r != Invalid ==> Contains(dest, EndpointOf(r, e))
    ensures forall q: Route :: q != Invalid && Rank(q) < Rank(r) ==> !Contains(dest, EndpointOf(q, e))
  {
    if Contains(dest, e.persistentSchedule) then PersistentSchedule
    else if Contains(dest, e.persistentMd5) then PersistentMd5
    else if Contains(dest, e.now) then Now
    else if Contains(dest, e.schedule) then BareSchedule
    else Invalid
  }

  /** No endpoint tested before `r` occurs in `r`'s own endpoint. */
  predicate Unshadowed(r: Route, e: Endpoints)
    requires r != Invalid
  {
    forall q: Route :: q != Invalid && Rank(q) < Rank(r) ==> !Contains(EndpointOf(r, e), EndpointOf(q, e))
  }

  /**
   * A route is taken by some destination exactly when no endpoint tested
   * before it occurs in its own endpoint; when it is taken, a destination
   * equal to its endpoint takes it.
   */
  lemma RouteReachable(r: Route, e: Endpoints)
    requires r != Invalid
    ensures (exists dest :: RetrieveRoute(dest, e) == r) <==> Unshadowed(r, e)
    ensures Unshadowed(r, e) ==> RetrieveRoute(EndpointOf(r, e), e) == r
  {
    if Unshadowed(r, e) {
      var own := EndpointOf(r, e);
      assert Contains(own, own);
      var taken := RetrieveRoute(own, e);
      assert Rank(taken) <= Rank(r);
      assert taken == r;
    }
    if exists dest :: RetrieveRoute(dest, e) == r {
      var dest :| RetrieveRoute(dest, e) == r;
      forall q: Route | q != Invalid && Rank(q) < Rank(r)
        ensures !Contains(EndpointOf(r, e), EndpointOf(q, e))
      {
        if Contains(EndpointOf(r, e), EndpointOf(q, e)) {
          ContainsTransitive(dest, EndpointOf(r, e), EndpointOf(q, e));
        }
      }
    }
  }

  /**
   * With endpoints laid out as a path and its extension (the checksum
   * endpoint extending the persistent-schedule endpoint), no destination
   * reaches the checksum branch: every destination that contains the
   * checksum endpoint is taken by the persistent-schedule test first.
   */
  lemma ExtendedEndpointShadowed(dest: string, e: Endpoints)
    requires |e.persistentSchedule| <= |e.persistentMd5|
    requires e.persistentMd5[..|e.persistentSchedule|] == e.persistentSchedule
    ensures RetrieveRoute(dest, e) != PersistentMd5
  {
    assert OccursAt(e.persistentMd5, e.persistentSchedule, 0);
    if RetrieveRoute(dest, e) == PersistentMd5 {
      ContainsTransitive(dest, e.persistentMd5, e.persistentSchedule);
    }
  }

  /*-------------------------------------------------------------------------*/
  /*  wrp_process as a function                                              */
  /*-------------------------------------------------------------------------*/

  /** What a retrieve handler returns and leaves in the response's payload. */
  datatype Retrieved = Retrieved(rv: int, payload: Option<seq<byte>>)

  /** The results of the handlers, whose source is not part of this model. */
  datatype Handlers = Handlers(
    cu: int,                     // process_message_cu(data_file, md5_file, msg)
    retAll: string -> Retrieved, // process_message_ret_all(file, response)
    retNow: Retrieved            // process_message_ret_now(response)
  )

  /** The handler a call of `wrp_process` invoked, if any. */
  datatype Call = NoCall | CallCu | CallRetAll(file: string) | CallRetNow

  /** The result of `wrp_process`, the response, the request afterwards, and the handler invoked. */
  datatype Outcome = Outcome(rv: int, response: Msg, request: Msg, called: Call)

  /** The reply envelope: transaction id and path echoed, source and destination swapped. */
  predicate IsReplyTo(response: Msg, request: Msg)
  {
    && response.transactionUuid == request.transactionUuid
    && response.source == request.dest
    && response.dest == request.source
    && response.path == request.path
  }

  /** The request once its four string fields have been handed to the response. */
  function Released(m: Msg): Msg
  {
    m.(transactionUuid := None, source := None, dest := None, path := None)
  }

  /**
   * The handler chosen for a request of kind `t` to `dest`, what it returned
   * and the payload it left. When no handler is chosen the result is -1 and
   * there is no payload.
   */
  function Dispatch(dataFile: string, md5File: string, e: Endpoints, h: Handlers, t: MsgType, dest: string): (d: (Call, Retrieved))
    requires IsCrud(t)
    ensures d.0 == NoCall ==> d.1 == Retrieved(-1, None)
    // create and update: the schedule handler exactly when the destination names the schedule endpoint
    ensures !t.Retrieve? ==> (d.0 == CallCu || d.0 == NoCall) && (d.0 == CallCu <==> Contains(dest, e.schedule))
    ensures d.0 == CallCu ==> !t.Retrieve? && d.1 == Retrieved(h.cu, None)
    // retrieve: the handler of the first endpoint the destination contains, none for the bare schedule endpoint
    ensures t.Retrieve? ==> (d.0 == NoCall <==> RetrieveRoute(dest, e) == BareSchedule || RetrieveRoute(dest, e) == Invalid)
    ensures d.0.CallRetAll? ==>
      && t.Retrieve?
      && (RetrieveRoute(dest, e) == PersistentSchedule || RetrieveRoute(dest, e) == PersistentMd5)
      && d.0.file == (if RetrieveRoute(dest, e) == PersistentSchedule then dataFile else md5File)
      && d.1 == h.retAll(d.0.file)
    ensures d.0 == CallRetNow ==> t.Retrieve? && RetrieveRoute(dest, e) == Now && d.1 == h.retNow
  {
    if t.Retrieve? then
      match RetrieveRoute(dest, e)
      case PersistentSchedule => (CallRetAll(dataFile), h.retAll(dataFile))
      case PersistentMd5 => (CallRetAll(md5File), h.retAll(md5File))
      case Now => (CallRetNow, h.retNow)
      case BareSchedule => (NoCall, Retrieved(-1, None))  // not supported yet
      case Invalid => (NoCall, Retrieved(-1, None))
    else if Contains(dest, e.schedule) then (CallCu, Retrieved(h.cu, None))
    else (NoCall, Retrieved(-1, None))
  }

  /**
   * `wrp_process(data_file, md5_file, msg, response)`. `strstr` on a NULL
   * destination is undefined, so a handled request must carry one.
   */
  function Process(dataFile: string, md5File: string, e: Endpoints, h: Handlers, msg: Msg): (o: Outcome)
    requires IsCrud(msg.msgType) ==> msg.dest.Some?
    // an unhandled kind: zeroed response, request untouched, no handler, -1
    ensures !IsCrud(msg.msgType) ==> o == Outcome(-1, ZEROED, msg, NoCall)
    // a handled kind: reply envelope, kind, status 200 exactly on success, request released
    ensures IsCrud(msg.msgType) ==> IsReplyTo(o.response, msg) && o.response.msgType == msg.msgType
    ensures IsCrud(msg.msgType) ==> o.response.status == (if o.rv >= 0 then 200 else 400)
    ensures IsCrud(msg.msgType) ==> o.request == Released(msg)
    ensures IsCrud(msg.msgType) && o.called == NoCall ==> o.rv == -1 && o.response.status == 400 && o.response.payload == None
    // create and update: the schedule handler exactly when the destination names the schedule endpoint
    ensures msg.msgType.Create? || msg.msgType.Update? ==>
      && (o.called == CallCu <==> Contains(msg.dest.value, e.schedule))
      && (o.called == CallCu || o.called == NoCall)
      && (o.called == CallCu ==> o.rv == h.cu)
      && o.response.payload == None
    // retrieve: the first endpoint the destination contains picks the handler
    ensures msg.msgType.Retrieve? ==>
      var route := RetrieveRoute(msg.dest.value, e);
      && (o.called == NoCall <==> route == BareSchedule || route == Invalid)
      && (route == PersistentSchedule ==> o.called == CallRetAll(dataFile) && Retrieved(o.rv, o.response.payload) == h.retAll(dataFile))
      && (route == PersistentMd5 ==> o.called == CallRetAll(md5File) && Retrieved(o.rv, o.response.payload) == h.retAll(md5File))
      && (route == Now ==> o.called == CallRetNow && Retrieved(o.rv, o.response.payload) == h.retNow)
  {
    if !IsCrud(msg.msgType) then Outcome(-1, ZEROED, msg, NoCall)
    else
      var (called, result) := Dispatch(dataFile, md5File, e, h, msg.msgType, msg.dest.value);
      var reply := Msg(msg.msgType, msg.transactionUuid, msg.dest, msg.source, msg.path, result.payload,
                       if 0 <= result.rv then 200 else 400);
      Outcome(result.rv, reply, Released(msg), called)
  }

  /*-------------------------------------------------------------------------*/
  /*  The messages updated in place                                          */
  /*-------------------------------------------------------------------------*/

  /** A `wrp_msg_t` in memory, seen through its kind and CRUD payload. */
  class WrpMsg {
    var msgType: MsgType
    var transactionUuid: Option<string>
    var source: Option<string>
    var dest: Option<string>
    var path: Option<string>
    var payload: Option<seq<byte>>
    var status: int

    function Value(): Msg
      reads this
    {
      Msg(msgType, transactionUuid, source, dest, path, payload, status)
    }

    constructor (m: Msg)
      ensures Value() == m
    {
      msgType, transactionUuid, source, dest, path, payload, status :=
        m.msgType, m.transactionUuid, m.source, m.dest, m.path, m.payload, m.status;
    }
  }

  /**
   * `wrp_process`, writing `response` and clearing fields of `msg` in place;
   * `calls` lists the handlers invoked.
   */
  method WrpProcess(dataFile: string, md5File: string, e: Endpoints, h: Handlers, msg: WrpMsg, response: WrpMsg)
    returns (rv: int, ghost calls: seq<Call>)
    requires msg != response
    requires IsCrud(msg.msgType) ==> msg.dest.Some?
    modifies msg, response
    ensures var o := Process(dataFile, md5File, e, h, old(msg.Value()));
      && rv == o.rv
      && response.Value() == o.response
      && msg.Value() == o.request
      && calls == (if o.called == NoCall then [] else [o.called])
  {
    ghost var request := msg.Value();
    rv := -1;
    calls := [];
    // memset(response, 0, sizeof(wrp_msg_t))
    response.msgType, response.transactionUuid, response.source, response.dest := Unknown, None, None, None;
    response.path, response.payload, response.status := None, None, 0;
    if msg.msgType.Create? || msg.msgType.Update? {
      response.status := 400;
      response.msgType := msg.msgType;
      response.transactionUuid := msg.transactionUuid;
      response.source := msg.dest;
      response.dest := msg.source;
      response.path := msg.path;
      if Contains(msg.dest.value, e.schedule) {
        rv := h.cu;
        calls := calls + [CallCu];
      }
      if 0 <= rv {
        response.status := 200;
      }
      msg.transactionUuid, msg.source, msg.dest, msg.path := None, None, None, None;
      assert (if calls == [] then NoCall else calls[0], Retrieved(rv, response.payload))
          == Dispatch(dataFile, md5File, e, h, request.msgType, request.dest.value);
    } else if msg.msgType.Retrieve? {
      response.status := 400;
      response.msgType := Retrieve;
      response.transactionUuid := msg.transactionUuid;
      response.source := msg.dest;
      response.dest := msg.source;
      response.path := msg.path;
      var dest := msg.dest.value;
      if Contains(dest, e.persistentSchedule) {
        var got := h.retAll(dataFile);
        rv, response.payload := got.rv, got.payload;
        calls := calls + [CallRetAll(dataFile)];
      } else if Contains(dest, e.persistentMd5) {
        var got := h.retAll(md5File);
        rv, response.payload := got.rv, got.payload;
        calls := calls + [CallRetAll(md5File)];
      } else if Contains(dest, e.now) {
        var got := h.retNow;
        rv, response.payload := got.rv, got.payload;
        calls := calls + [CallRetNow];
      } else if Contains(dest, e.schedule) {
        // retrieving the bare schedule is not supported yet
      } else {
        // invalid destination
      }
      if 0 <= rv {
        response.status := 200;
      }
      msg.transactionUuid, msg.source, msg.dest, msg.path := None, None, None, None;
      assert (if calls == [] then NoCall else calls[0], Retrieved(rv, response.payload))
          == Dispatch(dataFile, md5File, e, h, request.msgType, request.dest.value);
    }
  }

  /**
   * `wrp_cleanup(message)`: 0 for a retrieve message, whose payload, when
   * present, is released (`freed`); -1 and nothing released otherwise. The
   * message itself is not changed, so its payload pointer still names the
   * released buffer.
   */
  method WrpCleanup(message: WrpMsg) returns (rv: int, ghost freed: Option<seq<byte>>)
    ensures rv == 0 <==> message.msgType.Retrieve?
    ensures rv == 0 || rv == -1
    ensures freed.Some? <==> message.msgType.Retrieve? && message.payload.Some?
    ensures freed.Some? ==> freed == message.payload
  {
    rv := -1;
    freed := None;
    if message.msgType.Retrieve? {
      if message.payload.Some? {
        freed := message.payload;  // aker_free(msg->payload)
      }
      rv := 0;
    }
  }
}
