/** The in-process server: one command slot per device (last write wins) and
    a per-device watermark, the highest createdAt already handed out. A
    command is delivered iff its createdAt is above the watermark. The mutex
    only serialises calls; calls are modelled one after another. */
module VolatileMailbox {

  import opened Options
  import opened GoStrconv
  import opened Api

  /** The request and stored record; the token travels only in requests. */
  datatype Command = Command(deviceId: string, kind: string, durationMinutes: Int64, createdAt: Int64, token: string)

  /** `{"ok": true, "createdAt": …}` and `{"command": …}` (None is null). */
  datatype Payload = Started(createdAt: Int64) | Latest(command: Option<Command>)

  /** Both maps, as one value. */
  datatype State = State(latestByDevice: map<string, Command>, lastServedAt: map<string, Int64>)

  /** The watermark of a device: Go's zero value 0 when it has none. */
  function Watermark(st: State, deviceId: string): Int64
  {
    if deviceId in st.lastServedAt then st.lastServedAt[deviceId] else 0
  }

  /** The stored command has not been served yet. */
  predicate Deliverable(st: State, deviceId: string)
  {
    deviceId in st.latestByDevice && Watermark(st, deviceId) < st.latestByDevice[deviceId].createdAt
  }

  /** main.go's auth test: no empty-secret clause, but an empty secret can
      only equal an empty token, which is refused first. */
  predicate TokenAccepted(token: string, secret: string)
  {
    token != "" && TimingSafeEq(token, secret)
  }

  /** startMachine on the state: method, JSON, auth, then the untrimmed id,
      the type and the duration; on success the command is stored with the
      clock reading `now` as createdAt and an empty token. */
  function Submit(st: State, httpMethod: string, req: Decoded<Command>, secret: string, now: Int64)
    : (o: (State, Reply<Payload>))
    ensures httpMethod != "POST" ==> o == (st, Error(405, "method not allowed"))
    ensures httpMethod == "POST" && req.InvalidJson? ==> o == (st, Error(400, "invalid json"))
    ensures httpMethod == "POST" && req.Json? && !Authorized(req.value.token, secret) ==>
      o == (st, Error(401, "unauthorized"))
    ensures o.1.status == 400 && req.Json? ==> Authorized(req.value.token, secret)
    ensures (httpMethod == "POST" && req.Json? && Authorized(req.value.token, secret)
             && req.value.deviceId == "") ==>
      o == (st, Error(400, "deviceId required"))
    ensures (httpMethod == "POST" && req.Json? && Authorized(req.value.token, secret)
             && req.value.deviceId != "" && req.value.kind != "wash" && req.value.kind != "dry") ==>
      o == (st, Error(400, "type must be wash or dry"))
    ensures (httpMethod == "POST" && req.Json? && Authorized(req.value.token, secret)
             && req.value.deviceId != "" && (req.value.kind == "wash" || req.value.kind == "dry")
             && req.value.durationMinutes <= 0) ==>
      o == (st, Error(400, "duration must be greater than 0 minutes"))
    ensures o.1.status == 200 <==>
      && httpMethod == "POST" && req.Json?
      && Authorized(req.value.token, secret)
      && req.value.deviceId != ""
      && (req.value.kind == "wash" || req.value.kind == "dry")
      && req.value.durationMinutes > 0
    ensures o.1.status != 200 ==> o.0 == st && o.1.body.Failed?
    ensures o.1.status == 200 ==>
      var c := req.value;
      && o.1.body == Ok(Started(now))
      && o.0.latestByDevice == st.latestByDevice[c.deviceId := c.(createdAt := now, token := "")]
      && o.0.lastServedAt == st.lastServedAt
  {
    if httpMethod != "POST" then (st, Error(405, "method not allowed"))
    else if req.InvalidJson? then (st, Error(400, "invalid json"))
    else
      var cmd := req.value;
      if !TokenAccepted(cmd.token, secret) then (st, Error(401, "unauthorized"))
      else if cmd.deviceId == "" then (st, Error(400, "deviceId required"))
      else if cmd.kind != "wash" && cmd.kind != "dry" then (st, Error(400, "type must be wash or dry"))
      else if cmd.durationMinutes <= 0 then (st, Error(400, "duration must be greater than 0 minutes"))
      else
        var stored := cmd.(createdAt := now, token := "");
        (st.(latestByDevice := st.latestByDevice[cmd.deviceId := stored]), Reply(200, Ok(Started(now))))
  }

  /** getLatest on the state: method, then the id (checked before auth and
      never trimmed), then auth; then the serve-once decision. */
  function Take(st: State, httpMethod: string, deviceId: string, token: string, secret: string)
    : (o: (State, Reply<Payload>))
    ensures httpMethod != "GET" ==> o == (st, Error(405, "method not allowed"))
    ensures httpMethod == "GET" && deviceId == "" ==> o == (st, Error(400, "deviceId required"))
    ensures httpMethod == "GET" && deviceId != "" && !Authorized(token, secret) ==>
      o == (st, Error(401, "unauthorized"))
    ensures o.1.status == 200 <==> httpMethod == "GET" && deviceId != "" && Authorized(token, secret)
    ensures o.1.status != 200 ==> o.0 == st && o.1.body.Failed?
    ensures o.1.status == 200 ==> o.1.body.Ok? && o.1.body.payload.Latest?
    ensures o.1.status == 200 ==>
      (o.1.body.payload.command.Some? <==> Deliverable(st, deviceId))
    ensures o.1.status == 200 && o.1.body.payload.command.Some? ==>
      && o.1.body.payload.command.value == st.latestByDevice[deviceId]
      && o.0 == st.(lastServedAt := st.lastServedAt[deviceId := st.latestByDevice[deviceId].createdAt])
    ensures !(o.1.status == 200 && o.1.body.payload.command.Some?) ==> o.0 == st
    ensures o.0.latestByDevice == st.latestByDevice
    ensures forall d :: Watermark(st, d) <= Watermark(o.0, d)
  {
    if httpMethod != "GET" then (st, Error(405, "method not allowed"))
    else if deviceId == "" then (st, Error(400, "deviceId required"))
    else if !TokenAccepted(token, secret) then (st, Error(401, "unauthorized"))
    else if deviceId !in st.latestByDevice then (st, Reply(200, Ok(Latest(None))))
    else
      var cmd := st.latestByDevice[deviceId];
      if Watermark(st, deviceId) >= cmd.createdAt then (st, Reply(200, Ok(Latest(None))))
      else
        (st.(lastServedAt := st.lastServedAt[deviceId := cmd.createdAt]), Reply(200, Ok(Latest(Some(cmd)))))
  }

  /** The server's two maps, updated in place by its handlers. */
  class Mailbox {
    var latestByDevice: map<string, Command>
    var lastServedAt: map<string, Int64>

    function Snapshot(): State
      reads this
    {
      State(latestByDevice, lastServedAt)
    }

    constructor ()
      ensures latestByDevice == map[] && lastServedAt == map[]
    {
      latestByDevice := map[];
      lastServedAt := map[];
    }

    method StartMachine(httpMethod: string, req: Decoded<Command>, secret: string, now: Int64)
      returns (r: Reply<Payload>)
      modifies this
      ensures (Snapshot(), r) == Submit(old(Snapshot()), httpMethod, req, secret, now)
    {
      if httpMethod != "POST" {
        return Error(405, "method not allowed");
      }
      if req.InvalidJson? {
        return Error(400, "invalid json");
      }
      var cmd := req.value;
      if cmd.token == "" || !TimingSafeEq(cmd.token, secret) {
        return Error(401, "unauthorized");
      }
      if cmd.deviceId == "" {
        return Error(400, "deviceId required");
      }
      if cmd.kind != "wash" && cmd.kind != "dry" {
        return Error(400, "type must be wash or dry");
      }
      if cmd.durationMinutes <= 0 {
        return Error(400, "duration must be greater than 0 minutes");
      }
      cmd := cmd.(createdAt := now, token := "");
      latestByDevice := latestByDevice[cmd.deviceId := cmd];
      return Reply(200, Ok(Started(cmd.createdAt)));
    }

    method GetLatest(httpMethod: string, deviceId: string, token: string, secret: string)
      returns (r: Reply<Payload>)
      modifies this
      ensures (Snapshot(), r) == Take(old(Snapshot()), httpMethod, deviceId, token, secret)
    {
      if httpMethod != "GET" {
        return Error(405, "method not allowed");
      }
      if deviceId == "" {
        return Error(400, "deviceId required");
      }
      if token == "" || !TimingSafeEq(token, secret) {
        return Error(401, "unauthorized");
      }
      if deviceId !in latestByDevice {
        return Reply(200, Ok(Latest(None)));
      }
      var cmd := latestByDevice[deviceId];
      var served := if deviceId in lastServedAt then lastServedAt[deviceId] else 0;
      if served >= cmd.createdAt {
        return Reply(200, Ok(Latest(None)));
      }
      lastServedAt := lastServedAt[deviceId := cmd.createdAt];
      return Reply(200, Ok(Latest(Some(cmd))));
    }
  }

  /** One call to the server. */
  datatype Call =
    | SubmitCall(httpMethod: string, req: Decoded<Command>, now: Int64)
    | TakeCall(httpMethod: string, deviceId: string, token: string)

  function Apply(st: State, secret: string, call: Call): (o: (State, Reply<Payload>))
  {
    match call
    case SubmitCall(m, req, now) => Submit(st, m, req, secret, now)
    case TakeCall(m, d, token) => Take(st, m, d, token, secret)
  }

  /** The state after a sequence of calls, in order. */
  function Run(st: State, secret: string, calls: seq<Call>): State
    decreases |calls|
  {
    if calls == [] then st else Run(Apply(st, secret, calls[0]).0, secret, calls[1..])
  }

  /** The call hands this device its command. */
  predicate DeliversTo(o: (State, Reply<Payload>), call: Call, deviceId: string)
  {
    && call.TakeCall? && call.deviceId == deviceId
    && o.1.body.Ok? && o.1.body.payload.Latest? && o.1.body.payload.command.Some?
  }

  /** How many calls of the sequence hand this device a command. */
  function Deliveries(st: State, secret: string, calls: seq<Call>, deviceId: string): nat
    decreases |calls|
  {
    if calls == [] then 0
    else
      var o := Apply(st, secret, calls[0]);
      (if DeliversTo(o, calls[0], deviceId) then 1 else 0) + Deliveries(o.0, secret, calls[1..], deviceId)
  }

  /** The call could store a command for the device. */
  predicate SubmitsFor(call: Call, deviceId: string)
  {
    call.SubmitCall? && call.req.Json? && call.req.value.deviceId == deviceId
  }

  predicate NoSubmitFor(calls: seq<Call>, deviceId: string)
  {
    forall i :: 0 <= i < |calls| ==> !SubmitsFor(calls[i], deviceId)
  }

  /** lastServedAt[d] never decreases, whatever calls are made. */
  lemma {:induction false} WatermarkNeverDecreases(st: State, secret: string, calls: seq<Call>, deviceId: string)
    ensures Watermark(st, deviceId) <= Watermark(Run(st, secret, calls), deviceId)
    decreases |calls|
  {
    if calls != [] {
      var next := Apply(st, secret, calls[0]).0;
      assert Watermark(st, deviceId) <= Watermark(next, deviceId);
      WatermarkNeverDecreases(next, secret, calls[1..], deviceId);
    }
  }

  /** Two polls in a row for the same device never both return a command. */
  lemma ServeOnce(st: State, secret: string, method1: string, method2: string,
                  deviceId: string, token1: string, token2: string)
    ensures var o1 := Take(st, method1, deviceId, token1, secret);
            var o2 := Take(o1.0, method2, deviceId, token2, secret);
            !(DeliversTo(o1, TakeCall(method1, deviceId, token1), deviceId)
              && DeliversTo(o2, TakeCall(method2, deviceId, token2), deviceId))
  {
  }

  /** One call keeps an undeliverable device undeliverable and hands it
      nothing, unless the call is a submit for that device. */
  lemma StepKeepsSilent(st: State, secret: string, call: Call, deviceId: string)
    requires !Deliverable(st, deviceId) && !SubmitsFor(call, deviceId)
    ensures !Deliverable(Apply(st, secret, call).0, deviceId)
    ensures !DeliversTo(Apply(st, secret, call), call, deviceId)
  {
    var o := Apply(st, secret, call);
    assert Watermark(st, deviceId) <= Watermark(o.0, deviceId);
  }

  /** With nothing pending for the device and no submit for it, no call
      delivers to it and nothing becomes pending. */
  lemma {:induction false} SilentWithoutSubmit(st: State, secret: string, calls: seq<Call>, deviceId: string)
    requires !Deliverable(st, deviceId) && NoSubmitFor(calls, deviceId)
    ensures Deliveries(st, secret, calls, deviceId) == 0
    ensures !Deliverable(Run(st, secret, calls), deviceId)
    decreases |calls|
  {
    if calls != [] {
      StepKeepsSilent(st, secret, calls[0], deviceId);
      SilentWithoutSubmit(Apply(st, secret, calls[0]).0, secret, calls[1..], deviceId);
    }
  }

  /** Serve-once over any run: between two submits for a device, at most one
      poll hands it a command. */
  lemma {:induction false} AtMostOnceWithoutSubmit(st: State, secret: string, calls: seq<Call>, deviceId: string)
    requires NoSubmitFor(calls, deviceId)
    ensures Deliveries(st, secret, calls, deviceId) <= 1
    decreases |calls|
  {
    if calls != [] {
      var o := Apply(st, secret, calls[0]);
      if DeliversTo(o, calls[0], deviceId) {
        assert Watermark(o.0, deviceId) == o.0.latestByDevice[deviceId].createdAt;
        SilentWithoutSubmit(o.0, secret, calls[1..], deviceId);
      } else {
        AtMostOnceWithoutSubmit(o.0, secret, calls[1..], deviceId);
      }
    }
  }

  /** An accepted submit whose createdAt is above the device's watermark is
      delivered by the next authorised poll for that device, with the fields
      submitted, the clock reading and no token. */
  lemma FreshSubmitIsDelivered(st: State, req: Decoded<Command>, secret: string, now: Int64)
    requires Submit(st, "POST", req, secret, now).1.status == 200
    requires Watermark(st, req.value.deviceId) < now
    ensures var after := Submit(st, "POST", req, secret, now).0;
            var o := Take(after, "GET", req.value.deviceId, secret, secret);
            o.1 == Reply(200, Ok(Latest(Some(req.value.(createdAt := now, token := "")))))
  {
  }

  /** An accepted submit whose createdAt is at or below the device's
      watermark (a clock that repeats or steps back) is never delivered
      before the next submit for that device, although the submit reported
      success. */
  lemma StaleSubmitNeverDelivered(st: State, req: Decoded<Command>, secret: string, now: Int64, calls: seq<Call>)
    requires Submit(st, "POST", req, secret, now).1.status == 200
    requires now <= Watermark(st, req.value.deviceId)
    requires NoSubmitFor(calls, req.value.deviceId)
    ensures Deliveries(Submit(st, "POST", req, secret, now).0, secret, calls, req.value.deviceId) == 0
  {
    var after := Submit(st, "POST", req, secret, now).0;
    assert Watermark(after, req.value.deviceId) == Watermark(st, req.value.deviceId);
    SilentWithoutSubmit(after, secret, calls, req.value.deviceId);
  }
}
