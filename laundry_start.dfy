/** The durable submit handler: validates a start request and replaces the
    device's item in the command table with a fresh, unserved command. */
module LaundryStart {

  import opened Options
  import opened GoStrconv
  import opened GoStrings
  import opened Api
  import opened Dynamo

  /** The decoded request body; the token is only ever read, never stored. */
  datatype StartBody = StartBody(deviceId: string, kind: string, durationMinutes: Int64, token: string)

  /** `{"ok": true, "createdAt": …}` */
  datatype Started = Started(createdAt: Int64)

  /** The outcome of the checks that precede the write. */
  datatype Checked =
    | Rejected(reply: Reply<Started>)
    | Accepted(deviceId: string, kind: string, durationMinutes: Int64)

  predicate IsCommandType(kind: string) { kind == "wash" || kind == "dry" }

  /** The validation chain: invalid JSON, then auth, then the trimmed id,
      the type and the duration, each failing with its own reply. */
  function Validate(req: Decoded<StartBody>, secret: string): (c: Checked)
    ensures req.InvalidJson? ==> c == Rejected(Error(400, "invalid json"))
    ensures req.Json? && !Authorized(req.value.token, secret) ==> c == Rejected(Error(401, "unauthorized"))
    ensures c.Rejected? && c.reply.status != 401 ==> c.reply.status == 400
    ensures c.Rejected? && req.Json? && c.reply.status == 400 ==> Authorized(req.value.token, secret)
    ensures req.Json? && Authorized(req.value.token, secret) && AllSpace(req.value.deviceId) ==>
      c == Rejected(Error(400, "deviceId required"))
    ensures (req.Json? && Authorized(req.value.token, secret) && !AllSpace(req.value.deviceId)
             && !IsCommandType(req.value.kind)) ==>
      c == Rejected(Error(400, "type must be wash or dry"))
    ensures (req.Json? && Authorized(req.value.token, secret) && !AllSpace(req.value.deviceId)
             && IsCommandType(req.value.kind) && req.value.durationMinutes <= 0) ==>
      c == Rejected(Error(400, "durationMinutes must be > 0"))
    ensures c.Accepted? <==>
      && req.Json?
      && Authorized(req.value.token, secret)
      && !AllSpace(req.value.deviceId)
      && IsCommandType(req.value.kind)
      && req.value.durationMinutes > 0
    ensures c.Accepted? ==>
      && c.deviceId == TrimSpace(req.value.deviceId) && c.deviceId != []
      && c.kind == req.value.kind
      && c.durationMinutes == req.value.durationMinutes
  {
    TrimSpaceEmptyIff(if req.Json? then req.value.deviceId else "");
    if req.InvalidJson? then Rejected(Error(400, "invalid json"))
    else
      var body := req.value;
      var deviceId := TrimSpace(body.deviceId);
      if body.token == "" || secret == "" || !TimingSafeEq(body.token, secret) then Rejected(Error(401, "unauthorized"))
      else if deviceId == "" then Rejected(Error(400, "deviceId required"))
      else if !IsCommandType(body.kind) then Rejected(Error(400, "type must be wash or dry"))
      else if body.durationMinutes <= 0 then Rejected(Error(400, "durationMinutes must be > 0"))
      else Accepted(deviceId, body.kind, body.durationMinutes)
  }

  /** The item written for an accepted command: exactly four attributes, with
      no "servedAt" tombstone and no token; numbers as base-10 text. */
  function StartItem(deviceId: string, kind: string, durationMinutes: Int64, now: Int64): (item: Item)
    ensures item.Keys == {KeyAttr, "type", "durationMinutes", "createdAt"}
    ensures "servedAt" !in item
    ensures item[KeyAttr] == S(deviceId) && item["type"] == S(kind)
    ensures item["durationMinutes"].N? && ParseInt(item["durationMinutes"].n) == Some(durationMinutes)
    ensures item["createdAt"].N? && ParseInt(item["createdAt"].n) == Some(now)
  {
    ParseFormatRoundTrip(durationMinutes);
    ParseFormatRoundTrip(now);
    map[KeyAttr := S(deviceId),
        "type" := S(kind),
        "durationMinutes" := N(FormatInt(durationMinutes)),
        "createdAt" := N(FormatInt(now))]
  }

  /** The whole handler on a table state: `now` is the clock reading and
      `putFailure` the error PutItem reports, if any. */
  function Start(items: map<string, Item>, table: string, secret: string, req: Decoded<StartBody>,
                 now: Int64, putFailure: Option<string>): (o: Step<Reply<Started>>)
    ensures o.reply.status == 200 <==> Validate(req, secret).Accepted? && putFailure.None?
    ensures o.reply.status != 200 ==> o.items == items
    ensures Validate(req, secret).Rejected? ==> o.reply == Validate(req, secret).reply
    ensures Validate(req, secret).Accepted? && putFailure.Some? ==>
      o.reply == Reply(500, StoreFailed(putFailure.value, table))
    ensures o.reply.status == 200 ==>
      var c := Validate(req, secret);
      && o.reply.body == Ok(Started(now))
      && o.items == items[c.deviceId := StartItem(c.deviceId, c.kind, c.durationMinutes, now)]
  {
    match Validate(req, secret)
    case Rejected(reply) => Step(items, reply)
    case Accepted(deviceId, kind, duration) =>
      if putFailure.Some? then Step(items, Reply(500, StoreFailed(putFailure.value, table)))
      else Step(items[deviceId := StartItem(deviceId, kind, duration, now)], Reply(200, Ok(Started(now))))
  }

  /** The handler against the live table. */
  method Handle(t: Table, secret: string, req: Decoded<StartBody>, now: Int64, putFailure: Option<string>)
    returns (r: Reply<Started>)
    modifies t
    ensures t.items == Start(old(t.items), t.name, secret, req, now, putFailure).items
    ensures r == Start(old(t.items), t.name, secret, req, now, putFailure).reply
  {
    var c := Validate(req, secret);
    if c.Rejected? {
      return c.reply;
    }
    var item := StartItem(c.deviceId, c.kind, c.durationMinutes, now);
    var err := t.PutItem(c.deviceId, item, putFailure);
    if err.Some? {
      return Reply(500, StoreFailed(err.value, t.name));
    }
    return Reply(200, Ok(Started(now)));
  }
}
