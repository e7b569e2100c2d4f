/** The stats write handler: validates the report and overwrites the device's
    stats item wholesale. Nothing is merged with the previous item and no
    value is range-checked. */
module LaundryUpdateStats {

  import opened Options
  import opened GoStrconv
  import opened GoStrings
  import opened Api
  import opened Dynamo

  /** The decoded request body. totalSpent is a float64 in the program; here it
      is carried as the text strconv.FormatFloat(totalSpent, 'f', 2, 64) gives
      for it, which is all the handler stores. */
  datatype StatsBody = StatsBody(deviceId: string, totalSpent: string, numRuns: Int64, token: string)

  /** `{"ok": true, "lastUpdatedAt": …}`; the time goes out as the same
      string that is stored. */
  datatype Updated = Updated(lastUpdatedAt: string)

  /** The stats item: exactly four attributes, no token. */
  function StatsItem(deviceId: string, totalSpent: string, numRuns: Int64, now: Int64): (item: Item)
    ensures item.Keys == {KeyAttr, "totalSpent", "numRuns", "updatedAt"}
    ensures item[KeyAttr] == S(deviceId) && item["totalSpent"] == N(totalSpent)
    ensures item["numRuns"].N? && ParseInt(item["numRuns"].n) == Some(numRuns)
    ensures item["updatedAt"].N? && ParseInt(item["updatedAt"].n) == Some(now)
  {
    ParseFormatRoundTrip(numRuns);
    ParseFormatRoundTrip(now);
    map[KeyAttr := S(deviceId),
        "totalSpent" := N(totalSpent),
        "numRuns" := N(FormatInt(numRuns)),
        "updatedAt" := N(FormatInt(now))]
  }

  /** The whole handler on a table state. */
  function Update(items: map<string, Item>, table: string, secret: string, req: Decoded<StatsBody>,
                  now: Int64, putFailure: Option<string>): (o: Step<Reply<Updated>>)
    ensures req.InvalidJson? ==> o == Step(items, Error(400, "invalid json"))
    ensures req.Json? && !Authorized(req.value.token, secret) ==> o == Step(items, Error(401, "unauthorized"))
    ensures req.Json? && Authorized(req.value.token, secret) && AllSpace(req.value.deviceId) ==>
      o == Step(items, Error(400, "deviceId required"))
    ensures o.reply.status == 200 <==>
      req.Json? && Authorized(req.value.token, secret) && !AllSpace(req.value.deviceId) && putFailure.None?
    ensures o.reply.status != 200 ==> o.items == items
    ensures req.Json? && Authorized(req.value.token, secret) && !AllSpace(req.value.deviceId) && putFailure.Some? ==>
      o.reply == Reply(500, StoreFailed(putFailure.value, table))
    ensures o.reply.status == 200 ==>
      var b := req.value;
      var d := TrimSpace(b.deviceId);
      && o.items == items[d := StatsItem(d, b.totalSpent, b.numRuns, now)]
      && o.reply.body == Ok(Updated(FormatInt(now)))
      && ParseInt(o.reply.body.payload.lastUpdatedAt) == Some(now)
  {
    TrimSpaceEmptyIff(if req.Json? then req.value.deviceId else "");
    ParseFormatRoundTrip(now);
    if req.InvalidJson? then Step(items, Error(400, "invalid json"))
    else
      var b := req.value;
      var deviceId := TrimSpace(b.deviceId);
      if b.token == "" || secret == "" || !TimingSafeEq(b.token, secret) then Step(items, Error(401, "unauthorized"))
      else if deviceId == "" then Step(items, Error(400, "deviceId required"))
      else
        var updatedAt := FormatInt(now);
        if putFailure.Some? then Step(items, Reply(500, StoreFailed(putFailure.value, table)))
        else Step(items[deviceId := StatsItem(deviceId, b.totalSpent, b.numRuns, now)], Reply(200, Ok(Updated(updatedAt))))
  }

  /** The handler against the live table. */
  method Handle(t: Table, secret: string, req: Decoded<StatsBody>, now: Int64, putFailure: Option<string>)
    returns (r: Reply<Updated>)
    modifies t
    ensures t.items == Update(old(t.items), t.name, secret, req, now, putFailure).items
    ensures r == Update(old(t.items), t.name, secret, req, now, putFailure).reply
  {
    if req.InvalidJson? {
      return Error(400, "invalid json");
    }
    var b := req.value;
    var deviceId := TrimSpace(b.deviceId);
    if b.token == "" || secret == "" || !TimingSafeEq(b.token, secret) {
      return Error(401, "unauthorized");
    }
    if deviceId == "" {
      return Error(400, "deviceId required");
    }
    var updatedAt := FormatInt(now);
    var err := t.PutItem(deviceId, StatsItem(deviceId, b.totalSpent, b.numRuns, now), putFailure);
    if err.Some? {
      return Reply(500, StoreFailed(err.value, t.name));
    }
    return Reply(200, Ok(Updated(updatedAt)));
  }
}
