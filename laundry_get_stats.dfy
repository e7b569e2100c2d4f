/** The stats read handler: looks up the device's stats item and decodes it.
    It only reads the table. */
module LaundryGetStats {

  import opened Options
  import opened GoStrconv
  import opened GoStrings
  import opened Api
  import opened Dynamo

  /** `{"deviceId": …, "totalSpent": …, "numRuns": …}`. totalSpent is the
      stored number text, or None when the item has no numeric totalSpent
      and the float field keeps its zero value. */
  datatype StatsView = StatsView(deviceId: string, totalSpent: Option<string>, numRuns: Int64)

  /** The handler on a table state. `getFails` says whether GetItem fails;
      `floatParses(v)` whether strconv.ParseFloat(v, 64) succeeds, which
      this model does not decide. */
  function GetStats(items: map<string, Item>, secret: string, rawDeviceId: string, token: string,
                    getFails: bool, floatParses: string -> bool): (r: Reply<StatsView>)
    ensures AllSpace(rawDeviceId) ==> r == Error(400, "deviceId required")
    ensures !AllSpace(rawDeviceId) && !Authorized(token, secret) ==> r == Error(401, "unauthorized")
    ensures r.status == 404 <==>
      !AllSpace(rawDeviceId) && Authorized(token, secret) && !getFails && TrimSpace(rawDeviceId) !in items
    ensures r.status == 200 <==>
      && !AllSpace(rawDeviceId) && Authorized(token, secret) && !getFails
      && var d := TrimSpace(rawDeviceId);
      && d in items
      && (("totalSpent" in items[d] && items[d]["totalSpent"].N?) ==> floatParses(items[d]["totalSpent"].n))
      && (("numRuns" in items[d] && items[d]["numRuns"].N?) ==> ParseInt(items[d]["numRuns"].n).Some?)
    ensures r.status == 200 ==>
      && r.body.Ok?
      && var d := TrimSpace(rawDeviceId);
      && var item := items[d];
      && r.body.payload.deviceId == d
      && (r.body.payload.totalSpent.Some? <==> "totalSpent" in item && item["totalSpent"].N?)
      && (r.body.payload.totalSpent.Some? ==> r.body.payload.totalSpent.value == item["totalSpent"].n)
      && ("numRuns" in item && item["numRuns"].N? ==> Some(r.body.payload.numRuns) == ParseInt(item["numRuns"].n))
      && (!("numRuns" in item && item["numRuns"].N?) ==> r.body.payload.numRuns == 0)
    ensures r.status != 200 ==> r.body.Failed?
    ensures !AllSpace(rawDeviceId) && Authorized(token, secret) && getFails ==> r == Error(500, "get failed")
    ensures var d := TrimSpace(rawDeviceId);
      (&& !AllSpace(rawDeviceId) && Authorized(token, secret) && !getFails
       && d in items && "totalSpent" in items[d] && items[d]["totalSpent"].N?
       && !floatParses(items[d]["totalSpent"].n))
      ==> r == Error(500, "float conversion failed")
    ensures var d := TrimSpace(rawDeviceId);
      (&& !AllSpace(rawDeviceId) && Authorized(token, secret) && !getFails
       && d in items && !("totalSpent" in items[d] && items[d]["totalSpent"].N? && !floatParses(items[d]["totalSpent"].n))
       && "numRuns" in items[d] && items[d]["numRuns"].N? && ParseInt(items[d]["numRuns"].n).None?)
      ==> r == Error(500, "int conversion failed")
  {
    TrimSpaceEmptyIff(rawDeviceId);
    var deviceId := TrimSpace(rawDeviceId);
    if deviceId == "" then Error(400, "deviceId required")
    else if token == "" || secret == "" || !TimingSafeEq(token, secret) then Error(401, "unauthorized")
    else if getFails then Error(500, "get failed")
    else if deviceId !in items then Error(404, "not found")
    else
      var item := items[deviceId];
      var total :=
        if "totalSpent" in item && item["totalSpent"].N? then Some(item["totalSpent"].n) else None;
      if total.Some? && !floatParses(total.value) then Error(500, "float conversion failed")
      else
        var runs :=
          if "numRuns" in item && item["numRuns"].N? then ParseInt(item["numRuns"].n) else Some(0);
        if runs.None? then Error(500, "int conversion failed")
        else Reply(200, Ok(StatsView(deviceId, total, runs.value)))
  }
}
