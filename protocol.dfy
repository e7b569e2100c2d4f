/** How the handlers compose: the durable start/poll pair as a mailbox, the
    stats write/read pair as a round trip, and where the two mailbox
    backends part ways. */
module Protocol {

  import opened Options
  import opened GoStrconv
  import opened GoStrings
  import opened Api
  import opened Dynamo
  import LaundryStart
  import LaundryLatest
  import LaundryUpdateStats
  import LaundryGetStats
  import VolatileMailbox

  /** The poll decodes exactly what the start handler stored, as long as the
      clock reading is not negative (mustInt64 reads "-…" as 0). */
  lemma {:induction false} DecodeStartItem(deviceId: string, kind: string, duration: Int64, now: Int64)
    requires duration >= 0 && now >= 0
    ensures LaundryLatest.DecodeCommand(deviceId, LaundryStart.StartItem(deviceId, kind, duration, now))
         == LaundryLatest.Command(deviceId, kind, duration, now)
  {
    LaundryLatest.LeadingValueOfFormatInt(duration);
    LaundryLatest.LeadingValueOfFormatInt(now);
  }

  /** The items after an accepted start, and the poll that follows it. */
  function StartThenPoll(items: map<string, Item>, table: string, secret: string,
                         req: Decoded<LaundryStart.StartBody>, now: Int64,
                         rawDeviceId: string, pollNow: Int64, markFails: bool): Step<Reply<LaundryLatest.Latest>>
  {
    var started := LaundryStart.Start(items, table, secret, req, now, None);
    LaundryLatest.Poll(started.items, secret, rawDeviceId, secret, pollNow, false, markFails)
  }

  /** A successful start makes the device deliverable again, even if its
      previous command was served: the next authorised poll for the same
      trimmed id returns the submitted command with createdAt = now. */
  lemma StartThenPollDelivers(items: map<string, Item>, table: string, secret: string,
                              req: Decoded<LaundryStart.StartBody>, now: Int64,
                              rawDeviceId: string, pollNow: Int64, markFails: bool)
    requires LaundryStart.Validate(req, secret).Accepted?
    requires TrimSpace(rawDeviceId) == TrimSpace(req.value.deviceId)
    requires now >= 0
    ensures var c := LaundryStart.Validate(req, secret);
            StartThenPoll(items, table, secret, req, now, rawDeviceId, pollNow, markFails).reply
            == Reply(200, Ok(LaundryLatest.Latest(Some(LaundryLatest.Command(c.deviceId, c.kind, c.durationMinutes, now)))))
  {
    var c := LaundryStart.Validate(req, secret);
    TrimSpaceEmptyIff(rawDeviceId);
    DecodeStartItem(c.deviceId, c.kind, c.durationMinutes, now);
  }

  /** The durable serve-once rule: once a poll has delivered and its
      tombstone write went through, the next poll for the device returns
      null (or an error), never a command. */
  lemma ServedOnceWhenMarked(items: map<string, Item>, secret: string, rawDeviceId: string, token: string,
                             now: Int64, getFails: bool, rawDeviceId2: string, token2: string, now2: Int64,
                             getFails2: bool, markFails2: bool)
    requires TrimSpace(rawDeviceId2) == TrimSpace(rawDeviceId)
    ensures var o1 := LaundryLatest.Poll(items, secret, rawDeviceId, token, now, getFails, false);
            var o2 := LaundryLatest.Poll(o1.items, secret, rawDeviceId2, token2, now2, getFails2, markFails2);
            o1.reply.body.Ok? && o1.reply.body.payload.command.Some? ==>
              !(o2.reply.body.Ok? && o2.reply.body.payload.command.Some?)
  {
    var o1 := LaundryLatest.Poll(items, secret, rawDeviceId, token, now, getFails, false);
    var d := TrimSpace(rawDeviceId);
    if o1.reply.body.Ok? && o1.reply.body.payload.command.Some? {
      assert o1.items == LaundryLatest.Tombstoned(items, d, now);
      assert "servedAt" in o1.items[d];
    }
  }

  /** The accepted gap of the durable backend: when the tombstone write
      fails, the reply is unchanged and the next poll delivers the same
      command again. */
  lemma FailedMarkRedelivers(items: map<string, Item>, secret: string, rawDeviceId: string,
                             now: Int64, now2: Int64, markFails2: bool)
    ensures var o1 := LaundryLatest.Poll(items, secret, rawDeviceId, secret, now, false, true);
            var o2 := LaundryLatest.Poll(o1.items, secret, rawDeviceId, secret, now2, false, markFails2);
            && o1.reply == LaundryLatest.Poll(items, secret, rawDeviceId, secret, now, false, false).reply
            && o2.reply == o1.reply
  {
  }

  /** A stats write followed by a read of the same trimmed id returns the
      written values: the id, the stored totalSpent text (given that it parses
      as a float, as FormatFloat output does) and numRuns exactly, negative
      values included. */
  lemma UpdateThenGetRoundTrip(items: map<string, Item>, table: string, secret: string,
                               req: Decoded<LaundryUpdateStats.StatsBody>, now: Int64,
                               rawDeviceId: string, token: string, floatParses: string -> bool)
    requires req.Json? && Authorized(req.value.token, secret) && !AllSpace(req.value.deviceId)
    requires TrimSpace(rawDeviceId) == TrimSpace(req.value.deviceId)
    requires Authorized(token, secret)
    requires floatParses(req.value.totalSpent)
    ensures var written := LaundryUpdateStats.Update(items, table, secret, req, now, None).items;
            LaundryGetStats.GetStats(written, secret, rawDeviceId, token, false, floatParses)
            == Reply(200, Ok(LaundryGetStats.StatsView(TrimSpace(rawDeviceId), Some(req.value.totalSpent), req.value.numRuns)))
  {
    TrimSpaceEmptyIff(rawDeviceId);
    TrimSpaceEmptyIff(req.value.deviceId);
  }

  /** A stats write replaces the item whole: whatever the device's item held
      before (a "servedAt", an old "updatedAt", any other attribute), only
      the four written attributes remain. */
  lemma UpdateDoesNotMerge(items: map<string, Item>, table: string, secret: string,
                           req: Decoded<LaundryUpdateStats.StatsBody>, now: Int64, attr: string)
    requires req.Json? && Authorized(req.value.token, secret) && !AllSpace(req.value.deviceId)
    requires attr !in {KeyAttr, "totalSpent", "numRuns", "updatedAt"}
    ensures attr !in LaundryUpdateStats.Update(items, table, secret, req, now, None).items[TrimSpace(req.value.deviceId)]
  {
    var item := UpdateWrites(items, table, secret, req, now);
    assert item.Keys == {KeyAttr, "totalSpent", "numRuns", "updatedAt"};
  }

  /** The item an accepted stats write leaves under the trimmed id. */
  lemma UpdateWrites(items: map<string, Item>, table: string, secret: string,
                     req: Decoded<LaundryUpdateStats.StatsBody>, now: Int64) returns (item: Item)
    requires req.Json? && Authorized(req.value.token, secret) && !AllSpace(req.value.deviceId)
    ensures var d := TrimSpace(req.value.deviceId);
      && item == LaundryUpdateStats.StatsItem(d, req.value.totalSpent, req.value.numRuns, now)
      && LaundryUpdateStats.Update(items, table, secret, req, now, None).items == items[d := item]
  {
    var d := TrimSpace(req.value.deviceId);
    item := LaundryUpdateStats.StatsItem(d, req.value.totalSpent, req.value.numRuns, now);
    assert LaundryUpdateStats.Update(items, table, secret, req, now, None).reply.status == 200;
  }

  /** main.go's auth test and the serverless handlers' test accept the same
      tokens. */
  lemma AuthChecksAgree(token: string, secret: string)
    ensures VolatileMailbox.TokenAccepted(token, secret) == Authorized(token, secret)
  {
  }

  /** main.go never trims the id: an id made only of blanks is a valid
      device for the in-process server, while the serverless start handler
      rejects it with 400. */
  lemma BlankIdAcceptedOnlyInProcess(secret: string, now: Int64)
    requires secret != ""
    ensures var cmd := VolatileMailbox.Command(" ", "wash", 30, 0, secret);
            var st := VolatileMailbox.State(map[], map[]);
            VolatileMailbox.Submit(st, "POST", Json(cmd), secret, now).1.status == 200
    ensures LaundryStart.Start(map[], "", secret, Json(LaundryStart.StartBody(" ", "wash", 30, secret)), now, None).reply
            == Error(400, "deviceId required")
  {
    assert AllSpace(" ");
  }

  /** With a clock reading at or below the device's watermark, the
      in-process server accepts a start but never delivers it, while the
      durable backend delivers any accepted start. */
  lemma StaleClockDivergence(secret: string, now: Int64)
    requires secret != "" && 0 <= now
    ensures var st := VolatileMailbox.State(map[], map["D1" := now]);
            var cmd := VolatileMailbox.Command("D1", "wash", 30, 0, secret);
            var after := VolatileMailbox.Submit(st, "POST", Json(cmd), secret, now).0;
            VolatileMailbox.Take(after, "GET", "D1", secret, secret).1 == Reply(200, Ok(VolatileMailbox.Latest(None)))
    ensures var req := Json(LaundryStart.StartBody("D1", "wash", 30, secret));
            StartThenPoll(map[], "", secret, req, now, "D1", now, false).reply
            == Reply(200, Ok(LaundryLatest.Latest(Some(LaundryLatest.Command("D1", "wash", 30, now)))))
  {
    var st := VolatileMailbox.State(map[], map["D1" := now]);
    var cmd := VolatileMailbox.Command("D1", "wash", 30, 0, secret);
    var after := VolatileMailbox.Submit(st, "POST", Json(cmd), secret, now).0;
    assert after.latestByDevice["D1"].createdAt == now;
    assert !VolatileMailbox.Deliverable(after, "D1");
    var req := Json(LaundryStart.StartBody("D1", "wash", 30, secret));
    assert TrimSpace("D1") == "D1" by {
      assert !IsSpace("D1"[0]) && !IsSpace("D1"[1]);
    }
    StartThenPollDelivers(map[], "", secret, req, now, "D1", now, false);
  }
}
