/** The durable poll handler: hands out the device's stored command once,
    then marks it with a "servedAt" tombstone. The tombstone write is best
    effort: its failure does not change the reply. */
module LaundryLatest {

  import opened Options
  import opened GoStrconv
  import opened GoStrings
  import opened Api
  import opened Dynamo

  datatype Command = Command(deviceId: string, kind: string, durationMinutes: Int64, createdAt: Int64)

  /** `{"command": …}`, with None as JSON null. */
  datatype Latest = Latest(command: Option<Command>)

  /** The length of the longest prefix of s made of ASCII digits. */
  function DigitRunLength(s: string): (k: nat)
    ensures k <= |s| && AllDigits(s[..k])
    ensures k < |s| ==> !IsDigit(s[k])
  {
    if s != [] && IsDigit(s[0]) then
      var k := 1 + DigitRunLength(s[1..]);
      assert s[..k] == [s[0]] + s[1..][..k - 1];
      k
    else 0
  }

  /** What mustInt64 computes: the decimal value of the leading run of digits,
      accumulated in int64 and so taken modulo 2^64. */
  function LeadingValue(s: string): (n: Int64)
    ensures (s == [] || !IsDigit(s[0])) ==> n == 0
  {
    Wrap64(DigitValue(s[..DigitRunLength(s)]))
  }

  /** mustInt64: reads digits until the first non-digit and ignores the rest. */
  method MustInt64(s: string) returns (n: Int64)
    ensures n == LeadingValue(s)
  {
    n := 0;
    var i := 0;
    while i < |s|
      invariant i <= DigitRunLength(s)
      invariant n == Wrap64(DigitValue(s[..i]))
    {
      var c := s[i];
      if c < '0' || c > '9' {
        break;
      }
      WrapAccumulate(DigitValue(s[..i]), DigitOf(c));
      assert s[..i + 1][..i] == s[..i];
      n := Add64(Mul64(n, 10), DigitOf(c));
      i := i + 1;
    }
  }

  /** mustInt64 reads a string of digits whose value fits in int64 exactly. */
  lemma LeadingValueOfAllDigits(s: string)
    requires AllDigits(s) && DigitValue(s) <= MaxInt64
    ensures LeadingValue(s) == DigitValue(s)
  {
    RunOfAllDigits(s);
    assert s[..|s|] == s;
  }

  /** A number attribute written as plain digits within int64 decodes to
      its value. */
  lemma NumberReadsBack(item: Item, attr: string)
    ensures (attr in item && item[attr].N? && AllDigits(item[attr].n) && DigitValue(item[attr].n) <= MaxInt64) ==>
      LeadingValue(item[attr].n) == DigitValue(item[attr].n)
  {
    if attr in item && item[attr].N? && AllDigits(item[attr].n) && DigitValue(item[attr].n) <= MaxInt64 {
      LeadingValueOfAllDigits(item[attr].n);
    }
  }

  /** mustInt64 reads back what strconv.FormatInt writes, for every
      non-negative int64. */
  lemma LeadingValueOfFormatInt(n: Int64)
    requires n >= 0
    ensures LeadingValue(FormatInt(n)) == n
  {
    DigitValueOfDigits(n);
    LeadingValueOfAllDigits(FormatInt(n));
  }

  lemma {:induction false} RunOfAllDigits(s: string)
    requires AllDigits(s)
    ensures DigitRunLength(s) == |s|
  {
    if s != [] {
      RunOfAllDigits(s[1..]);
    }
  }

  /** A negative number's text starts with '-', which mustInt64 reads as 0. */
  lemma LeadingValueOfNegative(n: Int64)
    requires n < 0
    ensures LeadingValue(FormatInt(n)) == 0
  {
  }

  /** The command built from a stored item: the device id is the one the
      caller asked for; type, duration and creation time come from attributes
      of the right kind (a string, a number), and default to "" and 0 when the
      attribute is missing or of another kind. A number stored as plain
      digits within int64 is read back exactly. */
  function DecodeCommand(deviceId: string, item: Item): (c: Command)
    ensures c.deviceId == deviceId
    ensures "type" in item && item["type"].S? ==> c.kind == item["type"].s
    ensures !("type" in item && item["type"].S?) ==> c.kind == ""
    ensures !("durationMinutes" in item && item["durationMinutes"].N?) ==> c.durationMinutes == 0
    ensures !("createdAt" in item && item["createdAt"].N?) ==> c.createdAt == 0
    ensures ("durationMinutes" in item && item["durationMinutes"].N? && AllDigits(item["durationMinutes"].n)
             && DigitValue(item["durationMinutes"].n) <= MaxInt64) ==>
      c.durationMinutes == DigitValue(item["durationMinutes"].n)
    ensures ("createdAt" in item && item["createdAt"].N? && AllDigits(item["createdAt"].n)
             && DigitValue(item["createdAt"].n) <= MaxInt64) ==>
      c.createdAt == DigitValue(item["createdAt"].n)
  {
    NumberReadsBack(item, "durationMinutes");
    NumberReadsBack(item, "createdAt");
    Command(
      deviceId,
      if "type" in item && item["type"].S? then item["type"].s else "",
      if "durationMinutes" in item && item["durationMinutes"].N? then LeadingValue(item["durationMinutes"].n) else 0,
      if "createdAt" in item && item["createdAt"].N? then LeadingValue(item["createdAt"].n) else 0)
  }

  /** Whether the item under deviceId is waiting to be delivered. */
  predicate Deliverable(items: map<string, Item>, deviceId: string)
  {
    deviceId in items && "servedAt" !in items[deviceId]
  }

  function Tombstoned(items: map<string, Item>, deviceId: string, now: Int64): map<string, Item>
  {
    SetAttribute(items, deviceId, "servedAt", N(FormatInt(now)))
  }

  /** The whole handler on a table state: `now` is the clock reading for the
      tombstone, `getFails` and `markFails` say whether GetItem and the
      tombstone's UpdateItem fail. */
  function Poll(items: map<string, Item>, secret: string, rawDeviceId: string, token: string,
                now: Int64, getFails: bool, markFails: bool): (o: Step<Reply<Latest>>)
    ensures AllSpace(rawDeviceId) ==> o == Step(items, Error(400, "deviceId required"))
    ensures !AllSpace(rawDeviceId) && !Authorized(token, secret) ==> o == Step(items, Error(401, "unauthorized"))
    ensures !AllSpace(rawDeviceId) && Authorized(token, secret) && getFails ==> o == Step(items, Error(500, "get failed"))
    ensures o.reply.status == 200 <==> !AllSpace(rawDeviceId) && Authorized(token, secret) && !getFails
    ensures o.reply.status != 200 ==> o.items == items && o.reply.body.Failed?
    ensures o.reply.status == 200 ==> o.reply.body.Ok?
    ensures o.reply.status == 200 ==>
      var d := TrimSpace(rawDeviceId);
      && (o.reply.body.payload.command.Some? <==> Deliverable(items, d))
      && (o.reply.body.payload.command.Some? ==> o.reply.body.payload.command.value == DecodeCommand(d, items[d]))
    ensures o.items != items ==> o.reply.body.Ok? && o.reply.body.payload.command.Some? && !markFails
    ensures o.reply.status == 200 && o.reply.body.payload.command.Some? && !markFails ==>
      o.items == Tombstoned(items, TrimSpace(rawDeviceId), now)
  {
    TrimSpaceEmptyIff(rawDeviceId);
    var deviceId := TrimSpace(rawDeviceId);
    if deviceId == "" then Step(items, Error(400, "deviceId required"))
    else if token == "" || secret == "" || !TimingSafeEq(token, secret) then Step(items, Error(401, "unauthorized"))
    else if getFails then Step(items, Error(500, "get failed"))
    else if deviceId !in items then Step(items, Reply(200, Ok(Latest(None))))
    else if "servedAt" in items[deviceId] then Step(items, Reply(200, Ok(Latest(None))))
    else
      var cmd := DecodeCommand(deviceId, items[deviceId]);
      var after := if markFails then items else Tombstoned(items, deviceId, now);
      Step(after, Reply(200, Ok(Latest(Some(cmd)))))
  }

  /** The handler against the live table. */
  method Handle(t: Table, secret: string, rawDeviceId: string, token: string,
                now: Int64, getFails: bool, markFails: bool) returns (r: Reply<Latest>)
    modifies t
    ensures t.items == Poll(old(t.items), secret, rawDeviceId, token, now, getFails, markFails).items
    ensures r == Poll(old(t.items), secret, rawDeviceId, token, now, getFails, markFails).reply
  {
    var deviceId := TrimSpace(rawDeviceId);
    if deviceId == "" {
      return Error(400, "deviceId required");
    }
    if token == "" || secret == "" || !TimingSafeEq(token, secret) {
      return Error(401, "unauthorized");
    }
    var out := t.GetItem(deviceId, getFails);
    if out.GetFailed? {
      return Error(500, "get failed");
    }
    if out.item.None? {
      return Reply(200, Ok(Latest(None)));
    }
    var item := out.item.value;
    if "servedAt" in item {
      return Reply(200, Ok(Latest(None)));
    }
    var kind := "";
    if "type" in item && item["type"].S? {
      kind := item["type"].s;
    }
    var duration := 0;
    if "durationMinutes" in item && item["durationMinutes"].N? {
      duration := MustInt64(item["durationMinutes"].n);
    }
    var createdAt := 0;
    if "createdAt" in item && item["createdAt"].N? {
      createdAt := MustInt64(item["createdAt"].n);
    }
    var cmd := Command(deviceId, kind, duration, createdAt);
    var _ := t.SetAttr(deviceId, "servedAt", N(FormatInt(now)), markFails);
    return Reply(200, Ok(Latest(Some(cmd))));
  }
}
