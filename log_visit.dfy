/** The visit-logging endpoint (src/app/api/log-visit/route.ts): choose the
    client IP from the proxy headers, build the visit record from the
    request body, and answer with the stored row or an error. */
module LogVisit {
  import opened Wrappers
  import JsString

  /** A JSON value as `request.json()` produces it. */
  datatype Json =
    | JNull
    | JBool(b: bool)
    | JNum(n: real)
    | JStr(s: string)
    | JArr(items: seq<Json>)
    | JObj(fields: map<string, Json>)

  /** The IP: the text before the first comma of a non-empty
      `x-forwarded-for` (untrimmed), else a non-empty `x-real-ip`, else
      "unknown". A missing header is `None`. */
  function ResolveIp(forwarded: Option<string>, realIp: Option<string>): string {
    if forwarded.Some? && forwarded.value != "" then JsString.BeforeFirst(forwarded.value, ',')
    else if realIp.Some? && realIp.value != "" then realIp.value
    else "unknown"
  }

  /** With a non-empty forwarded header the IP is its first entry: a prefix
      of the header holding no comma, followed in the header by a comma
      unless it is the whole header. */
  lemma ForwardedFirstEntry(forwarded: string, realIp: Option<string>)
    requires forwarded != ""
    ensures var ip := ResolveIp(Some(forwarded), realIp);
      && forwarded[..|ip|] == ip && ',' !in ip
      && (|ip| < |forwarded| ==> forwarded[|ip|] == ',')
      && (',' !in forwarded ==> ip == forwarded)
  {
    if ',' !in forwarded {
      JsString.BeforeFirstNoSep(forwarded, ',');
    }
  }

  /** The IP is empty exactly when the forwarded header starts with a
      comma; no header at all gives "unknown". */
  lemma EmptyIpIff(forwarded: Option<string>, realIp: Option<string>)
    ensures ResolveIp(forwarded, realIp) == "" <==> forwarded.Some? && |forwarded.value| > 0 && forwarded.value[0] == ','
    ensures ResolveIp(None, None) == "unknown"
  {
    if forwarded.Some? && forwarded.value != "" {
      var ip := ResolveIp(forwarded, realIp);
      if ip != "" {
        assert forwarded.value[0] == ip[0];
        assert ',' !in ip;
      }
    }
  }

  /** One decimal digit. */
  function Digit(d: nat): char
    requires d < 10
  {
    ('0' as int + d) as char
  }

  /** The property key of an array or string index: its decimal numeral. */
  function Decimal(n: nat): (r: string)
    ensures |r| >= 1
    ensures n >= 10 ==> |r| >= 2
    decreases n
  {
    if n < 10 then [Digit(n)] else Decimal(n / 10) + [Digit(n % 10)]
  }

  /** Distinct indexes have distinct keys. */
  lemma {:induction false} DecimalInjective(a: nat, b: nat)
    requires Decimal(a) == Decimal(b)
    ensures a == b
    decreases a
  {
    if a >= 10 && b >= 10 {
      var da, db := Decimal(a), Decimal(b);
      assert da[|da| - 1] == Digit(a % 10) && db[|db| - 1] == Digit(b % 10);
      assert da[..|da| - 1] == Decimal(a / 10) && db[..|db| - 1] == Decimal(b / 10);
      DecimalInjective(a / 10, b / 10);
    } else if a < 10 && b < 10 {
      assert Decimal(a)[0] == Digit(a);
    }
  }

  /** The own enumerable properties an object spread copies out of a
      value: an object's fields, an array's or a string's elements under
      their index keys, and nothing from `undefined`, `null`, a boolean or
      a number. */
  function SpreadEntries(v: Option<Json>): (m: map<string, Json>)
    ensures v.Some? && v.value.JObj? ==> m == v.value.fields
    ensures v.None? || v.value.JNull? || v.value.JBool? || v.value.JNum? ==> m == map[]
  {
    if v.None? then map[]
    else match v.value
      case JObj(fields) => fields
      case JArr(items) =>
        SpreadIndexed(|items|, i requires 0 <= i < |items| => items[i])
      case JStr(s) =>
        SpreadIndexed(|s|, i requires 0 <= i < |s| => JStr([s[i]]))
      case _ => map[]
  }

  /** `n` elements under the keys "0" … "n-1". */
  function SpreadIndexed(n: nat, element: int --> Json): (m: map<string, Json>)
    requires forall i :: 0 <= i < n ==> element.requires(i)
    ensures forall i :: 0 <= i < n ==> Decimal(i) in m && m[Decimal(i)] == element(i)
    ensures forall k :: k in m ==> exists i :: 0 <= i < n && k == Decimal(i)
  {
    if n == 0 then map[]
    else
      var m := SpreadIndexed(n - 1, element);
      assert forall i :: 0 <= i < n - 1 ==> Decimal(i) != Decimal(n - 1) by {
        forall i | 0 <= i < n - 1 && Decimal(i) == Decimal(n - 1) ensures false {
          DecimalInjective(i, n - 1);
        }
      }
      m[Decimal(n - 1) := element(n - 1)]
  }

  /** `{ ...location_data, ip_address: ip }`. */
  function LocationData(clientLocation: Option<Json>, ip: string): map<string, Json> {
    SpreadEntries(clientLocation)["ip_address" := JStr(ip)]
  }

  /** The resolved IP overrides any client value; every other key the
      client sent is kept with its value, and nothing else is added. */
  lemma LocationDataKeeps(clientLocation: Option<Json>, ip: string)
    ensures var loc := LocationData(clientLocation, ip);
      && loc["ip_address"] == JStr(ip)
      && loc.Keys == SpreadEntries(clientLocation).Keys + {"ip_address"}
      && (forall k :: k in SpreadEntries(clientLocation) && k != "ip_address" ==> loc[k] == SpreadEntries(clientLocation)[k])
    ensures clientLocation.Some? && clientLocation.value.JObj? ==>
      forall k :: k in clientLocation.value.fields && k != "ip_address" ==>
        LocationData(clientLocation, ip)[k] == clientLocation.value.fields[k]
  {
  }

  /** `VisitData` as the route builds it; a field the body lacks stays
      `undefined` (`None`). */
  datatype VisitData = VisitData(
    ipAddress: string,
    userAgent: Option<Json>,
    deviceType: Option<Json>,
    browser: Option<Json>,
    os: Option<Json>,
    locationData: map<string, Json>,
    pageUrl: Option<Json>,
    referrer: Option<Json>)

  /** A property read by the destructuring of the body. */
  function Field(body: Json, name: string): Option<Json> {
    if body.JObj? && name in body.fields then Some(body.fields[name]) else None
  }

  /** The record built from a body and the two proxy headers. */
  function BuildVisit(body: Json, forwarded: Option<string>, realIp: Option<string>): VisitData {
    var ip := ResolveIp(forwarded, realIp);
    VisitData(ip, Field(body, "user_agent"), Field(body, "device_type"), Field(body, "browser"),
              Field(body, "os"), LocationData(Field(body, "location_data"), ip),
              Field(body, "page_url"), Field(body, "referrer"))
  }

  /** The recorded IP comes from the proxy headers alone: whatever the
      client sends, including its own `ip_address` in the location data,
      the top-level IP and the location IP are the resolved one. */
  lemma IpFromHeadersOnly(body1: Json, body2: Json, forwarded: Option<string>, realIp: Option<string>)
    ensures BuildVisit(body1, forwarded, realIp).ipAddress == BuildVisit(body2, forwarded, realIp).ipAddress
    ensures BuildVisit(body1, forwarded, realIp).ipAddress == ResolveIp(forwarded, realIp)
    ensures BuildVisit(body1, forwarded, realIp).locationData["ip_address"] == JStr(ResolveIp(forwarded, realIp))
  {
  }

  /** The HTTP answer: a status and a JSON object. */
  datatype Reply = Reply(status: nat, body: map<string, Json>)

  const FailureReply := Reply(500, map["success" := JBool(false), "error" := JStr("Failed to log visit")])

  /** `POST`: `body` is what `request.json()` gave (`None` when it threw)
      and `stored` what inserting the record gave. Destructuring a `null`
      body throws. Returns the reply and the record sent to the store, if
      any. */
  function Post(body: Option<Json>, forwarded: Option<string>, realIp: Option<string>,
                stored: Result<Json, string>): (Reply, Option<VisitData>)
  {
    if body.None? || body.value.JNull? then (FailureReply, None)
    else
      var visit := BuildVisit(body.value, forwarded, realIp);
      if stored.Ok? then (Reply(200, map["success" := JBool(true), "data" := stored.value]), Some(visit))
      else (FailureReply, Some(visit))
  }

  /** The route succeeds exactly when the body was read and the insert
      succeeded; it then answers 200 with the stored row, and otherwise
      500 with `success: false`. Whenever a record is sent it is the one
      built from the body and headers. */
  lemma PostOutcome(body: Option<Json>, forwarded: Option<string>, realIp: Option<string>,
                    stored: Result<Json, string>)
    ensures var (reply, sent) := Post(body, forwarded, realIp, stored);
      && (reply.status == 200 <==> body.Some? && !body.value.JNull? && stored.Ok?)
      && (reply.status == 200 ==> reply.body.Keys == {"success", "data"})
      && (reply.status == 200 ==> reply.body["success"] == JBool(true) && reply.body["data"] == stored.value)
      && (reply.status != 200 ==> reply == FailureReply && reply.body["success"] == JBool(false))
      && (sent.Some? <==> body.Some? && !body.value.JNull?)
      && (sent.Some? ==> sent.value == BuildVisit(body.value, forwarded, realIp))
  {
  }
}
