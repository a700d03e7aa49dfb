/** The payment provider's webhook (app/api/webhook/lemonsqueezy/route.js):
    authenticate the raw body against the `x-signature` header, then on
    `order_created` grant access to the user named in the payload and record
    the purchased variant. The HMAC-SHA256 hex digest, `JSON.parse` and the
    store's update error are parameters. */
module Webhook {
  import opened Js
  import opened Records
  import Billing

  /** The HTTP answer: 200 `{received: true}`, 400 `{error: "Invalid signature"}`,
      or an exception escaping the handler (a 500 from the framework). */
  datatype Response = Received | InvalidSignature | Thrown(reason: string)

  /** What the handler reads from a parsed payload. */
  datatype Event = Order(userId: JsValue, priceId: string) | OtherEvent

  /** `crypto.timingSafeEqual(Buffer.from(digest), Buffer.from(signature))`:
      a RangeError when the UTF-8 byte lengths differ, otherwise byte equality,
      which for UTF-8 is string equality. */
  function SignatureMatches(digest: string, signature: string): (r: Result<bool>)
    ensures r.Err? <==> Utf8Length(digest) != Utf8Length(signature)
    ensures r == Ok(true) <==> digest == signature
  {
    if Utf8Length(digest) != Utf8Length(signature) then Err("RangeError: Input buffers must have the same byte length")
    else Ok(digest == signature)
  }

  /** The property reads of the handler, in the order it performs them;
      any read through null or undefined is a TypeError. `custom_data.user_id`
      is read for every event, not only for orders. */
  function ReadEvent(payload: JsValue): (r: Result<Event>)
    ensures r.Ok? ==> !IsNullish(payload) && Get(payload, "meta").Some? && !IsNullish(Get(payload, "meta").value)
    ensures var meta := GetOpt(payload, "meta");
            var attributes := GetOpt(GetOpt(payload, "data"), "attributes");
            r.Ok? <==>
              && !IsNullish(meta)
              && !IsNullish(GetOpt(meta, "custom_data"))
              && (GetOpt(meta, "event_name") == JStr("order_created") ==>
                    !IsNullish(attributes) && !IsNullish(GetOpt(attributes, "variant_id")))
    ensures r.Ok? ==> (r.value.Order? <==> GetOpt(GetOpt(payload, "meta"), "event_name") == JStr("order_created"))
    ensures r.Ok? && r.value.Order? ==>
              var variantId := GetOpt(GetOpt(GetOpt(payload, "data"), "attributes"), "variant_id");
              && r.value.userId == GetOpt(GetOpt(GetOpt(payload, "meta"), "custom_data"), "user_id")
              && !IsNullish(variantId)
              && r.value.priceId == JsToString(variantId)
  {
    var meta :- Prop(payload, "meta");
    var eventName :- Prop(meta, "event_name");
    var customData := GetOpt(meta, "custom_data");  // meta is known not to be nullish
    var userId :- Prop(customData, "user_id");
    if eventName == JStr("order_created") then
      var data := GetOpt(payload, "data");  // payload is known not to be nullish
      var attributes :- Prop(data, "attributes");
      var variantId :- Prop(attributes, "variant_id");
      if IsNullish(variantId) then Err("TypeError: cannot read properties of undefined (reading 'toString')")
      else Ok(Order(userId, JsToString(variantId)))
    else Ok(OtherEvent)
  }

  /** The payload the provider sends for an order. */
  function OrderPayload(userId: string, variantId: int): JsValue {
    JObj(map[
      "meta" := JObj(map["event_name" := JStr("order_created"),
                         "custom_data" := JObj(map["user_id" := JStr(userId)])]),
      "data" := JObj(map["attributes" := JObj(map["variant_id" := JNum(variantId)])])])
  }

  /** An order payload is read back as the order of that user and that variant,
      printed in decimal. */
  lemma ReadOrderPayload(userId: string, variantId: int)
    ensures ReadEvent(OrderPayload(userId, variantId)) == Ok(Order(JStr(userId), IntToString(variantId)))
  {
    var payload := OrderPayload(userId, variantId);
    var meta := payload.fields["meta"];
    assert Prop(payload, "meta") == Ok(meta);
    assert Prop(meta, "event_name") == Ok(JStr("order_created"));
    assert Prop(GetOpt(meta, "custom_data"), "user_id") == Ok(JStr(userId));
    var attributes := payload.fields["data"].fields["attributes"];
    assert Prop(GetOpt(payload, "data"), "attributes") == Ok(attributes);
    assert Prop(attributes, "variant_id") == Ok(JNum(variantId));
  }

  /** Any other event name is read as `OtherEvent`, provided `custom_data` is an
      object; without `custom_data` even such an event throws. */
  lemma ReadOtherEvent(name: string, customData: map<string, JsValue>)
    requires name != "order_created"
    ensures var meta := JObj(map["event_name" := JStr(name), "custom_data" := JObj(customData)]);
            ReadEvent(JObj(map["meta" := meta])) == Ok(OtherEvent)
    ensures ReadEvent(JObj(map["meta" := JObj(map["event_name" := JStr(name)])])).Err?
  {
  }

  /** `update({has_access: true, price_id}).eq("id", userId)`: the profile with
      that id, if any, gets access and the price id; nothing else changes. A
      user id that is not a string matches no row. */
  function ApplyOrder(rows: map<string, ProfileRow>, userId: JsValue, priceId: string)
    : (r: map<string, ProfileRow>)
    ensures r.Keys == rows.Keys
    ensures forall k :: k in rows && userId != JStr(k) ==> r[k] == rows[k]
    ensures userId.JStr? && userId.s in rows ==>
              r[userId.s] == rows[userId.s].(hasAccess := true, priceId := Some(priceId))
  {
    if userId.JStr? && userId.s in rows then
      rows[userId.s := rows[userId.s].(hasAccess := true, priceId := Some(priceId))]
    else rows
  }

  /** Replaying an order leaves the table as the first delivery left it. */
  lemma ApplyOrderIdempotent(rows: map<string, ProfileRow>, userId: JsValue, priceId: string)
    ensures ApplyOrder(ApplyOrder(rows, userId, priceId), userId, priceId) == ApplyOrder(rows, userId, priceId)
  {
    var once := ApplyOrder(rows, userId, priceId);
    var twice := ApplyOrder(once, userId, priceId);
    assert forall k :: k in twice ==> twice[k] == once[k];
  }

  /** The response of `POST` for a request, in the order the handler checks:
      a missing secret or header throws in `createHmac` or `Buffer.from`; then
      the length check, the signature, `JSON.parse` and the payload reads. */
  function Verdict(body: string, signature: Option<string>, secret: Option<string>,
                   hmacHex: (string, string) -> string, parse: string -> Option<JsValue>): (r: Response)
    ensures r == Received <==>
              secret.Some? && signature == Some(hmacHex(secret.value, body)) &&
              parse(body).Some? && ReadEvent(parse(body).value).Ok?
    ensures r == InvalidSignature <==>
              secret.Some? && signature.Some? &&
              SignatureMatches(hmacHex(secret.value, body), signature.value) == Ok(false)
  {
    if secret.None? then Thrown("TypeError: secret must be a string")
    else if signature.None? then Thrown("TypeError: the first argument must be a string")
    else
      match SignatureMatches(hmacHex(secret.value, body), signature.value)
      case Err(e) => Thrown(e)
      case Ok(false) => InvalidSignature
      case Ok(true) =>
        match parse(body)
        case None => Thrown("SyntaxError: Unexpected token in JSON")
        case Some(payload) =>
          match ReadEvent(payload)
          case Err(e) => Thrown(e)
          case Ok(_) => Received
  }

  /** A request signed with the shared secret and carrying an order payload is
      accepted. */
  lemma SignedOrderAccepted(body: string, secret: string, hmacHex: (string, string) -> string,
                            parse: string -> Option<JsValue>, userId: string, variantId: int)
    requires parse(body) == Some(OrderPayload(userId, variantId))
    ensures Verdict(body, Some(hmacHex(secret, body)), Some(secret), hmacHex, parse) == Received
  {
    ReadOrderPayload(userId, variantId);
  }

  /** A signature of a different UTF-8 length is not a 400 but an exception. */
  lemma LengthMismatchThrows(body: string, signature: string, secret: string,
                             hmacHex: (string, string) -> string, parse: string -> Option<JsValue>)
    requires Utf8Length(hmacHex(secret, body)) != Utf8Length(signature)
    ensures Verdict(body, Some(signature), Some(secret), hmacHex, parse).Thrown?
  {
  }

  /** The price id the webhook stores is a decimal numeral, which none of the
      billing page's configured variant ids is: after a purchase the billing
      page finds no plan for the profile. */
  lemma StoredPriceMatchesNoConfiguredPlan(dev: bool, variantId: int)
    ensures Billing.FindPlan(Billing.Plans(dev), Billing.PStr(IntToString(variantId))) == None
  {
    var s := IntToString(variantId);
    assert s[0] != 'V' by {
      if variantId >= 0 {
        assert IsDigit(NatToString(variantId)[0]);
      }
    }
    var ps := Billing.Plans(dev);
    assert ps[0].variantId.s[0] == 'V' && ps[1].variantId.s[0] == 'V';
    assert !Billing.Matches(ps[0], Billing.PStr(s)) && !Billing.Matches(ps[1], Billing.PStr(s));
  }

  /** The `profiles` table, keyed by user id. */
  class ProfileTable {
    var rows: map<string, ProfileRow>

    constructor(initial: map<string, ProfileRow>)
      ensures rows == initial
    {
      rows := initial;
    }

    /** `POST(req)`. Only an accepted order whose update succeeds changes the
        table; a failed update is only logged and still answers `Received`. */
    method Post(body: string, signature: Option<string>, secret: Option<string>,
                hmacHex: (string, string) -> string, parse: string -> Option<JsValue>,
                updateFails: bool) returns (resp: Response)
      modifies this
      ensures resp == Verdict(body, signature, secret, hmacHex, parse)
      ensures resp == Received && !updateFails && ReadEvent(parse(body).value).value.Order? ==>
                var ev := ReadEvent(parse(body).value).value;
                rows == ApplyOrder(old(rows), ev.userId, ev.priceId)
      ensures resp != Received || updateFails || ReadEvent(parse(body).value).value.OtherEvent? ==>
                rows == old(rows)
    {
      if secret.None? {
        return Thrown("TypeError: secret must be a string");
      }
      var digest := hmacHex(secret.value, body);
      if signature.None? {
        return Thrown("TypeError: the first argument must be a string");
      }
      var check := SignatureMatches(digest, signature.value);
      if check.Err? {
        return Thrown(check.message);
      }
      if !check.value {
        return InvalidSignature;
      }
      var payload := parse(body);
      if payload.None? {
        return Thrown("SyntaxError: Unexpected token in JSON");
      }
      var event := ReadEvent(payload.value);
      if event.Err? {
        return Thrown(event.message);
      }
      if event.value.Order? && !updateFails {
        rows := ApplyOrder(rows, event.value.userId, event.value.priceId);
      }
      resp := Received;
    }
  }
}
