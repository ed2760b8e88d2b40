/** frontend/src/components/LiveFeed.jsx: the dashboard's live feed. Each
    WebSocket message is parsed as JSON and put in front of the list, which
    keeps the ten most recent; each entry shows a label and a text. The
    socket itself and React's rendering are not modelled. */
module LiveFeed {
  import opened Py
  import opened Text
  import opened Json

  const FeedLimit: nat := 10
  const SystemLabel := "System"

  // ---------------------------------------------------------------------
  // The message buffer

  /** `setMessages(prev => [data, ...prev].slice(0, 10))`. */
  function OnMessage(prev: seq<Json>, data: Json): (r: seq<Json>)
    ensures |r| == Min(FeedLimit, |prev| + 1) && |r| <= FeedLimit
    ensures r[0] == data
    ensures r[1..] == prev[..|r| - 1]
  {
    var r := ([data] + prev)[..Min(FeedLimit, |prev| + 1)];
    assert r[1..] == prev[..|r| - 1];
    r
  }

  /** Below the limit nothing is dropped. */
  lemma NothingDroppedBelowLimit(prev: seq<Json>, data: Json)
    requires |prev| < FeedLimit
    ensures OnMessage(prev, data) == [data] + prev
  {
    var r := OnMessage(prev, data);
    assert r == [r[0]] + r[1..];
  }

  /** At the limit only the oldest message, the last one, is dropped. */
  lemma OldestDroppedAtLimit(prev: seq<Json>, data: Json)
    requires |prev| == FeedLimit
    ensures OnMessage(prev, data) == [data] + prev[..FeedLimit - 1]
  {
    var r := OnMessage(prev, data);
    assert r == [r[0]] + r[1..];
  }

  /** `xs` newest first. */
  function Reversed(xs: seq<Json>): (r: seq<Json>)
    ensures |r| == |xs|
  {
    if xs == [] then [] else [xs[|xs| - 1]] + Reversed(xs[..|xs| - 1])
  }

  /** The list after the messages `ms` arrived, in order, on an empty feed. */
  function Feed(ms: seq<Json>): (r: seq<Json>)
    ensures |r| <= FeedLimit
  {
    if ms == [] then [] else OnMessage(Feed(ms[..|ms| - 1]), ms[|ms| - 1])
  }

  /** The feed holds the last (at most) ten messages received, newest first. */
  lemma {:induction false} FeedIsLatest(ms: seq<Json>)
    ensures Feed(ms) == Reversed(ms)[..Min(FeedLimit, |ms|)]
  {
    if ms != [] {
      var n := |ms| - 1;
      var init := ms[..n];
      FeedIsLatest(init);
      var prev := Feed(init);
      var r := Feed(ms);
      assert r == OnMessage(prev, ms[n]);
      assert Reversed(ms) == [ms[n]] + Reversed(init);
      assert r == [r[0]] + r[1..];
      assert r[1..] == prev[..|r| - 1];
      assert prev[..|r| - 1] == Reversed(init)[..|r| - 1];
    }
  }

  // ---------------------------------------------------------------------
  // Rendering

  /** A JavaScript value read off a parsed message: a property that is not
      there is `undefined`. */
  datatype JsValue = Undefined | Defined(value: Json)

  /** JavaScript truthiness: unlike Python, `[]` and `{}` are true. */
  predicate JsTruthy(v: JsValue) {
    match v
    case Undefined => false
    case Defined(j) =>
      match j
      case JNull => false
      case JBool(b) => b
      case JNumber(n) => n != 0.0
      case JString(s) => s != ""
      case JArray(_) => true
      case JObject(_) => true
  }

  /** `msg.name` on a message that is not `null`: a missing property, and
      any property of a non-object, is `undefined`. */
  function Property(msg: Json, name: string): (v: JsValue)
    ensures v.Defined? <==> msg.JObject? && name in msg.fields
    ensures v.Defined? ==> v.value == msg.fields[name]
  {
    if msg.JObject? && name in msg.fields then Defined(msg.fields[name]) else Undefined
  }

  /** `a || b`. */
  function Or(a: JsValue, b: JsValue): JsValue {
    if JsTruthy(a) then a else b
  }

  /** One list entry: `{msg.source || "System"}: {msg.title || msg.url}`. */
  datatype Item = Item(caption: JsValue, text: JsValue)

  /** The entry for one message; reading a property of a `null` message
      throws `TypeError`. The caption is never falsy. */
  function RenderItem(msg: Json): (r: Result<Item>)
    ensures r.Raise? <==> msg.JNull?
    ensures r.Raise? ==> r.error == TypeError
    ensures r.Ok? ==> JsTruthy(r.value.caption)
    ensures r.Ok? && JsTruthy(Property(msg, "source")) ==> r.value.caption == Property(msg, "source")
    ensures r.Ok? && !JsTruthy(Property(msg, "source")) ==> r.value.caption == Defined(JString(SystemLabel))
    ensures r.Ok? && JsTruthy(Property(msg, "title")) ==> r.value.text == Property(msg, "title")
    ensures r.Ok? && !JsTruthy(Property(msg, "title")) ==> r.value.text == Property(msg, "url")
  {
    if msg.JNull? then Raise(TypeError)
    else Ok(Item(Or(Property(msg, "source"), Defined(JString(SystemLabel))),
                 Or(Property(msg, "title"), Property(msg, "url"))))
  }

  /** `messages.map(...)`: every entry, or the first exception thrown. */
  function RenderItems(messages: seq<Json>): (r: Result<seq<Item>>)
    ensures r.Raise? <==> JNull in messages
    ensures r.Ok? ==> |r.value| == |messages|
    ensures r.Ok? ==> forall i :: 0 <= i < |messages| ==> Ok(r.value[i]) == RenderItem(messages[i])
  {
    if messages == [] then Ok([])
    else
      var first :- RenderItem(messages[0]);
      var rest :- RenderItems(messages[1..]);
      assert messages == [messages[0]] + messages[1..];
      Ok([first] + rest)
  }

  /** The list: the placeholder, then the entries. */
  datatype View = View(placeholder: bool, items: seq<Item>)

  function Render(messages: seq<Json>): (r: Result<View>)
    ensures r.Ok? ==> (r.value.placeholder <==> messages == [])
    ensures r.Ok? ==> RenderItems(messages).Ok? && r.value.items == RenderItems(messages).value
    ensures r.Raise? <==> JNull in messages
  {
    var items :- RenderItems(messages);
    Ok(View(|messages| == 0, items))
  }

  /** Once a message has arrived the placeholder is gone for good, and the
      first entry shown is the newest message's. */
  lemma NewestShownFirst(prev: seq<Json>, data: Json)
    requires JNull !in prev && data != JNull
    ensures Render(OnMessage(prev, data)).Ok?
    ensures !Render(OnMessage(prev, data)).value.placeholder
    ensures Ok(Render(OnMessage(prev, data)).value.items[0]) == RenderItem(data)
  {
    var r := OnMessage(prev, data);
    assert forall i :: 1 <= i < |r| ==> r[i] == prev[i - 1];
    assert JNull !in r;
  }
}
