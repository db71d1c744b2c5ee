/** The `WebSocket.prototype.send` wrapper of the script content.js injects:
    decode the payload to text, look for the `"media":` marker, parse, add
    `media.ttl_seconds = 10` when it is falsy, and forward exactly one
    payload to the original `send`. UTF-8 decoding and JSON parsing and
    serialisation are foreign and enter as functions. */
module SocketSend {
  import opened Wrappers
  import opened JsValue
  import opened MediaRules

  newtype byte = x: int | 0 <= x < 256

  /** The marker substring, `"media":` with its quotes. */
  const JSON_MEDIA_KEY: string := "\"media\":"

  /** The argument of `send`: a string, an ArrayBuffer, or any other kind
      (Blob, typed-array view), identified only by a handle. */
  datatype Payload = Text(text: string) | Buffer(bytes: seq<byte>) | Other(handle: nat)

  /** `new TextDecoder().decode`, `JSON.parse` (None when it throws) and
      `JSON.stringify`. */
  datatype Foreign = Foreign(decode: seq<byte> -> string, parse: string -> Option<Value>, stringify: Value -> string)

  /** The text the wrapper inspects: the string itself, the decoded buffer,
      or nothing for other kinds. */
  function PayloadText(data: Payload, f: Foreign): (r: Option<string>)
    ensures data.Other? <==> r.None?
    ensures data.Text? ==> r == Some(data.text)
    ensures data.Buffer? ==> r == Some(f.decode(data.bytes))
  {
    match data
    case Text(s) => Some(s)
    case Buffer(bytes) => Some(f.decode(bytes))
    case Other(_) => None
  }

  /** The parsed message, once `obj.media.ttl_seconds = 10` has run. The
      wrapper runs the assignment only behind its `obj.media &&` guard. */
  function WithTtl(obj: Value): (r: Value)
    requires obj.Obj? && Truthy(GetProp(obj, "media"))
    ensures r.Obj? && r.fields.Keys == obj.fields.Keys
    ensures GetProp(obj, "media").Obj? ==>
      r.fields["media"] == Obj(GetProp(obj, "media").fields["ttl_seconds" := Num(TTL_SECONDS)])
    ensures !GetProp(obj, "media").Obj? ==> r == obj
    ensures forall k :: k in obj.fields && k != "media" ==> r.fields[k] == obj.fields[k]
    ensures IsJson(obj) ==> IsJson(r)
  {
    var media := GetProp(obj, "media");
    assert IsJson(obj) ==> IsJson(media);
    Obj(obj.fields["media" := SetProp(media, "ttl_seconds", Num(TTL_SECONDS))])
  }

  /** The condition under which the wrapper replaces the payload: a parsed
      object whose `media` is truthy with a falsy `ttl_seconds`. */
  predicate NeedsTtl(obj: Value) {
    obj.Obj? && Truthy(GetProp(obj, "media")) && !Truthy(GetProp(GetProp(obj, "media"), "ttl_seconds"))
  }

  /** The payload handed to the original `send`. Every failure (a parse
      error, `null.media`) is swallowed and the original payload goes out. */
  function Forwarded(data: Payload, f: Foreign): (r: Payload)
    ensures r == data || r.Text?
    ensures r != data ==> PayloadText(data, f).Some? && Contains(PayloadText(data, f).value, JSON_MEDIA_KEY)
  {
    var text := PayloadText(data, f);
    if text.Some? && Truthy(Str(text.value)) && Contains(text.value, JSON_MEDIA_KEY) then
      match f.parse(text.value)
      case None => data
      case Some(obj) =>
        if obj.Null? || obj.Undefined? then data  // reading `.media` throws
        else if NeedsTtl(obj) then Text(f.stringify(WithTtl(obj)))
        else data
    else
      data
  }

  /** One call of the wrapper: the payloads passed to the original `send`
      in order, and the value the wrapper returns. */
  datatype SendCall<R> = SendCall(forwarded: seq<Payload>, result: R)

  /** The installed wrapper: exactly one forwarded call, with the original
      or the rewritten payload, and the original's return value. */
  function SendHook<R>(data: Payload, f: Foreign, origSend: Payload -> R): (c: SendCall<R>)
    ensures c.forwarded == [Forwarded(data, f)]
    ensures c.result == origSend(c.forwarded[0])
  {
    var payload := Forwarded(data, f);
    SendCall([payload], origSend(payload))
  }

  /** Payloads that are neither strings nor ArrayBuffers, and texts without
      the marker, go out untouched. */
  lemma PassThrough(data: Payload, f: Foreign)
    requires data.Other? || !Contains(PayloadText(data, f).value, JSON_MEDIA_KEY)
    ensures Forwarded(data, f) == data
  {
  }

  /** A marker-carrying text that does not parse goes out untouched. */
  lemma ParseFailureForwardsOriginal(data: Payload, f: Foreign)
    requires PayloadText(data, f).Some?
    requires f.parse(PayloadText(data, f).value).None?
    ensures Forwarded(data, f) == data
  {
  }

  /** A parsed message whose `media` needs a time-to-live goes out as the
      serialisation of the message with `media.ttl_seconds = 10`; for an
      object `media` that key is the only change, and for any other truthy
      `media` the sloppy-mode write is dropped, so the message is
      re-serialised as parsed. A rewritten ArrayBuffer goes out as a
      string. */
  lemma Rewrite(data: Payload, f: Foreign)
    requires PayloadText(data, f).Some?
    requires Contains(PayloadText(data, f).value, JSON_MEDIA_KEY)
    requires f.parse(PayloadText(data, f).value).Some?
    requires NeedsTtl(f.parse(PayloadText(data, f).value).value)
    ensures var obj := f.parse(PayloadText(data, f).value).value;
            var media := GetProp(obj, "media");
            && Forwarded(data, f) == Text(f.stringify(WithTtl(obj)))
            && (media.Obj? ==> WithTtl(obj) == Obj(obj.fields["media" := Obj(media.fields["ttl_seconds" := Num(TTL_SECONDS)])]))
            && (!media.Obj? ==> Forwarded(data, f) == Text(f.stringify(obj)))
  {
    ContainsNonEmpty(PayloadText(data, f).value, JSON_MEDIA_KEY);
  }

  /** No rewrite when `media.ttl_seconds` is already truthy or the top-level
      `media` is falsy, wherever else the marker appears. */
  lemma NoRewriteWithoutNeed(data: Payload, f: Foreign)
    requires PayloadText(data, f).Some?
    requires f.parse(PayloadText(data, f).value).Some?
    requires var obj := f.parse(PayloadText(data, f).value).value;
             !Truthy(GetProp(obj, "media")) || Truthy(GetProp(GetProp(obj, "media"), "ttl_seconds"))
    ensures Forwarded(data, f) == data
  {
  }

  /** The foreign JSON pair behaves like JSON: the parser yields only JSON
      values, and it reads back what the serialiser wrote for a JSON object. */
  ghost predicate JsonRoundTrips(f: Foreign) {
    && (forall s :: f.parse(s).Some? ==> IsJson(f.parse(s).value))
    && (forall v: Value :: v.Obj? && IsJson(v) ==> f.parse(f.stringify(v)) == Some(v))
  }

  /** The wrapper is idempotent through serialisation: with a JSON pair that
      round-trips, sending the forwarded payload again forwards it
      unchanged. */
  lemma {:induction false} RewriteIdempotent(data: Payload, f: Foreign)
    requires JsonRoundTrips(f)
    ensures Forwarded(Forwarded(data, f), f) == Forwarded(data, f)
  {
    var r := Forwarded(data, f);
    if r != data {
      var obj := f.parse(PayloadText(data, f).value).value;
      var obj' := WithTtl(obj);
      assert IsJson(obj);
      assert r == Text(f.stringify(obj'));
      assert f.parse(r.text) == Some(obj');
      var media := GetProp(obj, "media");
      if media.Obj? {
        assert GetProp(GetProp(obj', "media"), "ttl_seconds") == Num(TTL_SECONDS);
      } else {
        assert WithTtl(obj') == obj';
      }
    }
  }

  /** The end-to-end example: `{"media":{"file":"X"}}` without a
      time-to-live goes out as the serialisation of
      `{"media":{"file":"X","ttl_seconds":10}}`. */
  lemma MediaExample(s: string, f: Foreign)
    requires Contains(s, JSON_MEDIA_KEY)
    requires f.parse(s) == Some(Obj(map["media" := Obj(map["file" := Str("X")])]))
    ensures Forwarded(Text(s), f)
         == Text(f.stringify(Obj(map["media" := Obj(map["file" := Str("X"), "ttl_seconds" := Num(TTL_SECONDS)])])))
  {
    ContainsNonEmpty(s, JSON_MEDIA_KEY);
    var obj := Obj(map["media" := Obj(map["file" := Str("X")])]);
    assert NeedsTtl(obj);
    assert WithTtl(obj) == Obj(map["media" := Obj(map["file" := Str("X"), "ttl_seconds" := Num(TTL_SECONDS)])]);
  }
}
