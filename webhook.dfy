/** Notifying the automation webhook (`postToMake`, index.js:154-159): the
    JSON payload and the rule that turns the HTTP status into success or an
    error. The request itself is outside the model: its answer is an input. */
module Webhook {
  import opened Results
  import opened JsString
  import opened Failures

  /** The payload object, fields in the order the object literal gives them. */
  datatype Payload = Payload(caption: string, reel_url: string, video_url: string, source: string, ts: string)

  /** The value of `source` when the caller gives none. */
  const DefaultSource := "discord-bot"

  /** The object's keys with their values, in insertion order (the order
      `JSON.stringify` writes them in). */
  function Fields(p: Payload): seq<(string, string)> {
    [("caption", p.caption), ("reel_url", p.reel_url), ("video_url", p.video_url),
     ("source", p.source), ("ts", p.ts)]
  }

  /** The value a key holds in a list of fields; the first occurrence wins. */
  function Lookup(fields: seq<(string, string)>, key: string): Option<string> {
    if fields == [] then None
    else if fields[0].0 == key then Some(fields[0].1)
    else Lookup(fields[1..], key)
  }

  /** `postToMake({caption, reelUrl, videoUrl, source})` with the timestamp as
      an input; an absent `source` takes its default. The payload's JSON object
      holds exactly these five keys, in this order, each with its argument. */
  function BuildPayload(caption: string, reelUrl: string, videoUrl: string, source: Option<string>, ts: string): (p: Payload)
    ensures Fields(p) == [("caption", caption), ("reel_url", reelUrl), ("video_url", videoUrl),
                          ("source", if source.Some? then source.value else DefaultSource), ("ts", ts)]
  {
    Payload(caption, reelUrl, videoUrl, if source.Some? then source.value else DefaultSource, ts)
  }

  /** The five keys are distinct, so reading the serialised object back by
      key gives each field of the payload. */
  lemma FieldsLookup(p: Payload)
    ensures Lookup(Fields(p), "caption") == Some(p.caption)
    ensures Lookup(Fields(p), "reel_url") == Some(p.reel_url)
    ensures Lookup(Fields(p), "video_url") == Some(p.video_url)
    ensures Lookup(Fields(p), "source") == Some(p.source)
    ensures Lookup(Fields(p), "ts") == Some(p.ts)
  {
    var f := Fields(p);
    var f1, f2, f3, f4 := f[1..], f[1..][1..], f[1..][1..][1..], f[1..][1..][1..][1..];
    assert f1 == [("reel_url", p.reel_url), ("video_url", p.video_url), ("source", p.source), ("ts", p.ts)];
    assert f2 == [("video_url", p.video_url), ("source", p.source), ("ts", p.ts)];
    assert f3 == [("source", p.source), ("ts", p.ts)];
    assert f4 == [("ts", p.ts)];
    assert "caption" != "reel_url" && "caption" != "video_url" && "caption" != "source" && "caption" != "ts" by {
      assert "caption"[0] == 'c';
    }
    assert "reel_url" != "video_url" && "reel_url" != "source" && "reel_url" != "ts" by {
      assert "reel_url"[0] == 'r';
    }
    assert "video_url" != "source" && "video_url" != "ts" by {
      assert "video_url"[0] == 'v';
    }
    assert "source" != "ts" by {
      assert "source"[0] == 's' && "ts"[0] == 't';
    }
    assert Lookup(f, "reel_url") == Lookup(f1, "reel_url");
    assert Lookup(f, "video_url") == Lookup(f1, "video_url") == Lookup(f2, "video_url");
    assert Lookup(f, "source") == Lookup(f1, "source") == Lookup(f2, "source") == Lookup(f3, "source");
    assert Lookup(f, "ts") == Lookup(f1, "ts") == Lookup(f2, "ts") == Lookup(f3, "ts") == Lookup(f4, "ts");
  }

  /** The webhook's answer: a status with the JSON text of its body, or the
      message of the error the request threw. Every status is accepted by
      axios here (`validateStatus: () => true`), so only a failed request throws. */
  datatype WebhookReply = Status(code: int, rendered: string) | Unreachable(message: string)

  /** index.js:158: a status of 400 or more is an error carrying the status
      and the body; every other status is success. */
  function Classify(reply: WebhookReply): (r: Result<(), Failure>)
    ensures reply.Status? ==> (r.Err? <==> reply.code >= 400)
    ensures reply.Status? && r.Err? ==> r.error == WebhookRejected(reply.code, reply.rendered)
    ensures reply.Unreachable? ==> r == Err(Network(reply.message))
  {
    match reply
    case Unreachable(m) => Err(Network(m))
    case Status(code, rendered) => if code >= 400 then Err(WebhookRejected(code, rendered)) else Ok(())
  }

  /** The error message names the rejected status in decimal. */
  lemma RejectionNamesStatus(code: int, body: string)
    requires code >= 400
    ensures var m := Message(WebhookRejected(code, body));
            var prefix := "Webhook Make retornou HTTP ";
            && StartsWith(m, prefix)
            && DecimalValue(m[|prefix|..|prefix| + |NatToDecimal(code)|]) == code
  {
    var prefix := "Webhook Make retornou HTTP ";
    var m := Message(WebhookRejected(code, body));
    assert m == prefix + NatToDecimal(code) + ": " + body;
    assert m[|prefix|..|prefix| + |NatToDecimal(code)|] == NatToDecimal(code);
    DecimalRoundTrip(code);
  }
}
