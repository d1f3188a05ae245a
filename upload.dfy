/** Publishing the downloaded file (index.js:110-152, 197-210): three
    hosting backends, each with its own check of what it answered, tried in
    the order transfer.sh, 0x0.st, file.io until one gives a link. The HTTP
    requests are outside the model: each backend's answer is an input. */
module Upload {
  import opened Results
  import opened JsString
  import opened Failures

  datatype Backend = TransferSh | ZeroX0 | FileIo

  /** The order of the fallback chain. */
  const ChainOrder: seq<Backend> := [TransferSh, ZeroX0, FileIo]

  /** A plain-text answer: the body as `String(res.data || '')` gives it, or
      the message of the error the request threw (network failure, timeout,
      status outside 2xx). */
  datatype TextReply = Text(body: string) | TextError(message: string)

  /** file.io's JSON answer: its `link` field (None when the body or the
      field is missing) and `JSON.stringify(res.data || {})`; or the message
      of the error the request threw. */
  datatype JsonReply = Json(link: Option<string>, rendered: string) | JsonError(message: string)

  // The tokens of the link patterns (no `/i` flag: compared as written).
  const Http := "http"
  const S := "s"
  const Scheme := "://"
  const ZeroX0Prefix := "://0x0.st/"

  /** `/^https?:\/\//`, token by token: `http`, an optional `s`, then `://`. */
  predicate HasHttpScheme(link: string) {
    StartsWith(link, Http) && OptionalThen(link[|Http|..], S, Scheme)
  }

  /** Where the scheme's `://` starts once `http` and the optional `s` are matched. */
  function SchemeLength(link: string): nat
    requires StartsWith(link, Http)
  {
    if StartsWith(link[|Http|..], S) then |Http| + |S| else |Http|
  }

  /** `/^https?:\/\/0x0\.st\/\w+/`, token by token: the scheme, the host and
      path prefix, then at least one word character (what follows it does not
      matter: the pattern is not anchored at the end). */
  predicate Has0x0Link(link: string) {
    StartsWith(link, Http) && OptionalThen(link[|Http|..], S, ZeroX0Prefix)
    && var j := SchemeLength(link) + |ZeroX0Prefix|;
       |link| > j && IsWordChar(link[j])
  }

  /** `uploadToTransferSh`: the trimmed body is the link when it starts with
      `http://` or `https://`. */
  function CheckTransferSh(reply: TextReply): (r: Result<string, Failure>)
    ensures reply.TextError? ==> r == Err(Network(reply.message))
    ensures reply.Text? ==>
              var link := Trim(reply.body);
              && (r.Ok? <==> StartsWith(link, Http + Scheme) || StartsWith(link, Http + S + Scheme))
              && (r.Ok? ==> r.value == link)
              && (r.Err? ==> r.error == TransferShInvalid(link))
  {
    match reply
    case TextError(m) => Err(Network(m))
    case Text(body) =>
      var link := Trim(body);
      SchemeExact(link);
      if HasHttpScheme(link) then Ok(link) else Err(TransferShInvalid(link))
  }

  lemma SchemeExact(link: string)
    ensures HasHttpScheme(link) <==> StartsWith(link, Http + Scheme) || StartsWith(link, Http + S + Scheme)
  {
    StartsWithConcat(link, Http, Scheme);
    StartsWithConcat(link, Http, S + Scheme);
    if StartsWith(link, Http) {
      OptionalThenExact(link[|Http|..], S, Scheme);
    }
  }

  lemma ZeroX0Exact(link: string)
    ensures Has0x0Link(link) <==>
              || (StartsWith(link, Http + ZeroX0Prefix) && |link| > 14 && IsWordChar(link[14]))
              || (StartsWith(link, Http + S + ZeroX0Prefix) && |link| > 15 && IsWordChar(link[15]))
  {
    StartsWithConcat(link, Http, ZeroX0Prefix);
    StartsWithConcat(link, Http, S + ZeroX0Prefix);
    if StartsWith(link, Http) {
      var t := link[|Http|..];
      OptionalThenExact(t, S, ZeroX0Prefix);
      if StartsWith(t, ZeroX0Prefix) {
        assert t[0] == ':';
      }
    }
  }

  /** `uploadTo0x0`: the trimmed body is the link when it is an http(s) URL
      on 0x0.st with a non-empty word-character path. */
  function CheckZeroX0(reply: TextReply): (r: Result<string, Failure>)
    ensures reply.TextError? ==> r == Err(Network(reply.message))
    ensures reply.Text? ==>
              var link := Trim(reply.body);
              && (r.Ok? <==> || (StartsWith(link, Http + ZeroX0Prefix) && |link| > 14 && IsWordChar(link[14]))
                             || (StartsWith(link, Http + S + ZeroX0Prefix) && |link| > 15 && IsWordChar(link[15])))
              && (r.Ok? ==> r.value == link)
              && (r.Err? ==> r.error == ZeroX0Invalid(link))
  {
    match reply
    case TextError(m) => Err(Network(m))
    case Text(body) =>
      var link := Trim(body);
      ZeroX0Exact(link);
      if Has0x0Link(link) then Ok(link) else Err(ZeroX0Invalid(link))
  }

  /** `uploadToFileIO`: succeeds when `data.link` is truthy, with that link trimmed. */
  function CheckFileIo(reply: JsonReply): (r: Result<string, Failure>)
    ensures reply.JsonError? ==> r == Err(Network(reply.message))
    ensures reply.Json? ==> (r.Ok? <==> Truthy(reply.link))
    ensures reply.Json? && r.Ok? ==> r.value == Trim(reply.link.value)
    ensures reply.Json? && r.Err? ==> r.error == FileIoFailed(reply.rendered)
  {
    match reply
    case JsonError(m) => Err(Network(m))
    case Json(link, rendered) =>
      if link.None? || link.value == "" then Err(FileIoFailed(rendered)) else Ok(Trim(link.value))
  }

  /** What backend `b` makes of its answer. */
  function Outcome(b: Backend, t: TextReply, z: TextReply, f: JsonReply): Result<string, Failure> {
    match b
    case TransferSh => CheckTransferSh(t)
    case ZeroX0 => CheckZeroX0(z)
    case FileIo => CheckFileIo(f)
  }

  /** One call of a backend and what came of it. */
  datatype Attempt = Attempt(backend: Backend, outcome: Result<string, Failure>)

  /** The nested try/catch of index.js:197-210. */
  method UploadChain(t: TextReply, z: TextReply, f: JsonReply) returns (attempts: seq<Attempt>, r: Result<string, Failure>)
    // the backends called are a prefix of the chain order, so each at most once
    ensures 1 <= |attempts| <= 3
    ensures forall i :: 0 <= i < |attempts| ==> attempts[i] == Attempt(ChainOrder[i], Outcome(ChainOrder[i], t, z, f))
    // every call but the last failed, and a success stops the chain
    ensures forall i :: 0 <= i < |attempts| - 1 ==> attempts[i].outcome.Err?
    ensures |attempts| < 3 ==> attempts[|attempts| - 1].outcome.Ok?
    ensures r == attempts[|attempts| - 1].outcome
    // the chain succeeds iff some backend does; when all fail, file.io's error is the one thrown
    ensures r.Ok? <==> exists i :: 0 <= i < 3 && Outcome(ChainOrder[i], t, z, f).Ok?
    ensures r.Err? ==> |attempts| == 3 && r == CheckFileIo(f)
  {
    var publicUrl := CheckTransferSh(t);
    attempts := [Attempt(TransferSh, publicUrl)];
    if publicUrl.Err? {
      publicUrl := CheckZeroX0(z);
      attempts := attempts + [Attempt(ZeroX0, publicUrl)];
      if publicUrl.Err? {
        publicUrl := CheckFileIo(f);
        attempts := attempts + [Attempt(FileIo, publicUrl)];
      }
    }
    r := publicUrl;
  }
}
