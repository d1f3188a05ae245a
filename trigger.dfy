/** Which chat messages start a job (index.js:167-182): the command pattern
    `/^!postar\s+(https?:\/\/\S+)/i` picks the URL out of the message, and the
    Instagram allow-list `/https?:\/\/(www\.)?instagram\.com\//i` decides
    whether that URL is accepted. Both regular expressions are written out
    as string predicates. */
module Trigger {
  import opened Results
  import opened JsString

  /** The command word, in the canonical form the `/i` flag compares in. */
  const CommandWord := "!POSTAR"

  /** What `https?:\/\/\S+` accepts once the greedy `\S+` has taken the whole
      run of non-space characters: a scheme prefix and at least one more character. */
  predicate IsUrlCapture(run: string) {
    (StartsWith(Fold(run), "HTTP://") && |run| > 7)
    || (StartsWith(Fold(run), "HTTPS://") && |run| > 8)
  }

  /** The capture group of the command pattern, or None when the message does not match. */
  function MatchCommand(content: string): Option<string> {
    if !StartsWith(Fold(content), CommandWord) then None
    else
      var rest := content[|CommandWord|..];
      var k := SpaceRun(rest);
      var run := rest[k..][..NonSpaceRun(rest[k..])];
      if k >= 1 && IsUrlCapture(run) then Some(run) else None
  }

  /** The command pattern matched with `\s+` taking `k` characters and the
      group capturing `url`: the message is the command word in any ASCII
      case, then k >= 1 white-space characters, then `url`, which holds no
      white space and is followed by white space or the end of the message. */
  ghost predicate CommandCapture(content: string, k: nat, url: string) {
    var n := |CommandWord|;
    && n + k + |url| <= |content|
    && StartsWith(Fold(content), CommandWord)
    && k >= 1
    && (forall i :: n <= i < n + k ==> IsSpace(content[i]))
    && content[n + k..n + k + |url|] == url
    && NoSpace(url)
    && IsUrlCapture(url)
    && (n + k + |url| == |content| || IsSpace(content[n + k + |url|]))
  }

  lemma MatchCommandSound(content: string, url: string)
    requires MatchCommand(content) == Some(url)
    ensures exists k :: CommandCapture(content, k, url)
  {
    var n := |CommandWord|;
    var rest := content[n..];
    var k := SpaceRun(rest);
    var m := NonSpaceRun(rest[k..]);
    assert content[n + k..n + k + |url|] == rest[k..][..m];
    forall i | n <= i < n + k ensures IsSpace(content[i]) {
      assert content[i] == rest[i - n];
    }
    if n + k + |url| < |content| {
      assert content[n + k + |url|] == rest[k..][m];
    }
    assert CommandCapture(content, k, url);
  }

  lemma MatchCommandComplete(content: string, k: nat, url: string)
    requires CommandCapture(content, k, url)
    ensures MatchCommand(content) == Some(url)
  {
    var n := |CommandWord|;
    var rest := content[n..];
    forall i | 0 <= i < k ensures IsSpace(rest[i]) {
      assert rest[i] == content[n + i];
    }
    assert url[0] == content[n + k] == rest[k];
    SpaceRunIs(rest, k);
    var tail := rest[k..];
    assert tail[..|url|] == url;
    if |url| < |tail| {
      assert tail[|url|] == content[n + k + |url|];
    }
    NonSpaceRunIs(tail, |url|);
  }

  /** MatchCommand returns exactly the group of a match of the command pattern
      (and so that group is unique). */
  lemma MatchCommandExact(content: string, url: string)
    ensures MatchCommand(content) == Some(url) <==> exists k :: CommandCapture(content, k, url)
  {
    if MatchCommand(content) == Some(url) {
      MatchCommandSound(content, url);
    }
    if k: nat :| CommandCapture(content, k, url) {
      MatchCommandComplete(content, k, url);
    }
  }

  /** The URL the handler keeps is `m[1].trim()`; the group has no white
      space, so trimming leaves it as it is. */
  lemma CaptureIsTrimmed(content: string, url: string)
    requires MatchCommand(content) == Some(url)
    ensures Trim(url) == url
  {
    TrimKeeps(url);
  }

  // The tokens of the allow-list pattern, in the canonical form `/i` compares in.
  const Http := "HTTP"
  const S := "S"
  const Sep := "://"
  const Www := "WWW."
  const Host := "INSTAGRAM.COM/"

  /** `sep(w)?h` at the start of `u`. */
  predicate SepOptionalThen(u: string, sep: string, w: string, h: string) {
    StartsWith(u, sep) && OptionalThen(u[|sep|..], w, h)
  }

  /** `(s)?sep(w)?h` at the start of `t`, tried the same way. */
  predicate OptionalSepOptionalThen(t: string, s: string, sep: string, w: string, h: string) {
    var j := if StartsWith(t, s) then |s| else 0;
    SepOptionalThen(t[j..], sep, w, h)
  }

  /** The allow-list pattern tried at index `i`: `http`, an optional `s`,
      `://`, an optional `www.`, then `instagram.com/`. */
  predicate MatchAllowAt(u: string, i: nat)
    requires i <= |u|
  {
    var t := Fold(u)[i..];
    StartsWith(t, Http) && OptionalSepOptionalThen(t[|Http|..], S, Sep, Www, Host)
  }

  /** `RegExp.prototype.test` of the allow-list on `u[i..]`: a match at some index from `i` on. */
  predicate MatchAllowFrom(u: string, i: nat)
    requires i <= |u|
    decreases |u| - i
  {
    MatchAllowAt(u, i) || (i < |u| && MatchAllowFrom(u, i + 1))
  }

  /** The allow-list test of index.js:179. */
  predicate IsInstagramUrl(u: string) {
    MatchAllowFrom(u, 0)
  }

  /** The language of the allow-list pattern: four literal strings
      (`http://instagram.com/`, `https://instagram.com/`,
      `http://www.instagram.com/`, `https://www.instagram.com/`), in any ASCII
      case, starting at index `i`. */
  predicate LinkAt(u: string, i: nat)
    requires i <= |u|
  {
    var t := Fold(u)[i..];
    || StartsWith(t, Http + Sep + Host)
    || StartsWith(t, Http + S + Sep + Host)
    || StartsWith(t, Http + Sep + Www + Host)
    || StartsWith(t, Http + S + Sep + Www + Host)
  }

  lemma SepOptionalThenExact(u: string, sep: string, w: string, h: string)
    requires w != [] && h != [] && w[0] != h[0]
    ensures SepOptionalThen(u, sep, w, h) <==> StartsWith(u, sep + h) || StartsWith(u, sep + (w + h))
  {
    StartsWithConcat(u, sep, h);
    StartsWithConcat(u, sep, w + h);
    if StartsWith(u, sep) {
      OptionalThenExact(u[|sep|..], w, h);
    }
  }

  lemma OptionalSepOptionalThenExact(t: string, s: string, sep: string, w: string, h: string)
    requires s != [] && sep != [] && s[0] != sep[0]
    requires w != [] && h != [] && w[0] != h[0]
    ensures OptionalSepOptionalThen(t, s, sep, w, h)
            <==> || StartsWith(t, sep + h)
                 || StartsWith(t, s + sep + h)
                 || StartsWith(t, sep + w + h)
                 || StartsWith(t, s + sep + w + h)
  {
    ConcatAssoc(s, sep, h);
    ConcatAssoc(sep, w, h);
    ConcatAssoc(s + sep, w, h);
    ConcatAssoc(s, sep, w + h);
    StartsWithConcat(t, s, sep + h);
    StartsWithConcat(t, s, sep + (w + h));
    if StartsWith(t, s) {
      SepOptionalThenExact(t[|s|..], sep, w, h);
      assert t[0] == s[0];
      assert !StartsWith(t, sep + h) && !StartsWith(t, sep + (w + h)) by {
        assert (sep + h)[0] == sep[0] && (sep + (w + h))[0] == sep[0];
      }
    } else {
      SepOptionalThenExact(t, sep, w, h);
      assert t[0..] == t;
    }
  }

  lemma MatchAllowAtExact(u: string, i: nat)
    requires i <= |u|
    ensures MatchAllowAt(u, i) <==> LinkAt(u, i)
  {
    var t := Fold(u)[i..];
    assert Http + Sep + Host == Http + (Sep + Host);
    assert Http + S + Sep + Host == Http + (S + Sep + Host);
    assert Http + Sep + Www + Host == Http + (Sep + Www + Host);
    assert Http + S + Sep + Www + Host == Http + (S + Sep + Www + Host);
    StartsWithConcat(t, Http, Sep + Host);
    StartsWithConcat(t, Http, S + Sep + Host);
    StartsWithConcat(t, Http, Sep + Www + Host);
    StartsWithConcat(t, Http, S + Sep + Www + Host);
    if StartsWith(t, Http) {
      OptionalSepOptionalThenExact(t[|Http|..], S, Sep, Www, Host);
    }
  }

  lemma {:induction false} MatchAllowFromExact(u: string, i: nat)
    requires i <= |u|
    ensures MatchAllowFrom(u, i) <==> exists j :: i <= j <= |u| && LinkAt(u, j)
    decreases |u| - i
  {
    MatchAllowAtExact(u, i);
    if i < |u| {
      MatchAllowFromExact(u, i + 1);
      if j :| i <= j <= |u| && LinkAt(u, j) {
        if j > i {
          assert i + 1 <= j <= |u| && LinkAt(u, j);
        }
      }
    }
  }

  /** The allow-list test holds iff one of the four Instagram prefixes occurs
      anywhere in the URL: the pattern is unanchored and case-insensitive. */
  lemma IsInstagramUrlExact(u: string)
    ensures IsInstagramUrl(u) <==> exists j :: 0 <= j <= |u| && LinkAt(u, j)
  {
    MatchAllowFromExact(u, 0);
  }

  lemma StartsWithExtend(t: string, x: string, p: string)
    requires StartsWith(t, p)
    ensures StartsWith(t + x, p)
  {
    assert (t + x)[..|p|] == t[..|p|];
  }

  /** Because the test is unanchored, any text around an accepted URL keeps it accepted. */
  lemma AllowListUnanchored(a: string, u: string, b: string)
    requires IsInstagramUrl(u)
    ensures IsInstagramUrl(a + u + b)
  {
    IsInstagramUrlExact(u);
    var j :| 0 <= j <= |u| && LinkAt(u, j);
    var w := a + u + b;
    var t := Fold(u)[j..];
    var t' := Fold(w)[|a| + j..];
    assert t' == t + Fold(b) by {
      assert w[|a| + j..] == u[j..] + b;
      FoldSlice(w, |a| + j, |w|);
      FoldSlice(u, j, |u|);
    }
    if StartsWith(t, Http + Sep + Host) {
      StartsWithExtend(t, Fold(b), Http + Sep + Host);
    } else if StartsWith(t, Http + S + Sep + Host) {
      StartsWithExtend(t, Fold(b), Http + S + Sep + Host);
    } else if StartsWith(t, Http + Sep + Www + Host) {
      StartsWithExtend(t, Fold(b), Http + Sep + Www + Host);
    } else {
      StartsWithExtend(t, Fold(b), Http + S + Sep + Www + Host);
    }
    assert LinkAt(w, |a| + j);
    IsInstagramUrlExact(w);
  }

  /** What the message handler does with a message before any work starts. */
  datatype Decision =
    | Ignored                 // from a bot, or not the command: no reply
    | NotInstagram            // the command with a URL the allow-list refuses: one refusal reply
    | Accepted(url: string)   // a job starts for this URL

  function Decide(fromBot: bool, content: string): Decision {
    if fromBot then Ignored
    else
      match MatchCommand(content)
      case None => Ignored
      case Some(m) =>
        var url := Trim(m);
        if IsInstagramUrl(url) then Accepted(url) else NotInstagram
  }

  /** A job starts for `url` exactly when the message is from a person, the
      command pattern captures `url`, and an Instagram prefix occurs in it. */
  lemma DecideAccepts(fromBot: bool, content: string, url: string)
    ensures Decide(fromBot, content) == Accepted(url)
            <==> && !fromBot
                 && (exists k :: CommandCapture(content, k, url))
                 && (exists j :: 0 <= j <= |url| && LinkAt(url, j))
  {
    MatchCommandExact(content, url);
    IsInstagramUrlExact(url);
    if MatchCommand(content).Some? {
      CaptureIsTrimmed(content, MatchCommand(content).value);
    }
  }

  /** A message the command pattern does not match never starts work or gets a reply. */
  lemma DecideIgnores(fromBot: bool, content: string)
    ensures Decide(fromBot, content) == Ignored
            <==> fromBot || forall k, url :: !CommandCapture(content, k, url)
  {
    if !fromBot && MatchCommand(content).Some? {
      MatchCommandExact(content, MatchCommand(content).value);
    }
    if !fromBot && MatchCommand(content).None? {
      forall k, url ensures !CommandCapture(content, k, url) {
        MatchCommandExact(content, url);
      }
    }
  }
}
