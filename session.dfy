/** The end of the cookie exporter's login run (get_ig_cookie.js:142-158):
    keep the Instagram cookies of the browser context, read them once more
    when no `sessionid` is among them, fail unless a `sessionid` with a value
    was caught, and otherwise produce the cookie file's text. The browser and
    the file write are outside the model: both cookie reads are inputs. */
module SessionCookie {
  import opened Results
  import opened JsString
  import opened Netscape

  const SessionName := "sessionid"

  /** The error thrown when no usable session cookie was caught. */
  const MissingSession := "Não foi possível capturar \"sessionid\" (possível bloqueio/challenge)."

  /** `cookies.filter(c => /instagram\.com$/i.test(c.domain || ''))`. */
  function FilterInstagram(cs: seq<Cookie>): (r: seq<Cookie>)
    ensures |r| <= |cs|
  {
    if cs == [] then []
    else (if IsInstagramDomain(cs[0].domain) then [cs[0]] else []) + FilterInstagram(cs[1..])
  }

  lemma FilterCons(c: Cookie, rest: seq<Cookie>)
    ensures FilterInstagram([c] + rest) == (if IsInstagramDomain(c.domain) then [c] else []) + FilterInstagram(rest)
  {
    assert ([c] + rest)[0] == c && ([c] + rest)[1..] == rest;
  }

  /** Filtering keeps exactly the Instagram cookies. */
  lemma {:induction false} FilterMembers(cs: seq<Cookie>)
    ensures forall c :: c in FilterInstagram(cs) <==> c in cs && IsInstagramDomain(c.domain)
  {
    if cs != [] {
      FilterMembers(cs[1..]);
      assert cs == [cs[0]] + cs[1..];
    }
  }

  /** Filtering a concatenation filters each part in turn. */
  lemma {:induction false} FilterConcat(a: seq<Cookie>, b: seq<Cookie>)
    ensures FilterInstagram(a + b) == FilterInstagram(a) + FilterInstagram(b)
  {
    if a == [] {
      assert a + b == b;
    } else {
      FilterConcat(a[1..], b);
      var h := if IsInstagramDomain(a[0].domain) then [a[0]] else [];
      ConcatAssoc([a[0]], a[1..], b);
      assert a == [a[0]] + a[1..];
      FilterCons(a[0], a[1..] + b);
      FilterCons(a[0], a[1..]);
      ConcatAssoc(h, FilterInstagram(a[1..]), FilterInstagram(b));
    }
  }

  /** `cookies.find(c => c.name === 'sessionid')`: the first cookie of that name. */
  function FindSession(cs: seq<Cookie>): (r: Option<Cookie>)
    ensures r.None? <==> forall i :: 0 <= i < |cs| ==> cs[i].name != Some(SessionName)
    ensures r.Some? ==> exists i :: (0 <= i < |cs| && cs[i] == r.value && r.value.name == Some(SessionName)
                                     && forall j :: 0 <= j < i ==> cs[j].name != Some(SessionName))
  {
    if cs == [] then None
    else if cs[0].name == Some(SessionName) then Some(cs[0])
    else
      var r := FindSession(cs[1..]);
      assert r.Some? ==> exists i :: (0 <= i < |cs| && cs[i] == r.value && r.value.name == Some(SessionName)
                                      && forall j :: 0 <= j < i ==> cs[j].name != Some(SessionName)) by {
        if r.Some? {
          var i :| 0 <= i < |cs[1..]| && cs[1..][i] == r.value && r.value.name == Some(SessionName)
                   && forall j :: 0 <= j < i ==> cs[1..][j].name != Some(SessionName);
          assert cs[i + 1] == r.value;
        }
      }
      r
  }

  /** What the capture kept: whether the cookies were read a second time,
      the Instagram cookies of the read used, and the session cookie among them. */
  datatype Capture = Capture(reread: bool, cookies: seq<Cookie>, session: Option<Cookie>)

  /** The capture of get_ig_cookie.js:142-152 from the two reads of the
      browser's cookies (the second is only looked at when it is taken). */
  function CaptureCookies(first: seq<Cookie>, second: seq<Cookie>): (r: Capture)
    // a second read happens exactly when no Instagram cookie of the first is the session's
    ensures r.reread <==> forall c :: c in first && IsInstagramDomain(c.domain) ==> c.name != Some(SessionName)
    // the cookies kept are the Instagram cookies of the read used, and only those
    ensures forall c :: c in r.cookies <==> c in (if r.reread then second else first) && IsInstagramDomain(c.domain)
    // the session cookie is an Instagram cookie named `sessionid` of that read, when there is one
    ensures r.session.Some? ==> r.session.value in r.cookies && r.session.value.name == Some(SessionName)
    ensures r.session.None? <==> forall c :: c in r.cookies ==> c.name != Some(SessionName)
    // in the read's own order, and the session cookie is the first of them named `sessionid`
    ensures r.cookies == FilterInstagram(if r.reread then second else first)
    ensures r.session == FindSession(r.cookies)
  {
    var ig1 := FilterInstagram(first);
    FilterMembers(first);
    FilterMembers(second);
    var reread := FindSession(ig1).None?;
    var ig := if reread then FilterInstagram(second) else ig1;
    Capture(reread, ig, FindSession(ig))
  }

  /** Cookies of other domains play no part: adding them to either read,
      before or after, changes nothing the capture keeps. */
  lemma ForeignCookiesIgnored(first: seq<Cookie>, second: seq<Cookie>, junk: seq<Cookie>)
    requires forall i :: 0 <= i < |junk| ==> !IsInstagramDomain(junk[i].domain)
    ensures CaptureCookies(first + junk, second) == CaptureCookies(first, second)
    ensures CaptureCookies(junk + first, second) == CaptureCookies(first, second)
    ensures CaptureCookies(first, second + junk) == CaptureCookies(first, second)
    ensures CaptureCookies(first, junk + second) == CaptureCookies(first, second)
  {
    FilterNone(junk);
    FilterConcat(first, junk);
    FilterConcat(junk, first);
    FilterConcat(second, junk);
    FilterConcat(junk, second);
    assert FilterInstagram(first + junk) == FilterInstagram(first);
    assert FilterInstagram(junk + first) == FilterInstagram(first);
    assert FilterInstagram(second + junk) == FilterInstagram(second);
    assert FilterInstagram(junk + second) == FilterInstagram(second);
  }

  lemma {:induction false} FilterNone(cs: seq<Cookie>)
    requires forall i :: 0 <= i < |cs| ==> !IsInstagramDomain(cs[i].domain)
    ensures FilterInstagram(cs) == []
  {
    if cs != [] {
      FilterNone(cs[1..]);
    }
  }

  /** Filtering again changes nothing: the serialiser's own domain test
      lets every captured cookie through. */
  lemma {:induction false} FilterIdempotent(cs: seq<Cookie>)
    ensures FilterInstagram(FilterInstagram(cs)) == FilterInstagram(cs)
  {
    if cs != [] {
      FilterIdempotent(cs[1..]);
      var h := if IsInstagramDomain(cs[0].domain) then [cs[0]] else [];
      FilterConcat(h, FilterInstagram(cs[1..]));
      if h != [] {
        FilterCons(cs[0], []);
      }
    }
  }

  /** Serialising the Instagram cookies writes the same lines as serialising
      everything: the filter before `toNetscapeCookieLines` loses no line. */
  lemma {:induction false} DataLinesOfFiltered(cs: seq<Cookie>)
    ensures DataLines(FilterInstagram(cs)) == DataLines(cs)
  {
    if cs != [] {
      var init, c := cs[..|cs| - 1], cs[|cs| - 1];
      DataLinesOfFiltered(init);
      assert cs == init + [c];
      FilterConcat(init, [c]);
      DataLinesConcat(FilterInstagram(init), FilterInstagram([c]));
      FilterCons(c, []);
      assert [c] + [] == [c];
      DataLinesOne(c);
      DataLinesConcat(init, [c]);
    }
  }

  /** get_ig_cookie.js:142-156: capture, demand a session cookie with a
      value, and serialise the captured cookies. */
  method ExportCookies(first: seq<Cookie>, second: seq<Cookie>) returns (capture: Capture, r: Result<string, string>)
    ensures capture == CaptureCookies(first, second)
    ensures r.Ok? <==> capture.session.Some? && Truthy(capture.session.value.value)
    ensures r.Err? ==> r.error == MissingSession
    // the file holds exactly the lines of the read used
    ensures r.Ok? ==> r.value == FileText(if capture.reread then second else first)
  {
    var cookies1 := first;
    var igCookies := FilterInstagram(cookies1);
    if FindSession(igCookies).None? {
      var cookies2 := second;
      igCookies := FilterInstagram(cookies2);
    }
    capture := CaptureCookies(first, second);
    var sess := FindSession(igCookies);
    if sess.None? || !Truthy(sess.value.value) {
      return capture, Err(MissingSession);
    }
    var netscape := ToNetscapeCookieLines(igCookies);
    DataLinesOfFiltered(if capture.reread then second else first);
    r := Ok(netscape);
  }
}
