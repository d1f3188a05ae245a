/** The Netscape cookie-file serialiser of the cookie exporter
    (`toNetscapeCookieLines`, get_ig_cookie.js:18-34): Instagram cookies with
    a name become one tab-separated line of seven fields each, after the
    header line; lines end with `\n`. */
module Netscape {
  import opened Results
  import opened JsString

  /** A browser cookie as the browser context reports it; None is an absent
      property. `expires` is in seconds and may have a fractional part. */
  datatype Cookie = Cookie(
    domain: Option<string>,
    path: Option<string>,
    secure: bool,
    expires: Option<real>,
    name: Option<string>,
    value: Option<string>)

  const Header := "# Netscape HTTP Cookie File"

  /** The expiry written for a cookie without one: the largest 32-bit signed time. */
  const NoExpiry := 2147483647

  /** `/instagram\.com$/i` tested on `c.domain || ''`: the domain ends with
      `instagram.com` in any ASCII case. */
  predicate IsInstagramDomain(domain: Option<string>) {
    EndsWith(Fold(OrEmpty(domain)), "INSTAGRAM.COM")
  }

  /** A cookie the serialiser writes: an Instagram domain and a non-empty name. */
  predicate Emits(c: Cookie) {
    IsInstagramDomain(c.domain) && Truthy(c.name)
  }

  /** The domain as written: a leading `.` kept, otherwise one added. */
  function NormalizeDomain(d: string): (r: string)
    ensures |r| >= 1 && r[0] == '.'
    ensures r == d || r == "." + d
    ensures |d| >= 1 && d[0] == '.' ==> r == d
  {
    if |d| >= 1 && d[0] == '.' then d else "." + d
  }

  lemma NormalizeDomainIdempotent(d: string)
    ensures NormalizeDomain(NormalizeDomain(d)) == NormalizeDomain(d)
  {
  }

  /** `c.expires ? Math.floor(c.expires) : 2147483647`. */
  function ExpiryField(e: Option<real>): (r: int)
    ensures e.None? || e.value == 0.0 ==> r == NoExpiry
    ensures e.Some? && e.value != 0.0 ==> r as real <= e.value < r as real + 1.0
  {
    if e.None? || e.value == 0.0 then NoExpiry else e.value.Floor
  }

  /** The seven fields of a cookie's line: domain, the include-subdomains
      flag, path (`/` when missing or empty), secure flag, expiry, name and
      value (empty when missing). */
  function Fields(c: Cookie): (r: seq<string>)
    requires Emits(c)
    ensures |r| == 7
    ensures r[0] == NormalizeDomain(c.domain.value)
    ensures |r[0]| >= 1 && r[0][0] == '.' && (r[0] == c.domain.value || r[0] == "." + c.domain.value)
    ensures r[1] == "TRUE" && (r[3] == "TRUE" <==> c.secure) && (r[3] == "TRUE" || r[3] == "FALSE")
    ensures r[2] == (if Truthy(c.path) then c.path.value else "/") && r[2] != ""
    ensures r[4] == IntToDecimal(ExpiryField(c.expires))
    ensures r[5] == c.name.value && r[5] != ""
    ensures r[6] == OrEmpty(c.value)
  {
    [NormalizeDomain(c.domain.value),
     "TRUE",
     if Truthy(c.path) then c.path.value else "/",
     if c.secure then "TRUE" else "FALSE",
     IntToDecimal(ExpiryField(c.expires)),
     c.name.value,
     OrEmpty(c.value)]
  }

  function LineOf(c: Cookie): string
    requires Emits(c)
  {
    Join(Fields(c), "\t")
  }

  /** The data lines, built as the loop builds them: one cookie at a time,
      appending a line for each cookie the serialiser writes. */
  function DataLines(cs: seq<Cookie>): seq<string>
  {
    if cs == [] then []
    else
      var c := cs[|cs| - 1];
      DataLines(cs[..|cs| - 1]) + (if Emits(c) then [LineOf(c)] else [])
  }

  /** The cookies written, in input order (an independent, front-to-back filter). */
  function Emitted(cs: seq<Cookie>): (r: seq<Cookie>)
    ensures |r| <= |cs|
  {
    if cs == [] then []
    else (if Emits(cs[0]) then [cs[0]] else []) + Emitted(cs[1..])
  }

  /** The file's text for a list of cookies. */
  function FileText(cs: seq<Cookie>): string {
    Join([Header] + DataLines(cs), "\n") + "\n"
  }

  /** Serialising a concatenation serialises each part in turn. */
  lemma {:induction false} DataLinesConcat(a: seq<Cookie>, b: seq<Cookie>)
    ensures DataLines(a + b) == DataLines(a) + DataLines(b)
  {
    if b != [] {
      DataLinesConcat(a, b[..|b| - 1]);
      assert (a + b)[..|a + b| - 1] == a + b[..|b| - 1];
    } else {
      assert a + b == a;
    }
  }

  /** The lines of a single cookie. */
  lemma DataLinesOne(c: Cookie)
    ensures DataLines([c]) == (if Emits(c) then [LineOf(c)] else [])
  {
    assert [c][..0] == [];
  }

  lemma EmittedCons(c: Cookie, rest: seq<Cookie>)
    ensures Emitted([c] + rest) == (if Emits(c) then [c] else []) + Emitted(rest)
  {
    assert ([c] + rest)[0] == c && ([c] + rest)[1..] == rest;
  }

  /** Filtering a concatenation filters each part in turn. */
  lemma {:induction false} EmittedConcat(a: seq<Cookie>, b: seq<Cookie>)
    ensures Emitted(a + b) == Emitted(a) + Emitted(b)
  {
    if a == [] {
      assert a + b == b;
    } else {
      EmittedConcat(a[1..], b);
      var h := if Emits(a[0]) then [a[0]] else [];
      ConcatAssoc([a[0]], a[1..], b);
      assert a == [a[0]] + a[1..];
      EmittedCons(a[0], a[1..] + b);
      EmittedCons(a[0], a[1..]);
      ConcatAssoc(h, Emitted(a[1..]), Emitted(b));
    }
  }

  /** A cookie is emitted exactly when it is in the input and is written. */
  lemma {:induction false} EmittedMembers(cs: seq<Cookie>)
    ensures forall c :: c in Emitted(cs) <==> c in cs && Emits(c)
  {
    if cs != [] {
      EmittedMembers(cs[1..]);
      assert cs == [cs[0]] + cs[1..];
    }
  }

  /** The data lines are exactly the lines of the cookies written, in input
      order, one per cookie: so there are at most as many lines as cookies. */
  lemma {:induction false} DataLinesInOrder(cs: seq<Cookie>)
    ensures |DataLines(cs)| == |Emitted(cs)| <= |cs|
    ensures forall i :: 0 <= i < |DataLines(cs)| ==> Emits(Emitted(cs)[i]) && DataLines(cs)[i] == LineOf(Emitted(cs)[i])
  {
    if cs != [] {
      var init, c := cs[..|cs| - 1], cs[|cs| - 1];
      DataLinesInOrder(init);
      assert cs == init + [c];
      EmittedConcat(init, [c]);
      assert Emitted([c]) == (if Emits(c) then [c] else []) + Emitted([]);
    }
  }

  /** Appending one more part to a join adds the separator and the part. */
  lemma {:induction false} JoinSnoc(parts: seq<string>, sep: string, x: string)
    requires |parts| >= 1
    ensures Join(parts + [x], sep) == Join(parts, sep) + sep + x
  {
    if |parts| > 1 {
      JoinSnoc(parts[1..], sep, x);
      assert (parts + [x])[1..] == parts[1..] + [x];
    }
  }

  /** The file starts with the header line and ends with a line break. */
  lemma FileTextFrame(cs: seq<Cookie>)
    ensures StartsWith(FileText(cs), Header + "\n")
    ensures EndsWith(FileText(cs), "\n")
  {
    var rest := DataLines(cs);
    var body := Join([Header] + rest, "\n");
    if rest == [] {
      assert body == Header;
    } else {
      assert ([Header] + rest)[1..] == rest;
      assert body == Header + "\n" + Join(rest, "\n");
    }
    var t := FileText(cs);
    assert t[..|Header + "\n"|] == Header + "\n";
  }

  /** Each line reads back, split at tabs, as its seven fields when no field
      holds a tab. */
  lemma LineFields(c: Cookie)
    requires Emits(c)
    requires forall i :: 0 <= i < 7 ==> '\t' !in Fields(c)[i]
    ensures Split(LineOf(c), '\t') == Fields(c)
    ensures |Split(LineOf(c), '\t')| == 7
  {
    SplitJoin(Fields(c), '\t');
  }

  /** A cookie's line holds no line break when none of its fields does. */
  lemma LineOneLine(c: Cookie)
    requires Emits(c)
    requires forall i :: 0 <= i < 7 ==> '\n' !in Fields(c)[i]
    ensures '\n' !in LineOf(c)
  {
    JoinChars(Fields(c), "\t", '\n');
  }

  /** No cookie's fields hold a line break. */
  predicate SingleLineFields(cs: seq<Cookie>) {
    forall c :: c in cs && Emits(c) ==> forall i :: 0 <= i < 7 ==> '\n' !in Fields(c)[i]
  }

  /** The file reads back, split at line breaks, as the header, the data
      lines and the empty piece after the final line break. */
  lemma FileTextLines(cs: seq<Cookie>)
    requires SingleLineFields(cs)
    ensures Split(FileText(cs), '\n') == [Header] + DataLines(cs) + [""]
  {
    var lines := [Header] + DataLines(cs) + [""];
    DataLinesOneLine(cs);
    JoinSnoc([Header] + DataLines(cs), "\n", "");
    assert Join(lines, "\n") == FileText(cs);
    forall i | 0 <= i < |lines|
      ensures '\n' !in lines[i]
    {
      if 1 <= i < |lines| - 1 {
        assert lines[i] == DataLines(cs)[i - 1];
      }
    }
    SplitJoin(lines, '\n');
  }

  lemma DataLinesOneLine(cs: seq<Cookie>)
    requires SingleLineFields(cs)
    ensures forall i :: 0 <= i < |DataLines(cs)| ==> '\n' !in DataLines(cs)[i]
  {
    DataLinesInOrder(cs);
    EmittedMembers(cs);
    forall i | 0 <= i < |DataLines(cs)|
      ensures '\n' !in DataLines(cs)[i]
    {
      assert Emitted(cs)[i] in Emitted(cs);
      LineOneLine(Emitted(cs)[i]);
    }
  }

  /** `toNetscapeCookieLines(cookies)`. */
  method ToNetscapeCookieLines(cookies: seq<Cookie>) returns (text: string)
    ensures text == Join([Header] + DataLines(cookies), "\n") + "\n"
  {
    var lines := [Header];
    for i := 0 to |cookies|
      invariant lines == [Header] + DataLines(cookies[..i])
    {
      var c := cookies[i];
      assert cookies[..i + 1][..i] == cookies[..i];
      if !IsInstagramDomain(c.domain) {
        continue;
      }
      var domain := NormalizeDomain(c.domain.value);
      var p := if Truthy(c.path) then c.path.value else "/";
      var secure := if c.secure then "TRUE" else "FALSE";
      var exp := ExpiryField(c.expires);
      var name := c.name;
      var value := OrEmpty(c.value);
      if !Truthy(name) {
        continue;
      }
      lines := lines + [Join([domain, "TRUE", p, secure, IntToDecimal(exp), name.value, value], "\t")];
    }
    assert cookies[..|cookies|] == cookies;
    text := Join(lines, "\n") + "\n";
  }
}
