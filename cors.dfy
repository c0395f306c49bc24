/** The development CORS rule of src/main.ts: outside production, a request
    origin is accepted when it is absent or empty, or when the whole of it
    matches `^https?://(localhost|127\.0\.0\.1)(:\d{1,5})?$`. */
module Cors {
  import opened Outcomes
  import opened Chars

  /** `callback(null, true)` or `callback(new Error('Not allowed by
      CORS'))`. */
  datatype Decision = Allow | Reject

  predicate StartsWith(s: string, prefix: string)
  {
    |prefix| <= |s| && s[..|prefix|] == prefix
  }

  /** `(:\d{1,5})?`: nothing, or a colon and one to five decimal digits,
      whatever number they spell. */
  predicate IsPort(s: string)
  {
    s == "" || (2 <= |s| <= 6 && s[0] == ':' && forall k :: 1 <= k < |s| ==> IsDigit(s[k]))
  }

  /** `s` is exactly `scheme://host` followed by a port part. */
  predicate HasForm(s: string, scheme: string, host: string)
  {
    var head := scheme + "://" + host;
    StartsWith(s, head) && IsPort(s[|head|..])
  }

  /** The strings the anchored pattern accepts, as four alternatives. */
  predicate OriginPattern(s: string)
  {
    || HasForm(s, "http", "localhost")
    || HasForm(s, "https", "localhost")
    || HasForm(s, "http", "127.0.0.1")
    || HasForm(s, "https", "127.0.0.1")
  }

  /** `https?://`: what follows the scheme and its slashes. */
  function AfterScheme(s: string): Option<string>
  {
    if StartsWith(s, "https://") then Some(s[8..])
    else if StartsWith(s, "http://") then Some(s[7..])
    else None
  }

  /** `(localhost|127\.0\.0\.1)`: what follows the host. */
  function AfterHost(s: string): Option<string>
  {
    if StartsWith(s, "localhost") then Some(s[9..])
    else if StartsWith(s, "127.0.0.1") then Some(s[9..])
    else None
  }

  lemma StartsWithConcat(s: string, a: string, b: string)
    ensures StartsWith(s, a + b) <==> StartsWith(s, a) && StartsWith(s[|a|..], b)
  {
    if StartsWith(s, a) && StartsWith(s[|a|..], b) {
      assert s[..|a + b|] == s[..|a|] + s[|a|..][..|b|];
    }
    if StartsWith(s, a + b) {
      assert s[..|a|] == (a + b)[..|a|];
      assert s[|a|..][..|b|] == (a + b)[|a|..];
    }
  }

  /** A form is matched piece by piece: scheme, host, port. */
  lemma HasFormInSteps(s: string, scheme: string, host: string)
    ensures HasForm(s, scheme, host) <==>
              var prefix := scheme + "://";
              && StartsWith(s, prefix)
              && StartsWith(s[|prefix|..], host)
              && IsPort(s[|prefix|..][|host|..])
  {
    var prefix := scheme + "://";
    StartsWithConcat(s, prefix, host);
    assert prefix + host == scheme + "://" + host;
    if StartsWith(s, prefix) && StartsWith(s[|prefix|..], host) {
      assert s[|prefix|..][|host|..] == s[|prefix + host|..];
    }
  }

  /** `regex.test(origin)`, read left to right. */
  function RegexTest(s: string): (r: bool)
    ensures r <==> OriginPattern(s)
  {
    HasFormInSteps(s, "http", "localhost");
    HasFormInSteps(s, "https", "localhost");
    HasFormInSteps(s, "http", "127.0.0.1");
    HasFormInSteps(s, "https", "127.0.0.1");
    assert StartsWith(s, "https://") ==> !StartsWith(s, "http://") by {
      if StartsWith(s, "https://") { assert s[4] == 's'; }
    }
    match AfterScheme(s)
    case None => false
    case Some(rest) =>
      assert StartsWith(rest, "localhost") ==> !StartsWith(rest, "127.0.0.1") by {
        if StartsWith(rest, "localhost") { assert rest[0] == 'l'; }
      }
      match AfterHost(rest)
      case None => false
      case Some(port) => IsPort(port)
  }

  /** The `origin` callback. */
  function OriginCallback(origin: Option<string>): (d: Decision)
    ensures d == Allow <==> origin.None? || origin.value == "" || OriginPattern(origin.value)
  {
    if origin.None? || origin.value == "" || RegexTest(origin.value) then Allow else Reject
  }

  /** The rule is installed only when `NODE_ENV` is not `production`;
      `None` means no origin callback is consulted. */
  function CorsDecision(nodeEnv: Option<string>, origin: Option<string>): (r: Option<Decision>)
    ensures r.None? <==> nodeEnv == Some("production")
    ensures r.Some? ==> r.value == OriginCallback(origin)
  {
    if nodeEnv != Some("production") then Some(OriginCallback(origin)) else None
  }

  lemma FormShape(s: string, scheme: string, host: string)
    requires HasForm(s, scheme, host)
    requires 8 <= |scheme + "://" + host|
    requires '/' !in (scheme + "://" + host)[8..]
    ensures |s| <= |scheme + "://" + host| + 6
    ensures '/' !in s[8..]
  {
    var head := scheme + "://" + host;
    var port := s[|head|..];
    assert s == head + port;
    assert s[8..] == head[8..] + port;
    assert '/' !in port by {
      if port != "" {
        assert forall k :: 0 <= k < |port| ==> port[k] == ':' || IsDigit(port[k]);
      }
    }
  }

  /** An accepted origin has no `/` after its `//` and at most 23
      characters: no path, no trailing slash, no longer host. */
  lemma AcceptedOriginShape(s: string)
    requires OriginPattern(s)
    ensures |s| <= 23
    ensures '/' !in s[8..]
  {
    if HasForm(s, "http", "localhost") {
      assert ("http" + "://" + "localhost")[8..] == "ocalhost";
      FormShape(s, "http", "localhost");
    } else if HasForm(s, "https", "localhost") {
      assert ("https" + "://" + "localhost")[8..] == "localhost";
      FormShape(s, "https", "localhost");
    } else if HasForm(s, "http", "127.0.0.1") {
      assert ("http" + "://" + "127.0.0.1")[8..] == "27.0.0.1";
      FormShape(s, "http", "127.0.0.1");
    } else {
      assert ("https" + "://" + "127.0.0.1")[8..] == "127.0.0.1";
      FormShape(s, "https", "127.0.0.1");
    }
  }

  /** Each accepted form fixes the characters of its scheme and host. */
  lemma FormCharAt(s: string, scheme: string, host: string, k: int)
    requires 0 <= k < |scheme + "://" + host|
    ensures HasForm(s, scheme, host) ==> s[k] == (scheme + "://" + host)[k]
  {
    if HasForm(s, scheme, host) {
      assert s[..|scheme + "://" + host|][k] == s[k];
    }
  }

  lemma HasFormOf(scheme: string, host: string, port: string)
    requires IsPort(port)
    ensures HasForm(scheme + "://" + host + port, scheme, host)
  {
    var head := scheme + "://" + host;
    assert (head + port)[..|head|] == head;
    assert (head + port)[|head|..] == port;
  }

  /** A `/` anywhere after the `//` (a path, a trailing slash) refuses the
      origin. */
  lemma SlashAfterAuthorityRejected(s: string, k: int)
    requires 8 <= k < |s| && s[k] == '/'
    ensures OriginCallback(Some(s)) == Reject
  {
    if OriginPattern(s) {
      AcceptedOriginShape(s);
    }
  }

  /** An origin longer than the longest accepted one is refused. */
  lemma LongOriginRejected(s: string)
    requires |s| > 23
    ensures OriginCallback(Some(s)) == Reject
  {
    if OriginPattern(s) {
      AcceptedOriginShape(s);
    }
  }

  /** Five port digits pass with no range check; six do not. */
  lemma PortDigitsNotRange()
    ensures OriginCallback(Some("https://localhost:99999")) == Allow
    ensures OriginCallback(Some("http://127.0.0.1:123456")) == Reject
  {
    HasFormOf("https", "localhost", ":99999");
    assert "https" + "://" + "localhost" + ":99999" == "https://localhost:99999";
    var s := "http://127.0.0.1:123456";
    FormCharAt(s, "https", "localhost", 4);
    FormCharAt(s, "https", "127.0.0.1", 4);
    FormCharAt(s, "http", "localhost", 7);
    assert s[|"http" + "://" + "127.0.0.1"|..] == ":123456";
  }

  /** The pattern is anchored at the end: a trailing slash, one character
      more right after the host, or a longer host name is refused. */
  lemma AnchoredAtEnd()
    ensures OriginCallback(Some("http://localhost:3000/")) == Reject
    ensures OriginCallback(Some("http://localhostx")) == Reject
    ensures OriginCallback(Some("https://localhost.evil.com")) == Reject
  {
    SlashAfterAuthorityRejected("http://localhost:3000/", 21);
    var s := "http://localhostx";
    FormCharAt(s, "https", "localhost", 4);
    FormCharAt(s, "https", "127.0.0.1", 4);
    FormCharAt(s, "http", "127.0.0.1", 7);
    assert s[|"http" + "://" + "localhost"|..] == "x";
    LongOriginRejected("https://localhost.evil.com");
  }

  /** The pattern is anchored at the start, and only the two hosts pass: a
      character before the scheme is refused. */
  lemma AnchoredAtStart()
    ensures OriginCallback(Some("https://example.com")) == Reject
    ensures OriginCallback(Some("xhttp://localhost")) == Reject
  {
    var s := "https://example.com";
    FormCharAt(s, "http", "localhost", 4);
    FormCharAt(s, "http", "127.0.0.1", 4);
    FormCharAt(s, "https", "localhost", 8);
    FormCharAt(s, "https", "127.0.0.1", 8);
    var t := "xhttp://localhost";
    FormCharAt(t, "http", "localhost", 0);
    FormCharAt(t, "http", "127.0.0.1", 0);
    FormCharAt(t, "https", "localhost", 0);
    FormCharAt(t, "https", "127.0.0.1", 0);
  }

  /** Same-origin requests (no origin) and the plain development origins
      pass. */
  lemma AcceptedExamples()
    ensures OriginCallback(None) == Allow
    ensures OriginCallback(Some("")) == Allow
    ensures OriginCallback(Some("http://localhost:3000")) == Allow
    ensures OriginCallback(Some("https://127.0.0.1")) == Allow
  {
    HasFormOf("http", "localhost", ":3000");
    assert "http" + "://" + "localhost" + ":3000" == "http://localhost:3000";
    HasFormOf("https", "127.0.0.1", "");
    assert "https" + "://" + "127.0.0.1" + "" == "https://127.0.0.1";
  }
}
