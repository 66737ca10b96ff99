/**
 * The first step of `ProxyChecker.check_proxy`: turning one input line into
 * a candidate endpoint, or rejecting it.
 */
module Parsing {
  import opened Wrappers
  import opened Text

  /**
   * A line that survived parsing. `proxy` is the whole stripped line (it is
   * what goes into the scheme URL), `host` and `port` are its first two
   * `:`-separated fields. The port is kept as text and never checked to be
   * a number.
   */
  datatype Candidate = Candidate(proxy: string, host: string, port: string)

  /** The stripped line begins with `host:port`, followed by nothing or by another `:` field. */
  ghost predicate LeadsWith(proxy: string, host: string, port: string) {
    var n := |host| + 1 + |port|;
    && n <= |proxy|
    && proxy[..n] == host + [':'] + port
    && (n == |proxy| || proxy[n] == ':')
  }

  /** `check_proxy`'s parse: strip, reject blank lines and lines without `:`, keep the first two fields. */
  function ParseLine(line: string): Option<Candidate> {
    var proxy := Strip(line);
    if proxy == [] then None
    else
      var parts := Split(proxy, ':');
      if |parts| < 2 then None
      else Some(Candidate(proxy, parts[0], parts[1]))
  }

  /**
   * A line is rejected exactly when it is blank or has no `:`; otherwise the
   * candidate is the stripped line, and host and port are its first two
   * fields, free of `:`.
   */
  lemma ParseLineSpec(line: string)
    ensures var r := ParseLine(line);
      && (r.None? <==> (Strip(line) == [] || ':' !in Strip(line)))
      && (r.Some? ==>
            && r.value.proxy == Strip(line)
            && ':' !in r.value.host && ':' !in r.value.port
            && LeadsWith(r.value.proxy, r.value.host, r.value.port))
  {
    var proxy := Strip(line);
    if proxy != [] {
      SplitSpec(proxy, ':');
      var parts := Split(proxy, ':');
      if |parts| >= 2 {
        JoinedFieldsLead(parts);
      }
    }
  }

  /** Joining at least two fields puts the first two, separated, at the front. */
  lemma JoinedFieldsLead(parts: seq<string>)
    requires |parts| >= 2
    ensures LeadsWith(Join(parts, ':'), parts[0], parts[1])
  {
    var rest := Join(parts[1..], ':');
    assert Join(parts, ':') == parts[0] + [':'] + rest;
    if |parts| == 2 {
      assert rest == parts[1];
    } else {
      assert rest == parts[1] + [':'] + Join(parts[2..], ':');
    }
  }

  /**
   * Every `host:port` line, however it is padded with whitespace, parses to
   * exactly that host and port: no field other than the first two is looked
   * at and the port is not required to be numeric.
   */
  lemma ParseHostPort(pad: string, host: string, port: string, trail: string)
    requires AllSpace(pad) && AllSpace(trail)
    requires ':' !in host && ':' !in port
    requires host == [] || !IsSpace(host[0])
    requires port == [] || !IsSpace(port[|port| - 1])
    ensures ParseLine(pad + host + [':'] + port + trail)
         == Some(Candidate(host + [':'] + port, host, port))
  {
    var proxy := host + [':'] + port;
    StripPadded(pad, host, port, trail);
    SplitHostPort(host, port);
    assert Strip(pad + host + [':'] + port + trail) == proxy;
  }

  lemma StripPadded(pad: string, host: string, port: string, trail: string)
    requires AllSpace(pad) && AllSpace(trail)
    requires host == [] || !IsSpace(host[0])
    requires port == [] || !IsSpace(port[|port| - 1])
    ensures Strip(pad + host + [':'] + port + trail) == host + [':'] + port
  {
    var proxy := host + [':'] + port;
    assert Trimmed(proxy) by {
      assert proxy[0] == if host == [] then ':' else host[0];
      assert proxy[|proxy| - 1] == if port == [] then ':' else port[|port| - 1];
    }
    StripCharacterised(pad, proxy, trail);
    Associate(pad, host, ':', port, trail);
  }

  lemma Associate<T>(a: seq<T>, b: seq<T>, x: T, c: seq<T>, d: seq<T>)
    ensures a + b + [x] + c + d == a + (b + [x] + c) + d
  {
  }

  lemma SplitHostPort(host: string, port: string)
    requires ':' !in host && ':' !in port
    ensures Split(host + [':'] + port, ':') == [host, port]
  {
    assert Join([host, port], ':') == host + [':'] + port;
    SplitJoin([host, port], ':');
  }
}
