/**
 * Two single-line runs of `check_proxy` and `main`'s fold, worked out in
 * full. They show how the counters of `find.py` behave where a reader
 * might expect otherwise: `valid` counts records, not candidates, and a
 * line that does not parse is counted as invalid.
 */
module Scenarios {
  import opened Wrappers
  import opened Text
  import opened Parsing
  import opened Validation
  import opened Stats

  /**
   * `203.0.113.5:8080` passing connectivity and echo for HTTP and SOCKS5
   * and failing connectivity for HTTPS: two records, two more `valid`, no
   * `invalid`, one per protocol that passed, and one for its country.
   */
  lemma TwoProtocolsOneCandidate(resolve: string -> string, locate: string -> string, trials: Protocol -> Trial)
    requires trials(Http).http == Answered(OkStatus) && trials(Socks5).http == Answered(OkStatus)
    requires trials(Http).echo.Answered? && trials(Http).echo.value.received == trials(Http).echo.value.sent
    requires trials(Socks5).echo.Answered? && trials(Socks5).echo.value.received == trials(Socks5).echo.value.sent
    requires trials(Https).http != Answered(OkStatus)
    ensures var o := CheckResult("203.0.113.5:8080", resolve, locate, trials);
      && |Flatten([o])| == 2
      && InvalidCount([o]) == 0
      && ProtocolCount([o], Http) == 1 && ProtocolCount([o], Https) == 0 && ProtocolCount([o], Socks5) == 1
      && CountryCounts([o]) == map[locate(resolve("203.0.113.5")) := 1]
  {
    var line := "203.0.113.5:8080";
    var c := Candidate(line, "203.0.113.5", "8080");
    ExampleParse();
    var ip := resolve(c.host);
    var country := locate(ip);
    var rs := Validate(c, ip, country, trials);
    var o := CheckResult(line, resolve, locate, trials);
    assert o == Some(rs);
    ValidateSpec(c, ip, country, trials);
    assert CountProtocol(rs, Http) == 1 && CountProtocol(rs, Https) == 0 && CountProtocol(rs, Socks5) == 1;
    ProtocolsPartition(rs);
    assert rs != [] && rs[0].country == country by {
      assert rs[0] == MakeRecord(rs[0].protocol, c, ip, country);
    }
    SingleResult(o);
  }

  lemma ExampleParse()
    ensures ParseLine("203.0.113.5:8080") == Some(Candidate("203.0.113.5:8080", "203.0.113.5", "8080"))
  {
    var host, port := "203.0.113.5", "8080";
    assert [] + host + [':'] + port + [] == "203.0.113.5:8080" by {}
    assert ':' !in host && ':' !in port by {}
    assert !IsSpace(host[0]) && !IsSpace(port[|port| - 1]) by {}
    ParseHostPort([], host, port, []);
  }

  /** A run of one line: the counters are those of that line's result alone. */
  lemma SingleResult(o: Checked)
    ensures Flatten([o]) == RecordsOf(o)
    ensures InvalidCount([o]) == if Rejected(o) then 1 else 0
    ensures forall p :: ProtocolCount([o], p) == CountProtocol(RecordsOf(o), p)
    ensures CountryCounts([o]) == if Rejected(o) then map[] else map[CountryOf(o) := 1]
  {
    assert [o][..0] == [];
  }

  /** `not-a-proxy` has no `:`: `check_proxy` returns `None`, and `main` counts it as invalid and nothing else. */
  lemma NotAProxyCountsInvalid(resolve: string -> string, locate: string -> string, trials: Protocol -> Trial)
    ensures var o := CheckResult("not-a-proxy", resolve, locate, trials);
      && o == None
      && InvalidCount([o]) == 1
      && Flatten([o]) == []
      && CountryCounts([o]) == map[]
  {
    var line := "not-a-proxy";
    var a, b := StripShape(line);
    assert ':' !in Strip(line) by {
      assert forall i :: 0 <= i < |line| ==> line[i] != ':';
      assert forall i :: 0 <= i < |Strip(line)| ==> Strip(line)[i] == line[|a| + i];
    }
    ParseLineSpec(line);
    SingleResult(CheckResult(line, resolve, locate, trials));
  }
}
