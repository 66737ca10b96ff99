/**
 * The per-candidate decision of `ProxyChecker.check_proxy`: which of the
 * three proxy protocols a parsed candidate passes, and the records it
 * yields. What the network answered is an input here; the probes only
 * turn those answers into verdicts.
 */
module Validation {
  import opened Wrappers
  import opened Parsing
  import opened Counting

  datatype Protocol = Http | Https | Socks5

  /** The fixed order in which `check_proxy` tries the protocols. */
  const Protocols: seq<Protocol> := [Http, Https, Socks5]

  /** The only HTTP status `test_http` accepts. */
  const OkStatus: int := 200

  /** The scheme string the source writes for a protocol. */
  function Scheme(p: Protocol): string {
    match p
    case Http => "http"
    case Https => "https"
    case Socks5 => "socks5"
  }

  /** Where a protocol stands in `Protocols`. */
  function Rank(p: Protocol): (i: nat)
    ensures i < |Protocols| && Protocols[i] == p
  {
    match p
    case Http => 0
    case Https => 1
    case Socks5 => 2
  }

  /**
   * What one probe met on the network. `ClientError` is an
   * `aiohttp.ClientError` or `asyncio.TimeoutError`, which the probe itself
   * catches; `Raised` is any other exception (building the proxy connector,
   * an unexpected frame type, ...), which escapes the probe.
   */
  datatype Probe<T> = Answered(value: T) | ClientError | Raised

  /** The WebSocket echo probe's random test message and the text frame received back. */
  datatype Exchange = Exchange(sent: string, received: string)

  /** Everything the network answers when one protocol is tried on one candidate. */
  datatype Trial = Trial(http: Probe<int>, echo: Probe<Exchange>)

  /** A probe either returns a boolean or lets an exception through. */
  datatype Outcome = Returned(ok: bool) | Threw

  /** `test_http`: true exactly on status 200; client errors and timeouts are false. */
  function TestHttp(probe: Probe<int>): (r: Outcome)
    ensures r == Returned(true) <==> probe == Answered(OkStatus)
    ensures r == Threw <==> probe == Raised
  {
    match probe
    case Answered(status) => Returned(status == OkStatus)
    case ClientError => Returned(false)
    case Raised => Threw
  }

  /** `test_websocket`: true exactly when the echoed text equals the text sent. */
  function TestWebsocket(probe: Probe<Exchange>): (r: Outcome)
    ensures r == Returned(true) <==> probe.Answered? && probe.value.received == probe.value.sent
    ensures r == Threw <==> probe == Raised
  {
    match probe
    case Answered(exchange) => Returned(exchange.received == exchange.sent)
    case ClientError => Returned(false)
    case Raised => Threw
  }

  /**
   * The body of `check_proxy`'s `try` block for one protocol: the
   * connectivity probe, then, unless the protocol is HTTPS (`skip_ws`), the
   * echo probe, which is only run when the connectivity probe passed.
   */
  function Attempt(p: Protocol, t: Trial): (r: Outcome)
    ensures r == Threw <==>
      t.http == Raised || (t.http == Answered(OkStatus) && p != Https && t.echo == Raised)
  {
    match TestHttp(t.http)
    case Threw => Threw
    case Returned(httpOk) =>
      if !httpOk then Returned(false)
      else if p == Https then Returned(true)
      else TestWebsocket(t.echo)
  }

  /**
   * A protocol yields a record exactly when its connectivity probe saw
   * status 200 and it is HTTPS or its echo came back unchanged; an
   * exception counts as a failure of that protocol alone.
   */
  predicate Accepted(p: Protocol, t: Trial)
    ensures Accepted(p, t) <==>
      && t.http == Answered(OkStatus)
      && (p == Https || (t.echo.Answered? && t.echo.value.received == t.echo.value.sent))
  {
    Attempt(p, t) == Returned(true)
  }

  /** The result dictionary `check_proxy` appends (its `validated_at` timestamp left out). */
  datatype Record = Record(protocol: Protocol, proxy: string, url: string, ip: string, port: string, country: string)

  function MakeRecord(p: Protocol, c: Candidate, ip: string, country: string): Record {
    Record(p, c.proxy, Scheme(p) + "://" + c.proxy, ip, c.port, country)
  }

  /** Records of protocol `p` among `rs`. */
  function CountProtocol(rs: seq<Record>, p: Protocol): nat {
    Count(rs, (r: Record) => r.protocol == p)
  }

  /** At most one record for `p`, and only when `p` is accepted. */
  function Emit(p: Protocol, c: Candidate, ip: string, country: string, trials: Protocol -> Trial): seq<Record> {
    if Accepted(p, trials(p)) then [MakeRecord(p, c, ip, country)] else []
  }

  /** The records `check_proxy`'s loop has gathered after trying the protocols `ps`, in order. */
  function RecordsOver(ps: seq<Protocol>, c: Candidate, ip: string, country: string, trials: Protocol -> Trial): seq<Record> {
    if ps == [] then []
    else RecordsOver(ps[..|ps| - 1], c, ip, country, trials) + Emit(ps[|ps| - 1], c, ip, country, trials)
  }

  /** All records for one parsed candidate: the records of the accepted protocols, in the order HTTP, HTTPS, SOCKS5. */
  function Validate(c: Candidate, ip: string, country: string, trials: Protocol -> Trial): seq<Record> {
    RecordsOver(Protocols, c, ip, country, trials)
  }

  /**
   * At most one record per protocol, in the order HTTP, HTTPS, SOCKS5, one
   * exactly for each accepted protocol, all sharing the candidate's proxy,
   * port, address and country.
   */
  lemma ValidateSpec(c: Candidate, ip: string, country: string, trials: Protocol -> Trial)
    ensures var r := Validate(c, ip, country, trials);
      && |r| <= |Protocols|
      && (forall i :: 0 <= i < |r| ==> r[i] == MakeRecord(r[i].protocol, c, ip, country))
      && (forall i, j :: 0 <= i < j < |r| ==> Rank(r[i].protocol) < Rank(r[j].protocol))
      && (forall p :: CountProtocol(r, p) == if Accepted(p, trials(p)) then 1 else 0)
  {
    assert Protocols[..|Protocols|] == Protocols;
    RecordsOverShape(|Protocols|, c, ip, country, trials);
    forall p ensures CountProtocol(RecordsOver(Protocols, c, ip, country, trials), p)
                  == if Accepted(p, trials(p)) then 1 else 0 {
      RecordsOverCount(|Protocols|, c, ip, country, trials, p);
    }
  }

  /** The records after trying the first `n` protocols are built from the candidate, in protocol order. */
  lemma {:induction false} RecordsOverShape(n: nat, c: Candidate, ip: string, country: string, trials: Protocol -> Trial)
    requires n <= |Protocols|
    ensures var r := RecordsOver(Protocols[..n], c, ip, country, trials);
      && |r| <= n
      && (forall i :: 0 <= i < |r| ==> r[i] == MakeRecord(r[i].protocol, c, ip, country) && Rank(r[i].protocol) < n)
      && (forall i, j :: 0 <= i < j < |r| ==> Rank(r[i].protocol) < Rank(r[j].protocol))
  {
    if n > 0 {
      assert Protocols[..n][..n - 1] == Protocols[..n - 1];
      RecordsOverShape(n - 1, c, ip, country, trials);
      assert Rank(Protocols[n - 1]) == n - 1;
    }
  }

  /** After trying the first `n` protocols, `p` has one record exactly when it is among them and accepted. */
  lemma {:induction false} RecordsOverCount(n: nat, c: Candidate, ip: string, country: string, trials: Protocol -> Trial, p: Protocol)
    requires n <= |Protocols|
    ensures CountProtocol(RecordsOver(Protocols[..n], c, ip, country, trials), p)
         == if Rank(p) < n && Accepted(p, trials(p)) then 1 else 0
  {
    if n > 0 {
      var q := Protocols[n - 1];
      assert Protocols[..n][..n - 1] == Protocols[..n - 1];
      RecordsOverCount(n - 1, c, ip, country, trials, p);
      var before := RecordsOver(Protocols[..n - 1], c, ip, country, trials);
      CountProtocolConcat(before, Emit(q, c, ip, country, trials), p);
      EmitCount(q, c, ip, country, trials, p);
      assert (p == q) == (Rank(p) == n - 1) by { assert Rank(q) == n - 1; }
    }
  }

  lemma CountProtocolConcat(a: seq<Record>, b: seq<Record>, p: Protocol)
    ensures CountProtocol(a + b, p) == CountProtocol(a, p) + CountProtocol(b, p)
  {
    CountConcat(a, b, (r: Record) => r.protocol == p);
  }

  /** The records `q`'s attempt emits hold one of protocol `p` exactly when `q` is `p` and accepted. */
  lemma EmitCount(q: Protocol, c: Candidate, ip: string, country: string, trials: Protocol -> Trial, p: Protocol)
    ensures CountProtocol(Emit(q, c, ip, country, trials), p) == if q == p && Accepted(q, trials(q)) then 1 else 0
  {
    var e := Emit(q, c, ip, country, trials);
    if e != [] {
      assert e[..0] == [];
    }
  }

  /** `check_proxy` on one raw line: `None` for a rejected line, otherwise the list of records. */
  function CheckResult(line: string, resolve: string -> string, locate: string -> string, trials: Protocol -> Trial): Option<seq<Record>> {
    match ParseLine(line)
    case None => None
    case Some(c) =>
      var ip := resolve(c.host);
      Some(Validate(c, ip, locate(ip), trials))
  }

  /**
   * Whether protocol `p` yields a record depends only on what the network
   * answered for `p`: a failure, or an exception, while trying another
   * protocol changes nothing for `p`.
   */
  lemma Isolation(c: Candidate, ip: string, country: string, t1: Protocol -> Trial, t2: Protocol -> Trial, p: Protocol)
    requires t1(p) == t2(p)
    ensures CountProtocol(Validate(c, ip, country, t1), p) == CountProtocol(Validate(c, ip, country, t2), p)
  {
    ValidateSpec(c, ip, country, t1);
    ValidateSpec(c, ip, country, t2);
  }
}
