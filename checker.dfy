/**
 * The stateful part of `find.py`: the `ProxyChecker` object whose
 * `check_proxy` tries the protocols and updates `by_protocol` and
 * `by_country`, and `main`, which cuts the input into batches and folds
 * each candidate's result into `valid_proxies`, `valid` and `invalid` as
 * the checks complete.
 */
module Checker {
  import opened Wrappers
  import opened Counting
  import opened Parsing
  import opened Validation
  import opened Stats
  import opened Batching
  import opened Ranking

  /**
   * What the outside world answers: DNS resolution (the host itself on
   * failure), the GeoIP lookup ("Unknown" on failure) and, for the line at
   * each input position, the probes' answers for each protocol.
   */
  datatype Network = Network(resolve: string -> string, locate: string -> string, probes: nat -> Protocol -> Trial)

  /** `by_country.items()` in the dictionary's insertion order. */
  function CountryItems(order: seq<string>, m: map<string, nat>): (r: seq<Entry>)
    requires forall i :: 0 <= i < |order| ==> order[i] in m
    ensures |r| == |order|
    ensures forall i :: 0 <= i < |r| ==> r[i] == (order[i], m[order[i]])
  {
    if order == [] then []
    else CountryItems(order[..|order| - 1], m) + [(order[|order| - 1], m[order[|order| - 1]])]
  }

  class ProxyChecker {
    var validProxies: seq<Record>
    var total: nat
    var valid: nat
    var invalid: nat
    var byProtocol: map<Protocol, nat>
    var byCountry: map<string, nat>
    /** The keys of `by_country` in the order they were first inserted (Python dictionaries keep it). */
    var countryOrder: seq<string>

    ghost predicate Valid()
      reads this
    {
      && (forall p :: p in byProtocol)
      && (forall c :: c in byCountry <==> c in countryOrder)
      && (forall i, j :: 0 <= i < j < |countryOrder| ==> countryOrder[i] != countryOrder[j])
    }

    /** The statistics are those of having folded the results `h` in, in this order. */
    ghost predicate Summarises(h: seq<Checked>)
      reads this
    {
      && Valid()
      && validProxies == Flatten(h)
      && valid == |Flatten(h)|
      && invalid == InvalidCount(h)
      && (forall p :: byProtocol[p] == ProtocolCount(h, p))
      && byCountry == CountryCounts(h)
      && countryOrder == CountryOrder(h)
    }

    constructor ()
      ensures Summarises([]) && total == 0
    {
      validProxies := [];
      total, valid, invalid := 0, 0, 0;
      byProtocol := map[Http := 0, Https := 0, Socks5 := 0];
      byCountry := map[];
      countryOrder := [];
      new;
      forall p ensures p in byProtocol && byProtocol[p] == ProtocolCount([], p) {
        assert p == Http || p == Https || p == Socks5;
        assert Flatten([]) == [];
      }
    }

    /**
     * `check_proxy`: parse the line, resolve the host and its country once,
     * try each protocol in turn, count each record under its protocol, and
     * count the country once if any protocol passed.
     */
    method CheckProxy(proxyLine: string, resolve: string -> string, locate: string -> string, trials: Protocol -> Trial)
      returns (r: Checked)
      requires Valid()
      modifies this`byProtocol, this`byCountry, this`countryOrder
      ensures Valid()
      ensures r == CheckResult(proxyLine, resolve, locate, trials)
      ensures forall p :: byProtocol[p] == old(byProtocol[p]) + CountProtocol(RecordsOf(r), p)
      ensures byCountry == if Rejected(r) then old(byCountry) else Bump(old(byCountry), CountryOf(r))
      ensures countryOrder ==
        if !Rejected(r) && CountryOf(r) !in old(byCountry) then old(countryOrder) + [CountryOf(r)]
        else old(countryOrder)
    {
      var parsed := ParseLine(proxyLine);
      if parsed.None? {
        return None;
      }
      var candidate := parsed.value;
      var ip := resolve(candidate.host);
      var country := locate(ip);

      var validResults := TryProtocols(candidate, ip, country, trials);

      r := Some(validResults);
      assert r == CheckResult(proxyLine, resolve, locate, trials);
      if validResults != [] {
        assert CountryOf(r) == country by {
          ValidateSpec(candidate, ip, country, trials);
          assert validResults[0] == MakeRecord(validResults[0].protocol, candidate, ip, country);
        }
        if country !in byCountry {
          countryOrder := countryOrder + [country];
        }
        byCountry := Bump(byCountry, country);
      }
    }

    /**
     * `check_proxy`'s loop over the protocols: a protocol whose HTTP probe
     * answers 200 and whose echo comes back unchanged (HTTPS skips the echo)
     * yields a record and one more in `by_protocol`.
     */
    method TryProtocols(candidate: Candidate, ip: string, country: string, trials: Protocol -> Trial)
      returns (validResults: seq<Record>)
      requires forall p :: p in byProtocol
      modifies this`byProtocol
      ensures validResults == Validate(candidate, ip, country, trials)
      ensures forall p :: p in byProtocol
      ensures forall p :: byProtocol[p] == old(byProtocol[p]) + CountProtocol(validResults, p)
    {
      validResults := [];
      for n := 0 to |Protocols|
        invariant validResults == RecordsOver(Protocols[..n], candidate, ip, country, trials)
        invariant forall p :: p in byProtocol
        invariant forall p :: byProtocol[p] == old(byProtocol[p]) + CountProtocol(validResults, p)
      {
        var protocol := Protocols[n];
        var skipWs := protocol == Https;
        RecordsOverStep(n, candidate, ip, country, trials);
        // An exception (`Threw`) abandons this protocol only; the loop goes on.
        var httpOk := TestHttp(trials(protocol).http);
        if httpOk == Returned(true) {
          var wsOk := if skipWs then Returned(true) else TestWebsocket(trials(protocol).echo);
          if wsOk == Returned(true) {
            var result := MakeRecord(protocol, candidate, ip, country);
            Tallied(byProtocol, old(byProtocol), validResults, result);
            validResults := validResults + [result];
            byProtocol := byProtocol[protocol := byProtocol[protocol] + 1];
          }
        }
      }
      assert Protocols[..|Protocols|] == Protocols;
    }

    /** The body of `main`'s completion loop: `valid_proxies`, `valid` and `invalid` take in one result. */
    method Fold(results: Checked)
      modifies this`validProxies, this`valid, this`invalid
      ensures validProxies == old(validProxies) + RecordsOf(results)
      ensures valid == old(valid) + |RecordsOf(results)|
      ensures invalid == old(invalid) + if Rejected(results) then 1 else 0
    {
      if results.Some? && results.value != [] {
        validProxies := validProxies + results.value;
        valid := valid + |results.value|;
      } else {
        invalid := invalid + 1;
      }
    }

    /**
     * One completed task of `main`'s loop: `check_proxy` on the line, then
     * its result folded into `valid_proxies`, `valid` and `invalid`. The
     * statistics go from summarising the results `h` to summarising `h`
     * followed by this one.
     */
    method CheckAndFold(proxyLine: string, resolve: string -> string, locate: string -> string, trials: Protocol -> Trial, ghost h: seq<Checked>)
      returns (r: Checked)
      requires Summarises(h)
      modifies this`validProxies, this`valid, this`invalid, this`byProtocol, this`byCountry, this`countryOrder
      ensures r == CheckResult(proxyLine, resolve, locate, trials)
      ensures Summarises(h + [r])
    {
      ghost var vp, v, inv, bp, bc, co := validProxies, valid, invalid, byProtocol, byCountry, countryOrder;
      r := CheckProxy(proxyLine, resolve, locate, trials);
      Fold(r);
      SummaryStep(this, h, r, vp, v, inv, bp, bc, co);
    }

    /** The "Top Country" rows of `print_stats`. */
    function TopCountryRows(): (r: seq<Entry>)
      reads this
      requires Valid()
      ensures |r| == Min(TopN, |byCountry|)
      ensures forall i :: 0 <= i < |r| ==> r[i].0 in byCountry && byCountry[r[i].0] == r[i].1
      ensures NonIncreasing(r)
      ensures forall i, j :: 0 <= i < j < |r| ==> r[i].0 != r[j].0
      ensures forall c :: c in byCountry && (c, byCountry[c]) !in r ==>
                forall i :: 0 <= i < |r| ==> byCountry[c] <= r[i].1
      // Tied countries are shown in the order they entered `by_country`.
      ensures forall v :: WithCount(r, v) <= WithCount(CountryItems(countryOrder, byCountry), v)
    {
      KeysListed(countryOrder, byCountry);
      TopOfItems(countryOrder, byCountry);
      TopOfItemsBeatAll(countryOrder, byCountry);
      TopCountries(CountryItems(countryOrder, byCountry))
    }
  }

  /**
   * Statistics that summarise the results `h`, updated the way `check_proxy`
   * and `main` update them for one more result `o`, summarise `h` followed
   * by `o`.
   */
  lemma SummaryStep(c: ProxyChecker, h: seq<Checked>, o: Checked,
                    vp: seq<Record>, v: nat, inv: nat, bp: map<Protocol, nat>, bc: map<string, nat>, co: seq<string>)
    requires vp == Flatten(h) && v == |Flatten(h)| && inv == InvalidCount(h)
    requires forall p :: p in bp && bp[p] == ProtocolCount(h, p)
    requires bc == CountryCounts(h) && co == CountryOrder(h)
    requires c.Valid()
    requires c.validProxies == vp + RecordsOf(o) && c.valid == v + |RecordsOf(o)|
    requires c.invalid == inv + (if Rejected(o) then 1 else 0)
    requires forall p :: c.byProtocol[p] == bp[p] + CountProtocol(RecordsOf(o), p)
    requires c.byCountry == if Rejected(o) then bc else Bump(bc, CountryOf(o))
    requires c.countryOrder == if !Rejected(o) && CountryOf(o) !in bc then co + [CountryOf(o)] else co
    ensures c.Summarises(h + [o])
  {
    Append(h, o);
    CountryOrderKeys(h);
    assert (h + [o])[..|h|] == h;
  }

  /** Trying one more protocol appends what that protocol emits. */
  lemma RecordsOverStep(n: nat, c: Candidate, ip: string, country: string, trials: Protocol -> Trial)
    requires n < |Protocols|
    ensures RecordsOver(Protocols[..n + 1], c, ip, country, trials)
         == RecordsOver(Protocols[..n], c, ip, country, trials) + Emit(Protocols[n], c, ip, country, trials)
  {
    assert Protocols[..n + 1][..n] == Protocols[..n];
  }

  /** The top rows of a map listed by its keys are entries of the map, of different countries, as many as it has up to five. */
  lemma TopOfItems(order: seq<string>, m: map<string, nat>)
    requires forall c :: c in m <==> c in order
    requires forall i, j :: 0 <= i < j < |order| ==> order[i] != order[j]
    ensures var r := TopCountries(CountryItems(order, m));
      && |r| == Min(TopN, |m|)
      && (forall i :: 0 <= i < |r| ==> r[i].0 in m && m[r[i].0] == r[i].1)
      && (forall i, j :: 0 <= i < j < |r| ==> r[i].0 != r[j].0)
  {
    var items := CountryItems(order, m);
    DistinctKeys(order, m);
    var r := TopCountries(items);
    forall i | 0 <= i < |r| ensures r[i].0 in m && m[r[i].0] == r[i].1 {
      assert r[i] in multiset(r);
      assert r[i] in multiset(items);
      var k :| 0 <= k < |items| && items[k] == r[i];
    }
    DistinctRows(order, m, r);
  }

  /** Rows drawn from a map listed by distinct keys name different keys. */
  lemma DistinctRows(order: seq<string>, m: map<string, nat>, r: seq<Entry>)
    requires forall i :: 0 <= i < |order| ==> order[i] in m
    requires forall i, j :: 0 <= i < j < |order| ==> order[i] != order[j]
    requires multiset(r) <= multiset(CountryItems(order, m))
    ensures forall i, j :: 0 <= i < j < |r| ==> r[i].0 != r[j].0
  {
    var items := CountryItems(order, m);
    forall i, j | 0 <= i < j < |r| ensures r[i].0 != r[j].0 {
      if r[i].0 == r[j].0 {
        assert r[i] == r[j] by {
          assert r[i] in multiset(items) && r[j] in multiset(items);
          var ki :| 0 <= ki < |items| && items[ki] == r[i];
          var kj :| 0 <= kj < |items| && items[kj] == r[j];
          assert order[ki] == order[kj];
        }
        Twice(r, i, j);
        ItemsOnce(order, m, r[i]);
        assert false;
      }
    }
  }

  /** An element at two positions of `s` is in its multiset at least twice. */
  lemma Twice<T>(s: seq<T>, i: nat, j: nat)
    requires i < j < |s| && s[i] == s[j]
    ensures multiset(s)[s[i]] >= 2
  {
    assert s == s[..j] + [s[j]] + s[j + 1..];
    assert s[i] in s[..j];
  }

  /** Listing a map by distinct keys gives every entry at most once. */
  lemma {:induction false} ItemsOnce(order: seq<string>, m: map<string, nat>, x: Entry)
    requires forall i :: 0 <= i < |order| ==> order[i] in m
    requires forall i, j :: 0 <= i < j < |order| ==> order[i] != order[j]
    ensures multiset(CountryItems(order, m))[x] <= 1
    decreases |order|
  {
    if order != [] {
      var front := order[..|order| - 1];
      var last := order[|order| - 1];
      ItemsOnce(front, m, x);
      var items := CountryItems(front, m);
      assert CountryItems(order, m) == items + [(last, m[last])];
      if x == (last, m[last]) {
        forall k | 0 <= k < |items| ensures items[k] != x {
          assert items[k].0 == front[k] == order[k];
        }
      }
    }
  }

  /** No key left out of the top rows has a larger count than a key shown. */
  lemma TopOfItemsBeat(order: seq<string>, m: map<string, nat>, c: string)
    requires forall c :: c in m <==> c in order
    requires c in m
    ensures var r := TopCountries(CountryItems(order, m));
      (c, m[c]) !in r ==> forall i :: 0 <= i < |r| ==> m[c] <= r[i].1
  {
    var items := CountryItems(order, m);
    var r := TopCountries(items);
    var x: Entry := (c, m[c]);
    if x !in r {
      var k :| 0 <= k < |order| && order[k] == c;
      assert items[k] == x;
    }
  }

  /** Every key in the list is a key of the map. */
  lemma KeysListed(order: seq<string>, m: map<string, nat>)
    requires forall c :: c in m <==> c in order
    ensures forall i :: 0 <= i < |order| ==> order[i] in m
  {
  }

  /** No key left out of the top rows has a larger count than any key shown. */
  lemma TopOfItemsBeatAll(order: seq<string>, m: map<string, nat>)
    requires forall c :: c in m <==> c in order
    ensures var r := TopCountries(CountryItems(order, m));
      forall c :: c in m && (c, m[c]) !in r ==> forall i :: 0 <= i < |r| ==> m[c] <= r[i].1
  {
    forall c | c in m {
      TopOfItemsBeat(order, m, c);
    }
  }

  /** Bumping the counter of a new record's protocol keeps every counter equal to its base plus the records of its protocol. */
  lemma Tallied(m: map<Protocol, nat>, base: map<Protocol, nat>, rs: seq<Record>, x: Record)
    requires forall p :: p in m && p in base && m[p] == base[p] + CountProtocol(rs, p)
    ensures var m' := m[x.protocol := m[x.protocol] + 1];
      forall p :: p in m' && m'[p] == base[p] + CountProtocol(rs + [x], p)
  {
    assert (rs + [x])[..|rs|] == rs;
  }

  /** A list of distinct keys that are exactly a map's keys is as long as the map. */
  lemma {:induction false} DistinctKeys(order: seq<string>, m: map<string, nat>)
    requires forall c :: c in m <==> c in order
    requires forall i, j :: 0 <= i < j < |order| ==> order[i] != order[j]
    ensures |order| == |m|
    decreases |order|
  {
    if order != [] {
      var last := order[|order| - 1];
      var m' := m - {last};
      forall c ensures c in m' <==> c in order[..|order| - 1] {
        if c in order && c != last {
          var i :| 0 <= i < |order| && order[i] == c;
          assert i < |order| - 1;
        }
      }
      DistinctKeys(order[..|order| - 1], m');
      assert m.Keys == m'.Keys + {last};
    }
  }

  /**
   * Statistics that summarise a history agree with each other: what
   * `print_stats` shows once the last batch has completed. In `find.py`
   * this holds at batch boundaries, when no check is in flight; while a
   * batch runs, `by_protocol` and `by_country` may already count checks
   * that `main` has not folded in yet.
   */
  lemma CountersAgree(checker: ProxyChecker, h: seq<Checked>)
    requires checker.Summarises(h)
    ensures checker.byProtocol[Http] + checker.byProtocol[Https] + checker.byProtocol[Socks5]
         == checker.valid == |checker.validProxies|
    ensures checker.invalid + AcceptedCount(h) == |h|
    ensures AcceptedCount(h) <= checker.valid
  {
    ProtocolsPartition(Flatten(h));
    EveryCandidateCounted(h);
    RecordsBound(h);
  }

  /** `lo, lo + 1, ..., hi - 1`. */
  function Range(lo: nat, hi: nat): (r: seq<nat>)
    requires lo <= hi
    ensures |r| == hi - lo
    ensures forall i :: 0 <= i < |r| ==> r[i] == lo + i
    decreases hi - lo
  {
    if lo == hi then [] else Range(lo, hi - 1) + [hi - 1]
  }

  /** The results of all lines in input order: what `check_proxy` returns for each. */
  function Results(lines: seq<string>, net: Network): (r: seq<Checked>)
    ensures |r| == |lines|
  {
    seq(|lines|, k requires 0 <= k < |lines| => CheckResult(lines[k], net.resolve, net.locate, net.probes(k)))
  }

  /** `waiting` holds the results of the lines at the positions `pending`, all within `lo .. hi`. */
  ghost predicate Tracks(waiting: seq<Checked>, pending: seq<nat>, all: seq<Checked>, lo: nat, hi: nat) {
    && |waiting| == |pending|
    && hi <= |all|
    && forall t :: 0 <= t < |pending| ==> lo <= pending[t] < hi && waiting[t] == all[pending[t]]
  }

  lemma TracksRange(all: seq<Checked>, lo: nat, hi: nat)
    requires lo <= hi <= |all|
    ensures Tracks(all[lo..hi], Range(lo, hi), all, lo, hi)
  {
  }

  lemma TracksWithout(waiting: seq<Checked>, pending: seq<nat>, all: seq<Checked>, lo: nat, hi: nat, j: nat)
    requires Tracks(waiting, pending, all, lo, hi) && j < |pending|
    ensures Tracks(waiting[..j] + waiting[j + 1..], pending[..j] + pending[j + 1..], all, lo, hi)
  {
    var w, p := waiting[..j] + waiting[j + 1..], pending[..j] + pending[j + 1..];
    forall t | 0 <= t < |p| ensures lo <= p[t] < hi && w[t] == all[p[t]] {
      var u := if t < j then t else t + 1;
      assert p[t] == pending[u] && w[t] == waiting[u];
    }
  }

  /**
   * One batch of `main`: a task per line of `lines[lo..hi]`, each result
   * folded in as its task completes. `asyncio.as_completed` hands the
   * results back in an order the model does not fix; the statistics take in
   * every result of the batch once.
   */
  method RunBatch(checker: ProxyChecker, lines: seq<string>, net: Network, lo: nat, hi: nat, ghost hist: seq<Checked>)
    returns (ghost hist': seq<Checked>)
    requires lo <= hi <= |lines|
    requires checker.Summarises(hist)
    modifies checker`validProxies, checker`valid, checker`invalid, checker`byProtocol, checker`byCountry, checker`countryOrder
    ensures checker.Summarises(hist')
    ensures |hist| <= |hist'| && hist'[..|hist|] == hist
    ensures multiset(hist') == multiset(hist) + multiset(Results(lines, net)[lo..hi])
  {
    ghost var all := Results(lines, net);
    ghost var goal := multiset(hist) + multiset(all[lo..hi]);
    // The positions of the batch's lines whose tasks have not completed, and their results.
    var pending := Range(lo, hi);
    ghost var waiting := all[lo..hi];
    TracksRange(all, lo, hi);
    hist' := hist;
    while pending != []
      invariant checker.Summarises(hist')
      invariant |hist| <= |hist'| && hist'[..|hist|] == hist
      invariant Tracks(waiting, pending, all, lo, hi)
      invariant multiset(hist') + multiset(waiting) == goal
      decreases |pending|
    {
      var j :| 0 <= j < |pending|;
      var k := pending[j];
      Completes(waiting, pending, all, lo, hi, j, hist', goal);
      var results := checker.CheckAndFold(lines[k], net.resolve, net.locate, net.probes(k), hist');
      hist' := hist' + [results];
      waiting := waiting[..j] + waiting[j + 1..];
      pending := pending[..j] + pending[j + 1..];
    }
  }

  /** Folding in the result of the task at `j` moves it from the waiting results to the history. */
  lemma Completes(waiting: seq<Checked>, pending: seq<nat>, all: seq<Checked>, lo: nat, hi: nat, j: nat,
                  hist: seq<Checked>, goal: multiset<Checked>)
    requires Tracks(waiting, pending, all, lo, hi) && j < |pending|
    requires multiset(hist) + multiset(waiting) == goal
    ensures waiting[j] == all[pending[j]]
    ensures Tracks(waiting[..j] + waiting[j + 1..], pending[..j] + pending[j + 1..], all, lo, hi)
    ensures multiset(hist + [waiting[j]]) + multiset(waiting[..j] + waiting[j + 1..]) == goal
  {
    Without(waiting, j);
    TracksWithout(waiting, pending, all, lo, hi, j);
  }

  /**
   * `main`: nothing happens for an empty input; otherwise every line is
   * checked, batch after batch, and each batch's results are folded in in
   * whatever order they complete. `valid_proxies` holds the records batch by
   * batch in input order, each batch's results in some order of their own;
   * whatever those orders, the counters come out as if the lines had been
   * folded in input order.
   */
  method CheckList(lines: seq<string>, net: Network) returns (checker: ProxyChecker?, ghost parts: seq<seq<Checked>>)
    ensures checker == null <==> lines == []
    ensures checker != null ==>
      && fresh(checker)
      && checker.Valid()
      && checker.total == |lines|
      && InBatchOrder(parts, Results(lines, net))
      && checker.validProxies == Flatten(Concat(parts))
      && multiset(checker.validProxies) == multiset(Flatten(Results(lines, net)))
      && checker.valid == |Flatten(Results(lines, net))|
      && checker.invalid == InvalidCount(Results(lines, net))
      && (forall p :: checker.byProtocol[p] == ProtocolCount(Results(lines, net), p))
      && checker.byCountry == CountryCounts(Results(lines, net))
      && checker.countryOrder == CountryOrder(Concat(parts))
  {
    parts := [];
    if lines == [] {
      return null, parts;
    }
    checker := new ProxyChecker();
    checker.total := |lines|;
    ghost var hist, seen;
    hist, seen, parts := RunBatches(checker, lines, net);
    OrderIndependent(hist, Results(lines, net));
  }

  /**
   * `parts` are the batches of `all`, in order, each one reordered: the
   * results as `main` folds them in.
   */
  ghost predicate InBatchOrder(parts: seq<seq<Checked>>, all: seq<Checked>) {
    Reorders(parts, Batches(all, MaxConcurrent))
  }

  /** Each of `parts` is a reordering of the batch at its position. */
  ghost predicate Reorders(parts: seq<seq<Checked>>, batches: seq<seq<Checked>>) {
    && |parts| == |batches|
    && forall b :: 0 <= b < |parts| ==> multiset(parts[b]) == multiset(batches[b])
  }

  /**
   * The loop of `main` over `range(0, len(proxies), max_concurrent)`: it
   * walks the batches of the lines one after the other, and folds in the
   * results of each batch, in some order, after those of the batches before.
   */
  method RunBatches(checker: ProxyChecker, lines: seq<string>, net: Network)
    returns (ghost hist: seq<Checked>, ghost seen: seq<seq<string>>, ghost parts: seq<seq<Checked>>)
    requires checker.Summarises([])
    modifies checker`validProxies, checker`valid, checker`invalid, checker`byProtocol, checker`byCountry, checker`countryOrder
    ensures checker.Summarises(hist)
    ensures seen == Batches(lines, MaxConcurrent)
    ensures InBatchOrder(parts, Results(lines, net))
    ensures hist == Concat(parts)
    ensures multiset(hist) == multiset(Results(lines, net))
  {
    ghost var all := Results(lines, net);
    hist := [];
    // The batches started so far, of the lines and of their results.
    seen := [];
    ghost var seenResults: seq<seq<Checked>> := [];
    parts := [];
    var i := 0;
    while i < |lines|
      invariant i <= |lines|
      invariant checker.Summarises(hist)
      invariant seen + Batches(lines[i..], MaxConcurrent) == Batches(lines, MaxConcurrent)
      invariant seenResults + Batches(all[i..], MaxConcurrent) == Batches(all, MaxConcurrent)
      invariant hist == Concat(parts) && Reorders(parts, seenResults)
    {
      var hi := Min(i + MaxConcurrent, |lines|);
      BatchesStep(seen, lines, i, MaxConcurrent);
      BatchesStep(seenResults, all, i, MaxConcurrent);
      seen := seen + [lines[i..hi]];
      ghost var before := hist;
      hist := RunBatch(checker, lines, net, i, hi, hist);
      BatchFolded(before, hist, parts, seenResults, all[i..hi]);
      parts := parts + [hist[|before|..]];
      seenResults := seenResults + [all[i..hi]];
      i := hi;
    }
    assert lines[|lines|..] == [] && all[|lines|..] == [];
    assert seenResults == Batches(all, MaxConcurrent);
    BatchesSpec(all, MaxConcurrent);
    assert Concat(seenResults) == all;
    ReordersConcat(parts, seenResults);
  }

  /** Reordering each batch reorders the whole. */
  lemma {:induction false} ReordersConcat(parts: seq<seq<Checked>>, batches: seq<seq<Checked>>)
    requires Reorders(parts, batches)
    ensures multiset(Concat(parts)) == multiset(Concat(batches))
  {
    if parts != [] {
      ReordersConcat(parts[1..], batches[1..]);
      assert multiset(parts[0]) == multiset(batches[0]);
    }
  }

  /** A batch folded in after the earlier ones adds one part, a reordering of that batch's results. */
  lemma BatchFolded(before: seq<Checked>, after: seq<Checked>, parts: seq<seq<Checked>>,
                    seenResults: seq<seq<Checked>>, batch: seq<Checked>)
    requires before == Concat(parts) && Reorders(parts, seenResults)
    requires |before| <= |after| && after[..|before|] == before
    requires multiset(after) == multiset(before) + multiset(batch)
    ensures after == Concat(parts + [after[|before|..]])
    ensures Reorders(parts + [after[|before|..]], seenResults + [batch])
  {
    var part := after[|before|..];
    assert after == before + part;
    assert multiset(after) == multiset(before) + multiset(part);
    ConcatSnoc(parts, part);
    Cancel(multiset(before), multiset(part), multiset(batch));
  }

  lemma Cancel<T>(a: multiset<T>, b: multiset<T>, c: multiset<T>)
    requires a + b == a + c
    ensures b == c
  {
    forall x ensures b[x] == c[x] {
      assert (a + b)[x] == (a + c)[x];
    }
  }
}
