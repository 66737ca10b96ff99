/**
 * The statistics `find.py` keeps, as functions of the sequence of
 * per-candidate results in the order they were folded in: `valid_proxies`,
 * `valid`, `invalid`, `by_protocol` and `by_country`.
 */
module Stats {
  import opened Wrappers
  import opened Counting
  import opened Validation

  /** What `check_proxy` returns for one line: `None` for a rejected line, else its list of records. */
  type Checked = Option<seq<Record>>

  function RecordsOf(o: Checked): seq<Record> {
    match o
    case None => []
    case Some(rs) => rs
  }

  /** `if results:` fails: the line was rejected, or no protocol passed. */
  predicate Rejected(o: Checked) {
    RecordsOf(o) == []
  }

  /** The country shared by all records of a candidate. */
  function CountryOf(o: Checked): string
    requires !Rejected(o)
  {
    RecordsOf(o)[0].country
  }

  /** All records, in folding order: what `valid_proxies.extend` builds up. */
  function Flatten(h: seq<Checked>): (rs: seq<Record>) {
    if h == [] then [] else Flatten(h[..|h| - 1]) + RecordsOf(h[|h| - 1])
  }

  /** Candidates counted as `invalid`. */
  function InvalidCount(h: seq<Checked>): nat {
    Count(h, Rejected)
  }

  /** Candidates that produced at least one record. */
  function AcceptedCount(h: seq<Checked>): nat {
    Count(h, (o: Checked) => !Rejected(o))
  }

  /** `by_protocol[p]`: records of protocol `p`. */
  function ProtocolCount(h: seq<Checked>, p: Protocol): nat {
    CountProtocol(Flatten(h), p)
  }

  /** Candidates with records whose country is `c`. */
  function CountryTally(h: seq<Checked>, c: string): nat {
    Count(h, (o: Checked) => !Rejected(o) && CountryOf(o) == c)
  }

  /** `by_country[c] = by_country.get(c, 0) + 1`. */
  function Bump(m: map<string, nat>, c: string): (r: map<string, nat>)
    ensures r.Keys == m.Keys + {c}
    ensures r[c] == (if c in m then m[c] else 0) + 1
    ensures forall k :: k in m && k != c ==> r[k] == m[k]
  {
    m[c := (if c in m then m[c] else 0) + 1]
  }

  /** `by_country` after folding the candidates `h` in, one bump per candidate with records. */
  function CountryCounts(h: seq<Checked>): map<string, nat> {
    if h == [] then map[]
    else
      var m := CountryCounts(h[..|h| - 1]);
      var o := h[|h| - 1];
      if Rejected(o) then m else Bump(m, CountryOf(o))
  }

  /**
   * The keys of `by_country` in the order they were first inserted, which a
   * Python dictionary keeps: each country at the first candidate with
   * records from it.
   */
  function CountryOrder(h: seq<Checked>): seq<string> {
    if h == [] then []
    else
      var order := CountryOrder(h[..|h| - 1]);
      var o := h[|h| - 1];
      if Rejected(o) || CountryOf(o) in order then order else order + [CountryOf(o)]
  }

  /** The first-insertion order lists every key of `by_country` exactly once and nothing else. */
  lemma {:induction false} CountryOrderKeys(h: seq<Checked>)
    ensures forall c :: c in CountryOrder(h) <==> c in CountryCounts(h)
    ensures forall i, j :: 0 <= i < j < |CountryOrder(h)| ==> CountryOrder(h)[i] != CountryOrder(h)[j]
  {
    if h != [] {
      CountryOrderKeys(h[..|h| - 1]);
    }
  }

  /** Folding one more result appends its records and updates every counter by that result alone. */
  lemma Append(h: seq<Checked>, o: Checked)
    ensures Flatten(h + [o]) == Flatten(h) + RecordsOf(o)
    ensures InvalidCount(h + [o]) == InvalidCount(h) + (if Rejected(o) then 1 else 0)
    ensures AcceptedCount(h + [o]) == AcceptedCount(h) + (if Rejected(o) then 0 else 1)
    ensures forall p :: ProtocolCount(h + [o], p) == ProtocolCount(h, p) + CountProtocol(RecordsOf(o), p)
    ensures CountryCounts(h + [o]) == if Rejected(o) then CountryCounts(h) else Bump(CountryCounts(h), CountryOf(o))
  {
    assert (h + [o])[..|h|] == h;
    forall p ensures ProtocolCount(h + [o], p) == ProtocolCount(h, p) + CountProtocol(RecordsOf(o), p) {
      CountConcat(Flatten(h), RecordsOf(o), (r: Record) => r.protocol == p);
    }
  }

  /** `by_country` is the per-country tally of candidates with records, and has no other keys. */
  lemma {:induction false} CountryCountsTally(h: seq<Checked>, c: string)
    ensures c in CountryCounts(h) <==> CountryTally(h, c) > 0
    ensures c in CountryCounts(h) ==> CountryCounts(h)[c] == CountryTally(h, c)
  {
    if h != [] {
      CountryCountsTally(h[..|h| - 1], c);
    }
  }

  /** Every record is of exactly one protocol, so the protocol counters add up to the record count. */
  lemma {:induction false} ProtocolsPartition(rs: seq<Record>)
    ensures CountProtocol(rs, Http) + CountProtocol(rs, Https) + CountProtocol(rs, Socks5) == |rs|
  {
    if rs != [] {
      ProtocolsPartition(rs[..|rs| - 1]);
    }
  }

  /** Each candidate is either invalid or has records. */
  lemma {:induction false} EveryCandidateCounted(h: seq<Checked>)
    ensures InvalidCount(h) + AcceptedCount(h) == |h|
  {
    if h != [] {
      EveryCandidateCounted(h[..|h| - 1]);
    }
  }

  /** Records always outnumber, or equal, the candidates that produced them. */
  lemma {:induction false} RecordsBound(h: seq<Checked>)
    ensures AcceptedCount(h) <= |Flatten(h)|
  {
    if h != [] {
      RecordsBound(h[..|h| - 1]);
    }
  }

  lemma {:induction false} FlattenConcat(a: seq<Checked>, b: seq<Checked>)
    ensures Flatten(a + b) == Flatten(a) + Flatten(b)
    decreases |b|
  {
    if b == [] {
      assert a + b == a;
    } else {
      assert (a + b)[..|a + b| - 1] == a + b[..|b| - 1];
      FlattenConcat(a, b[..|b| - 1]);
    }
  }

  lemma FlattenRemoveAt(b: seq<Checked>, k: nat)
    requires k < |b|
    ensures multiset(Flatten(b)) == multiset(Flatten(b[..k] + b[k + 1..])) + multiset(RecordsOf(b[k]))
  {
    var x, front, back := b[k], b[..k], b[k + 1..];
    Without(b, k);
    var f, r, g := Flatten(front), RecordsOf(x), Flatten(back);
    assert Flatten(b) == f + r + g by {
      FlattenConcat(front + [x], back);
      FlattenConcat(front, [x]);
      assert Flatten([x]) == r by { assert [x][..0] == []; }
    }
    assert Flatten(front + back) == f + g by {
      FlattenConcat(front, back);
    }
    assert multiset(f + r + g) == multiset(f + g) + multiset(r);
  }

  /** Folding the same results in another order yields the same records, possibly in another order. */
  lemma {:induction false} FlattenPermutation(a: seq<Checked>, b: seq<Checked>)
    requires multiset(a) == multiset(b)
    ensures multiset(Flatten(a)) == multiset(Flatten(b))
    decreases |a|
  {
    if a == [] {
      assert |b| == |multiset(b)| == 0;
    } else {
      var x, a' := a[|a| - 1], a[..|a| - 1];
      assert a == a' + [x];
      assert x in multiset(b);
      var k :| 0 <= k < |b| && b[k] == x;
      Without(b, k);
      FlattenPermutation(a', b[..k] + b[k + 1..]);
      FlattenRemoveAt(b, k);
    }
  }

  /**
   * The final statistics do not depend on the order in which results are
   * folded in: only the order of `valid_proxies` does, and it holds the same
   * records.
   */
  lemma OrderIndependent(a: seq<Checked>, b: seq<Checked>)
    requires multiset(a) == multiset(b)
    ensures multiset(Flatten(a)) == multiset(Flatten(b))
    ensures |Flatten(a)| == |Flatten(b)|
    ensures InvalidCount(a) == InvalidCount(b)
    ensures forall p :: ProtocolCount(a, p) == ProtocolCount(b, p)
    ensures CountryCounts(a) == CountryCounts(b)
  {
    FlattenPermutation(a, b);
    assert |Flatten(a)| == |multiset(Flatten(a))|;
    CountPermutation(a, b, Rejected);
    forall p ensures ProtocolCount(a, p) == ProtocolCount(b, p) {
      CountPermutation(Flatten(a), Flatten(b), (r: Record) => r.protocol == p);
    }
    forall c ensures c in CountryCounts(a) <==> c in CountryCounts(b)
      ensures c in CountryCounts(a) ==> CountryCounts(a)[c] == CountryCounts(b)[c]
    {
      CountPermutation(a, b, (o: Checked) => !Rejected(o) && CountryOf(o) == c);
      CountryCountsTally(a, c);
      CountryCountsTally(b, c);
    }
  }
}
