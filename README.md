# proxyfind: a verified model of the checking core of `find.py`

`find.py` is an asyncio proxy checker. It reads candidate lines of the form
`host:port` and passes them to `ProxyChecker.check_proxy` in batches of
`max_concurrent` (200). For each candidate, `check_proxy` tries three proxy
protocols, HTTP, HTTPS and SOCKS5. A protocol's record is kept when:

- its connectivity probe sees status 200, and
- either the protocol is HTTPS or its WebSocket echo comes back unchanged.

`main` folds each candidate's records into the statistics as the checks
complete, and `print_stats` lists the top five countries.

This Dafny project models that core with the network answers given as
inputs:

| module | file | what it models |
|---|---|---|
| `Text` | `text.dfy` | Python's `str.strip()` and `str.split(sep)` |
| `Parsing` | `parsing.dfy` | how `check_proxy` turns a line into a candidate, or rejects it |
| `Validation` | `validation.dfy` | the probes, the accept rule per protocol, the exception path, and record construction (`Validate`, `CheckResult`) |
| `Stats` | `stats.dfy` | the statistics (`valid_proxies`, `valid`, `invalid`, `by_protocol`, `by_country`), each as a function of the results folded in so far, and why their order does not matter |
| `Counting` | `counting.dfy` | a generic count with its permutation lemma |
| `Batching` | `batching.dfy` | the slices `proxies[i:i + batch_size]` |
| `Ranking` | `ranking.dfy` | `sorted(..., key=count, reverse=True)[:5]` |
| `Checker` | `checker.dfy` | the stateful part |
| `Scenarios` | `scenarios.dfy` | two one-line runs, worked out in full |

In `Checker`:

- class `ProxyChecker` has the statistics as fields.
- Its methods `CheckProxy` and `TryProtocols` model `check_proxy` and its protocol loop.
- Its method `Fold` models the completion loop body of `main`.
- `CheckList`, `RunBatches` and `RunBatch` model `main`'s loop over batches and over completions.

`CheckList` is proved correct whatever order results complete in within a
batch. That order is the `asyncio.as_completed` order, which the model
picks nondeterministically. The final counters equal the counters of
folding the results in input order. `valid_proxies` keeps the batches in
input order, and only the records within one batch follow completion order.

## Counters that may surprise

- **`valid` counts records, not candidates.** `main` adds `len(results)` to `valid` (`find.py:261`), one per protocol that passed. So `valid + invalid` exceeds `total` as soon as a candidate passes two protocols: `Scenarios.TwoProtocolsOneCandidate` has one line, two more `valid` and no `invalid`. What holds instead is `invalid + (candidates with records) == total` (`Checker.CountersAgree`).
- **Blank and unparsable lines count as `invalid`.** `check_proxy` returns `None` for a line that is blank after stripping or has no `:` (`find.py:133-139`), and `main` counts that as `invalid` (`find.py:264-265`); see `Scenarios.NotAProxyCountsInvalid`. `total` is the raw line count (`find.py:241`), blank lines included.
- **The port is never checked.** Any line with at least one `:` is a candidate. Host and port are its first two `:`-separated fields, and the port need not be numeric or non-empty (`Parsing.ParseHostPort`). Further fields are not dropped: they stay in the record's `proxy` and `url`, and in the proxy URL the connector is built from (`find.py:154`, `find.py:170-171`), because all three use the whole stripped line.

## Model

| member | source | states |
|---|---|---|
| Text.StripSpec | find.py:132 | `strip()` leaves no whitespace at either end, and its result is empty exactly when the line is all whitespace |
| Text.StripCharacterised | find.py:132 | stripping whitespace + a trimmed core + whitespace gives back exactly that core |
| Text.StripIdempotent | find.py:132 | stripping a stripped line changes nothing |
| Text.SplitSpec | find.py:137 | `split(":")` gives at least one field, and no field contains `:`; joining the fields with `:` gives the line back; there is exactly one field when the line has no `:` |
| Text.SplitJoin | find.py:137 | splitting undoes joining fields that are free of the separator |
| Parsing.ParseLineSpec | find.py:132-142 | a line is rejected exactly when it is blank after stripping or has no `:`; otherwise the proxy is the stripped line, and host and port are `:`-free and are its first two fields |
| Parsing.ParseHostPort | find.py:132-142 | any `host:port` line, padded with whitespace, parses to exactly that host and port, with no numeric check on the port |
| Validation.TestHttp | find.py:93-102 | `test_http` is true exactly on status 200; client errors and timeouts give false; any other exception escapes |
| Validation.TestWebsocket | find.py:104-128 | `test_websocket` is true exactly when the text received equals the text sent; client errors and timeouts give false; other exceptions escape |
| Validation.Attempt | find.py:151-167 | the `try` block for one protocol raises exactly when the HTTP probe raises, or when the HTTP probe passes, the protocol is not HTTPS and the echo probe raises |
| Validation.Accepted | find.py:151-167 | a protocol yields a record exactly when its HTTP probe saw 200 and it is HTTPS or its echo came back unchanged |
| Validation.ValidateSpec | find.py:145-180 | at most three records, in the order HTTP, HTTPS, SOCKS5 and one per protocol at most; a record exists for exactly the accepted protocols; each record carries the candidate's proxy, port, IP and country and the URL `scheme://proxy` |
| Validation.Isolation | find.py:148-180 | whether a protocol yields a record depends only on that protocol's probes; failures and exceptions of the other protocols change nothing |
| Stats.Bump | find.py:183-184 | `by_country[c] = get(c, 0) + 1` adds `c` as a key, raises its count by one and leaves every other key as it was |
| Stats.Append | find.py:259-265 | folding one more result extends `valid_proxies` by its records, adds one `invalid` exactly for `None` or `[]`, adds its records to each protocol count and bumps its country once if it has records |
| Stats.CountryCountsTally | find.py:183-184 | `by_country` has exactly the countries of candidates with records, each counted once per such candidate |
| Stats.CountryOrderKeys | find.py:183-184 | the first-insertion order of `by_country` lists each of its keys exactly once and nothing else |
| Stats.ProtocolsPartition | find.py:178 | the three protocol counts add up to the number of records |
| Stats.EveryCandidateCounted | find.py:259-265 | each folded result is counted either as invalid or as a candidate with records |
| Stats.RecordsBound | find.py:259-261 | `valid` is at least the number of candidates with records |
| Stats.OrderIndependent | find.py:255-265 | two orders of the same results give the same `valid`, `invalid`, `by_protocol` and `by_country`, and `valid_proxies` hold the same records |
| Batching.BatchesSpec | find.py:250-252 | the slices together are the input, in order; each is non-empty and at most `max_concurrent` long; all but the last are full |
| Batching.BatchCount | find.py:251 | there are `ceil(len / max_concurrent)` slices |
| Ranking.InsertSorted | find.py:221 | inserting into a list sorted by descending count keeps it sorted |
| Ranking.InsertMultiset | find.py:221 | inserting adds exactly one entry and loses none |
| Ranking.SortByCount | find.py:221 | the sort gives a permutation of its input in non-increasing count order |
| Ranking.InsertStable | find.py:221 | inserting an entry puts it ahead of every entry with the same count and keeps the order of the others |
| Ranking.SortStable | find.py:221 | the sort is stable: for every count, the entries with that count come out in their input order |
| Ranking.TopCountries | find.py:221 | the top list is five entries long, or all of them when there are fewer; its entries come from the input, in non-increasing count order; no entry left out has a larger count than one shown; for every count, the entries shown with it are the first ones with it in the input, so ties at the cut go to the earlier entries |
| Ranking.TopKeepsTies | find.py:221 | cutting the stable sort after `n` rows keeps, for every count, the entries with that count that come first in the input |
| Ranking.WithCountPrefix | find.py:221 | the entries of a prefix that have a given count are a prefix of the entries of the whole that have it |
| Checker.CountryItems | find.py:221 | `by_country.items()` lists each key in insertion order with its count |
| Checker.ProxyChecker.constructor | find.py:53-62 | a new checker has no records, all counters at zero, all three protocol keys present and no country |
| Checker.ProxyChecker.CheckProxy | find.py:130-186 | `check_proxy` returns the candidate's result; `by_protocol` grows by the result's records of each protocol; `by_country` is bumped once for the shared country exactly when there are records; the order of country keys keeps first insertion |
| Checker.ProxyChecker.TryProtocols | find.py:145-180 | the protocol loop yields exactly `Validate`'s records and adds one to `by_protocol[p]` per record of protocol `p` |
| Checker.ProxyChecker.Fold | find.py:259-265 | a non-empty result extends `valid_proxies` by its records and `valid` by their number; `None` or `[]` adds one to `invalid`; nothing else changes |
| Checker.ProxyChecker.CheckAndFold | find.py:253-265 | checking one line and folding its result in takes statistics that summarise the results `h` (counters, records, and the insertion order of `by_country`) to ones that summarise `h` followed by this result |
| Checker.ProxyChecker.TopCountryRows | find.py:221 | the "Top Country" rows are `min(5, len(by_country))` entries of `by_country`, each of a different country, in non-increasing count order; no country left out has a larger count than one shown; among countries with equal counts, those inserted into `by_country` first are shown, in insertion order |
| Checker.CountersAgree | find.py:259-265 | whenever the statistics summarise a history, as they do at batch boundaries and at the end: the protocol counts add up to `valid`, which equals `len(valid_proxies)`; `invalid` plus the candidates with records is the number of lines folded; `valid` is at least the candidates with records |
| Checker.SummaryStep | find.py:177-184 | the updates of `check_proxy` and of `main`'s loop body for one result take a summary of `h` to a summary of `h` followed by that result |
| Checker.TopOfItems | find.py:221 | the top rows of `by_country` are entries of it, of different countries, `min(5, len(by_country))` of them |
| Checker.TopOfItemsBeat | find.py:221 | a country left out of the top rows does not have a larger count than any country shown |
| Checker.RunBatch | find.py:252-265 | one batch, with its results folded in an arbitrary completion order, keeps the history folded so far as a prefix and adds after it exactly the batch's results, in some order |
| Checker.RunBatches | find.py:250-265 | the loop walks exactly the slices `Batches(lines, 200)`, one after the other; the statistics summarise the results of those slices in that order, each slice's results in some order of their own |
| Checker.CheckList | find.py:227-265 | an empty input creates no checker; otherwise `total` is the line count; `valid_proxies` holds the records batch by batch in input order, each batch's results in their completion order; `valid`, `invalid`, `by_protocol` and `by_country` equal the counters of the results folded in input order, whatever the completion order; the keys of `by_country` are in the order their countries first appear in the folded results |
| Scenarios.TwoProtocolsOneCandidate | find.py:145-186 | `203.0.113.5:8080` passing HTTP and SOCKS5 and failing HTTPS yields two records, two more `valid`, no `invalid`, one per passing protocol and one for its country |
| Scenarios.NotAProxyCountsInvalid | find.py:132-139 | `not-a-proxy` gives `None`, which counts as one `invalid` and nothing else |

## Left out

- Network I/O is not modelled. That covers aiohttp sessions, `ProxyConnector`, `ws_connect`, timeouts and heartbeat (`find.py:93-128`, `find.py:154-161`). Each probe's answer is an input: a `Probe`, either an answer, a client error or timeout, or another exception. An exception raised by `ProxyConnector.from_url` itself is modelled as the HTTP probe raising.
- DNS resolution and the GeoIP lookup (`find.py:63-91`) are function parameters. The "host on failure" and "Unknown" fallbacks live inside them. Being functions of the host, they give every line with the same host the same IP and country, where two live DNS queries could answer differently (`find.py:77-78`). No stated property depends on this.
- The random choice of test site and the random test message (`find.py:95`, `find.py:106-107`) are not modelled. Only whether the echo matched matters, and that is part of the probe input.
- The `validated_at` timestamp of each record (`find.py:175`) is left out, as are `start_time`, duration and speed (`find.py:59`, `find.py:205-214`). These are wall-clock values and floats.
- File reading, the missing-input-file exit, `save_results`, JSON output, logging, the progress bar and the rich table, including its duration, speed and per-protocol rows (`find.py:40-50`, `find.py:188-218`, `find.py:222-235`, `find.py:242-247`, `find.py:267-272`), are I/O and UI. What is modelled of `main` and `print_stats`: the empty-input exit (`find.py:236-238`), the new checker with `total = len(proxies)` (`find.py:240-241`), and the top-country rows (`find.py:221`).
- asyncio interleaving is modelled as a serial order. The checks of one batch run as coroutines. Their updates of `by_protocol` and `by_country` happen inside `check_proxy`, and those of `valid`, `invalid` and `valid_proxies` happen at completion. The model runs each check whole, at the moment its result completes, in any order within the batch. Each counter update has no `await` between its read and its write, so no interleaving can lose an update. This argument is not itself proved. Because `by_protocol` and `by_country` change inside `check_proxy` and the other counters only at completion, the counters agree with each other (`Checker.CountersAgree`) in `find.py` only at batch boundaries and at the end; while a batch runs, `by_protocol` may already count records that `valid` does not. An exception raised when a protocol's `ClientSession` closes (`find.py:160`) comes after that protocol's record was appended and counted; the same `except` catches it and the record and its count stay, which is what the model gives for that protocol, so the model has no separate case for it. The key order of `by_country` is set where `check_proxy` ends, just before it returns, so in the model it follows the completion order, as `Checker.CheckList` states.

