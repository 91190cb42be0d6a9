# Giferator discovery, modelled in Dafny

This project models the ArchiveTeam "Madden GIFERATOR" discovery job: the
`discover.py` script that probes a range of GIF page IDs, and the three
self-contained pieces of its warrior `pipeline.py`.

- `discover.dfy` (module `Discover`) models the script:
  - `fetch` classifies one HTTP response. A 200 with a body returns the page. A 200 with an empty body, or any status other than 200 and 404, raises `FetchError`. A 404 returns `None`.
  - The `while True` retry loop of `check_range` is the method `ProbeId`, specified by the recursive function `ProbeFrom`. It retries only on `FetchError` and sleeps once per failure. It raises "Giving up!" once `counter > 10`, so an ID gets at most 11 requests. The comment "Try 20 times" in the loop disagrees with the code; the model follows the code.
  - The ascending `for` over the range is the method `CheckRange`, specified by the left fold `ScanUpTo`. After "Giving up!" no later ID is probed, and the records already yielded stay yielded.
  - `main`, with its arguments already parsed, is the method `Run`. It checks `start_num <= end_num` and writes each record followed by `\n`.
  - The network is an oracle `net(n, k)`: the response to the request for ID `n` made while the retry counter stands at `k`. Sleeps are counted, not performed.
- `pipeline.dfy` (module `Pipeline`) models the three pieces of the pipeline:
  - the `CheckIP` task is a class. Its `counter` field runs the firewall/proxy check on the 1st, 12th, 23rd, … call, counting only calls that returned normally: a check that raises leaves the counter as it was, so the next call checks again. DNS is an oracle from host name to address.
  - `PrepareDirectories` is a class that sets the item's `item_dir` and `warc_file_base` fields. The timestamp is a parameter.
  - `CustomProcessArgs.realize` is the function `Realize`, from the item's fields to the discovery script's command line.
- `decimal.dfy` (module `Decimal`) models `'{0}'.format(n)` for an integer and its inverse.
- `pystr.dfy` (module `PyStr`) models the two Python string operations used: `s.split(sep, 1)` unpacked into two names, and `s.replace(a, b)` for single characters.
- `wrappers.dfy` defines the `Option` and `Result` datatypes. A Python `None` return becomes `None`. In `pipeline.dfy` a raised exception becomes a `Failure` value or an `error` out-parameter. In `discover.dfy` each exception has its own constructor: `FetchError` is `FetchOutcome.FetchError`, "Giving up!" is `Probe.GaveUp` (and `Exit.GivingUp` for the script), and the failed `start_num <= end_num` assertion is `Exit.AssertionFailed`.

The code emits only `gif:<id>` existence records. It extracts nothing from the page bodies, so no extractor is modelled.

## Model

| member | source | states |
|---|---|---|
| Discover.Fetch | discover.py:79-102 | A 200 with a non-empty body returns exactly that body. A 200 with an empty body raises `FetchError`. A 404 returns `None`. Every other status raises `FetchError`. Each case is stated as an if-and-only-if. |
| Discover.Returned | discover.py:95-99 | The value `fetch` returns when it does not raise: `None` exactly for a 404, and otherwise the page text. |
| Discover.ProbeFrom | discover.py:58-76 | Giving up from counter `c` takes `11 - c` requests and as many sleeps. A resolved loop made one request more than it slept and stopped with the counter at most 10. |
| Discover.ProbeGaveUpIff | discover.py:58-76 | The loop raises "Giving up!" if and only if every remaining attempt, up to counter 10, raises `FetchError`. |
| Discover.ProbeResolvedAt | discover.py:58-76 | A resolved loop stops at the first attempt that does not raise `FetchError`. Every attempt before it failed, and the text is what that attempt returned. |
| Discover.ProbeResolves | discover.py:58-76 | k < 11 consecutive `FetchError`s followed by an answer resolve the ID to that answer. This takes exactly k + 1 requests and k sleeps. |
| Discover.ProbeResolvesFrom | discover.py:58-76 | The same as `ProbeResolves`, from any counter value. |
| Discover.ProbeGivesUp | discover.py:58-70 | 11 consecutive `FetchError`s make the loop raise "Giving up!" after exactly 11 requests and 11 sleeps, with no 12th request. |
| Discover.YieldsIff | discover.py:71-74 | A record is yielded for an ID if and only if the first attempt that does not fail is a 200. Equivalently, if and only if that attempt is not a 404, so a 404 yields nothing and is not retried. |
| Discover.YieldsText | discover.py:71 | `if text:` on the loop's result: the loop resolved with a non-empty text (not `None`, not `""`). |
| Discover.Yields | discover.py:71 | `if text:` for the ID `n`: the loop for `n` resolves with a non-empty text. |
| Discover.ScanUpTo | discover.py:53-76 | The outer `for num in range(start_num, end_num + 1)` as a left fold over `start .. stop - 1`: per ID it runs `ProbeFrom`, appends the ID when `Yields` holds, and stops for good at the first `GaveUp`. `CheckRange` and the scan lemmas are stated in terms of it. |
| Discover.ScanStepResolved | discover.py:53-76 | (Helper: `ScanUpTo`'s last step unfolded.) After an ID that resolves, the scan goes on and gains that ID's record exactly when its text is non-empty. |
| Discover.ScanStepGaveUp | discover.py:58-62 | An ID that gives up ends the scan. The records found so far are the final result. |
| Discover.GaveUpIsFinal | discover.py:58-62 | Once the scan has given up, no later ID changes its state: no later ID is probed. |
| Discover.ScanCompletes | discover.py:53-76 | The scan of a range ends without "Giving up!" if and only if every ID in it resolves. |
| Discover.ScanYields | discover.py:53-76 | The scan yields `n` if and only if all three hold: `n` is in range, `n`'s page exists, and no earlier ID gave up. The yielded IDs are strictly ascending, so no ID is yielded twice. |
| Discover.GifRecord | discover.py:72 | `'gif:{0}'.format(shortcode)`: `gif:` followed by `str(n)`; its properties are `GifRecordShape` and `GifRecordInjective`. |
| Discover.GifRecordShape | discover.py:72 | A record starts with `gif:` and is pure ASCII, so `line.encode('ascii')` at discover.py:43 cannot fail. |
| Discover.GifRecordInjective | discover.py:72 | Distinct IDs give distinct records. |
| Discover.ProbeId | discover.py:57-76 | The imperative `while True` loop for one ID computes exactly `ProbeFrom(net, num, 0)`: the same outcome, request count and sleep count. |
| Discover.Records | discover.py:71-72 | The records for a list of IDs are, element by element, `gif:<id>`. |
| Discover.RecordsAppend | discover.py:71-72 | (Helper: the last step of `Records`.) Yielding one more ID appends exactly its record. |
| Discover.CheckStep | discover.py:53-76 | One turn of the outer loop: giving up fixes the final scan, and resolving extends the scan by the ID's record, if any. |
| Discover.CheckRange | discover.py:50-76 | The imperative `check_range` yields exactly the records of `ScanUpTo(net, start, end + 1)`, in order. It reports "Giving up!" exactly when that scan did not complete. |
| Discover.WriteLines | discover.py:40-43 | Each line written is the record followed by `\n`, one line per record, in order. |
| Discover.Run | discover.py:27-47 | `start_num > end_num` fails the assertion and writes nothing. Otherwise the lines are the scan's records, each with `\n`. The script ends with "Giving up!" exactly when the scan did not complete. |
| Discover.ScanExample | discover.py:50-102 | Example: a page, then a 404, then a server that keeps answering 200 with an empty body. The scan yields only the first ID, and gives up on the third after 11 requests and 11 sleeps. |
| Decimal.DigitChar | discover.py:72 | A digit value below 10 becomes a decimal digit character with that value. |
| Decimal.NatToDecimal | discover.py:72 | `str(n)` for `n >= 0` is a non-empty string of decimal digits with no leading zero. |
| Decimal.DecimalRoundTrip | discover.py:72 | Reading back the decimal digits of `n` gives `n`. |
| Decimal.IntToDecimal | discover.py:72 | `str(n)` for any integer is digits, with a leading `-` only for negative `n`. |
| Decimal.IntRoundTrip | discover.py:72 | `int(str(n)) == n` for every integer `n`. |
| Decimal.IntToDecimalInjective | discover.py:72 | Distinct integers print differently. |
| PyStr.FirstIndex | pipeline.py:114 | Returns `None` if and only if the character is absent. Otherwise returns an index of the character with no earlier occurrence. |
| PyStr.SplitOnce | pipeline.py:114 | The two-name unpacking of `s.split(sep, 1)` fails if and only if `sep` is absent. Otherwise the two parts joined by `sep` give `s` back, and the first part holds no `sep`. |
| PyStr.SplitOnceOfJoin | pipeline.py:114 | Splitting `a + sep + b` gives back `(a, b)` whenever `a` holds no `sep`, whatever `b` holds. |
| PyStr.ReplaceChar | pipeline.py:95 | `replace` keeps the length and maps every `from` character to `to`, leaving every other character unchanged. |
| PyStr.ReplaceCharRemoves | pipeline.py:95 | When `from != to` (as for `':'` and `'_'`): after replacing, no `from` character is left, and replacing again changes nothing. |
| Pipeline.Lookups | pipeline.py:58-63 | The six addresses are the oracle's answers for the six hosts, in lookup order. |
| Pipeline.SetOfSize | pipeline.py:65 | A sequence has at most as many distinct elements as it is long. It has exactly as many if and only if no element occurs twice. |
| Pipeline.LookupsSet | pipeline.py:56-63 | (Helper for `CheckIP.Process`.) Adding the six addresses one by one builds the set of the lookups. |
| Pipeline.BehindProxyIff | pipeline.py:56-70 | The check raises if and only if two of the six hosts resolve to the same address. |
| Pipeline.Tick | pipeline.py:73-76 | One counter update: after a check (`counter <= 0`) it restarts at 10; it maps a counter in `[0, 10]` into `[0, 10]`; and the next call checks exactly when the counter was 1. |
| Pipeline.CounterAfter | pipeline.py:49-76 | After any number of completed calls the counter is between 0 and 10. |
| Pipeline.CounterPeriodic | pipeline.py:73-76 | After `11q + r` calls the counter is 0 when `r = 0`, and `11 - r` otherwise. |
| Pipeline.CounterCycle | pipeline.py:54-76 | The check runs on a call if and only if the number of earlier completed calls is a multiple of 11: the 1st, 12th, 23rd, … call. |
| Pipeline.CheckIP.constructor | pipeline.py:47-49 | The counter starts at 0, so the first call checks. |
| Pipeline.CheckIP.Process | pipeline.py:51-76 | Checks if and only if `counter <= 0`. Raises if and only if it checked and the address set does not have 6 members. A raise leaves the counter untouched. Otherwise the counter becomes 10 after a check and is decremented after no check. The counter stays in `[0, 10]`. |
| Pipeline.WarcFileBase | pipeline.py:94-96 | The name is the prefix, `-`, the item name with every `:` turned into `_`, `-`, then the timestamp, character by character. It holds no `:` when the prefix and timestamp hold none. |
| Pipeline.Prepare | pipeline.py:84-96 | A missing `item_name` or `data_dir` raises `KeyError`, in that order. Otherwise exactly `item_dir` (`data_dir/item_name`) and `warc_file_base` are set, and every other field is kept. |
| Pipeline.PrepareDirectories.constructor | pipeline.py:80-82 | Stores the WARC prefix. |
| Pipeline.PrepareDirectories.Process | pipeline.py:84-98 | Updates the item's fields in place as `Prepare` says. On `KeyError` it leaves them untouched. |
| Pipeline.PageRange | pipeline.py:114-118 | A name without `:` fails to unpack. A success means the name is `page:<start>-<end>` with no `-` in `<start>`. |
| Pipeline.Realize | pipeline.py:112-122 | A missing `item_name` raises `KeyError`. A name without `:` fails the two-name unpack. |
| Pipeline.RealizeSucceeds | pipeline.py:113-120 | Whenever `realize` returns, the item name was `page:<start>-<end>` with no `-` in `<start>`. The result is exactly `['python', 'discover.py', start, end, item_dir + '/' + warc_file_base + '.txt.gz']`. |
| Pipeline.RealizePage | pipeline.py:114-120 | For `page:<start>-<end>`, the result is exactly that list. The name is split at the first `:` and the value at the first `-`, and both bounds are passed on as strings. |
| Pipeline.RealizeOtherType | pipeline.py:114-122 | Any item type other than `page` raises `ValueError('unhandled item type: ...')`. |
| Pipeline.RealizePageWithoutDash | pipeline.py:118 | A page value without `-` fails the second two-name unpack. |
| Pipeline.PreparedPageArgs | pipeline.py:84-120 | After `PrepareDirectories`, a page item's command line writes to `data_dir/item_name/<warc_file_base>.txt.gz`. |

## Left out

- `requests.get`, its headers and User-Agent (discover.py:85): network I/O, replaced by the response oracle `net`.
- `time.sleep(10)` (discover.py:69): only counted, per ID, in `Probe`. Total sleep and request counts over a whole range are not modelled. The per-ID counts are what the code bounds.
- Exceptions raised by `requests` itself: the code catches only `FetchError`, so they would propagate out of `check_range`. They are not modelled.
- The `print` logging in all three functions: output only.
- Opening, writing and closing the gzip file (discover.py:38-45): I/O. `Run` returns the lines written, in order, rather than writing them as each record is yielded.
- `int(sys.argv[1])`, `int(sys.argv[2])` and the output file name (discover.py:30-32): `Run` takes the two integers already parsed.
- `socket.gethostbyname` (pipeline.py:58-63): replaced by the oracle `dns`. DNS failures are not modelled.
- `item.log_output` calls (pipeline.py:55, 66-68): logging only.
- Directory removal and creation, and touching the `.warc.gz` file (pipeline.py:88-91, 98): filesystem plumbing. The same goes for the whole `MoveFiles` task (pipeline.py:101-109).
- `time.strftime("%Y%m%d-%H%M%S")` (pipeline.py:96): the timestamp is a parameter of `PrepareDirectories.Process`.
- SHA-1 hashing of the scripts and `stats_id_function` (pipeline.py:125-143): foreign library and environment data.
- The seesaw `Project` and `Pipeline` wiring, the tracker tasks, the rsync upload and `LimitConcurrent` (pipeline.py:151 onwards): orchestration and concurrency. The name `downloader` used at pipeline.py:168 is not defined in that file.
- The seesaw version check (pipeline.py:24-25) and the module constants other than the ones used above.
- `Run` on "Giving up!": the exception leaves `main`'s loop (discover.py:40), so `gzip_file.close()` (discover.py:45) and `print('Done')` (discover.py:47) never run, and the lines already written reach the file only when the interpreter finalizes the `GzipFile` object. `Run` returns the same lines for both exits and does not model the skipped close.
