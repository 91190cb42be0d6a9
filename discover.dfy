/** The discovery script: probe every ID of an inclusive range against the
    GIF page endpoint, retrying transient failures a bounded number of
    times, and emit `gif:<id>` for every ID whose page exists.

    The network is an oracle: `net(n, k)` is the response to the request
    for ID `n` made when the retry counter stands at `k`. Sleeps are
    counted, not performed. */
module Discover {
  import opened Wrappers
  import Decimal

  /** The status code and text of one `requests.get` response. */
  datatype Response = Response(status: int, text: string)

  /** `net(n, k)`: the response to the `k`-th request (counting from 0)
      for the page of ID `n`. */
  type Network = (int, nat) -> Response

  /** What one call of `fetch` does: return the page text, return `None`,
      or raise `FetchError`. */
  datatype FetchOutcome = Text(text: string) | NoneReturned | FetchError

  /** `fetch`: a 200 with a non-empty body is the page; a 200 with an empty
      body is taken for a broken server; 404 means no page; any other
      status is a failure. */
  function Fetch(response: Response): (o: FetchOutcome)
    ensures o.Text? <==> response.status == 200 && response.text != ""
    ensures o.Text? ==> o.text == response.text
    ensures o.NoneReturned? <==> response.status == 404
    ensures o.FetchError? <==> (response.status == 200 && response.text == "") ||
                               (response.status != 200 && response.status != 404)
  {
    if response.status == 200 then
      if response.text == "" then FetchError else Text(response.text)
    else if response.status == 404 then NoneReturned
    else FetchError
  }

  /** The value `fetch` returns when it does not raise. */
  function Returned(o: FetchOutcome): (r: Option<string>)
    requires !o.FetchError?
    ensures r.None? <==> o.NoneReturned?
    ensures r.Some? ==> r.value == o.text
  {
    if o.Text? then Some(o.text) else None
  }

  /** `check_range` raises "Giving up!" once `counter > MaxCounter`. */
  const MaxCounter: nat := 10

  /** How the `while True` loop for one ID ends: `fetch` returned `text`
      (a page or `None`), or the loop raised "Giving up!". Both count the
      requests made and the sleeps taken for that ID. */
  datatype Probe =
    | Resolved(text: Option<string>, fetches: nat, sleeps: nat)
    | GaveUp(fetches: nat, sleeps: nat)

  /** The `while True` loop for ID `n`, entered with the retry counter at
      `counter`. */
  function ProbeFrom(net: Network, n: int, counter: nat): (p: Probe)
    decreases MaxCounter + 1 - counter
    ensures p.GaveUp? ==>
      p.fetches == p.sleeps == if counter > MaxCounter then 0 else MaxCounter + 1 - counter
    ensures p.Resolved? ==> p.fetches == p.sleeps + 1 && counter + p.sleeps <= MaxCounter
  {
    if counter > MaxCounter then GaveUp(0, 0)
    else
      var o := Fetch(net(n, counter));
      if o.FetchError? then
        // one request and one sleep more than the rest of the loop makes
        var rest := ProbeFrom(net, n, counter + 1);
        if rest.GaveUp? then GaveUp(rest.fetches + 1, rest.sleeps + 1)
        else Resolved(rest.text, rest.fetches + 1, rest.sleeps + 1)
      else Resolved(Returned(o), 1, 0)
  }

  /** The request made with the counter at `k` raises `FetchError`. */
  predicate Fails(net: Network, n: int, k: nat)
  {
    Fetch(net(n, k)).FetchError?
  }

  /** The request made with the counter at `k` is the first that does not
      raise, and it is made before the loop gives up. */
  predicate AnsweredAt(net: Network, n: int, k: nat)
  {
    k <= MaxCounter && (forall j :: 0 <= j < k ==> Fails(net, n, j)) && !Fails(net, n, k)
  }

  /** The loop from any counter value gives up exactly when every
      remaining attempt fails. */
  lemma {:induction false} ProbeGaveUpIff(net: Network, n: int, counter: nat)
    requires counter <= MaxCounter + 1
    decreases MaxCounter + 1 - counter
    ensures ProbeFrom(net, n, counter).GaveUp? <==> forall j :: counter <= j <= MaxCounter ==> Fails(net, n, j)
  {
    if counter <= MaxCounter && Fails(net, n, counter) {
      ProbeGaveUpIff(net, n, counter + 1);
    }
  }

  /** When the loop resolves, it stops at the first attempt that does not
      fail, with the value that attempt returned. */
  lemma {:induction false} ProbeResolvedAt(net: Network, n: int, counter: nat)
    requires ProbeFrom(net, n, counter).Resolved?
    decreases MaxCounter + 1 - counter
    ensures var p := ProbeFrom(net, n, counter);
      (forall j :: counter <= j < counter + p.sleeps ==> Fails(net, n, j)) &&
      !Fails(net, n, counter + p.sleeps) &&
      p.text == Returned(Fetch(net(n, counter + p.sleeps)))
  {
    if Fails(net, n, counter) {
      ProbeResolvedAt(net, n, counter + 1);
    }
  }

  /** k < 11 failures followed by an answer: the ID resolves to that
      answer after exactly k sleeps and k + 1 requests. */
  lemma ProbeResolves(net: Network, n: int, k: nat)
    requires AnsweredAt(net, n, k)
    ensures ProbeFrom(net, n, 0) == Resolved(Returned(Fetch(net(n, k))), k + 1, k)
  {
    ProbeResolvesFrom(net, n, 0, k);
  }

  lemma {:induction false} ProbeResolvesFrom(net: Network, n: int, counter: nat, k: nat)
    requires counter <= k <= MaxCounter
    requires forall j :: counter <= j < k ==> Fails(net, n, j)
    requires !Fails(net, n, k)
    ensures ProbeFrom(net, n, counter) == Resolved(Returned(Fetch(net(n, k))), k - counter + 1, k - counter)
    decreases k - counter
  {
    if counter < k {
      assert Fails(net, n, counter);
      ProbeResolvesFrom(net, n, counter + 1, k);
    }
  }

  /** 11 failures in a row: the loop raises "Giving up!" after exactly 11
      requests and 11 sleeps, and asks for nothing more. */
  lemma ProbeGivesUp(net: Network, n: int)
    requires forall j :: 0 <= j <= MaxCounter ==> Fails(net, n, j)
    ensures ProbeFrom(net, n, 0) == GaveUp(MaxCounter + 1, MaxCounter + 1)
  {
    ProbeGaveUpIff(net, n, 0);
  }

  /** The loop for ID `n` ends without raising. */
  predicate Resolves(net: Network, n: int)
  {
    ProbeFrom(net, n, 0).Resolved?
  }

  /** The loop ended with a truthy text (`if text:`), so a record is
      yielded. */
  predicate YieldsText(p: Probe)
  {
    p.Resolved? && p.text.Some? && p.text.value != ""
  }

  /** A record is yielded for ID `n`. */
  predicate Yields(net: Network, n: int)
  {
    YieldsText(ProbeFrom(net, n, 0))
  }

  /** A record is yielded for `n` exactly when the first attempt that does
      not fail, within the budget, is a 200: a 404 yields nothing. */
  lemma YieldsIff(net: Network, n: int, k: nat)
    requires AnsweredAt(net, n, k)
    ensures Yields(net, n) <==> net(n, k).status == 200
    ensures Yields(net, n) <==> net(n, k).status != 404
  {
    ProbeResolves(net, n, k);
  }

  /** The state of `check_range` after the IDs `start .. stop - 1`: the IDs
      yielded so far, and whether it is still running (no "Giving up!"). */
  datatype Scan = Scan(found: seq<int>, completed: bool)

  /** `check_range` over `start .. stop - 1`; once it has given up nothing
      more happens. */
  function ScanUpTo(net: Network, start: int, stop: int): Scan
    decreases stop - start
  {
    if stop <= start then Scan([], true)
    else
      var s := ScanUpTo(net, start, stop - 1);
      if !s.completed then s
      else if !Resolves(net, stop - 1) then Scan(s.found, false)
        else Scan(if Yields(net, stop - 1) then s.found + [stop - 1] else s.found, true)
  }

  /** One more ID that resolves: the scan goes on, with that ID's record
      if it yields one. */
  lemma ScanStepResolved(net: Network, start: int, stop: int)
    requires start <= stop && ScanUpTo(net, start, stop).completed
    requires Resolves(net, stop)
    ensures var s := ScanUpTo(net, start, stop);
      ScanUpTo(net, start, stop + 1) == Scan(if Yields(net, stop) then s.found + [stop] else s.found, true)
  {
  }

  /** An ID that gives up ends the scan: nothing after it changes the
      state. */
  lemma ScanStepGaveUp(net: Network, start: int, stop: int, end: int)
    requires start <= stop < end && ScanUpTo(net, start, stop).completed
    requires !Resolves(net, stop)
    ensures ScanUpTo(net, start, end) == Scan(ScanUpTo(net, start, stop).found, false)
  {
    GaveUpIsFinal(net, start, stop + 1, end);
  }

  /** After "Giving up!" no later ID is probed: the state stays what it was. */
  lemma {:induction false} GaveUpIsFinal(net: Network, start: int, stop: int, stop': int)
    requires stop <= stop'
    requires !ScanUpTo(net, start, stop).completed
    ensures ScanUpTo(net, start, stop') == ScanUpTo(net, start, stop)
    decreases stop' - stop
  {
    if stop < stop' {
      GaveUpIsFinal(net, start, stop, stop' - 1);
    }
  }

  predicate StrictlyAscending(s: seq<int>)
  {
    forall i, j :: 0 <= i < j < |s| ==> s[i] < s[j]
  }

  /** The scan of `start .. stop - 1` runs to the end exactly when every
      ID in it resolves. */
  lemma {:induction false} ScanCompletes(net: Network, start: int, stop: int)
    ensures ScanUpTo(net, start, stop).completed <==> forall j :: start <= j < stop ==> Resolves(net, j)
    decreases stop - start
  {
    if stop > start {
      ScanCompletes(net, start, stop - 1);
      var s := ScanUpTo(net, start, stop - 1);
      if !s.completed {
        var j :| start <= j < stop - 1 && !Resolves(net, j);
        assert ScanUpTo(net, start, stop) == s;
      } else {
        assert ScanUpTo(net, start, stop).completed == Resolves(net, stop - 1);
      }
    }
  }

  /** The scan yields `n` exactly when `n` is in range, its page exists,
      and no ID before it gave up; and it yields IDs in strictly ascending
      order, so no ID twice. */
  lemma {:induction false} ScanYields(net: Network, start: int, stop: int)
    ensures var s := ScanUpTo(net, start, stop);
      (forall n :: n in s.found <==>
        start <= n < stop && Yields(net, n) && forall j :: start <= j < n ==> Resolves(net, j)) &&
      StrictlyAscending(s.found)
    decreases stop - start
  {
    if stop > start {
      ScanYields(net, start, stop - 1);
      ScanCompletes(net, start, stop - 1);
      var s := ScanUpTo(net, start, stop - 1);
      assert forall i :: 0 <= i < |s.found| ==> s.found[i] < stop - 1 by {
        forall i | 0 <= i < |s.found| ensures s.found[i] < stop - 1 {
          assert s.found[i] in s.found;
        }
      }
    }
  }

  /** The line `check_range` yields for ID `n`. */
  function GifRecord(n: int): string
  {
    "gif:" + Decimal.IntToDecimal(n)
  }

  /** A record is `gif:` followed by the ID in decimal, and is pure ASCII,
      so `line.encode('ascii')` cannot fail. */
  lemma GifRecordShape(n: int)
    ensures var s := GifRecord(n);
      |s| > 4 && s[..4] == "gif:" && forall i :: 0 <= i < |s| ==> (s[i] as int) < 128
  {
  }

  /** Distinct IDs give distinct records. */
  lemma GifRecordInjective(m: int, n: int)
    requires GifRecord(m) == GifRecord(n)
    ensures m == n
  {
    assert GifRecord(m)[4..] == Decimal.IntToDecimal(m);
    Decimal.IntToDecimalInjective(m, n);
  }

  /** The `while True` loop of `check_range` for one ID: it retries while
      `fetch` raises `FetchError`, sleeping after each failure, and raises
      "Giving up!" (here: returns `GaveUp`) once the counter passes
      `MaxCounter`. */
  method ProbeId(net: Network, num: int) returns (p: Probe)
    ensures p == ProbeFrom(net, num, 0)
  {
    var counter, fetches, sleeps := 0, 0, 0;
    while true
      invariant counter <= MaxCounter + 1
      invariant var whole, rest := ProbeFrom(net, num, 0), ProbeFrom(net, num, counter);
        whole.GaveUp? == rest.GaveUp? && (whole.Resolved? ==> whole.text == rest.text) &&
        whole.fetches == rest.fetches + counter && whole.sleeps == rest.sleeps + counter
      invariant fetches == counter && sleeps == counter
      decreases MaxCounter + 1 - counter
    {
      if counter > MaxCounter {
        return GaveUp(fetches, sleeps);
      }
      var response := net(num, counter);
      fetches := fetches + 1;
      var outcome := Fetch(response);
      if outcome.FetchError? {
        sleeps := sleeps + 1;
      } else {
        return Resolved(Returned(outcome), fetches, sleeps);
      }
      counter := counter + 1;
    }
  }

  /** The records for the IDs `ids`, in order. */
  function Records(ids: seq<int>): (r: seq<string>)
    ensures |r| == |ids| && forall i :: 0 <= i < |ids| ==> r[i] == GifRecord(ids[i])
  {
    if ids == [] then [] else Records(ids[..|ids| - 1]) + [GifRecord(ids[|ids| - 1])]
  }

  lemma RecordsAppend(ids: seq<int>, n: int)
    ensures Records(ids + [n]) == Records(ids) + [GifRecord(n)]
  {
    assert (ids + [n])[..|ids|] == ids;
  }

  /** One turn of the outer loop of `check_range`, for the ID `num`. */
  lemma CheckStep(net: Network, start: int, num: int, end: int, found: seq<int>)
    requires start <= num <= end && ScanUpTo(net, start, num) == Scan(found, true)
    ensures var p := ProbeFrom(net, num, 0);
      (p.GaveUp? ==> ScanUpTo(net, start, end + 1) == Scan(found, false)) &&
      (p.Resolved? ==>
        ScanUpTo(net, start, num + 1) == Scan(if YieldsText(p) then found + [num] else found, true))
  {
    if Resolves(net, num) {
      ScanStepResolved(net, start, num);
    } else {
      ScanStepGaveUp(net, start, num, end + 1);
    }
  }

  /** `check_range(start_num, end_num)`: the records it yields, and whether
      it finished without "Giving up!". */
  method CheckRange(net: Network, start: int, end: int)
    returns (records: seq<string>, completed: bool)
    ensures var s := ScanUpTo(net, start, end + 1);
      records == Records(s.found) && completed == s.completed
  {
    records, completed := [], true;
    ghost var found: seq<int> := [];
    var num := start;
    while num <= end
      invariant num == start || start < num <= end + 1
      invariant ScanUpTo(net, start, num) == Scan(found, true)
      invariant records == Records(found)
    {
      var p := ProbeId(net, num);
      CheckStep(net, start, num, end, found);
      if p.GaveUp? {
        completed := false;
        return;
      }
      var text := p.text;
      if text.Some? && text.value != "" {
        RecordsAppend(found, num);
        records := records + [GifRecord(num)];
        found := found + [num];
      }
      num := num + 1;
    }
  }

  /** How the script ends: normally, on the `start_num <= end_num`
      assertion, or with "Giving up!". */
  datatype Exit = Completed | AssertionFailed | GivingUp

  /** The lines `main` writes for the records it is given, one per
      record: `'{0}\n'.format(shortcode)`. */
  method WriteLines(records: seq<string>) returns (lines: seq<string>)
    ensures |lines| == |records|
    ensures forall i :: 0 <= i < |records| ==> lines[i] == records[i] + "\n"
  {
    lines := [];
    for i := 0 to |records|
      invariant |lines| == i
      invariant forall k :: 0 <= k < i ==> lines[k] == records[k] + "\n"
    {
      lines := lines + [records[i] + "\n"];
    }
  }

  /** `main` with its three arguments already parsed: the lines written to
      the output file, and how the script ends. */
  method Run(net: Network, startNum: int, endNum: int) returns (lines: seq<string>, exit: Exit)
    ensures startNum > endNum ==> exit == AssertionFailed && lines == []
    ensures startNum <= endNum ==>
      var s := ScanUpTo(net, startNum, endNum + 1);
      (exit == Completed <==> s.completed) && (exit == GivingUp <==> !s.completed) &&
      |lines| == |s.found| &&
      forall i :: 0 <= i < |lines| ==> lines[i] == GifRecord(s.found[i]) + "\n"
  {
    if !(startNum <= endNum) {
      return [], AssertionFailed;
    }
    var records, completed := CheckRange(net, startNum, endNum);
    lines := WriteLines(records);
    exit := if completed then Completed else GivingUp;
  }

  /** ID 5 has a page, ID 6 answers 404, ID 7 answers 200 with an empty
      body every time: scanning 5..7 yields `gif:5` only, and gives up on 7
      after 11 requests and 11 sleeps. */
  lemma ScanExample(net: Network)
    requires net(5, 0).status == 200 && net(5, 0).text != ""
    requires net(6, 0).status == 404
    requires forall k :: 0 <= k <= MaxCounter ==> net(7, k) == Response(200, "")
    ensures ScanUpTo(net, 5, 8) == Scan([5], false)
    ensures ProbeFrom(net, 7, 0) == GaveUp(11, 11)
  {
    ProbeResolves(net, 5, 0);
    ScanStepResolved(net, 5, 5);
    assert ScanUpTo(net, 5, 6) == Scan([5], true);
    ProbeResolves(net, 6, 0);
    ScanStepResolved(net, 5, 6);
    assert ScanUpTo(net, 5, 7) == Scan([5], true);
    assert forall k :: 0 <= k <= MaxCounter ==> Fails(net, 7, k);
    ProbeGivesUp(net, 7);
    ScanStepGaveUp(net, 5, 7, 8);
  }
}
