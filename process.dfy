/** The batch stage: every URL, duplicates included, is handed to the page
    extractor once; as the calls finish, in whatever order they finish, the
    pages that came back are collected and a shared progress counter moves.
    The thread pool is not modelled: the order in which the calls finish is
    an input, any arrangement of the submission positions. */
module Process {
  import opened Strings
  import opened Extract

  /** What one extractor call did: it returned a page or `None`, or it
      raised. */
  datatype Fetch = Returned(result: Option<Page>) | Raised(error: string)

  /** What `process_url` returns for a call: the extractor's result, or
      `None` after an exception. A page is a non-empty dictionary and so is
      always truthy; only `None` is falsy. */
  function UrlResult(f: Fetch): Option<Page>
  {
    match f
    case Returned(r) => r
    case Raised(_) => None
  }

  /** `process_url` advances the progress bar on a truthy result and on an
      exception, but not on a `None` result. */
  predicate Advances(f: Fetch)
  {
    f.Raised? || f.result.Some?
  }

  /** What happens to one submitted URL in the browser: the rendered
      document or the failure up to the parse, and whether closing the
      browser succeeds. */
  datatype Visit = Visit(url: string, render: Render, closes: bool)

  /** The batch's calls in submission order: each one goes through
      `extract_content`, all of them with the one shared serialiser and
      converter. */
  function ExtractorCalls(visits: seq<Visit>, serialize: Node -> Option<string>, toText: string -> Option<string>)
    : (fs: seq<Fetch>)
    ensures |fs| == |visits|
  {
    seq(|visits|, k requires 0 <= k < |visits| =>
      Returned(ExtractContent(visits[k].url, visits[k].render, serialize, toText, visits[k].closes)))
  }

  /** The pages collected from calls that finish in the order `fs`: the
      truthy results, in that order. */
  function Collected(fs: seq<Fetch>): (r: seq<Page>)
    ensures |r| <= |fs|
  {
    if fs == [] then []
    else
      Collected(fs[..|fs| - 1]) + PageOf(fs[|fs| - 1])
  }

  /** The page a finished call contributes: its truthy result, if any. */
  function PageOf(f: Fetch): (r: seq<Page>)
    ensures |r| <= 1
  {
    match UrlResult(f)
    case Some(p) => [p]
    case None => []
  }

  lemma PageOfMember(f: Fetch, p: Page)
    ensures p in PageOf(f) <==> f == Returned(Some(p))
  {
  }

  /** How many times the calls in `fs` advance the progress bar. */
  function Ticks(fs: seq<Fetch>): (n: nat)
    ensures n <= |fs|
  {
    if fs == [] then 0
    else Ticks(fs[..|fs| - 1]) + (if Advances(fs[|fs| - 1]) then 1 else 0)
  }

  /** `0, 1, ..., n - 1`: the submission positions. */
  function Positions(n: nat): (r: seq<nat>)
    ensures |r| == n && forall k :: 0 <= k < n ==> r[k] == k
  {
    seq(n, k requires 0 <= k < n => k)
  }

  /** `as_completed` yields every submitted future exactly once: the
      completion order is an arrangement of the positions `0..n - 1`. */
  predicate IsCompletionOrder(completion: seq<nat>, n: nat)
  {
    && |completion| == n
    && (forall k :: 0 <= k < n ==> completion[k] < n)
    && multiset(completion) == multiset(Positions(n))
  }

  /** The calls' outcomes, taken in completion order. */
  function InOrder(fetches: seq<Fetch>, completion: seq<nat>): (r: seq<Fetch>)
    requires forall k :: 0 <= k < |completion| ==> completion[k] < |fetches|
    ensures |r| == |completion| && forall k :: 0 <= k < |r| ==> r[k] == fetches[completion[k]]
  {
    seq(|completion|, k requires 0 <= k < |completion| => fetches[completion[k]])
  }

  // ---------------------------------------------------------------------
  // The progress task

  /** A rich progress task: its total and its `completed` count. */
  class ProgressTask {
    const total: nat
    var completed: int

    /** `progress.add_task(..., total=n)`: a new task at 0. */
    constructor (total: nat)
      ensures this.total == total && completed == 0
    {
      this.total := total;
      completed := 0;
    }

    /** `progress.update(task_id, advance=1)`. */
    method Advance()
      modifies this
      ensures completed == old(completed) + 1
    {
      completed := completed + 1;
    }

    /** `progress.update(task_id, completed=True)`: rich stores the value
        given, and `True` counts as 1. */
    method MarkCompleted()
      modifies this
      ensures completed == 1
    {
      completed := 1;
    }
  }

  // ---------------------------------------------------------------------
  // The two operations

  /** `process_url`: run one call, advance the bar on a truthy result or on
      an exception, and return the result, `None` after an exception. */
  method ProcessUrl(fetch: Fetch, task: ProgressTask) returns (result: Option<Page>)
    modifies task
    ensures result == UrlResult(fetch)
    ensures task.completed == old(task.completed) + (if Advances(fetch) then 1 else 0)
  {
    match fetch
    case Returned(r) =>
      if r.Some? {
        task.Advance();
      }
      result := r;
    case Raised(_) =>
      task.Advance();
      result := None;
  }

  /** The `as_completed` loop: each finished call in turn, keeping the
      truthy results. `process_url` catches every exception, so the loop's
      own `except` never runs and no call stops the others. */
  method CollectCompleted(fetches: seq<Fetch>, completion: seq<nat>, task: ProgressTask)
    returns (results: seq<Page>)
    requires forall k :: 0 <= k < |completion| ==> completion[k] < |fetches|
    modifies task
    ensures results == Collected(InOrder(fetches, completion))
    ensures task.completed == old(task.completed) + Ticks(InOrder(fetches, completion))
  {
    results := [];
    ghost var start := task.completed;
    for i := 0 to |completion|
      invariant results == Collected(InOrder(fetches, completion[..i]))
      invariant task.completed == start + Ticks(InOrder(fetches, completion[..i]))
    {
      var fetch := fetches[completion[i]];
      var result := ProcessUrl(fetch, task);
      CollectStep(fetches, completion, i);
      if result.Some? {
        results := results + [result.value];
      }
    }
    assert completion[..|completion|] == completion;
  }

  /** `process_urls_concurrent`: one call per URL position, the results
      gathered in completion order, and the bar set to `True` at the end. */
  method ProcessUrlsConcurrent(urls: seq<string>, fetches: seq<Fetch>, completion: seq<nat>)
    returns (results: seq<Page>, task: ProgressTask)
    requires |fetches| == |urls|
    requires IsCompletionOrder(completion, |urls|)
    ensures fresh(task) && task.total == |urls| && task.completed == 1
    ensures results == Collected(InOrder(fetches, completion))
    ensures |results| <= |urls|
    ensures urls == [] ==> results == []
  {
    task := new ProgressTask(|urls|);
    results := CollectCompleted(fetches, completion, task);
    assert task.completed <= |urls|;
    task.MarkCompleted();
  }

  // ---------------------------------------------------------------------
  // Lemmas

  /** Taking one more finished call appends it. */
  lemma InOrderSnoc(fetches: seq<Fetch>, completion: seq<nat>, i: nat)
    requires forall k :: 0 <= k < |completion| ==> completion[k] < |fetches|
    requires i < |completion|
    ensures InOrder(fetches, completion[..i + 1])
         == InOrder(fetches, completion[..i]) + [fetches[completion[i]]]
  {
  }

  /** Taking the calls of two orders one after the other. */
  lemma InOrderAppend(fetches: seq<Fetch>, a: seq<nat>, b: seq<nat>)
    requires forall k :: 0 <= k < |a + b| ==> (a + b)[k] < |fetches|
    ensures forall k :: 0 <= k < |a| ==> a[k] < |fetches|
    ensures forall k :: 0 <= k < |b| ==> b[k] < |fetches|
    ensures InOrder(fetches, a + b) == InOrder(fetches, a) + InOrder(fetches, b)
  {
    assert forall k :: 0 <= k < |a| ==> a[k] == (a + b)[k];
    assert forall k :: 0 <= k < |b| ==> b[k] == (a + b)[|a| + k];
  }

  /** The calls taken in submission order are the calls as submitted. */
  lemma InOrderPositions(fetches: seq<Fetch>)
    ensures InOrder(fetches, Positions(|fetches|)) == fetches
  {
  }

  /** Collecting from two runs of calls one after the other is collecting
      from each. */
  lemma {:induction false} CollectedAppend(fs: seq<Fetch>, gs: seq<Fetch>)
    ensures Collected(fs + gs) == Collected(fs) + Collected(gs)
    decreases |gs|
  {
    if gs == [] {
      assert fs + gs == fs;
    } else {
      var n := |gs| - 1;
      var all, last := fs + gs, gs[n];
      assert Collected(all) == Collected(fs + gs[..n]) + PageOf(last) by {
        assert all[..|all| - 1] == fs + gs[..n];
        CollectedSnoc(all);
      }
      assert Collected(gs) == Collected(gs[..n]) + PageOf(last) by {
        CollectedSnoc(gs);
      }
      CollectedAppend(fs, gs[..n]);
      var x, y, z := Collected(fs), Collected(gs[..n]), PageOf(last);
      assert x + y + z == x + (y + z);
    }
  }

  /** The ticks of two runs of calls one after the other add up. */
  lemma {:induction false} TicksAppend(fs: seq<Fetch>, gs: seq<Fetch>)
    ensures Ticks(fs + gs) == Ticks(fs) + Ticks(gs)
    decreases |gs|
  {
    if gs == [] {
      assert fs + gs == fs;
    } else {
      var n := |gs| - 1;
      var all := fs + gs;
      TicksAppend(fs, gs[..n]);
      assert all[..|all| - 1] == fs + gs[..n];
      assert all[|all| - 1] == gs[n];
    }
  }

  /** One more finished call adds its page, if it returned one, and its
      tick, if it moves the bar. */
  lemma CollectStep(fetches: seq<Fetch>, completion: seq<nat>, i: nat)
    requires forall k :: 0 <= k < |completion| ==> completion[k] < |fetches|
    requires i < |completion|
    ensures var f, before, after := fetches[completion[i]], InOrder(fetches, completion[..i]), InOrder(fetches, completion[..i + 1]);
      && Collected(after) == Collected(before) + PageOf(f)
      && Ticks(after) == Ticks(before) + (if Advances(f) then 1 else 0)
  {
    var f, before := fetches[completion[i]], InOrder(fetches, completion[..i]);
    InOrderSnoc(fetches, completion, i);
    CollectedAppend(before, [f]);
    TicksAppend(before, [f]);
    assert [f][..0] == [];
  }

  /** A call that raised is skipped and does not stop the calls after it;
      it still advances the bar. */
  lemma RaisedCallSkipped(fs: seq<Fetch>, error: string, gs: seq<Fetch>)
    ensures Collected(fs + [Raised(error)] + gs) == Collected(fs) + Collected(gs)
    ensures Ticks(fs + [Raised(error)] + gs) == Ticks(fs) + 1 + Ticks(gs)
  {
    var r := [Raised(error)];
    assert Collected(r) == [] && Ticks(r) == 1 by {
      assert r[..0] == [];
    }
    assert Collected(fs + r) == Collected(fs) by {
      CollectedAppend(fs, r);
    }
    assert Ticks(fs + r) == Ticks(fs) + 1 by {
      TicksAppend(fs, r);
    }
    CollectedAppend(fs + r, gs);
    TicksAppend(fs + r, gs);
  }

  /** A page is collected exactly when some call returned it. */
  lemma {:induction false} CollectedMembers(fs: seq<Fetch>, p: Page)
    ensures p in Collected(fs) <==> exists k :: 0 <= k < |fs| && fs[k] == Returned(Some(p))
  {
    if fs != [] {
      var n := |fs| - 1;
      var front := fs[..n];
      CollectedMembers(front, p);
      CollectedSnoc(fs);
      PageOfMember(fs[n], p);
      assert p in Collected(fs) <==> p in Collected(front) || fs[n] == Returned(Some(p));
      if exists k :: 0 <= k < |fs| && fs[k] == Returned(Some(p)) {
        var k :| 0 <= k < |fs| && fs[k] == Returned(Some(p));
        if k < n {
          assert front[k] == fs[k];
        }
      }
      if exists k :: 0 <= k < n && front[k] == Returned(Some(p)) {
        var k :| 0 <= k < n && front[k] == Returned(Some(p));
        assert fs[k] == Returned(Some(p));
      }
    }
  }

  /** Positions, in the order the calls finished, of the calls that
      returned a page. */
  function PagePositions(fs: seq<Fetch>): (ix: seq<nat>)
    ensures forall k :: 0 <= k < |ix| ==> ix[k] < |fs| && UrlResult(fs[ix[k]]).Some?
    ensures forall k, l :: 0 <= k < l < |ix| ==> ix[k] < ix[l]
    ensures forall j :: 0 <= j < |fs| && UrlResult(fs[j]).Some? ==> j in ix
  {
    if fs == [] then []
    else
      var n := |fs| - 1;
      assert forall j :: 0 <= j < n ==> fs[..n][j] == fs[j];
      PagePositions(fs[..n]) + (if UrlResult(fs[n]).Some? then [n] else [])
  }

  /** One more finished call adds its page and its position exactly when
      it returned a page. */
  lemma CollectedSnoc(fs: seq<Fetch>)
    requires fs != []
    ensures Collected(fs) == Collected(fs[..|fs| - 1]) + PageOf(fs[|fs| - 1])
  {
  }

  lemma PagePositionsSnoc(fs: seq<Fetch>)
    requires fs != []
    ensures var n := |fs| - 1;
      PagePositions(fs) == PagePositions(fs[..n]) + (if UrlResult(fs[n]).Some? then [n] else [])
  {
  }

  /** The batch's pages are the returned pages in the order their calls
      finished: a subsequence of the completion order, every returned page
      included. */
  lemma {:induction false} CollectedInCompletionOrder(fs: seq<Fetch>)
    ensures var ix := PagePositions(fs);
      && |Collected(fs)| == |ix|
      && forall k :: 0 <= k < |ix| ==> Some(Collected(fs)[k]) == UrlResult(fs[ix[k]])
  {
    if fs != [] {
      var n := |fs| - 1;
      var front := fs[..n];
      CollectedInCompletionOrder(front);
      CollectedSnoc(fs);
      PagePositionsSnoc(fs);
      var ixF, cf := PagePositions(front), Collected(front);
      var ix, c := PagePositions(fs), Collected(fs);
      forall k | 0 <= k < |ix|
        ensures Some(c[k]) == UrlResult(fs[ix[k]])
      {
        if k < |ixF| {
          assert c[k] == cf[k];
          assert ix[k] == ixF[k];
          assert fs[ixF[k]] == front[ixF[k]];
        }
      }
    }
  }

  /** Two arrangements of the same elements: the last element of one sits
      at some position `j` of the other, and without them the rest are again
      arrangements of each other. */
  lemma MatchLast<T>(s: seq<T>, t: seq<T>) returns (j: nat)
    requires s != [] && multiset(s) == multiset(t)
    ensures j < |t| && t[j] == s[|s| - 1]
    ensures s == s[..|s| - 1] + [t[j]] && t == t[..j] + [t[j]] + t[j + 1..]
    ensures multiset(s[..|s| - 1]) == multiset(t[..j] + t[j + 1..])
  {
    var n := |s| - 1;
    var x := s[n];
    assert s == s[..n] + [x];
    assert x in multiset(t);
    j :| 0 <= j < |t| && t[j] == x;
    var a, rest := s[..n], t[..j] + t[j + 1..];
    assert t == t[..j] + [x] + t[j + 1..];
    assert multiset(t) == multiset(rest) + multiset{x};
    assert multiset(s) == multiset(a) + multiset{x};
    forall y
      ensures multiset(a)[y] == multiset(rest)[y]
    {
      assert (multiset(a) + multiset{x})[y] == (multiset(rest) + multiset{x})[y];
    }
    assert multiset(a) == multiset(rest);
  }

  /** Taking out the call in the middle takes out its contribution. */
  lemma CollectedRemove(a: seq<Fetch>, x: Fetch, b: seq<Fetch>)
    ensures multiset(Collected(a + [x] + b)) == multiset(Collected(a + b)) + multiset(Collected([x]))
    ensures Ticks(a + [x] + b) == Ticks(a + b) + Ticks([x])
  {
    CollectedAppend(a, [x]);
    CollectedAppend(a + [x], b);
    CollectedAppend(a, b);
    TicksAppend(a, [x]);
    TicksAppend(a + [x], b);
    TicksAppend(a, b);
  }

  /** The order in which the calls finish changes the order of the pages
      and nothing else: the same pages, with the same multiplicities, and
      the same number of ticks. */
  lemma {:induction false} CollectedPermutation(fs: seq<Fetch>, gs: seq<Fetch>)
    requires multiset(fs) == multiset(gs)
    ensures multiset(Collected(fs)) == multiset(Collected(gs))
    ensures Ticks(fs) == Ticks(gs)
    decreases |fs|
  {
    if fs == [] {
      assert |gs| == |multiset(gs)| == 0;
    } else {
      var j := MatchLast(fs, gs);
      var front := fs[..|fs| - 1];
      CollectedPermutation(front, gs[..j] + gs[j + 1..]);
      CollectedRemove(gs[..j], gs[j], gs[j + 1..]);
      CollectedAppend(front, [gs[j]]);
      TicksAppend(front, [gs[j]]);
    }
  }

  /** Two orders that list the same positions take the same calls. */
  lemma {:induction false} InOrderPermutation(fetches: seq<Fetch>, c1: seq<nat>, c2: seq<nat>)
    requires forall k :: 0 <= k < |c1| ==> c1[k] < |fetches|
    requires multiset(c1) == multiset(c2)
    ensures forall k :: 0 <= k < |c2| ==> c2[k] < |fetches|
    ensures multiset(InOrder(fetches, c1)) == multiset(InOrder(fetches, c2))
    decreases |c1|
  {
    forall k | 0 <= k < |c2|
      ensures c2[k] < |fetches|
    {
      assert c2[k] in multiset(c1);
    }
    if c1 == [] {
      assert |c2| == |multiset(c2)| == 0;
    } else {
      var j := MatchLast(c1, c2);
      var front, x, a, b := c1[..|c1| - 1], [c2[j]], c2[..j], c2[j + 1..];
      InOrderPermutation(fetches, front, a + b);
      InOrderAppend(fetches, front, x);
      InOrderAppend(fetches, a + x, b);
      InOrderAppend(fetches, a, x);
      InOrderAppend(fetches, a, b);
    }
  }

  /** Whatever the completion order, the batch keeps exactly the truthy
      results of the calls, each as often as it was returned, and at most
      one per URL; the bar is advanced once per truthy result or exception. */
  lemma BatchKeepsTruthyResults(fetches: seq<Fetch>, completion: seq<nat>)
    requires IsCompletionOrder(completion, |fetches|)
    ensures multiset(Collected(InOrder(fetches, completion))) == multiset(Collected(fetches))
    ensures Ticks(InOrder(fetches, completion)) == Ticks(fetches)
    ensures |Collected(InOrder(fetches, completion))| <= |fetches|
  {
    InOrderPositions(fetches);
    InOrderPermutation(fetches, completion, Positions(|fetches|));
    CollectedPermutation(InOrder(fetches, completion), fetches);
  }

  /** The extractor turns every failure into `None` and never raises, so
      the bar is advanced exactly once per collected page and a failed URL
      leaves it where it was. */
  lemma {:induction false} ExtractorCallsTickPerPage(fs: seq<Fetch>)
    requires forall k :: 0 <= k < |fs| ==> fs[k].Returned?
    ensures Ticks(fs) == |Collected(fs)|
  {
    if fs != [] {
      ExtractorCallsTickPerPage(fs[..|fs| - 1]);
    }
  }

  /** Each submission is its own call: when every call returns a page, the
      batch has one page per URL, repeated URLs included. */
  lemma {:induction false} EveryPositionCollected(fs: seq<Fetch>)
    requires forall k :: 0 <= k < |fs| ==> fs[k].Returned? && fs[k].result.Some?
    ensures |Collected(fs)| == |fs| == Ticks(fs)
  {
    if fs != [] {
      EveryPositionCollected(fs[..|fs| - 1]);
    }
  }

  /** Since `extract_content` never raises, whatever order the calls finish
      in, the bar of a batch of extractor calls moves exactly once per
      collected page. */
  lemma ExtractorBatchTicksPerPage(visits: seq<Visit>, serialize: Node -> Option<string>,
                                   toText: string -> Option<string>, completion: seq<nat>)
    requires IsCompletionOrder(completion, |visits|)
    ensures var fs := InOrder(ExtractorCalls(visits, serialize, toText), completion);
      Ticks(fs) == |Collected(fs)|
  {
    var fs := InOrder(ExtractorCalls(visits, serialize, toText), completion);
    assert forall k :: 0 <= k < |fs| ==> fs[k].Returned?;
    ExtractorCallsTickPerPage(fs);
  }

  /** Every page of a batch of extractor calls carries the URL of one of the
      submitted visits. */
  lemma BatchPagesNameTheirUrls(visits: seq<Visit>, serialize: Node -> Option<string>,
                                toText: string -> Option<string>, completion: seq<nat>, p: Page)
    requires IsCompletionOrder(completion, |visits|)
    requires p in Collected(InOrder(ExtractorCalls(visits, serialize, toText), completion))
    ensures exists j :: 0 <= j < |visits| && visits[j].url == p.url
  {
    var fs := InOrder(ExtractorCalls(visits, serialize, toText), completion);
    CollectedMembers(fs, p);
    var k :| 0 <= k < |fs| && fs[k] == Returned(Some(p));
    var j := completion[k];
    assert fs[k] == ExtractorCalls(visits, serialize, toText)[j];
    assert visits[j].url == p.url;
  }
}
