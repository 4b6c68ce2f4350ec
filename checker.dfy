/**
  The reporting loop of `main` (main.go lines 133-161): for every extracted
  redirect, build the source and target URLs, probe the target, and print a
  block naming the source, the target, a resource and a namespace when the
  probe fails. The probe (`statusChecker`, an HTTP GET) is a parameter.

  As written, the loop increments its index before printing, so each block
  names the resource and namespace of the NEXT entry, and a failing probe of
  the last entry indexes past the end of the slices.
 */
module Checker {
  import opened Ingresses
  import opened Urls

  /** One redirect as the report sees it: its built source and target URLs
      and the resource and namespace columns at the same index. A printed
      block (main.go line 156) has the same four fields. */
  datatype Entry = Entry(source: string, target: string, resource: string, namespace: string)

  /** The five columns returned by the extraction are equally long. */
  predicate SameLength(sr: seq<string>, tg: seq<string>, hosts: seq<string>, rn: seq<string>, ns: seq<string>)
  {
    |tg| == |sr| && |hosts| == |sr| && |rn| == |sr| && |ns| == |sr|
  }

  /** The entries the loop walks, one per index of the columns, with the
      URLs that `sourceUrl` and `targetUrl` build from the host and the
      source or target. */
  function ReportEntries(sr: seq<string>, tg: seq<string>, hosts: seq<string>, rn: seq<string>, ns: seq<string>,
                   sourceUrl: (string, string) -> string, targetUrl: (string, string) -> string): (r: seq<Entry>)
    requires SameLength(sr, tg, hosts, rn, ns)
    ensures |r| == |sr|
  {
    seq(|sr|, k requires 0 <= k < |sr| => Entry(sourceUrl(hosts[k], sr[k]), targetUrl(hosts[k], tg[k]), rn[k], ns[k]))
  }

  /** The blocks for the first `n` entries when each block names its own
      entry: one per failed probe, in order. */
  function IntendedReport(entries: seq<Entry>, reachable: string -> bool, n: nat): seq<Entry>
    requires n <= |entries|
  {
    if n == 0 then []
    else
      var k := n - 1;
      IntendedReport(entries, reachable, k)
      + (if reachable(entries[k].target) then [] else [entries[k]])
  }

  /** The blocks the source prints for the first `n` entries: a failed probe
      of entry k prints the resource and namespace of entry k + 1, and prints
      nothing (it panics instead) when there is no entry k + 1. */
  function WrittenReport(entries: seq<Entry>, reachable: string -> bool, n: nat): seq<Entry>
    requires n <= |entries|
  {
    if n == 0 then []
    else
      var k := n - 1;
      WrittenReport(entries, reachable, k)
      + (if reachable(entries[k].target) || k + 1 >= |entries| then []
         else [Entry(entries[k].source, entries[k].target, entries[k + 1].resource, entries[k + 1].namespace)])
  }

  /** All entries but the last, each with the resource and namespace of the
      entry after it. */
  function Shifted(entries: seq<Entry>): (r: seq<Entry>)
    requires |entries| > 0
    ensures |r| == |entries| - 1
  {
    seq(|entries| - 1, k requires 0 <= k < |entries| - 1 =>
      Entry(entries[k].source, entries[k].target, entries[k + 1].resource, entries[k + 1].namespace))
  }

  /** The probe of the last URL failed. */
  predicate LastProbeFails(probed: seq<string>, reachable: string -> bool)
  {
    |probed| > 0 && !reachable(probed[|probed| - 1])
  }

  /** One more entry adds the block `WrittenReport` prints for it. */
  lemma WrittenStep(entries: seq<Entry>, reachable: string -> bool, n: nat)
    requires n < |entries|
    ensures WrittenReport(entries, reachable, n + 1) == WrittenReport(entries, reachable, n)
      + (if reachable(entries[n].target) || n + 1 >= |entries| then []
         else [Entry(entries[n].source, entries[n].target, entries[n + 1].resource, entries[n + 1].namespace)])
  {
  }

  /** One more entry adds its own block when its probe fails. */
  lemma IntendedStep(entries: seq<Entry>, reachable: string -> bool, n: nat)
    requires n < |entries|
    ensures IntendedReport(entries, reachable, n + 1) == IntendedReport(entries, reachable, n)
      + (if reachable(entries[n].target) then [] else [entries[n]])
  {
  }

  /** The loop of main.go lines 133-161 as written: every target URL is
      probed once, in order; the printed blocks are `WrittenReport`; and the
      loop panics exactly when the last entry's probe fails. */
  method CheckRedirects(sr: seq<string>, tg: seq<string>, inghost: seq<string>,
                        resourcename: seq<string>, namespace: seq<string>, reachable: string -> bool)
    returns (probed: seq<string>, blocks: seq<Entry>, fault: Option<Fault>)
    requires SameLength(sr, tg, inghost, resourcename, namespace)
    ensures |probed| == |sr|
    ensures forall k :: 0 <= k < |sr| ==> probed[k] == BuildTarget(inghost[k], tg[k])
    ensures blocks == WrittenReport(ReportEntries(sr, tg, inghost, resourcename, namespace, BuildSource, BuildTarget), reachable, |sr|)
    ensures fault == if LastProbeFails(probed, reachable) then Some(IndexOutOfRange(|sr|, |sr|)) else None
  {
    probed, blocks, fault := ReportLoop(sr, tg, inghost, resourcename, namespace, reachable, BuildSource, BuildTarget);
  }

  /** The loop with the index advanced after printing: every target URL is
      probed once, in order, and the printed blocks are `IntendedReport`. */
  method CheckRedirectsFixed(sr: seq<string>, tg: seq<string>, inghost: seq<string>,
                             resourcename: seq<string>, namespace: seq<string>, reachable: string -> bool)
    returns (probed: seq<string>, blocks: seq<Entry>)
    requires SameLength(sr, tg, inghost, resourcename, namespace)
    ensures |probed| == |sr|
    ensures forall k :: 0 <= k < |sr| ==> probed[k] == BuildTarget(inghost[k], tg[k])
    ensures blocks == IntendedReport(ReportEntries(sr, tg, inghost, resourcename, namespace, BuildSource, BuildTarget), reachable, |sr|)
  {
    probed, blocks := ReportLoopFixed(sr, tg, inghost, resourcename, namespace, reachable, BuildSource, BuildTarget);
  }

  /** The body of `CheckRedirects`, for any way of building the two URLs.
      The source builds them inline (main.go lines 137-151); taking the
      builders as parameters keeps their string reasoning out of the loop
      proof. */
  method ReportLoop(sr: seq<string>, tg: seq<string>, inghost: seq<string>,
                    resourcename: seq<string>, namespace: seq<string>, reachable: string -> bool,
                    sourceUrl: (string, string) -> string, targetUrl: (string, string) -> string)
    returns (probed: seq<string>, blocks: seq<Entry>, fault: Option<Fault>)
    requires SameLength(sr, tg, inghost, resourcename, namespace)
    ensures |probed| == |sr|
    ensures forall k :: 0 <= k < |sr| ==> probed[k] == targetUrl(inghost[k], tg[k])
    ensures blocks == WrittenReport(ReportEntries(sr, tg, inghost, resourcename, namespace, sourceUrl, targetUrl), reachable, |sr|)
    ensures fault == if LastProbeFails(probed, reachable) then Some(IndexOutOfRange(|sr|, |sr|)) else None
  {
    ghost var entries := ReportEntries(sr, tg, inghost, resourcename, namespace, sourceUrl, targetUrl);
    probed, blocks, fault := [], [], None;
    var i := 0;
    while i < |sr|
      invariant i <= |sr|
      invariant |probed| == i
      invariant forall k :: 0 <= k < i ==> probed[k] == targetUrl(inghost[k], tg[k])
      invariant blocks == WrittenReport(entries, reachable, i)
      invariant i == |sr| ==> !LastProbeFails(probed, reachable)
    {
      var source := sourceUrl(inghost[i], sr[i]);
      var target := targetUrl(inghost[i], tg[i]);
      assert Entry(source, target, resourcename[i], namespace[i]) == entries[i];
      WrittenStep(entries, reachable, i);
      // the index is advanced before the block is printed
      var next := i + 1;
      probed := probed + [target];
      if !reachable(target) {
        if next >= |resourcename| {
          fault := Some(IndexOutOfRange(next, |resourcename|));
          return;
        }
        blocks := blocks + [Entry(source, target, resourcename[next], namespace[next])];
      }
      i := next;
    }
  }

  /** The body of `CheckRedirectsFixed`, for any way of building the two
      URLs, taken as parameters for the same reason as in `ReportLoop`. */
  method ReportLoopFixed(sr: seq<string>, tg: seq<string>, inghost: seq<string>,
                         resourcename: seq<string>, namespace: seq<string>, reachable: string -> bool,
                         sourceUrl: (string, string) -> string, targetUrl: (string, string) -> string)
    returns (probed: seq<string>, blocks: seq<Entry>)
    requires SameLength(sr, tg, inghost, resourcename, namespace)
    ensures |probed| == |sr|
    ensures forall k :: 0 <= k < |sr| ==> probed[k] == targetUrl(inghost[k], tg[k])
    ensures blocks == IntendedReport(ReportEntries(sr, tg, inghost, resourcename, namespace, sourceUrl, targetUrl), reachable, |sr|)
  {
    ghost var entries := ReportEntries(sr, tg, inghost, resourcename, namespace, sourceUrl, targetUrl);
    probed, blocks := [], [];
    var i := 0;
    while i < |sr|
      invariant i <= |sr|
      invariant |probed| == i
      invariant forall k :: 0 <= k < i ==> probed[k] == targetUrl(inghost[k], tg[k])
      invariant blocks == IntendedReport(entries, reachable, i)
    {
      var source := sourceUrl(inghost[i], sr[i]);
      var target := targetUrl(inghost[i], tg[i]);
      assert Entry(source, target, resourcename[i], namespace[i]) == entries[i];
      IntendedStep(entries, reachable, i);
      probed := probed + [target];
      if !reachable(target) {
        blocks := blocks + [Entry(source, target, resourcename[i], namespace[i])];
      }
      i := i + 1;
    }
  }

  /** The as-written report over the first `n` entries, short of the last,
      is the intended report over the shifted entries. */
  lemma {:induction false} WrittenIsShifted(entries: seq<Entry>, reachable: string -> bool, n: nat)
    requires n < |entries|
    ensures WrittenReport(entries, reachable, n) == IntendedReport(Shifted(entries), reachable, n)
    decreases n
  {
    if n > 0 {
      WrittenIsShifted(entries, reachable, n - 1);
    }
  }

  /** What the source prints: for every failed probe but the last entry's,
      a block whose source and target are that entry's and whose resource and
      namespace are the next entry's; the last entry's failed probe prints
      nothing. */
  lemma AsWrittenNamesNextEntry(entries: seq<Entry>, reachable: string -> bool, n: nat)
    requires n + 1 == |entries|
    ensures WrittenReport(entries, reachable, n + 1) == IntendedReport(Shifted(entries), reachable, n)
  {
    WrittenIsShifted(entries, reachable, n);
    assert WrittenReport(entries, reachable, n + 1) == WrittenReport(entries, reachable, n);
  }

  /** Every block of the intended report is the entry of a failed probe. */
  lemma {:induction false} IntendedReportSound(entries: seq<Entry>, reachable: string -> bool, n: nat, b: Entry)
    requires n <= |entries|
    requires b in IntendedReport(entries, reachable, n)
    ensures exists k :: 0 <= k < n && !reachable(entries[k].target) && b == entries[k]
    decreases n
  {
    var k := n - 1;
    if b in IntendedReport(entries, reachable, k) {
      IntendedReportSound(entries, reachable, k, b);
    } else {
      assert !reachable(entries[k].target) && b == entries[k];
    }
  }

  /** Every entry whose probe fails is a block of the intended report. */
  lemma {:induction false} IntendedReportComplete(entries: seq<Entry>, reachable: string -> bool, n: nat, k: nat)
    requires k < n <= |entries|
    requires !reachable(entries[k].target)
    ensures entries[k] in IntendedReport(entries, reachable, n)
    decreases n
  {
    if k < n - 1 {
      IntendedReportComplete(entries, reachable, n - 1, k);
    }
  }

  /** The intended report is empty exactly when every probe succeeds. */
  lemma {:induction false} IntendedReportEmpty(entries: seq<Entry>, reachable: string -> bool, n: nat)
    requires n <= |entries|
    ensures IntendedReport(entries, reachable, n) == [] <==>
      forall k :: 0 <= k < n ==> reachable(entries[k].target)
    decreases n
  {
    if n > 0 {
      IntendedReportEmpty(entries, reachable, n - 1);
    }
  }

  /** Only the target `http://h/x` is unreachable. */
  function SampleReachable(url: string): bool
  {
    url != "http://h/x"
  }

  /** Two redirects `/a -> x` and `/b -> y` on host `h`, with resources
      `svc-a`, `svc-b` and namespaces `ns-a`, `ns-b`: only the first probe
      fails. As written the block for the first redirect names the second
      redirect's resource and namespace; the intended block names its own. */
  lemma AsWrittenSampleReport()
    ensures WrittenReport(ReportEntries(["/a", "/b"], ["x", "y"], ["h", "h"], ["svc-a", "svc-b"], ["ns-a", "ns-b"], BuildSource, BuildTarget),
                          SampleReachable, 2)
         == [Entry("http://h/a", "http://h/x", "svc-b", "ns-b")]
    ensures IntendedReport(ReportEntries(["/a", "/b"], ["x", "y"], ["h", "h"], ["svc-a", "svc-b"], ["ns-a", "ns-b"], BuildSource, BuildTarget),
                           SampleReachable, 2)
         == [Entry("http://h/a", "http://h/x", "svc-a", "ns-a")]
  {
    var entries := ReportEntries(["/a", "/b"], ["x", "y"], ["h", "h"], ["svc-a", "svc-b"], ["ns-a", "ns-b"], BuildSource, BuildTarget);
    assert !IsAbsolute("x") && !IsAbsolute("y");
    assert entries[0].target == BuildTarget("h", "x") == "http://h/x";
    assert entries[1].target == BuildTarget("h", "y") == "http://h/y";
    assert entries[0].source == BuildSource("h", "/a") == "http://h/a" by { BuildSourceDropsAnchor("h", "/a"); }
    assert entries[0].resource == "svc-a" && entries[1].resource == "svc-b";
    assert entries[0].namespace == "ns-a" && entries[1].namespace == "ns-b";
    assert !SampleReachable(entries[0].target) && SampleReachable(entries[1].target);
    WrittenStep(entries, SampleReachable, 0);
    WrittenStep(entries, SampleReachable, 1);
    IntendedStep(entries, SampleReachable, 0);
    IntendedStep(entries, SampleReachable, 1);
  }
}
