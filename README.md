# Ingress redirect checker, modelled in Dafny

The tool lists the Kubernetes ingresses of a cluster. It reads the NGINX
`configuration-snippet` annotation of each ingress and extracts every
`rewrite ^<source> <target> redirect;` line. It then probes each redirect
target over HTTP and, for every target that does not answer `200`, prints a
block of source URL, target URL, backend resource and namespace. As written,
that block names the resource and namespace of the next entry, and a failing
last target panics before anything is printed for it (see "## Findings").

This project models the logic between the Kubernetes calls and the HTTP
probe, all of it in `main.go`:

- `ingresses.dfy` (`Ingresses`) holds the parts of an ingress the tool
  reads: namespace, annotations, and rules with their host, HTTP value,
  first path and backend service. It also holds the extracted `Redirect`
  record and the Go run-time panics (`Fault`: index out of range, nil
  dereference) that the modelled code can raise. A panic is a result value
  here, not a precondition.
- `tokens.dfy` (`Tokens`) models `strings.Split(capture, " ")` and the
  source and target tokens taken from its first and last pieces.
- `urls.dfy` (`Urls`) builds the source URL (a trailing `$` dropped) and the
  target URL (kept when it starts with `http` or `www`, otherwise resolved
  against the host).
- `extraction.dfy` (`Extraction`) models `inspectIngress`. The method
  `InspectIngress` (with `InspectRules` and `AppendMatches` for the inner
  loops) grows the five parallel slices. It is proved against the
  specification function `Extract`, which returns the entries as one list
  of `Redirect` records or the first panic in loop order. `ExtractFixed` is
  the same scan with the origin read from the rule being scanned.
- `checker.dfy` (`Checker`) models the reporting loop of `main`.
  `CheckRedirects` is the loop as written and `CheckRedirectsFixed` is the
  loop with the index advanced after printing. Their loops are
  `ReportLoop` and `ReportLoopFixed`, written for any pair of URL builders.
  The two top-level methods call them with `BuildSource` and `BuildTarget`.
  The printed blocks are specified by `WrittenReport` and `IntendedReport`.

The regular-expression search is an input: `Captures` maps an annotation
value to capture group 1 of every match, in order. The HTTP probe is an
input too: `reachable` maps a target URL to the probe's verdict.

For a relative target the code inserts its own `/` between host and target
(main.go:150). A target `/new` on host `example.com` therefore becomes
`http://example.com//new`, with two slashes; see `Urls.BuildTargetDoubleSlash`.

## Model

| member | source | states |
|---|---|---|
| Tokens.Split | main.go:86 | Splitting on `" "` always gives at least one piece, so `s[0]` and `s[len(s)-1]` are in range, and no piece contains a space |
| Tokens.SourceToken | main.go:86-88 | Definition: the first piece of splitting the capture on `" "` |
| Tokens.TargetToken | main.go:86-89 | Definition: the last piece of splitting the capture on `" "` |
| Tokens.JoinSplit | main.go:86 | Joining the pieces with single spaces gives back the captured text: the split loses nothing |
| Tokens.SplitJoin | main.go:86 | Splitting a space-joined list of space-free words gives back exactly those words |
| Tokens.SplitHasSeveralPieces | main.go:86 | A captured text containing a space splits into at least two pieces |
| Tokens.SourceTokenIsFirstWord | main.go:86-88 | The source token has no space. It is the whole capture when the capture has no space, and otherwise the text before the first space |
| Tokens.TargetTokenIsLastWord | main.go:86-89 | The target token has no space. It is the whole capture when the capture has no space, and otherwise the text after the last space |
| Tokens.SourceAndTargetOfPair | main.go:86-89 | A capture `<source> <target>` with space-free halves, such as `/a /b`, gives exactly those halves as source and target |
| Tokens.SingleTokenIsSourceAndTarget | main.go:86-89 | A capture with a single token gives that token as both source and target |
| Urls.HasPrefix | main.go:146 | Definition: Go's `strings.HasPrefix`: `p` is no longer than `s` and `s` starts with `p` |
| Urls.HasSuffix | main.go:141 | Definition: Go's `strings.HasSuffix`: `p` is no longer than `s` and `s` ends with `p` |
| Urls.IsAbsolute | main.go:146 | Definition: the condition that keeps a target as it is: it starts with `http` or with `www` |
| Urls.BuildSource | main.go:137-143 | The source URL is `"http://" + host + path`, one character shorter exactly when that string ends in `$`, and otherwise unchanged; it always starts with `http://` |
| Urls.BuildSourceDropsAnchor | main.go:141-143 | A path ending in `$` loses exactly that one `$`; any other non-empty path is kept whole after `http://` and the host |
| Urls.BuildSourceExamples | main.go:137-143 | `/old$` on `example.com` gives `http://example.com/old`; `/old$$` keeps one `$` |
| Urls.BuildTarget | main.go:146-151 | A target starting with `http` or `www` is kept unchanged; any other target becomes `"http://" + host + "/" + target`; either way the result starts with `http` or `www` |
| Urls.BuildTargetIdempotent | main.go:146-151 | Building a target from an already built target changes nothing |
| Urls.BuildTargetDoubleSlash | main.go:150 | The target `/new` on `example.com` becomes `http://example.com//new` |
| Urls.BuildTargetSingleSlash | main.go:150 | The target `new` on `example.com` becomes `http://example.com/new` |
| Urls.BuildTargetAbsoluteExamples | main.go:146-147 | `https://other.org/x` and `www.other.org` are kept as they are |
| Extraction.RuleOrigin | main.go:75-77 | Definition: the host of rule r, the service name of its first path's backend and the owner's namespace, or the panic Go raises at the first failing step: rule index out of range, nil HTTP value, empty path list (index 0 of length 0), nil service backend |
| Extraction.OriginFor | main.go:75-77 | Definition: as written, rule 0 of the ingress at index `rule` of the list, with index out of range when `rule` is not below the list length; per rule, rule `rule` of the ingress being scanned |
| Extraction.Matches | main.go:79-82 | Definition: capture group 1 of every match in the configuration-snippet annotation's value, in order; none when the ingress lacks that annotation |
| Extraction.MakeEntry | main.go:86-95 | Definition: the five values appended for one capture: source token, target token, host, service and namespace of the origin |
| Extraction.Entries | main.go:84-97 | Definition: one entry per captured body, in capture order, all with the same origin |
| Extraction.ScanRules | main.go:73-101 | Definition: the entries made for rule indexes `0 .. m-1` of one ingress, in loop order, or the first panic |
| Extraction.ScanIngresses | main.go:68-103 | Definition: the entries made for ingresses `0 .. n-1`, in loop order, or the first panic |
| Extraction.Extract | main.go:56-106 | Definition: what `inspectIngress` returns as written, as one list of entries, or its panic |
| Extraction.ExtractFixed | main.go:56-106 | Definition: the same scan with the origin read from the rule being scanned |
| Extraction.InspectIngress | main.go:56-106 | The five returned slices are equally long. The method panics exactly when `Extract` does, and with the same panic. Without a panic, index k of each slice holds field k of the k-th extracted redirect |
| Extraction.InspectRules | main.go:73-101 | The rule loop of one ingress either panics with the rule scan's panic, or appends the rule scan's entries column by column |
| Extraction.AppendMatches | main.go:84-97 | The match loop appends one entry per captured body to every slice, in order, keeping the slices aligned |
| Extraction.ColumnsAppend | main.go:91-95 | Appending the five fields of one redirect to the five slices keeps index k of every slice tied to redirect k |
| Extraction.ScanRulesNext | main.go:73-97 | Unfolding of `ScanRules` by one step, used by the loop proofs: one more rule index adds the entries made with its origin, or the panic of its origin lookup |
| Extraction.ScanIngressesStep | main.go:68-101 | Unfolding of `ScanIngresses` by one step, used by the loop proofs: one more ingress adds the entries of its rule loop, or that loop's panic |
| Extraction.ScanRulesErrPersists | main.go:73-101 | Once a rule lookup has panicked, later rules do not change the outcome |
| Extraction.ScanIngressesErrPersists | main.go:68-103 | Once an ingress has panicked, later ingresses do not change the outcome |
| Extraction.ScanRulesOkIff | main.go:73-77 | The rule loop of one ingress runs without a panic if and only if every rule index has an origin |
| Extraction.ScanIngressesOkIff | main.go:68-77 | The ingress loop runs without a panic if and only if every rule index of every ingress has an origin |
| Extraction.ExtractOkIff | main.go:75-77 | `inspectIngress` returns if and only if, for every rule index `rule` of every ingress, `i[rule]` exists and its first rule has an HTTP value whose first path has a service backend. The same holds for the per-rule reading with the ingress's own rule `rule` |
| Extraction.ExtractPanicsOnManyRules | main.go:73-77 | An ingress with more rules than there are ingresses makes `inspectIngress` panic |
| Extraction.ScanRulesCount | main.go:73-97 | The rule loop of one ingress makes (rules × matches) entries |
| Extraction.ScanIngressesCount | main.go:68-103 | The ingress loop makes the sum over the ingresses of (rules × matches) entries |
| Extraction.ExtractCount | main.go:68-97 | Without a panic `inspectIngress` returns exactly the sum of (rules × matches) entries |
| Extraction.NoSnippetNoEntries | main.go:79-80 | An ingress without the configuration-snippet annotation contributes no entries |
| Extraction.ScanRulesAt | main.go:73-97 | Loop order: in the entries of one ingress, match j of rule r sits at position r × (number of matches) + j, made from rule r's origin and the j-th captured body |
| Extraction.ScanIngressesPrefix | main.go:68-101 | Loop order across ingresses: the entries of the ingresses before v, followed by ingress v's own, start the entries of every longer scan that does not panic |
| Extraction.ScanIngressesAt | main.go:68-97 | Within such a scan, match j of rule index r of ingress v sits at offset (entries of the ingresses before v) + r × (matches) + j, made from the origin looked up for rule index r and the j-th captured body |
| Extraction.ExtractAt | main.go:68-97 | Without a panic, the entry at that offset of what `inspectIngress` returns is match j of rule index r of ingress v, with the origin the source reads for rule index r |
| Extraction.FixedScanIsLocal | main.go:75-77 | With the origin read from the ingress's own rule, an ingress's entries depend on that ingress alone |
| Extraction.FixedAttributesOwnIngress | main.go:75-77 | With the origin read from the ingress's own rule, every entry carries that ingress's namespace and the host of one of its own rules |
| Extraction.AsWrittenMisattributes | main.go:75-77 | As written, a redirect declared on the second ingress is reported with the host, service and namespace of the first |
| Extraction.FixedAttributesSample | main.go:75-77 | Read from the ingress's own rule, the same redirect carries the second ingress's own host, service and namespace |
| Extraction.AsWrittenPanicsOnSecondRule | main.go:73-77 | As written, one ingress with two rules panics with index 1 out of range for length 1; the per-rule reading does not panic |
| Checker.ReportEntries | main.go:135-151 | Row k holds the source URL and target URL built from `inghost[k]`, `sr[k]` and `tg[k]`, with `resourcename[k]` and `namespace[k]`; there are as many rows as redirects |
| Checker.WrittenReport | main.go:153-158 | Definition: the blocks printed as written over the first n rows: for each failed probe of row k, row k's URLs with row k+1's resource and namespace, and nothing when there is no row k+1 |
| Checker.IntendedReport | main.go:155-158 | Definition: the blocks over the first n rows when each block names its own row: one per failed probe, in order |
| Checker.CheckRedirects | main.go:133-161 | Every built target URL is probed once, in order. The printed blocks are `WrittenReport`. The loop panics with index `len(sr)` out of range exactly when the last probe fails |
| Checker.ReportLoop | main.go:135-161 | The same loop for any pair of URL builders |
| Checker.CheckRedirectsFixed | main.go:133-161 | With the index advanced after printing, every target URL is probed once, in order, and the printed blocks are `IntendedReport`, each naming its own entry |
| Checker.ReportLoopFixed | main.go:135-161 | The same corrected loop for any pair of URL builders |
| Checker.WrittenStep | main.go:153-156 | Unfolding of `WrittenReport` by one step, used by the loop proofs: one more entry adds, when its probe fails and an entry follows it, a block with its own URLs and the next entry's resource and namespace |
| Checker.IntendedStep | main.go:155-156 | Unfolding of `IntendedReport` by one step, used by the loop proofs: one more entry adds its own block exactly when its probe fails |
| Checker.WrittenIsShifted | main.go:153-156 | Over any prefix short of the last entry, the printed report equals the intended report over the entries with resource and namespace moved up by one |
| Checker.AsWrittenNamesNextEntry | main.go:153-156 | The whole printed report is the intended report of the shifted entries; the last entry's failed probe prints nothing |
| Checker.IntendedReportSound | main.go:155-156 | Every block of the intended report is the entry of a failed probe |
| Checker.IntendedReportComplete | main.go:155-156 | Every entry whose probe fails is a block of the intended report |
| Checker.IntendedReportEmpty | main.go:155-156 | The intended report is empty exactly when every probe succeeds |
| Checker.AsWrittenSampleReport | main.go:153-156 | For redirects `/a -> x` and `/b -> y` on host `h` where only `x` fails, the printed block names `svc-b`/`ns-b`; the intended block names `svc-a`/`ns-a` |

## Left out

- `getCluster` and `getIngress` (main.go:23-54) are left out: flag parsing, kubeconfig loading and the Kubernetes list call are I/O. The ingress list is an input.
- `statusChecker` (main.go:108-124) is left out: an HTTP GET plus a process-wide change of the default transport's TLS settings. Its verdict is the input `reachable`, a function of the URL, so two probes of the same URL always get the same verdict, while two real HTTP requests can differ.
- The regular expression of main.go:81-82 is not re-implemented: the capture groups are the input `Captures`. Compiling the expression once per annotation has no observable effect.
- `fmt.Printf` and `time.Sleep` (main.go:156-157) are left out. A printed block is modelled by its four values, without the text format or the five-second pause.
- Go's random iteration order over the annotation map (main.go:79) is not modelled. Only one key is acted on, so the order cannot change the result.
- Extraction.InspectIngress: after a panic the Go program stops. The model returns the panic and states nothing about the partly filled slices beyond their equal length.
- Lines 75-77 take pointers into the ingress list. The model copies the values instead, because nothing writes through those pointers.
- Go strings are byte strings and the model's are character sequences. The tests involved (`$`, `http`, `www`, `" "`) are ASCII, so they agree on valid UTF-8 text.
- Lengths and indexes are unbounded integers. No slice in the core comes near Go's `int` range.

## Findings

| source | as written | input that shows it | evidently intended | confidence | as-written member | corrected member |
|---|---|---|---|---|---|---|
| main.go:75-77 | host, backend service and namespace are read from `i[rule].Spec.Rules[0]`, indexing the ingress list with the rule index | two ingresses `a.example`/`svc-a`/`ns-a` (no annotation) and `b.example`/`svc-b`/`ns-b` with `rewrite ^/old /new redirect;`: the redirect is reported as `a.example`/`svc-a`/`ns-a`. One ingress with two rules: index 1 out of range for length 1 | read from `i[value].Spec.Rules[rule]`, the rule being scanned | high; not executed | Extraction.AsWrittenMisattributes | Extraction.FixedAttributesOwnIngress |
| main.go:153-156 | `i++` runs before `resourcename[i]` and `namespace[i]` are printed | redirects `/a -> x` and `/b -> y` on host `h` where only `x` fails: the block names `svc-b`/`ns-b`. If the last target fails, index `len(sr)` is out of range | print the entry's own index, then advance | high; not executed | Checker.AsWrittenNamesNextEntry | Checker.CheckRedirectsFixed |
