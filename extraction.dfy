/**
  Redirect extraction (`inspectIngress`): for every ingress, for every rule
  index of that ingress, look up the host, backend service and namespace,
  then append one entry per `rewrite` match of the ingress's
  configuration-snippet annotation to five parallel slices.

  The specification functions compute the entries as one sequence of
  `Redirect` records, or the first run-time panic in loop order; the method
  `InspectIngress` runs the nested loops over the five slices and is proved
  against them.
 */
module Extraction {
  import opened Ingresses
  import opened Tokens

  /** The annotation that holds the NGINX configuration snippet. */
  const SnippetKey := "nginx.ingress.kubernetes.io/configuration-snippet"

  /** The regular-expression search of main.go lines 81-82: for an annotation
      value, capture group 1 of every match of `\brewrite \^(.*?)\s+redirect;`
      in order. The regular-expression engine is not part of this model. */
  type Captures = string -> seq<string>

  /** Host, backend service name and namespace attached to an entry. */
  datatype Origin = Origin(host: string, service: string, namespace: string)

  /** Where the origin of the entries made for rule `rule` of ingress `value`
      is read from: `AsWritten` reads the first rule of the ingress at index
      `rule` of the whole list (main.go lines 75-77); `OwnRule` reads rule
      `rule` of ingress `value` itself. */
  datatype Attribution = AsWritten | OwnRule

  /** `owner.Spec.Rules[r].Host`, `...HTTP.Paths[0].Backend.Service.Name` and
      `owner.Namespace`, with the panic each index or nil pointer raises. */
  function RuleOrigin(owner: Ingress, r: nat): Result<Origin, Fault>
  {
    if r >= |owner.rules| then Err(IndexOutOfRange(r, |owner.rules|))
    else
      var rule := owner.rules[r];
      match rule.http
      case None => Err(NilDereference)
      case Some(paths) =>
        if |paths| == 0 then Err(IndexOutOfRange(0, 0))
        else
          match paths[0].service
          case None => Err(NilDereference)
          case Some(name) => Ok(Origin(rule.host, name, owner.namespace))
  }

  /** The origin looked up for rule index `rule` while scanning ingress
      `value`. */
  function OriginFor(ings: seq<Ingress>, value: nat, rule: nat, attr: Attribution): Result<Origin, Fault>
    requires value < |ings|
  {
    match attr
    case AsWritten =>
      if rule < |ings| then RuleOrigin(ings[rule], 0) else Err(IndexOutOfRange(rule, |ings|))
    case OwnRule => RuleOrigin(ings[value], rule)
  }

  /** The captured `rewrite` bodies of an ingress: none when it has no
      configuration-snippet annotation (main.go lines 79-82). */
  function Matches(ing: Ingress, captures: Captures): seq<string>
  {
    if SnippetKey in ing.annotations then captures(ing.annotations[SnippetKey]) else []
  }

  /** The entry one captured body yields (main.go lines 86-95). */
  function MakeEntry(o: Origin, capture: string): Redirect
  {
    Redirect(SourceToken(capture), TargetToken(capture), o.host, o.service, o.namespace)
  }

  /** One entry per captured body, in order. */
  function Entries(o: Origin, ms: seq<string>): seq<Redirect>
  {
    seq(|ms|, j requires 0 <= j < |ms| => MakeEntry(o, ms[j]))
  }

  /** The entries made for rules `0 .. m - 1` of ingress `value`, or the
      first panic. */
  function ScanRules(ings: seq<Ingress>, captures: Captures, attr: Attribution, value: nat, m: nat): Result<seq<Redirect>, Fault>
    requires value < |ings| && m <= |ings[value].rules|
    decreases m
  {
    if m == 0 then Ok([])
    else
      match ScanRules(ings, captures, attr, value, m - 1)
      case Err(f) => Err(f)
      case Ok(prev) =>
        match OriginFor(ings, value, m - 1, attr)
        case Err(f) => Err(f)
        case Ok(o) => Ok(prev + Entries(o, Matches(ings[value], captures)))
  }

  /** The entries made for ingresses `0 .. n - 1`, or the first panic. */
  function ScanIngresses(ings: seq<Ingress>, captures: Captures, attr: Attribution, n: nat): Result<seq<Redirect>, Fault>
    requires n <= |ings|
    decreases n
  {
    if n == 0 then Ok([])
    else
      match ScanIngresses(ings, captures, attr, n - 1)
      case Err(f) => Err(f)
      case Ok(prev) =>
        match ScanRules(ings, captures, attr, n - 1, |ings[n - 1].rules|)
        case Err(f) => Err(f)
        case Ok(more) => Ok(prev + more)
  }

  /** What `inspectIngress` computes, as the source is written. */
  function Extract(ings: seq<Ingress>, captures: Captures): Result<seq<Redirect>, Fault>
  {
    ScanIngresses(ings, captures, AsWritten, |ings|)
  }

  /** What `inspectIngress` computes when every entry takes its origin from
      the rule it is made for. */
  function ExtractFixed(ings: seq<Ingress>, captures: Captures): Result<seq<Redirect>, Fault>
  {
    ScanIngresses(ings, captures, OwnRule, |ings|)
  }

  /** The five slices hold the redirects `rs` column by column: equally long,
      and index k of every slice comes from entry k. */
  predicate Columns(rs: seq<Redirect>, sr: seq<string>, tg: seq<string>, irh: seq<string>, rn: seq<string>, ns: seq<string>)
  {
    && |sr| == |rs| && |tg| == |rs| && |irh| == |rs| && |rn| == |rs| && |ns| == |rs|
    && forall k :: 0 <= k < |rs| ==> rs[k] == Redirect(sr[k], tg[k], irh[k], rn[k], ns[k])
  }

  /** Every ingress of the list, every rule index of it, has an origin. */
  predicate Attributable(ings: seq<Ingress>, attr: Attribution)
  {
    forall v | 0 <= v < |ings| ::
      forall r | 0 <= r < |ings[v].rules| :: OriginFor(ings, v, r, attr).Ok?
  }

  /** The number of entries of the first `n` ingresses: rules times matches,
      summed. */
  function TotalEntries(ings: seq<Ingress>, captures: Captures, n: nat): nat
    requires n <= |ings|
  {
    if n == 0 then 0
    else TotalEntries(ings, captures, n - 1) + |ings[n - 1].rules| * |Matches(ings[n - 1], captures)|
  }

  /** Where match j of rule index r of ingress v lands in loop order: after
      the entries of the ingresses before v, then r full rounds of matches. */
  function Position(ings: seq<Ingress>, captures: Captures, v: nat, r: nat, j: nat): nat
    requires v < |ings|
  {
    TotalEntries(ings, captures, v) + r * |Matches(ings[v], captures)| + j
  }

  // ---------------------------------------------------------------------
  // The nested loops of inspectIngress
  // ---------------------------------------------------------------------

  /** `inspectIngress` (main.go lines 56-106): the five slices it returns,
      or the panic it raises. Without a panic the slices are the columns of
      `Extract`, so they are equally long and index k of each comes from the
      same match. */
  method InspectIngress(ings: seq<Ingress>, captures: Captures)
    returns (fault: Option<Fault>, sr: seq<string>, tg: seq<string>, irh: seq<string>, rn: seq<string>, ns: seq<string>)
    ensures |tg| == |sr| && |irh| == |sr| && |rn| == |sr| && |ns| == |sr|
    ensures fault.None? <==> Extract(ings, captures).Ok?
    ensures fault.Some? ==> Extract(ings, captures) == Err(fault.value)
    ensures fault.None? ==> Columns(Extract(ings, captures).value, sr, tg, irh, rn, ns)
  {
    fault := None;
    sr, tg, irh, rn, ns := [], [], [], [], [];
    ghost var done: seq<Redirect> := [];
    var value := 0;
    while value < |ings|
      invariant value <= |ings|
      invariant fault.None?
      invariant ScanIngresses(ings, captures, AsWritten, value) == Ok(done)
      invariant Columns(done, sr, tg, irh, rn, ns)
    {
      ScanIngressesStep(ings, captures, AsWritten, value, done);
      fault, sr, tg, irh, rn, ns := InspectRules(ings, captures, value, done, sr, tg, irh, rn, ns);
      if fault.Some? {
        ScanIngressesErrPersists(ings, captures, AsWritten, value + 1, |ings|);
        assert Extract(ings, captures) == Err(fault.value);
        return;
      }
      done := done + ScanRules(ings, captures, AsWritten, value, |ings[value].rules|).value;
      value := value + 1;
    }
    assert Extract(ings, captures) == Ok(done);
  }

  /** The loop over the rules of ingress `value` (main.go lines 73-101): for
      each rule index, the origin lookup of lines 75-77 (which can panic),
      then the entries of the ingress's matches. */
  method InspectRules(ings: seq<Ingress>, captures: Captures, value: nat, ghost done: seq<Redirect>,
                      sr0: seq<string>, tg0: seq<string>, irh0: seq<string>, rn0: seq<string>, ns0: seq<string>)
    returns (fault: Option<Fault>, sr: seq<string>, tg: seq<string>, irh: seq<string>, rn: seq<string>, ns: seq<string>)
    requires value < |ings|
    requires Columns(done, sr0, tg0, irh0, rn0, ns0)
    ensures |tg| == |sr| && |irh| == |sr| && |rn| == |sr| && |ns| == |sr|
    ensures fault.None? <==> ScanRules(ings, captures, AsWritten, value, |ings[value].rules|).Ok?
    ensures fault.Some? ==> ScanRules(ings, captures, AsWritten, value, |ings[value].rules|) == Err(fault.value)
    ensures fault.None? ==> Columns(done + ScanRules(ings, captures, AsWritten, value, |ings[value].rules|).value, sr, tg, irh, rn, ns)
  {
    fault := None;
    sr, tg, irh, rn, ns := sr0, tg0, irh0, rn0, ns0;
    var rules := ings[value].rules;
    ghost var acc: seq<Redirect> := [];
    var rule := 0;
    while rule < |rules|
      invariant rule <= |rules|
      invariant ScanRules(ings, captures, AsWritten, value, rule) == Ok(acc)
      invariant Columns(done + acc, sr, tg, irh, rn, ns)
    {
      ScanRulesNext(ings, captures, AsWritten, value, rule, acc);
      var origin := OriginFor(ings, value, rule, AsWritten);
      if origin.Err? {
        fault := Some(origin.error);
        ScanRulesErrPersists(ings, captures, AsWritten, value, rule + 1, |rules|);
        return;
      }
      var o := origin.value;
      sr, tg, irh, rn, ns := AppendMatches(o, Matches(ings[value], captures), done + acc, sr, tg, irh, rn, ns);
      assert done + acc + Entries(o, Matches(ings[value], captures)) == done + (acc + Entries(o, Matches(ings[value], captures)));
      acc := acc + Entries(o, Matches(ings[value], captures));
      rule := rule + 1;
    }
  }

  /** The innermost loop of `inspectIngress` (main.go lines 84-97): one
      entry per captured body, appended to every column. The annotation
      lookup of lines 79-80 is `Matches`: Go visits the annotation map in
      no fixed order, but only the configuration-snippet key is acted on. */
  method AppendMatches(o: Origin, matches: seq<string>, ghost done: seq<Redirect>,
                       sr0: seq<string>, tg0: seq<string>, irh0: seq<string>, rn0: seq<string>, ns0: seq<string>)
    returns (sr: seq<string>, tg: seq<string>, irh: seq<string>, rn: seq<string>, ns: seq<string>)
    requires Columns(done, sr0, tg0, irh0, rn0, ns0)
    ensures Columns(done + Entries(o, matches), sr, tg, irh, rn, ns)
  {
    sr, tg, irh, rn, ns := sr0, tg0, irh0, rn0, ns0;
    var m := 0;
    while m < |matches|
      invariant m <= |matches|
      invariant Columns(done + Entries(o, matches[..m]), sr, tg, irh, rn, ns)
    {
      var s := Split(matches[m]);
      var source := s[0];
      var target := s[|s| - 1];
      ColumnsAppend(done + Entries(o, matches[..m]), sr, tg, irh, rn, ns, source, target, o.host, o.service, o.namespace);
      sr := sr + [source];
      tg := tg + [target];
      irh := irh + [o.host];
      rn := rn + [o.service];
      ns := ns + [o.namespace];
      assert Entries(o, matches[..m + 1]) == Entries(o, matches[..m]) + [MakeEntry(o, matches[m])];
      m := m + 1;
    }
    assert matches[..m] == matches;
  }

  /** Appending one redirect to each column keeps the columns aligned. */
  lemma ColumnsAppend(rs: seq<Redirect>, sr: seq<string>, tg: seq<string>, irh: seq<string>, rn: seq<string>, ns: seq<string>,
                      a: string, b: string, c: string, d: string, e: string)
    requires Columns(rs, sr, tg, irh, rn, ns)
    ensures Columns(rs + [Redirect(a, b, c, d, e)], sr + [a], tg + [b], irh + [c], rn + [d], ns + [e])
  {
  }

  // ---------------------------------------------------------------------
  // Properties of the extraction
  // ---------------------------------------------------------------------

  /** Once the scan of an ingress's rules has panicked, scanning further
      rules gives the same panic. */
  lemma {:induction false} ScanRulesErrPersists(ings: seq<Ingress>, captures: Captures, attr: Attribution, value: nat, m: nat, m': nat)
    requires value < |ings| && m <= m' <= |ings[value].rules|
    requires ScanRules(ings, captures, attr, value, m).Err?
    ensures ScanRules(ings, captures, attr, value, m') == ScanRules(ings, captures, attr, value, m)
    decreases m' - m
  {
    if m < m' {
      ScanRulesErrPersists(ings, captures, attr, value, m, m' - 1);
    }
  }

  /** Once the scan of the ingress list has panicked, scanning further
      ingresses gives the same panic. */
  lemma {:induction false} ScanIngressesErrPersists(ings: seq<Ingress>, captures: Captures, attr: Attribution, n: nat, n': nat)
    requires n <= n' <= |ings|
    requires ScanIngresses(ings, captures, attr, n).Err?
    ensures ScanIngresses(ings, captures, attr, n') == ScanIngresses(ings, captures, attr, n)
    decreases n' - n
  {
    if n < n' {
      ScanIngressesErrPersists(ings, captures, attr, n, n' - 1);
    }
  }

  /** The scan of an ingress's first `m` rules succeeds exactly when each of
      those rule indexes has an origin. */
  lemma {:induction false} ScanRulesOkIff(ings: seq<Ingress>, captures: Captures, attr: Attribution, value: nat, m: nat)
    requires value < |ings| && m <= |ings[value].rules|
    ensures ScanRules(ings, captures, attr, value, m).Ok? <==>
      forall r | 0 <= r < m :: OriginFor(ings, value, r, attr).Ok?
    decreases m
  {
    if m > 0 {
      ScanRulesOkIff(ings, captures, attr, value, m - 1);
    }
  }

  /** The extraction panics exactly when some rule index of some ingress has
      no origin; as written, that includes every rule index at or beyond the
      number of ingresses. */
  lemma {:induction false} ScanIngressesOkIff(ings: seq<Ingress>, captures: Captures, attr: Attribution, n: nat)
    requires n <= |ings|
    ensures ScanIngresses(ings, captures, attr, n).Ok? <==>
      forall v | 0 <= v < n ::
        forall r | 0 <= r < |ings[v].rules| :: OriginFor(ings, v, r, attr).Ok?
    decreases n
  {
    if n > 0 {
      ScanIngressesOkIff(ings, captures, attr, n - 1);
      ScanRulesOkIff(ings, captures, attr, n - 1, |ings[n - 1].rules|);
    }
  }

  /** `inspectIngress` returns without a panic exactly when every rule index
      of every ingress names an ingress whose first rule has an HTTP value
      whose first path has a service backend. */
  lemma ExtractOkIff(ings: seq<Ingress>, captures: Captures)
    ensures Extract(ings, captures).Ok? <==> Attributable(ings, AsWritten)
    ensures ExtractFixed(ings, captures).Ok? <==> Attributable(ings, OwnRule)
  {
    ScanIngressesOkIff(ings, captures, AsWritten, |ings|);
    ScanIngressesOkIff(ings, captures, OwnRule, |ings|);
  }

  /** An ingress with more rules than there are ingresses makes the
      extraction as written index past the end of the list. */
  lemma ExtractPanicsOnManyRules(ings: seq<Ingress>, captures: Captures, v: nat)
    requires v < |ings| && |ings[v].rules| > |ings|
    ensures Extract(ings, captures).Err?
  {
    ExtractOkIff(ings, captures);
    assert !OriginFor(ings, v, |ings|, AsWritten).Ok?;
  }

  /** The rule scan of one ingress makes `m` times as many entries as the
      ingress has matches. */
  lemma {:induction false} ScanRulesCount(ings: seq<Ingress>, captures: Captures, attr: Attribution, value: nat, m: nat)
    requires value < |ings| && m <= |ings[value].rules|
    requires ScanRules(ings, captures, attr, value, m).Ok?
    ensures |ScanRules(ings, captures, attr, value, m).value| == m * |Matches(ings[value], captures)|
    decreases m
  {
    if m > 0 {
      ScanRulesCount(ings, captures, attr, value, m - 1);
      var k := |Matches(ings[value], captures)|;
      assert m * k == (m - 1) * k + k;
    }
  }

  /** The number of entries is the sum over the ingresses of their rule count
      times their match count. */
  lemma {:induction false} ScanIngressesCount(ings: seq<Ingress>, captures: Captures, attr: Attribution, n: nat)
    requires n <= |ings|
    requires ScanIngresses(ings, captures, attr, n).Ok?
    ensures |ScanIngresses(ings, captures, attr, n).value| == TotalEntries(ings, captures, n)
    decreases n
  {
    if n > 0 {
      ScanIngressesCount(ings, captures, attr, n - 1);
      ScanRulesCount(ings, captures, attr, n - 1, |ings[n - 1].rules|);
    }
  }

  /** How many entries `inspectIngress` returns. */
  lemma ExtractCount(ings: seq<Ingress>, captures: Captures)
    requires Extract(ings, captures).Ok?
    ensures |Extract(ings, captures).value| == TotalEntries(ings, captures, |ings|)
  {
    ScanIngressesCount(ings, captures, AsWritten, |ings|);
  }

  /** An ingress without the configuration-snippet annotation contributes no
      entries (it can still make the scan panic). */
  lemma {:induction false} NoSnippetNoEntries(ings: seq<Ingress>, captures: Captures, attr: Attribution, value: nat, m: nat)
    requires value < |ings| && m <= |ings[value].rules|
    requires SnippetKey !in ings[value].annotations
    ensures ScanRules(ings, captures, attr, value, m).Ok? ==> ScanRules(ings, captures, attr, value, m).value == []
    decreases m
  {
    if m > 0 {
      NoSnippetNoEntries(ings, captures, attr, value, m - 1);
    }
  }

  /** Loop order: in the entries of an ingress, match j of rule r sits at
      position r * (number of matches) + j, made from rule r's origin and the
      j-th captured body. */
  lemma {:induction false} ScanRulesAt(ings: seq<Ingress>, captures: Captures, attr: Attribution, value: nat, m: nat, r: nat, j: nat)
    requires value < |ings| && m <= |ings[value].rules|
    requires ScanRules(ings, captures, attr, value, m).Ok?
    requires r < m && j < |Matches(ings[value], captures)|
    ensures OriginFor(ings, value, r, attr).Ok?
    ensures r * |Matches(ings[value], captures)| + j < |ScanRules(ings, captures, attr, value, m).value|
    ensures ScanRules(ings, captures, attr, value, m).value[r * |Matches(ings[value], captures)| + j]
         == MakeEntry(OriginFor(ings, value, r, attr).value, Matches(ings[value], captures)[j])
    decreases m
  {
    var k := |Matches(ings[value], captures)|;
    var prev := ScanRules(ings, captures, attr, value, m - 1);
    ScanRulesCount(ings, captures, attr, value, m - 1);
    assert |prev.value| == (m - 1) * k;
    if r < m - 1 {
      ScanRulesAt(ings, captures, attr, value, m - 1, r, j);
      assert r * k + j < (r + 1) * k <= (m - 1) * k by {
        assert (r + 1) * k == r * k + k;
        MulMonotone(r + 1, m - 1, k);
      }
    } else {
      assert r * k == (m - 1) * k;
    }
  }

  /** Loop order across ingresses: the entries of ingress v follow those of
      ingresses `0 .. v - 1`, and both form a prefix of the entries of any
      longer scan that does not panic. */
  lemma {:induction false} ScanIngressesPrefix(ings: seq<Ingress>, captures: Captures, attr: Attribution, v: nat, n: nat)
    requires v < n <= |ings|
    requires ScanIngresses(ings, captures, attr, n).Ok?
    ensures ScanIngresses(ings, captures, attr, v).Ok?
    ensures ScanRules(ings, captures, attr, v, |ings[v].rules|).Ok?
    ensures ScanIngresses(ings, captures, attr, v).value + ScanRules(ings, captures, attr, v, |ings[v].rules|).value
         <= ScanIngresses(ings, captures, attr, n).value
    decreases n
  {
    if v < n - 1 {
      ScanIngressesPrefix(ings, captures, attr, v, n - 1);
    }
  }

  /** Loop order across the whole scan: in any sequence that starts with
      the entries of ingresses `0 .. v - 1` followed by those of ingress v,
      match j of rule r of ingress v sits at `Position(v, r, j)`, made from
      the origin looked up for rule index r and the j-th captured body. */
  lemma ScanIngressesAt(ings: seq<Ingress>, captures: Captures, attr: Attribution, v: nat, before: seq<Redirect>,
                        own: seq<Redirect>, all: seq<Redirect>, r: nat, j: nat)
    requires v < |ings|
    requires ScanIngresses(ings, captures, attr, v) == Ok(before)
    requires ScanRules(ings, captures, attr, v, |ings[v].rules|) == Ok(own)
    requires before + own <= all
    requires r < |ings[v].rules| && j < |Matches(ings[v], captures)|
    ensures OriginFor(ings, v, r, attr).Ok?
    ensures Position(ings, captures, v, r, j) < |all|
    ensures all[Position(ings, captures, v, r, j)]
         == MakeEntry(OriginFor(ings, v, r, attr).value, Matches(ings[v], captures)[j])
  {
    ScanIngressesCount(ings, captures, attr, v);
    ScanRulesAt(ings, captures, attr, v, |ings[v].rules|, r, j);
    MulMonotone(0, r, |Matches(ings[v], captures)|);
    IndexInPrefix(before, own, all, Position(ings, captures, v, r, j));
  }

  /** Loop order of `inspectIngress` as a whole: match j of rule r of
      ingress v is entry TotalEntries(v) + r * (number of matches) + j, made
      from the origin the source reads for rule index r. */
  lemma ExtractAt(ings: seq<Ingress>, captures: Captures, v: nat, r: nat, j: nat)
    requires Extract(ings, captures).Ok?
    requires v < |ings| && r < |ings[v].rules| && j < |Matches(ings[v], captures)|
    ensures OriginFor(ings, v, r, AsWritten).Ok?
    ensures Position(ings, captures, v, r, j) < |Extract(ings, captures).value|
    ensures Extract(ings, captures).value[Position(ings, captures, v, r, j)]
         == MakeEntry(OriginFor(ings, v, r, AsWritten).value, Matches(ings[v], captures)[j])
  {
    ScanIngressesPrefix(ings, captures, AsWritten, v, |ings|);
    ScanIngressesAt(ings, captures, AsWritten, v, ScanIngresses(ings, captures, AsWritten, v).value,
                    ScanRules(ings, captures, AsWritten, v, |ings[v].rules|).value, Extract(ings, captures).value, r, j);
  }

  /** In any sequence that starts with `before + own`, an index past
      `before` and short of its end reaches into `own`. */
  lemma IndexInPrefix(before: seq<Redirect>, own: seq<Redirect>, all: seq<Redirect>, index: nat)
    requires before + own <= all && |before| <= index < |before| + |own|
    ensures index < |all| && all[index] == own[index - |before|]
  {
    assert (before + own)[index] == own[index - |before|];
  }

  /** One more rule index adds the entries of its origin, or the panic of
      its origin lookup. */
  lemma ScanRulesNext(ings: seq<Ingress>, captures: Captures, attr: Attribution, value: nat, m: nat, prev: seq<Redirect>)
    requires value < |ings| && m < |ings[value].rules|
    requires ScanRules(ings, captures, attr, value, m) == Ok(prev)
    ensures ScanRules(ings, captures, attr, value, m + 1)
         == match OriginFor(ings, value, m, attr)
            case Err(f) => Err(f)
            case Ok(o) => Ok(prev + Entries(o, Matches(ings[value], captures)))
  {
  }

  /** One more ingress adds the entries of its rules, or the fault of its
      rule loop. */
  lemma ScanIngressesStep(ings: seq<Ingress>, captures: Captures, attr: Attribution, value: nat, done: seq<Redirect>)
    requires value < |ings|
    requires ScanIngresses(ings, captures, attr, value) == Ok(done)
    ensures ScanIngresses(ings, captures, attr, value + 1)
         == match ScanRules(ings, captures, attr, value, |ings[value].rules|)
            case Err(f) => Err(f)
            case Ok(more) => Ok(done + more)
  {
  }

  /** Multiplication by a natural number is monotone. */
  lemma MulMonotone(a: nat, b: nat, k: nat)
    requires a <= b
    ensures a * k <= b * k
  {
  }

  // ---------------------------------------------------------------------
  // Attribution: as written versus per rule
  // ---------------------------------------------------------------------

  /** With per-rule attribution an ingress's entries depend on that ingress
      alone, not on its position in the list or on the other ingresses. */
  lemma {:induction false} FixedScanIsLocal(ings: seq<Ingress>, captures: Captures, value: nat, m: nat)
    requires value < |ings| && m <= |ings[value].rules|
    ensures ScanRules(ings, captures, OwnRule, value, m) == ScanRules([ings[value]], captures, OwnRule, 0, m)
    decreases m
  {
    if m > 0 {
      FixedScanIsLocal(ings, captures, value, m - 1);
    }
  }

  /** With per-rule attribution every entry made for an ingress carries that
      ingress's namespace and the host of one of its own rules. */
  lemma {:induction false} FixedAttributesOwnIngress(ings: seq<Ingress>, captures: Captures, value: nat, m: nat)
    requires value < |ings| && m <= |ings[value].rules|
    requires ScanRules(ings, captures, OwnRule, value, m).Ok?
    ensures forall e :: e in ScanRules(ings, captures, OwnRule, value, m).value ==>
      e.namespace == ings[value].namespace &&
      exists r :: 0 <= r < |ings[value].rules| && e.host == ings[value].rules[r].host
    decreases m
  {
    if m > 0 {
      FixedAttributesOwnIngress(ings, captures, value, m - 1);
      var o := OriginFor(ings, value, m - 1, OwnRule).value;
      assert o.host == ings[value].rules[m - 1].host;
      assert o.namespace == ings[value].namespace;
    }
  }

  /** Two ingresses with one rule each, the second carrying the annotation. */
  function FirstIngress(): Ingress
  {
    Ingress("ns-a", map[], [Rule("a.example", Some([HttpPath(Some("svc-a"))]))])
  }

  function SecondIngress(): Ingress
  {
    Ingress("ns-b", map[SnippetKey := "rewrite ^/old /new redirect;"],
            [Rule("b.example", Some([HttpPath(Some("svc-b"))]))])
  }

  /** The regular-expression search on that annotation value. */
  function SampleCaptures(value: string): seq<string>
  {
    if value == "rewrite ^/old /new redirect;" then ["/old /new"] else []
  }

  /** As written, the redirect declared by the second ingress is reported
      with the host, service and namespace of the first. */
  lemma AsWrittenMisattributes()
    ensures Extract([FirstIngress(), SecondIngress()], SampleCaptures)
         == Ok([Redirect("/old", "/new", "a.example", "svc-a", "ns-a")])
  {
    var ings := [FirstIngress(), SecondIngress()];
    var oa := Origin("a.example", "svc-a", "ns-a");
    SampleScans(ings, AsWritten);
    assert OriginFor(ings, 1, 0, AsWritten) == Ok(oa);
    SampleEntry(oa);
    assert [] + Entries(oa, Matches(ings[1], SampleCaptures)) == [Redirect("/old", "/new", oa.host, oa.service, oa.namespace)];
    ScanRulesNext(ings, SampleCaptures, AsWritten, 1, 0, []);
    assert ScanRules(ings, SampleCaptures, AsWritten, 1, 1) == Ok([Redirect("/old", "/new", oa.host, oa.service, oa.namespace)]);
  }

  /** With per-rule attribution the same redirect carries the second
      ingress's own host, service and namespace. */
  lemma FixedAttributesSample()
    ensures ExtractFixed([FirstIngress(), SecondIngress()], SampleCaptures)
         == Ok([Redirect("/old", "/new", "b.example", "svc-b", "ns-b")])
  {
    var ings := [FirstIngress(), SecondIngress()];
    var ob := Origin("b.example", "svc-b", "ns-b");
    SampleScans(ings, OwnRule);
    assert OriginFor(ings, 1, 0, OwnRule) == Ok(ob);
    SampleEntry(ob);
    assert [] + Entries(ob, Matches(ings[1], SampleCaptures)) == [Redirect("/old", "/new", ob.host, ob.service, ob.namespace)];
    ScanRulesNext(ings, SampleCaptures, OwnRule, 1, 0, []);
    assert ScanRules(ings, SampleCaptures, OwnRule, 1, 1) == Ok([Redirect("/old", "/new", ob.host, ob.service, ob.namespace)]);
  }

  /** The common steps of the two samples: the first ingress contributes
      nothing, the second has one match. */
  lemma SampleScans(ings: seq<Ingress>, attr: Attribution)
    requires ings == [FirstIngress(), SecondIngress()]
    ensures Matches(ings[1], SampleCaptures) == ["/old /new"]
    ensures ScanIngresses(ings, SampleCaptures, attr, 1) == Ok([])
  {
    assert Matches(ings[0], SampleCaptures) == [];
    assert ings[1].annotations[SnippetKey] == "rewrite ^/old /new redirect;";
    var oa := Origin("a.example", "svc-a", "ns-a");
    assert OriginFor(ings, 0, 0, attr) == Ok(oa);
    assert Entries(oa, Matches(ings[0], SampleCaptures)) == [];
    assert [] + Entries(oa, Matches(ings[0], SampleCaptures)) == [];
    ScanRulesNext(ings, SampleCaptures, attr, 0, 0, []);
    assert ScanRules(ings, SampleCaptures, attr, 0, 1) == Ok([]);
  }

  /** The entry made from the captured body `/old /new`. */
  lemma SampleEntry(o: Origin)
    ensures Entries(o, ["/old /new"]) == [Redirect("/old", "/new", o.host, o.service, o.namespace)]
  {
    SourceAndTargetOfPair("/old", "/new");
    assert "/old" + " " + "/new" == "/old /new";
  }

  /** One ingress with two rules and no annotation. */
  function TwoRuleIngress(): Ingress
  {
    Ingress("ns", map[], [Rule("h1", Some([HttpPath(Some("s1"))])), Rule("h2", Some([HttpPath(Some("s2"))]))])
  }

  /** As written, a single ingress with two rules makes the scan index the
      ingress list at 1 and panic; per-rule attribution does not. */
  lemma AsWrittenPanicsOnSecondRule()
    ensures Extract([TwoRuleIngress()], SampleCaptures) == Err(IndexOutOfRange(1, 1))
    ensures ExtractFixed([TwoRuleIngress()], SampleCaptures) == Ok([])
  {
    var ings := [TwoRuleIngress()];
    assert Matches(ings[0], SampleCaptures) == [];
    assert RuleOrigin(ings[0], 0) == Ok(Origin("h1", "s1", "ns"));
    assert RuleOrigin(ings[0], 1) == Ok(Origin("h2", "s2", "ns"));
    assert Entries(Origin("h1", "s1", "ns"), Matches(ings[0], SampleCaptures)) == [];
    assert Entries(Origin("h2", "s2", "ns"), Matches(ings[0], SampleCaptures)) == [];
    assert OriginFor(ings, 0, 0, AsWritten) == Ok(Origin("h1", "s1", "ns"));
    assert [] + Entries(Origin("h1", "s1", "ns"), Matches(ings[0], SampleCaptures)) == [];
    ScanRulesNext(ings, SampleCaptures, AsWritten, 0, 0, []);
    assert ScanRules(ings, SampleCaptures, AsWritten, 0, 1) == Ok([]);
    assert ScanRules(ings, SampleCaptures, AsWritten, 0, 2) == Err(IndexOutOfRange(1, 1));
    ScanRulesNext(ings, SampleCaptures, OwnRule, 0, 0, []);
    assert ScanRules(ings, SampleCaptures, OwnRule, 0, 1) == Ok([]);
    assert [] + Entries(Origin("h2", "s2", "ns"), Matches(ings[0], SampleCaptures)) == [];
    ScanRulesNext(ings, SampleCaptures, OwnRule, 0, 1, []);
    assert ScanRules(ings, SampleCaptures, OwnRule, 0, 2) == Ok([]);
  }
}
