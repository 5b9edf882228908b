/**
  Choosing the element to click: `findBestCandidate`, the XOAuth finder that
  tries the text matchers one at a time, and the GCP-result finder that
  cascades through three candidate subsets and sorts by a relevance score.
*/
module Selection {
  import opened Wrappers
  import opened Text
  import opened Config
  import Seqs
  import opened Elements

  /** `getElementIssues(el, req).length === 0`. */
  predicate Passes(e: Element, req: Requirements)
  {
    Issues(Some(e), req) == []
  }

  /** `Passes` under fixed requirements, as the function value `find` takes. */
  function PassUnder(req: Requirements): Element -> bool
  {
    e => Passes(e, req)
  }

  /** `findBestCandidate`: the first candidate with no issues, or none. */
  method FindBestCandidate(candidates: seq<Element>, req: Requirements) returns (r: Option<Element>)
    ensures r == Seqs.FirstWhere(candidates, PassUnder(req))
  {
    var i := 0;
    while i < |candidates|
      invariant 0 <= i <= |candidates|
      invariant forall j :: 0 <= j < i ==> !Passes(candidates[j], req)
    {
      var issues := GetElementIssues(Some(candidates[i]), req);
      if |issues| == 0 {
        Seqs.FirstIndexIs(candidates, PassUnder(req), i);
        return Some(candidates[i]);
      }
      i := i + 1;
    }
    Seqs.FirstIndexIs(candidates, PassUnder(req), |candidates|);
    return None;
  }

  // ---------------------------------------------------------------------------
  // The GCP join link

  /** `a[href*="/authentications/auth/"]`: the anchors whose `href` attribute
      contains the join path. */
  predicate IsJoinLink(e: Element)
  {
    e.href.Some? && Contains(e.href.value, GCP_JOIN_HREF)
  }

  function JoinRequirements(): Requirements
  {
    Requirements([GCP_JOIN_TEXT], GCP_JOIN_HREF)
  }

  /** The GCP finder: the first join link that passes the join requirements. */
  function JoinTarget(anchors: seq<Element>): Option<Element>
  {
    Seqs.FirstWhere(Seqs.Filter(anchors, IsJoinLink), PassUnder(JoinRequirements()))
  }

  method FindJoinTarget(anchors: seq<Element>) returns (r: Option<Element>)
    ensures r == JoinTarget(anchors)
  {
    var candidates := Seqs.Filter(anchors, IsJoinLink);
    r := FindBestCandidate(candidates, JoinRequirements());
  }

  /** The join target, when there is one, is a shown, enabled anchor whose
      normalized text contains the join label and whose `href` contains the
      join path; there is none exactly when no anchor is all of these. */
  lemma JoinTargetSpec(anchors: seq<Element>)
    ensures JoinTarget(anchors).Some? ==>
              JoinTarget(anchors).value in anchors && Actionable(JoinTarget(anchors).value, JoinRequirements())
    ensures JoinTarget(anchors).None? <==> forall e :: e in anchors ==> !Actionable(e, JoinRequirements())
  {
    var links := Seqs.Filter(anchors, IsJoinLink);
    var r := JoinTarget(anchors);
    if r.Some? {
      IssuesEmptyIffActionable(r.value, JoinRequirements());
    }
    forall e | e in anchors && Actionable(e, JoinRequirements()) ensures r.Some? {
      IssuesEmptyIffActionable(e, JoinRequirements());
      assert IsJoinLink(e);
      assert e in links;
      var j :| 0 <= j < |links| && links[j] == e;
      assert PassUnder(JoinRequirements())(links[j]);
    }
  }

  // ---------------------------------------------------------------------------
  // The XOAuth button

  function SingleMatcher(m: string): Requirements
  {
    Requirements([m], "")
  }

  /** No candidate passes under matcher `m` alone. */
  ghost predicate NoHitUnder(candidates: seq<Element>, m: string)
  {
    forall j :: 0 <= j < |candidates| ==> !Passes(candidates[j], SingleMatcher(m))
  }

  /** The XOAuth finder: for the first matcher under which some candidate
      passes, the first such candidate. */
  function XTarget(candidates: seq<Element>, matchers: seq<string>): Option<Element>
    decreases |matchers|
  {
    if matchers == [] then None
    else
      var hit := Seqs.FirstWhere(candidates, PassUnder(SingleMatcher(matchers[0])));
      if hit.Some? then hit else XTarget(candidates, matchers[1..])
  }

  method FindXOAuthTarget(candidates: seq<Element>, matchers: seq<string>) returns (r: Option<Element>)
    ensures r == XTarget(candidates, matchers)
  {
    var i := 0;
    while i < |matchers|
      invariant 0 <= i <= |matchers|
      invariant XTarget(candidates, matchers) == XTarget(candidates, matchers[i..])
    {
      assert matchers[i..][0] == matchers[i] && matchers[i..][1..] == matchers[i + 1..];
      r := FindBestCandidate(candidates, SingleMatcher(matchers[i]));
      if r.Some? {
        return;
      }
      i := i + 1;
    }
    r := None;
  }

  /** The XOAuth target is the first candidate passing under matcher `k`,
      where `k` is the first matcher under which any candidate passes. */
  lemma {:induction false} XTargetChoice(candidates: seq<Element>, matchers: seq<string>)
    ensures XTarget(candidates, matchers).Some? ==> exists k :: FirstHitAt(candidates, matchers, k)
    decreases |matchers|
  {
    if matchers != [] {
      var hit := Seqs.FirstWhere(candidates, PassUnder(SingleMatcher(matchers[0])));
      if hit.Some? {
        assert FirstHitAt(candidates, matchers, 0);
      } else if XTarget(candidates, matchers).Some? {
        XTargetChoice(candidates, matchers[1..]);
        var k :| FirstHitAt(candidates, matchers[1..], k);
        NoHitOfNone(candidates, matchers[0]);
        FirstHitShift(candidates, matchers, k);
      }
    }
  }

  /** Matcher `k` is the first under which some candidate passes, and the
      finder returns what `find` returns under it. */
  ghost predicate FirstHitAt(candidates: seq<Element>, matchers: seq<string>, k: int)
  {
    && 0 <= k < |matchers|
    && (forall l :: 0 <= l < k ==> NoHitUnder(candidates, matchers[l]))
    && XTarget(candidates, matchers) == Seqs.FirstWhere(candidates, PassUnder(SingleMatcher(matchers[k])))
  }

  lemma NoHitOfNone(candidates: seq<Element>, m: string)
    requires Seqs.FirstWhere(candidates, PassUnder(SingleMatcher(m))).None?
    ensures NoHitUnder(candidates, m)
  {
    forall j | 0 <= j < |candidates| ensures !Passes(candidates[j], SingleMatcher(m)) {
      assert !PassUnder(SingleMatcher(m))(candidates[j]);
    }
  }

  lemma FirstHitShift(candidates: seq<Element>, matchers: seq<string>, k: int)
    requires matchers != [] && NoHitUnder(candidates, matchers[0])
    requires Seqs.FirstWhere(candidates, PassUnder(SingleMatcher(matchers[0]))).None?
    requires FirstHitAt(candidates, matchers[1..], k)
    ensures FirstHitAt(candidates, matchers, k + 1)
  {
    var rest := matchers[1..];
    forall l | 1 <= l < k + 1 ensures NoHitUnder(candidates, matchers[l]) {
      assert matchers[l] == rest[l - 1];
    }
    assert matchers[k + 1] == rest[k];
  }

  /** With at least one matcher, the XOAuth finder finds nothing exactly when
      no candidate passes under the whole matcher list (the list the failure
      dump checks against), and what it finds is a candidate that passes
      under that list. */
  lemma XTargetNoneIff(candidates: seq<Element>, matchers: seq<string>)
    requires matchers != []
    ensures XTarget(candidates, matchers).None?
        <==> forall e :: e in candidates ==> !Passes(e, Requirements(matchers, ""))
    ensures XTarget(candidates, matchers).Some? ==>
              XTarget(candidates, matchers).value in candidates
              && Passes(XTarget(candidates, matchers).value, Requirements(matchers, ""))
  {
    var r := XTarget(candidates, matchers);
    XTargetChoice(candidates, matchers);
    if r.Some? {
      var k :| FirstHitAt(candidates, matchers, k);
      SingleMatcherVersusList(r.value, matchers);
    }
    forall e | e in candidates && Passes(e, Requirements(matchers, "")) ensures r.Some? {
      SingleMatcherVersusList(e, matchers);
      var m :| m in matchers && Passes(e, SingleMatcher(m));
      XTargetFindsHit(candidates, matchers, e, m);
    }
  }

  /** When some candidate passes under one of the matchers, the finder finds something. */
  lemma {:induction false} XTargetFindsHit(candidates: seq<Element>, matchers: seq<string>, e: Element, m: string)
    requires e in candidates && m in matchers && Passes(e, SingleMatcher(m))
    ensures XTarget(candidates, matchers).Some?
    decreases |matchers|
  {
    var p := PassUnder(SingleMatcher(matchers[0]));
    Seqs.FirstWhereNoneIff(candidates, p);
    if matchers[0] == m {
      assert p(e);
    } else if Seqs.FirstWhere(candidates, p).None? {
      Seqs.InTail(matchers, m);
      XTargetFindsHit(candidates, matchers[1..], e, m);
    }
  }

  // ---------------------------------------------------------------------------
  // The GCP result link

  /** `normalizeText(text).includes('結果をみる')`. */
  predicate TextMatch(e: Element)
  {
    Contains(Normalize(VisibleText(e)), GCP_RESULT_TEXT)
  }

  /** `(href || '').includes('/entry/lottery/result')`. */
  predicate HrefMatch(e: Element)
  {
    Contains(HrefAttr(e), GCP_RESULT_HREF)
  }

  predicate BothMatch(e: Element)
  {
    TextMatch(e) && HrefMatch(e)
  }

  /** The first non-empty of: anchors matching both, matching the href,
      matching the text. */
  function CascadeSubset(anchors: seq<Element>): seq<Element>
  {
    var both := Seqs.Filter(anchors, BothMatch);
    if both != [] then both
    else
      var href := Seqs.Filter(anchors, HrefMatch);
      if href != [] then href else Seqs.Filter(anchors, TextMatch)
  }

  /** Score 0 of the sort: the lower-cased `href` mentions `result` or `lottery`. */
  predicate Relevant(e: Element)
  {
    Contains(AsciiLower(HrefAttr(e)), "result") || Contains(AsciiLower(HrefAttr(e)), "lottery")
  }

  predicate Irrelevant(e: Element)
  {
    !Relevant(e)
  }

  /** The candidates after the stable sort by score: score 0 first, each score
      class in its original order. */
  function RelevanceOrder(s: seq<Element>): seq<Element>
  {
    Seqs.Filter(s, Relevant) + Seqs.Filter(s, Irrelevant)
  }

  /** The per-candidate options: the text matcher only when the text matches,
      the href requirement only when the href matches. */
  function OwnRequirements(e: Element): Requirements
  {
    Requirements(if TextMatch(e) then [GCP_RESULT_TEXT] else [],
                 if HrefMatch(e) then GCP_RESULT_HREF else "")
  }

  predicate PassesOwn(e: Element)
  {
    Passes(e, OwnRequirements(e))
  }

  /** The GCP-result finder. */
  function ResultTarget(anchors: seq<Element>): Option<Element>
  {
    Seqs.FirstWhere(RelevanceOrder(CascadeSubset(anchors)), PassesOwn)
  }

  method FindResultTarget(anchors: seq<Element>) returns (r: Option<Element>)
    ensures r == ResultTarget(anchors)
  {
    var candidates := Seqs.Filter(anchors, BothMatch);
    if |candidates| == 0 {
      candidates := Seqs.Filter(anchors, HrefMatch);
    }
    if |candidates| == 0 {
      candidates := Seqs.Filter(anchors, TextMatch);
    }
    if |candidates| == 0 {
      return None;
    }
    r := FirstPassingOwn(RelevanceOrder(candidates));
  }

  /** `getElementIssues(el, ownOptions).length === 0` for one sorted candidate. */
  method PassesOwnCheck(el: Element) returns (ok: bool)
    ensures ok == PassesOwn(el)
  {
    var issues := GetElementIssues(Some(el), OwnRequirements(el));
    ok := |issues| == 0;
  }

  /** The loop over the sorted candidates, each checked under its own options. */
  method FirstPassingOwn(candidates: seq<Element>) returns (r: Option<Element>)
    ensures r == Seqs.FirstWhere(candidates, PassesOwn)
  {
    var i := 0;
    while i < |candidates|
      invariant 0 <= i <= |candidates|
      invariant forall j :: 0 <= j < i ==> !PassesOwn(candidates[j])
    {
      var el := candidates[i];
      var ok := PassesOwnCheck(el);
      if ok {
        Seqs.FirstIndexIs(candidates, PassesOwn, i);
        return Some(el);
      }
      i := i + 1;
    }
    Seqs.FirstIndexIs(candidates, PassesOwn, |candidates|);
    return None;
  }

  /** The per-candidate options never reject on text or href: a candidate
      passes them exactly when it is shown and enabled. */
  lemma OwnRequirementsCheckOnlyState(e: Element)
    ensures PassesOwn(e) <==>
      !StyleHidden(e) && !ZeroSize(e) && !e.disabled && e.ariaDisabled != Some("true")
  {
    IssuesMembership(e, OwnRequirements(e));
    var iss := Issues(Some(e), OwnRequirements(e));
    if iss != [] {
      assert iss[0] in iss;
    }
    if TextMatch(e) {
      assert GCP_RESULT_TEXT in OwnRequirements(e).textMatchers;
    }
  }

  /** A candidate matching the result href is always scored relevant. */
  lemma HrefMatchIsRelevant(e: Element)
    requires HrefMatch(e)
    ensures Relevant(e)
  {
    var h := HrefAttr(e);
    assert GCP_RESULT_HREF[15..21] == "result";
    ContainsPart(h, GCP_RESULT_HREF, 15, 21);
    ContainsLower(h, "result");
    assert AsciiLower("result") == "result";
  }

  /** The sort is a permutation. */
  lemma RelevanceOrderPermutes(s: seq<Element>)
    ensures multiset(RelevanceOrder(s)) == multiset(s)
  {
    Seqs.FilterSplitsMultiset(s, Relevant, Irrelevant);
  }

  /** After the sort every relevant candidate precedes every irrelevant one,
      and each class keeps its original order. */
  lemma RelevanceOrderSorted(s: seq<Element>)
    ensures forall i, j :: 0 <= i < j < |RelevanceOrder(s)| && Relevant(RelevanceOrder(s)[j])
                           ==> Relevant(RelevanceOrder(s)[i])
    ensures Seqs.Filter(RelevanceOrder(s), Relevant) == Seqs.Filter(s, Relevant)
    ensures Seqs.Filter(RelevanceOrder(s), Irrelevant) == Seqs.Filter(s, Irrelevant)
  {
    var a, b := Seqs.Filter(s, Relevant), Seqs.Filter(s, Irrelevant);
    var o := a + b;
    forall i | 0 <= i < |a| ensures Relevant(o[i]) {
      assert o[i] == a[i];
    }
    forall j | |a| <= j < |o| ensures !Relevant(o[j]) {
      assert o[j] == b[j - |a|];
    }
    Seqs.FilterAppend(a, b, Relevant);
    Seqs.FilterAppend(a, b, Irrelevant);
    FilterKeepsAll(a, Relevant);
    FilterKeepsNone(b, Relevant);
    FilterKeepsNone(a, Irrelevant);
    FilterKeepsAll(b, Irrelevant);
  }

  lemma {:induction false} FilterKeepsAll(s: seq<Element>, p: Element -> bool)
    requires forall x :: x in s ==> p(x)
    ensures Seqs.Filter(s, p) == s
  {
    if s != [] {
      FilterKeepsAll(s[1..], p);
      assert s == [s[0]] + s[1..];
    }
  }

  lemma {:induction false} FilterKeepsNone(s: seq<Element>, p: Element -> bool)
    requires forall x :: x in s ==> !p(x)
    ensures Seqs.Filter(s, p) == []
  {
    if s != [] {
      FilterKeepsNone(s[1..], p);
    }
  }

  /** The cascade subset holds anchors that match the text or the href. */
  lemma CascadeSubsetMembers(anchors: seq<Element>)
    ensures forall e :: e in CascadeSubset(anchors) ==> e in anchors && (TextMatch(e) || HrefMatch(e))
  {
  }

  lemma RelevanceOrderMembers(s: seq<Element>)
    ensures forall e :: e in RelevanceOrder(s) <==> e in s
  {
  }

  /** What the result finder returns is an anchor of the page that is shown
      and enabled and matches the text or the href; it finds nothing exactly
      when no anchor of the chosen subset is shown and enabled. */
  lemma ResultTargetSpec(anchors: seq<Element>)
    ensures ResultTarget(anchors).Some? ==>
      var e := ResultTarget(anchors).value;
      e in anchors && (TextMatch(e) || HrefMatch(e)) && PassesOwn(e)
      && !StyleHidden(e) && !ZeroSize(e) && !e.disabled && e.ariaDisabled != Some("true")
    ensures ResultTarget(anchors).None? <==> forall e :: e in CascadeSubset(anchors) ==> !PassesOwn(e)
  {
    var c := CascadeSubset(anchors);
    var o := RelevanceOrder(c);
    CascadeSubsetMembers(anchors);
    RelevanceOrderMembers(c);
    Seqs.FirstWhereNoneIff(o, PassesOwn);
    var r := ResultTarget(anchors);
    if r.Some? {
      OwnRequirementsCheckOnlyState(r.value);
    }
  }

  /** Cascade precedence: when some anchor matches both text and href, the
      target matches both; otherwise, when some anchor matches the href, the
      target matches the href. */
  lemma ResultTargetPrecedence(anchors: seq<Element>)
    ensures ResultTarget(anchors).Some? && (exists e :: e in anchors && BothMatch(e))
            ==> BothMatch(ResultTarget(anchors).value)
    ensures ResultTarget(anchors).Some? && (exists e :: e in anchors && HrefMatch(e))
            ==> HrefMatch(ResultTarget(anchors).value)
  {
    var c := CascadeSubset(anchors);
    RelevanceOrderMembers(c);
    var r := ResultTarget(anchors);
    if r.Some? {
      assert r.value in c;
      if e :| e in anchors && BothMatch(e) {
        assert e in Seqs.Filter(anchors, BothMatch);
      }
      if e :| e in anchors && HrefMatch(e) {
        assert e in Seqs.Filter(anchors, HrefMatch);
        if Seqs.Filter(anchors, BothMatch) == [] {
          assert c == Seqs.Filter(anchors, HrefMatch);
        }
      }
    }
  }

  /** Relevance precedence: an irrelevant target is chosen only when no
      relevant candidate passes. */
  lemma ResultTargetPrefersRelevant(anchors: seq<Element>)
    ensures ResultTarget(anchors).Some? && !Relevant(ResultTarget(anchors).value) ==>
      forall e :: e in CascadeSubset(anchors) && Relevant(e) ==> !PassesOwn(e)
  {
    Seqs.FirstWhereAfterPartition(CascadeSubset(anchors), Relevant, Irrelevant, PassesOwn);
  }
}
