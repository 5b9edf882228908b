/**
  `getElementIssues`: what keeps an element from being a click target.
  An element is the record of the attributes the check reads; the computed
  style and the bounding box are given, and of the box only its comparison
  with zero matters.
*/
module Elements {
  import opened Wrappers
  import opened Text

  /** An element as `getElementIssues` sees it.  `innerText` and `textContent`
      are the empty string when the property is absent (`||` treats both the
      same), and `href` and `ariaDisabled` are the attribute or `None`. */
  datatype Element = Element(
    display: string,          // getComputedStyle(el).display
    visibility: string,       // getComputedStyle(el).visibility
    opacity: string,          // getComputedStyle(el).opacity
    zeroWidth: bool,          // getBoundingClientRect().width === 0
    zeroHeight: bool,         // getBoundingClientRect().height === 0
    disabled: bool,           // el.disabled
    ariaDisabled: Option<string>,
    innerText: string,
    textContent: string,
    href: Option<string>)

  datatype Issue = NoElement | NotVisible | Disabled | AriaDisabled | TextMismatch | NoHref

  /** The options of `getElementIssues`: text matchers (none when empty) and a
      required `href` substring (no requirement when empty, as `''` is falsy). */
  datatype Requirements = Requirements(textMatchers: seq<string>, hrefIncludes: string)

  /** `el.innerText || el.textContent || ''`. */
  function VisibleText(e: Element): string
  {
    if e.innerText != "" then e.innerText else e.textContent
  }

  /** `el.getAttribute('href') || ''`. */
  function HrefAttr(e: Element): string
  {
    match e.href
    case Some(h) => h
    case None => ""
  }

  predicate StyleHidden(e: Element)
  {
    e.display == "none" || e.visibility == "hidden" || e.opacity == "0"
  }

  predicate ZeroSize(e: Element)
  {
    e.zeroWidth || e.zeroHeight
  }

  /** `textMatchers.some((t) => text.includes(t))`. */
  predicate AnyContained(text: string, matchers: seq<string>)
  {
    exists m :: m in matchers && Contains(text, m)
  }

  predicate TextMismatched(e: Element, req: Requirements)
  {
    |req.textMatchers| > 0 && !AnyContained(Normalize(VisibleText(e)), req.textMatchers)
  }

  predicate HrefMissing(e: Element, req: Requirements)
  {
    req.hrefIncludes != "" && (HrefAttr(e) == "" || !Contains(HrefAttr(e), req.hrefIncludes))
  }

  function Tag(b: bool, i: Issue): seq<Issue>
  {
    if b then [i] else []
  }

  /** The issue list `getElementIssues` returns: one tag per failed check, in the
      order the checks run. */
  function Issues(el: Option<Element>, req: Requirements): seq<Issue>
  {
    match el
    case None => [NoElement]
    case Some(e) =>
      Tag(StyleHidden(e), NotVisible) + Tag(ZeroSize(e), NotVisible)
      + Tag(e.disabled, Disabled) + Tag(e.ariaDisabled == Some("true"), AriaDisabled)
      + Tag(TextMismatched(e, req), TextMismatch) + Tag(HrefMissing(e, req), NoHref)
  }

  /** `getElementIssues(el, options)`: each failed check pushes its tag. */
  method GetElementIssues(el: Option<Element>, req: Requirements) returns (issues: seq<Issue>)
    ensures issues == Issues(el, req)
  {
    issues := [];
    if el.None? {
      issues := issues + [NoElement];
      return;
    }
    var e := el.value;
    if e.display == "none" || e.visibility == "hidden" || e.opacity == "0" {
      issues := issues + [NotVisible];
    }
    assert issues == Tag(StyleHidden(e), NotVisible);
    if e.zeroWidth || e.zeroHeight {
      issues := issues + [NotVisible];
    }
    assert issues == Tag(StyleHidden(e), NotVisible) + Tag(ZeroSize(e), NotVisible);
    ghost var visibility := issues;
    if e.disabled {
      issues := issues + [Disabled];
    }
    if e.ariaDisabled == Some("true") {
      issues := issues + [AriaDisabled];
    }
    assert issues == visibility + Tag(e.disabled, Disabled) + Tag(e.ariaDisabled == Some("true"), AriaDisabled);
    ghost var enabled := issues;
    if |req.textMatchers| > 0 {
      var text := Normalize(VisibleText(e));
      var matched := AnyContained(text, req.textMatchers);
      if !matched {
        issues := issues + [TextMismatch];
      }
    }
    assert issues == enabled + Tag(TextMismatched(e, req), TextMismatch);
    ghost var texts := issues;
    if req.hrefIncludes != "" {
      var href := HrefAttr(e);
      if href == "" || !Contains(href, req.hrefIncludes) {
        issues := issues + [NoHref];
      }
    }
    assert issues == texts + Tag(HrefMissing(e, req), NoHref);
    assert Issues(el, req) == texts + Tag(HrefMissing(e, req), NoHref);
  }

  /** An element passes when it is shown, enabled, and meets the text and href
      requirements: the independent reading of an empty issue list. */
  predicate Actionable(e: Element, req: Requirements)
  {
    && e.display != "none" && e.visibility != "hidden" && e.opacity != "0"
    && !e.zeroWidth && !e.zeroHeight
    && !e.disabled && e.ariaDisabled != Some("true")
    && (req.textMatchers == [] || exists m :: m in req.textMatchers && Contains(Normalize(VisibleText(e)), m))
    && (req.hrefIncludes == "" || Contains(HrefAttr(e), req.hrefIncludes))
  }

  /** The rank of a tag in the order the checks run. */
  function Rank(i: Issue): nat
  {
    match i
    case NoElement => 0
    case NotVisible => 1
    case Disabled => 2
    case AriaDisabled => 3
    case TextMismatch => 4
    case NoHref => 5
  }

  function Occurrences(s: seq<Issue>, i: Issue): nat
  {
    if s == [] then 0 else (if s[0] == i then 1 else 0) + Occurrences(s[1..], i)
  }

  lemma {:induction false} OccurrencesAppend(a: seq<Issue>, b: seq<Issue>, i: Issue)
    ensures Occurrences(a + b, i) == Occurrences(a, i) + Occurrences(b, i)
  {
    if a == [] {
      assert a + b == b;
    } else {
      assert (a + b)[1..] == a[1..] + b;
      OccurrencesAppend(a[1..], b, i);
    }
  }

  /** An absent element yields exactly `['no_element']`; a present one never
      yields `no_element`. */
  lemma IssuesOfAbsent(el: Option<Element>, req: Requirements)
    ensures el.None? <==> Issues(el, req) == [NoElement]
    ensures el.None? <==> NoElement in Issues(el, req)
  {
  }

  /** Tags in check order: ranks strictly increase, except for a repeated
      `not_visible`. */
  ghost predicate InCheckOrder(s: seq<Issue>)
  {
    forall i, j :: 0 <= i < j < |s| ==> Rank(s[i]) < Rank(s[j]) || s[i] == s[j] == NotVisible
  }

  /** Appending one more check's tag keeps the order when every earlier tag
      ranks below it (or is an earlier `not_visible`). */
  lemma SnocTagInCheckOrder(a: seq<Issue>, b: bool, t: Issue)
    requires InCheckOrder(a)
    requires forall k :: 0 <= k < |a| ==> Rank(a[k]) < Rank(t) || a[k] == t == NotVisible
    ensures InCheckOrder(a + Tag(b, t))
    ensures forall k :: 0 <= k < |a + Tag(b, t)| ==> Rank((a + Tag(b, t))[k]) <= Rank(t)
  {
  }

  /** The six tags, one per check, in the order the checks run. */
  function CheckTags(b1: bool, b2: bool, b3: bool, b4: bool, b5: bool, b6: bool): seq<Issue>
  {
    Tag(b1, NotVisible) + Tag(b2, NotVisible) + Tag(b3, Disabled)
    + Tag(b4, AriaDisabled) + Tag(b5, TextMismatch) + Tag(b6, NoHref)
  }

  lemma CheckTagsInOrder(b1: bool, b2: bool, b3: bool, b4: bool, b5: bool, b6: bool)
    ensures InCheckOrder(CheckTags(b1, b2, b3, b4, b5, b6))
  {
    var p0: seq<Issue> := [];
    SnocTagInCheckOrder(p0, b1, NotVisible);
    var p1 := p0 + Tag(b1, NotVisible);
    SnocTagInCheckOrder(p1, b2, NotVisible);
    var p2 := p1 + Tag(b2, NotVisible);
    SnocTagInCheckOrder(p2, b3, Disabled);
    var p3 := p2 + Tag(b3, Disabled);
    SnocTagInCheckOrder(p3, b4, AriaDisabled);
    var p4 := p3 + Tag(b4, AriaDisabled);
    SnocTagInCheckOrder(p4, b5, TextMismatch);
    var p5 := p4 + Tag(b5, TextMismatch);
    SnocTagInCheckOrder(p5, b6, NoHref);
    var p6 := p5 + Tag(b6, NoHref);
    assert p1 == Tag(b1, NotVisible);
    assert CheckTags(b1, b2, b3, b4, b5, b6) == p6;
  }

  /** A tag for another check holds no occurrence of `x`. */
  lemma OccurrencesTagOther(b: bool, t: Issue, x: Issue)
    requires t != x
    ensures Occurrences(Tag(b, t), x) == 0
  {
    if b {
      assert Tag(b, t)[1..] == [];
    }
  }

  lemma OccurrencesTagSame(b: bool, t: Issue)
    ensures Occurrences(Tag(b, t), t) == (if b then 1 else 0)
  {
    if b {
      assert Tag(b, t)[1..] == [];
    }
  }

  lemma CheckTagsNotVisibleCount(b1: bool, b2: bool, b3: bool, b4: bool, b5: bool, b6: bool)
    ensures Occurrences(CheckTags(b1, b2, b3, b4, b5, b6), NotVisible)
         == (if b1 then 1 else 0) + (if b2 then 1 else 0)
  {
    var t1, t2, t3 := Tag(b1, NotVisible), Tag(b2, NotVisible), Tag(b3, Disabled);
    var t4, t5, t6 := Tag(b4, AriaDisabled), Tag(b5, TextMismatch), Tag(b6, NoHref);
    OccurrencesTagSame(b1, NotVisible);
    OccurrencesTagSame(b2, NotVisible);
    OccurrencesTagOther(b3, Disabled, NotVisible);
    OccurrencesTagOther(b4, AriaDisabled, NotVisible);
    OccurrencesTagOther(b5, TextMismatch, NotVisible);
    OccurrencesTagOther(b6, NoHref, NotVisible);
    OccurrencesAppend(t1, t2, NotVisible);
    OccurrencesAppend(t1 + t2, t3, NotVisible);
    OccurrencesAppend(t1 + t2 + t3, t4, NotVisible);
    OccurrencesAppend(t1 + t2 + t3 + t4, t5, NotVisible);
    OccurrencesAppend(t1 + t2 + t3 + t4 + t5, t6, NotVisible);
  }

  /** The tags come in check order; only `not_visible` repeats, once for the
      style check and once for the zero-size check. */
  lemma IssuesInCheckOrder(e: Element, req: Requirements)
    ensures InCheckOrder(Issues(Some(e), req))
    ensures Occurrences(Issues(Some(e), req), NotVisible)
         == (if StyleHidden(e) then 1 else 0) + (if ZeroSize(e) then 1 else 0)
  {
    CheckTagsInOrder(StyleHidden(e), ZeroSize(e), e.disabled, e.ariaDisabled == Some("true"),
                     TextMismatched(e, req), HrefMissing(e, req));
    CheckTagsNotVisibleCount(StyleHidden(e), ZeroSize(e), e.disabled, e.ariaDisabled == Some("true"),
                             TextMismatched(e, req), HrefMissing(e, req));
  }

  /** A tag is in the list exactly when one of the checks that push it failed. */
  lemma InCheckTags(b1: bool, b2: bool, b3: bool, b4: bool, b5: bool, b6: bool, x: Issue)
    ensures x in CheckTags(b1, b2, b3, b4, b5, b6)
        <==> || ((b1 || b2) && x == NotVisible) || (b3 && x == Disabled) || (b4 && x == AriaDisabled)
             || (b5 && x == TextMismatch) || (b6 && x == NoHref)
  {
    var t1, t2, t3 := Tag(b1, NotVisible), Tag(b2, NotVisible), Tag(b3, Disabled);
    var t4, t5, t6 := Tag(b4, AriaDisabled), Tag(b5, TextMismatch), Tag(b6, NoHref);
    InTag(b1, NotVisible, x);
    InTag(b2, NotVisible, x);
    InTag(b3, Disabled, x);
    InTag(b4, AriaDisabled, x);
    InTag(b5, TextMismatch, x);
    InTag(b6, NoHref, x);
    var p2 := t1 + t2;
    var p3 := p2 + t3;
    var p4 := p3 + t4;
    var p5 := p4 + t5;
    assert x in p2 <==> x in t1 || x in t2;
    assert x in p3 <==> x in p2 || x in t3;
    assert x in p4 <==> x in p3 || x in t4;
    assert x in p5 <==> x in p4 || x in t5;
    assert x in p5 + t6 <==> x in p5 || x in t6;
  }

  lemma InTag(b: bool, t: Issue, x: Issue)
    ensures x in Tag(b, t) <==> b && x == t
  {
  }

  /** `hasText` fails exactly when no matcher is contained. */
  lemma TextMismatchedIff(e: Element, req: Requirements)
    ensures TextMismatched(e, req)
        <==> |req.textMatchers| > 0 && forall m :: m in req.textMatchers ==> !Contains(Normalize(VisibleText(e)), m)
  {
  }

  /** The href check fails exactly when the attribute is absent or lacks the substring. */
  lemma HrefMissingIff(e: Element, req: Requirements)
    ensures HrefMissing(e, req)
        <==> req.hrefIncludes != "" && (e.href.None? || !Contains(e.href.value, req.hrefIncludes))
  {
    var h := HrefAttr(e);
    if req.hrefIncludes != "" && h == "" {
      assert !Contains(h, req.hrefIncludes);
    }
  }

  /** Which tags appear, check by check: each check is independent of the others. */
  lemma IssuesMembership(e: Element, req: Requirements)
    ensures NotVisible in Issues(Some(e), req) <==> StyleHidden(e) || ZeroSize(e)
    ensures Disabled in Issues(Some(e), req) <==> e.disabled
    ensures AriaDisabled in Issues(Some(e), req) <==> e.ariaDisabled == Some("true")
    ensures TextMismatch in Issues(Some(e), req)
        <==> |req.textMatchers| > 0 && forall m :: m in req.textMatchers ==> !Contains(Normalize(VisibleText(e)), m)
    ensures NoHref in Issues(Some(e), req)
        <==> req.hrefIncludes != "" && (e.href.None? || !Contains(e.href.value, req.hrefIncludes))
  {
    var b1, b2, b3 := StyleHidden(e), ZeroSize(e), e.disabled;
    var b4, b5, b6 := e.ariaDisabled == Some("true"), TextMismatched(e, req), HrefMissing(e, req);
    assert Issues(Some(e), req) == CheckTags(b1, b2, b3, b4, b5, b6);
    InCheckTags(b1, b2, b3, b4, b5, b6, NotVisible);
    InCheckTags(b1, b2, b3, b4, b5, b6, Disabled);
    InCheckTags(b1, b2, b3, b4, b5, b6, AriaDisabled);
    InCheckTags(b1, b2, b3, b4, b5, b6, TextMismatch);
    InCheckTags(b1, b2, b3, b4, b5, b6, NoHref);
    TextMismatchedIff(e, req);
    HrefMissingIff(e, req);
  }

  /** An empty issue list is exactly an actionable element. */
  lemma IssuesEmptyIffActionable(e: Element, req: Requirements)
    ensures Issues(Some(e), req) == [] <==> Actionable(e, req)
  {
    IssuesMembership(e, req);
    var iss := Issues(Some(e), req);
    if iss != [] {
      assert iss[0] in iss;
    }
  }

  /** An element that passes under one matcher passes under any list holding
      that matcher; conversely one that passes under a non-empty list passes
      under one of its matchers alone. */
  lemma SingleMatcherVersusList(e: Element, matchers: seq<string>)
    requires matchers != []
    ensures Issues(Some(e), Requirements(matchers, "")) == []
        <==> exists m :: m in matchers && Issues(Some(e), Requirements([m], "")) == []
  {
    IssuesEmptyIffActionable(e, Requirements(matchers, ""));
    forall m | m in matchers {
      IssuesEmptyIffActionable(e, Requirements([m], ""));
    }
    if Actionable(e, Requirements(matchers, "")) {
      var m :| m in matchers && Contains(Normalize(VisibleText(e)), m);
      assert Actionable(e, Requirements([m], ""));
    }
  }
}
