/** The links of a message (internal/extract/links.go, extract.go): every URL once, with the
    first telling kind any of its occurrences has, and the one link worth opening. */
module LinkLists {
  import opened Base
  import opened Spans
  import opened Runes
  import Links

  // ----- The text around a URL -----

  const NEWLINE: byte := 10
  const CONTEXT_WINDOW: nat := 120

  /** Scanning back to the line break before a position. */
  function LineStart(s: Text, p: nat): (start: nat)
    requires p <= |s|
    ensures start <= p && (start > 0 ==> s[start - 1] == NEWLINE) && forall k :: start <= k < p ==> s[k] != NEWLINE
  {
    if p == 0 || s[p - 1] == NEWLINE then p else LineStart(s, p - 1)
  }

  /** Scanning on to the line break after a position. */
  function LineEnd(s: Text, p: nat): (end: nat)
    requires p <= |s|
    ensures p <= end <= |s| && (end < |s| ==> s[end] == NEWLINE) && forall k :: p <= k < end ==> s[k] != NEWLINE
    decreases |s| - p
  {
    if p == |s| || s[p] == NEWLINE then p else LineEnd(s, p + 1)
  }

  predicate RuneStart(b: byte) { b < 128 || b >= 192 }

  function ClipStart(s: Text, lo: nat, p: nat): (start: nat)
    requires lo <= p <= |s|
    ensures lo <= start <= p && (start < p ==> RuneStart(s[start])) && forall k :: lo <= k < start ==> !RuneStart(s[k])
    decreases p - lo
  {
    if lo == p || RuneStart(s[lo]) then lo else ClipStart(s, lo + 1, p)
  }

  function ClipEnd(s: Text, p: nat, hi: nat): (end: nat)
    requires p <= hi < |s|
    ensures p <= end <= hi && (end > p ==> RuneStart(s[end])) && forall k :: end < k <= hi ==> !RuneStart(s[k])
  {
    if hi == p || RuneStart(s[hi]) then hi else ClipEnd(s, p, hi - 1)
  }

  /** The line of a span, clipped on both sides to whole runes within the window. */
  function Context(s: Text, at: Span): Span
    requires at.start <= at.end <= |s|
  {
    var start, end := LineStart(s, at.start), LineEnd(s, at.end);
    Span(if at.start - start > CONTEXT_WINDOW then ClipStart(s, at.start - CONTEXT_WINDOW, at.start) else start,
         if end - at.end > CONTEXT_WINDOW then ClipEnd(s, at.end, at.end + CONTEXT_WINDOW) else end)
  }

  /** The context holds the span, borrows from no other line and stays within the window. */
  lemma ContextMeaning(s: Text, at: Span)
    requires at.start <= at.end <= |s|
    ensures var c := Context(s, at);
            && c.start <= at.start && at.end <= c.end <= |s|
            && at.start - c.start <= CONTEXT_WINDOW && c.end - at.end <= CONTEXT_WINDOW
            && (forall k :: c.start <= k < at.start || at.end <= k < c.end ==> s[k] != NEWLINE)
  {
  }

  predicate Continuation(b: byte) { 128 <= b < 192 }

  /** It begins where the line does, unless that is more than 120 bytes away: then with the
      first whole rune of those 120. */
  lemma ContextBegins(s: Text, at: Span)
    requires at.start <= at.end <= |s|
    ensures var start := Context(s, at).start;
            || (start == 0 && at.start <= 120) || (start > 0 && s[start - 1] as char == '\n' && at.start - start <= 120)
            || (&& at.start > 120 && (forall k :: at.start - 121 <= k < at.start ==> s[k] as char != '\n')
                && (forall k :: at.start - 120 <= k < start ==> Continuation(s[k]))
                && (start < at.start ==> !Continuation(s[start])) && at.start - 120 <= start <= at.start)
  {
  }

  /** It ends where the line does, unless that is more than 120 bytes away: then in front of
      the last byte in reach that starts a rune. */
  lemma ContextEnds(s: Text, at: Span)
    requires at.start <= at.end <= |s|
    ensures var end := Context(s, at).end;
            || (end == |s| && end - at.end <= 120) || (end < |s| && s[end] as char == '\n' && end - at.end <= 120)
            || (&& at.end + 120 < |s| && (forall k :: at.end <= k <= at.end + 120 ==> s[k] as char != '\n')
                && (forall k :: end < k <= at.end + 120 ==> Continuation(s[k]))
                && (end > at.end ==> !Continuation(s[end])) && at.end <= end <= at.end + 120)
  {
  }

  ghost predicate IsLineIndex(s: Text, idx: seq<nat>) {
    && (forall i :: 0 <= i < |idx| ==> idx[i] < |s| && s[idx[i]] == NEWLINE)
    && (forall i, j :: 0 <= i < j < |idx| ==> idx[i] < idx[j])
    && (forall p: nat :: p < |s| && s[p] == NEWLINE ==> p in idx)
  }

  method NewLineIndex(s: Text) returns (idx: seq<nat>)
    ensures IsLineIndex(s, idx)
  {
    idx := [];
    for i := 0 to |s|
      invariant forall k :: 0 <= k < |idx| ==> idx[k] < i && s[idx[k]] == NEWLINE
      invariant forall j, k :: 0 <= j < k < |idx| ==> idx[j] < idx[k]
      invariant forall p: nat :: p < i && s[p] == NEWLINE ==> p in idx
    {
      if s[i] == NEWLINE { idx := idx + [i]; }
    }
  }

  /** sort.SearchInts. */
  function SearchInts(idx: seq<nat>, p: nat): (i: nat)
    ensures i <= |idx|
  {
    Search(|idx|, (k: nat) => AtOrPast(idx, p, k))
  }

  predicate AtOrPast(idx: seq<nat>, p: nat, k: nat) { k < |idx| && idx[k] >= p }

  lemma SearchSplits(s: Text, idx: seq<nat>, p: nat)
    requires IsLineIndex(s, idx)
    ensures forall k :: 0 <= k < SearchInts(idx, p) ==> idx[k] < p
    ensures forall k :: SearchInts(idx, p) <= k < |idx| ==> idx[k] >= p
  {
    var f := (k: nat) => AtOrPast(idx, p, k);
    AscendingIsMonotone(s, idx, p);
    var i := Search(|idx|, f);
    forall k: nat | k < i ensures idx[k] < p { assert !f(k); }
    forall k: nat | i <= k < |idx| ensures idx[k] >= p { assert f(i) && idx[i] <= idx[k]; }
  }

  lemma AscendingIsMonotone(s: Text, idx: seq<nat>, p: nat)
    requires IsLineIndex(s, idx)
    ensures Monotone(|idx|, (k: nat) => AtOrPast(idx, p, k))
  {
    forall j: nat, k: nat | j <= k < |idx| && AtOrPast(idx, p, j) ensures AtOrPast(idx, p, k) {
      if j < k { assert idx[j] < idx[k]; }
    }
  }

  function StartFromIndex(idx: seq<nat>, p: nat): nat {
    var i := SearchInts(idx, p);
    if i > 0 then idx[i - 1] + 1 else 0
  }

  function EndFromIndex(s: Text, idx: seq<nat>, p: nat): nat {
    var j := SearchInts(idx, p);
    if j < |idx| then idx[j] else |s|
  }

  lemma LineStartUnique(s: Text, p: nat, start: nat)
    requires start <= p <= |s| && (start > 0 ==> s[start - 1] == NEWLINE) && forall k :: start <= k < p ==> s[k] != NEWLINE
    ensures LineStart(s, p) == start
  {
  }

  lemma LineEndUnique(s: Text, p: nat, end: nat)
    requires p <= end <= |s| && (end < |s| ==> s[end] == NEWLINE) && forall k :: p <= k < end ==> s[k] != NEWLINE
    ensures LineEnd(s, p) == end
  {
  }

  /** No line break lies between a position and its neighbours in the index. */
  lemma NewlineSides(s: Text, idx: seq<nat>, p: nat, k: nat)
    requires IsLineIndex(s, idx) && k < |s| && s[k] == NEWLINE
    ensures k < p ==> SearchInts(idx, p) > 0 && k <= idx[SearchInts(idx, p) - 1]
    ensures k >= p ==> SearchInts(idx, p) < |idx| && idx[SearchInts(idx, p)] <= k
  {
    SearchSplits(s, idx, p);
    var j :| 0 <= j < |idx| && idx[j] == k;
  }

  /** The binary search over the newline offsets finds what the scan back would. */
  lemma IndexFindsStart(s: Text, idx: seq<nat>, p: nat)
    requires IsLineIndex(s, idx) && p <= |s|
    ensures StartFromIndex(idx, p) == LineStart(s, p)
  {
    SearchSplits(s, idx, p);
    var start := StartFromIndex(idx, p);
    forall k: nat | start <= k < p ensures s[k] != NEWLINE {
      if s[k] == NEWLINE { NewlineSides(s, idx, p, k); }
    }
    LineStartUnique(s, p, start);
  }

  /** And what the scan on would. */
  lemma IndexFindsEnd(s: Text, idx: seq<nat>, p: nat)
    requires IsLineIndex(s, idx) && p <= |s|
    ensures EndFromIndex(s, idx, p) == LineEnd(s, p)
  {
    SearchSplits(s, idx, p);
    var end := EndFromIndex(s, idx, p);
    forall k: nat | p <= k < end ensures s[k] != NEWLINE {
      if s[k] == NEWLINE { NewlineSides(s, idx, p, k); }
    }
    LineEndUnique(s, p, end);
  }

  method ClippedStart(s: Text, lo: nat, p: nat) returns (start: nat)
    requires lo <= p <= |s|
    ensures start == ClipStart(s, lo, p)
  {
    start := lo;
    while start < p && !RuneStart(s[start])
      invariant lo <= start <= p && ClipStart(s, start, p) == ClipStart(s, lo, p)
    {
      start := start + 1;
    }
  }

  method ClippedEnd(s: Text, p: nat, hi: nat) returns (end: nat)
    requires p <= hi < |s|
    ensures end == ClipEnd(s, p, hi)
  {
    end := hi;
    while end > p && !RuneStart(s[end])
      invariant p <= end <= hi && ClipEnd(s, p, end) == ClipEnd(s, p, hi)
    {
      end := end - 1;
    }
  }

  method ContextStart(s: Text, idx: seq<nat>, at: Span) returns (start: nat)
    requires IsLineIndex(s, idx) && at.start <= at.end <= |s|
    ensures start == Context(s, at).start
  {
    IndexFindsStart(s, idx, at.start);
    start := 0;
    var i := SearchInts(idx, at.start);
    if i > 0 { start := idx[i - 1] + 1; }
    if at.start - start > CONTEXT_WINDOW { start := ClippedStart(s, at.start - CONTEXT_WINDOW, at.start); }
  }

  method ContextEnd(s: Text, idx: seq<nat>, at: Span) returns (end: nat)
    requires IsLineIndex(s, idx) && at.start <= at.end <= |s|
    ensures end == Context(s, at).end
  {
    IndexFindsEnd(s, idx, at.end);
    end := |s|;
    var j := SearchInts(idx, at.end);
    if j < |idx| { end := idx[j]; }
    if end - at.end > CONTEXT_WINDOW { end := ClippedEnd(s, at.end, at.end + CONTEXT_WINDOW); }
  }

  method Around(s: Text, idx: seq<nat>, at: Span) returns (context: Text)
    requires IsLineIndex(s, idx) && at.start <= at.end <= |s|
    ensures Context(s, at).start <= Context(s, at).end <= |s| && context == s[Context(s, at).start..Context(s, at).end]
  {
    ContextMeaning(s, at);
    var start := ContextStart(s, idx, at);
    var end := ContextEnd(s, idx, at);
    return s[start..end];
  }

  // ----- Collecting -----

  datatype LinkKind = Verify | Reset | Magic | Other

  datatype RawLink = RawLink(url: Text, anchor: Text)

  datatype Link = Link(url: Text, kind: LinkKind, actionable: bool)

  /** The word lists and the URL parser behind classify and actionable. */
  datatype Judge = Judge(kind: (Text, Text) -> LinkKind, actionable: Text -> bool)

  function KindOf(judge: Judge, raw: RawLink): LinkKind { judge.kind(raw.url, raw.anchor) }

  function IndexOf(links: seq<Link>, url: Text): (at: Option<nat>)
    ensures at.Some? ==> at.value < |links| && links[at.value].url == url
    ensures at.None? ==> forall i :: 0 <= i < |links| ==> links[i].url != url
  {
    if links == [] then None
    else if links[|links| - 1].url == url then Some(|links| - 1)
    else IndexOf(links[..|links| - 1], url)
  }

  function Absorb(judge: Judge, links: seq<Link>, raw: RawLink): seq<Link> {
    if raw.url == [] then links
    else
      var at := IndexOf(links, raw.url);
      if at.None? then links + [Link(raw.url, KindOf(judge, raw), judge.actionable(raw.url))]
      else if links[at.value].kind.Other? then links[at.value := links[at.value].(kind := KindOf(judge, raw))]
      else links
  }

  function Collected(judge: Judge, raws: seq<RawLink>): seq<Link> {
    if raws == [] then [] else Absorb(judge, Collected(judge, raws[..|raws| - 1]), raws[|raws| - 1])
  }

  /** The first kind other than Other that an occurrence of the URL has. */
  function TellingKind(judge: Judge, raws: seq<RawLink>, url: Text): LinkKind {
    if raws == [] then Other
    else
      var before := TellingKind(judge, raws[..|raws| - 1], url);
      if before.Other? && raws[|raws| - 1].url == url then KindOf(judge, raws[|raws| - 1]) else before
  }

  /** An occurrence of the URL that says what it is for. */
  predicate Telling(judge: Judge, raws: seq<RawLink>, url: Text, i: nat) {
    i < |raws| && raws[i].url == url && !judge.kind(url, raws[i].anchor).Other?
  }

  /** A URL's kind is that of its first occurrence that tells, and Other when none does. */
  lemma {:induction false} TellingKindMeaning(judge: Judge, raws: seq<RawLink>, url: Text)
    ensures TellingKind(judge, raws, url).Other? <==> forall i: nat :: !Telling(judge, raws, url, i)
    ensures forall i: nat :: Telling(judge, raws, url, i) && (forall k: nat :: k < i ==> !Telling(judge, raws, url, k)) ==>
              TellingKind(judge, raws, url) == judge.kind(url, raws[i].anchor)
  {
    if raws != [] {
      var front := raws[..|raws| - 1];
      TellingKindMeaning(judge, front, url);
      forall i: nat | i < |front| ensures Telling(judge, front, url, i) <==> Telling(judge, raws, url, i) {}
      if TellingKind(judge, front, url).Other? {
        assert Telling(judge, raws, url, |front|) <==> !TellingKind(judge, raws, url).Other?;
        forall i: nat ensures Telling(judge, raws, url, i) ==> i == |front| {
          if i < |front| { assert !Telling(judge, front, url, i); }
        }
      } else {
        var i: nat :| Telling(judge, front, url, i);
        assert Telling(judge, raws, url, i);
      }
    }
  }

  function FirstAt(raws: seq<RawLink>, url: Text): (i: nat)
    ensures i <= |raws| && (i < |raws| ==> raws[i].url == url) && forall k :: 0 <= k < i ==> raws[k].url != url
  {
    if raws == [] || raws[0].url == url then 0 else 1 + FirstAt(raws[1..], url)
  }

  ghost predicate HasUrl(links: seq<Link>, url: Text) { exists k :: 0 <= k < |links| && links[k].url == url }

  ghost predicate SameUrlSet(raws: seq<RawLink>, links: seq<Link>) {
    && (forall k :: 0 <= k < |links| ==> links[k].url != [] && FirstAt(raws, links[k].url) < |raws|)
    && (forall i :: 0 <= i < |raws| && raws[i].url != [] ==> HasUrl(links, raws[i].url))
  }

  ghost predicate FirstSeenOrder(raws: seq<RawLink>, links: seq<Link>) {
    forall j, k :: 0 <= j < k < |links| ==> FirstAt(raws, links[j].url) < FirstAt(raws, links[k].url)
  }

  ghost predicate Judged(judge: Judge, raws: seq<RawLink>, links: seq<Link>) {
    forall k :: 0 <= k < |links| ==>
      links[k].kind == TellingKind(judge, raws, links[k].url) && links[k].actionable == judge.actionable(links[k].url)
  }

  ghost predicate EachOnce(judge: Judge, raws: seq<RawLink>, links: seq<Link>) {
    SameUrlSet(raws, links) && FirstSeenOrder(raws, links) && Judged(judge, raws, links)
  }

  lemma {:induction false} FirstAtSnoc(raws: seq<RawLink>, raw: RawLink, url: Text)
    ensures FirstAt(raws + [raw], url) == if FirstAt(raws, url) < |raws| || raw.url == url then FirstAt(raws, url) else |raws| + 1
  {
    if raws != [] && raws[0].url != url {
      assert (raws + [raw])[1..] == raws[1..] + [raw];
      FirstAtSnoc(raws[1..], raw, url);
    }
  }

  lemma TellingSnoc(judge: Judge, raws: seq<RawLink>, raw: RawLink, url: Text)
    ensures TellingKind(judge, raws + [raw], url)
            == if TellingKind(judge, raws, url).Other? && raw.url == url then KindOf(judge, raw) else TellingKind(judge, raws, url)
  {
    assert (raws + [raw])[..|raws|] == raws;
  }

  /** Absorbing changes no URL and drops none; a new one comes last. */
  lemma AbsorbShape(judge: Judge, links: seq<Link>, raw: RawLink)
    ensures var next := Absorb(judge, links, raw);
            && (forall k :: 0 <= k < |links| ==> k < |next| && next[k].url == links[k].url)
            && |next| == (if raw.url != [] && IndexOf(links, raw.url).None? then |links| + 1 else |links|)
            && (|next| > |links| ==> next[|links|].url == raw.url)
            && (raw.url != [] ==> HasUrl(next, raw.url))
  {
    var next := Absorb(judge, links, raw);
    if raw.url != [] {
      var at := IndexOf(links, raw.url);
      assert next[if at.Some? then at.value else |links|].url == raw.url;
    }
  }

  lemma UrlsKept(links: seq<Link>, next: seq<Link>, url: Text)
    requires HasUrl(links, url) && forall k :: 0 <= k < |links| ==> k < |next| && next[k].url == links[k].url
    ensures HasUrl(next, url)
  {
    var k :| 0 <= k < |links| && links[k].url == url;
    assert next[k].url == url;
  }

  lemma AbsorbKeepsUrls(judge: Judge, raws: seq<RawLink>, raw: RawLink, links: seq<Link>)
    requires SameUrlSet(raws, links)
    ensures SameUrlSet(raws + [raw], Absorb(judge, links, raw))
  {
    var all, next := raws + [raw], Absorb(judge, links, raw);
    AbsorbShape(judge, links, raw);
    forall k | 0 <= k < |next| ensures next[k].url != [] && FirstAt(all, next[k].url) < |all| {
      FirstAtSnoc(raws, raw, next[k].url);
    }
    forall i | 0 <= i < |all| && all[i].url != [] ensures HasUrl(next, all[i].url) {
      if i < |raws| { UrlsKept(links, next, raws[i].url); }
    }
  }

  lemma AbsorbKeepsOrder(judge: Judge, raws: seq<RawLink>, raw: RawLink, links: seq<Link>)
    requires SameUrlSet(raws, links) && FirstSeenOrder(raws, links)
    ensures FirstSeenOrder(raws + [raw], Absorb(judge, links, raw))
  {
    var all, next := raws + [raw], Absorb(judge, links, raw);
    AbsorbShape(judge, links, raw);
    forall j, k | 0 <= j < k < |next| ensures FirstAt(all, next[j].url) < FirstAt(all, next[k].url) {
      FirstAtSnoc(raws, raw, next[j].url);
      FirstAtSnoc(raws, raw, next[k].url);
      if k == |links| { NewUrl(judge, raws, raw, links); }
    }
  }

  lemma AbsorbKeepsJudged(judge: Judge, raws: seq<RawLink>, raw: RawLink, links: seq<Link>)
    requires SameUrlSet(raws, links) && FirstSeenOrder(raws, links) && Judged(judge, raws, links)
    ensures Judged(judge, raws + [raw], Absorb(judge, links, raw))
  {
    var all, next := raws + [raw], Absorb(judge, links, raw);
    AbsorbShape(judge, links, raw);
    forall k | 0 <= k < |next|
      ensures next[k].kind == TellingKind(judge, all, next[k].url) && next[k].actionable == judge.actionable(next[k].url)
    {
      TellingSnoc(judge, raws, raw, next[k].url);
      if k == |links| {
        NewUrl(judge, raws, raw, links);
      } else if raw.url == links[k].url {
        OneIndex(raws, links, k);
      }
    }
  }

  /** URLs are listed once, so a lookup finds the entry it is asked from. */
  lemma OneIndex(raws: seq<RawLink>, links: seq<Link>, k: nat)
    requires FirstSeenOrder(raws, links) && k < |links|
    ensures IndexOf(links, links[k].url) == Some(k)
  {
    var at := IndexOf(links, links[k].url);
    assert at.Some?;
    var _, _ := FirstAt(raws, links[at.value].url), FirstAt(raws, links[k].url);
  }

  /** A URL the list lacks has not occurred before. */
  lemma NewUrl(judge: Judge, raws: seq<RawLink>, raw: RawLink, links: seq<Link>)
    requires SameUrlSet(raws, links) && raw.url != [] && IndexOf(links, raw.url).None?
    ensures FirstAt(raws, raw.url) == |raws| && TellingKind(judge, raws, raw.url).Other?
  {
    forall i | 0 <= i < |raws| ensures raws[i].url != raw.url {
      if raws[i].url != [] {
        var k :| 0 <= k < |links| && links[k].url == raws[i].url;
      }
    }
    NeverTelling(judge, raws, raw.url);
  }

  lemma {:induction false} NeverTelling(judge: Judge, raws: seq<RawLink>, url: Text)
    requires forall i :: 0 <= i < |raws| ==> raws[i].url != url
    ensures TellingKind(judge, raws, url).Other?
  {
    if raws != [] { NeverTelling(judge, raws[..|raws| - 1], url); }
  }

  /** Every URL is listed once, in order of first appearance, with the first telling kind
      any of its occurrences has. */
  lemma {:induction false} CollectedMeaning(judge: Judge, raws: seq<RawLink>)
    ensures EachOnce(judge, raws, Collected(judge, raws))
  {
    if raws != [] {
      var n := |raws| - 1;
      var front := Collected(judge, raws[..n]);
      CollectedMeaning(judge, raws[..n]);
      AbsorbKeepsUrls(judge, raws[..n], raws[n], front);
      AbsorbKeepsOrder(judge, raws[..n], raws[n], front);
      AbsorbKeepsJudged(judge, raws[..n], raws[n], front);
      assert raws == raws[..n] + [raws[n]];
    }
  }

  /** The index map always says where a URL is. */
  ghost predicate Indexes(index: map<Text, nat>, links: seq<Link>) {
    forall url :: if IndexOf(links, url).Some? then url in index && index[url] == IndexOf(links, url).value else url !in index
  }

  method Add(judge: Judge, raw: RawLink, links: seq<Link>, index: map<Text, nat>) returns (next: seq<Link>, nextIndex: map<Text, nat>)
    requires Indexes(index, links)
    ensures next == Absorb(judge, links, raw) && Indexes(nextIndex, next)
  {
    next, nextIndex := links, index;
    if raw.url == [] { return; }
    var kind := KindOf(judge, raw);
    assert IndexOf(links, raw.url).Some? <==> raw.url in index;
    if raw.url in index {
      var at := index[raw.url];
      if links[at].kind.Other? && !kind.Other? {
        next := links[at := links[at].(kind := kind)];
      }
      SameUrls(links, Absorb(judge, links, raw));
      assert next == Absorb(judge, links, raw);
      return;
    }
    nextIndex := index[raw.url := |links|];
    next := links + [Link(raw.url, kind, judge.actionable(raw.url))];
    assert next[..|links|] == links;
  }

  lemma {:induction false} SameUrls(a: seq<Link>, b: seq<Link>)
    requires |a| == |b| && forall k :: 0 <= k < |a| ==> a[k].url == b[k].url
    ensures forall url :: IndexOf(a, url) == IndexOf(b, url)
  {
    if a != [] { SameUrls(a[..|a| - 1], b[..|b| - 1]); }
  }

  ghost predicate InContext(plain: Text, urls: seq<Links.PlainURL>, raws: seq<RawLink>) {
    && |raws| == |urls|
    && (forall i :: 0 <= i < |urls| ==>
          && urls[i].at.start <= urls[i].at.end <= |plain|
          && raws[i].url == urls[i].url
          && var c := Context(plain, urls[i].at);
             c.start <= c.end <= |plain| && raws[i].anchor == plain[c.start..c.end])
  }

  method AddHrefs(judge: Judge, hrefs: seq<RawLink>) returns (links: seq<Link>, index: map<Text, nat>)
    ensures links == Collected(judge, hrefs) && Indexes(index, links)
  {
    links, index := [], map[];
    for i := 0 to |hrefs|
      invariant links == Collected(judge, hrefs[..i]) && Indexes(index, links)
    {
      assert hrefs[..i + 1][..i] == hrefs[..i];
      links, index := Add(judge, hrefs[i], links, index);
    }
    assert hrefs[..|hrefs|] == hrefs;
  }

  /** The hrefs first, in document order, then exactly the URLs spelled out in the text, in
      order, each with the line around it for an anchor. */
  ghost predicate CollectionOf(judge: Judge, u: Decoder, hrefs: seq<RawLink>, plain: Text, urls: seq<Links.PlainURL>,
                               spelled: seq<RawLink>, links: seq<Link>) {
    && Links.Spelled(plain, urls) && Links.Disjoint(urls) && (forall p :: p in urls <==> Links.IsPlainURL(u, plain, p))
    && InContext(plain, urls, spelled) && links == Collected(judge, hrefs + spelled)
  }

  method CollectLinks(judge: Judge, u: Decoder, hrefs: seq<RawLink>, plain: Text) returns (links: seq<Link>)
    requires u.Valid()
    ensures exists urls, spelled :: CollectionOf(judge, u, hrefs, plain, urls, spelled, links)
  {
    var index: map<Text, nat>;
    links, index := AddHrefs(judge, hrefs);
    var found := Links.FindPlainURLs(u, plain);
    var lines := NewLineIndex(plain);
    ghost var spelled: seq<RawLink> := [];
    assert hrefs + [] == hrefs;
    for i := 0 to |found|
      invariant links == Collected(judge, hrefs + spelled) && Indexes(index, links)
      invariant InContext(plain, found[..i], spelled)
    {
      var context := Around(plain, lines, found[i].at);
      var raw := RawLink(found[i].url, context);
      CollectedSnoc(judge, hrefs, spelled, raw);
      links, index := Add(judge, raw, links, index);
      InContextSnoc(plain, found, i, spelled, raw);
      spelled := spelled + [raw];
    }
    assert found[..|found|] == found;
    assert CollectionOf(judge, u, hrefs, plain, found, spelled, links);
  }

  lemma CollectedSnoc(judge: Judge, hrefs: seq<RawLink>, spelled: seq<RawLink>, raw: RawLink)
    ensures Collected(judge, hrefs + (spelled + [raw])) == Absorb(judge, Collected(judge, hrefs + spelled), raw)
  {
    var all := hrefs + (spelled + [raw]);
    assert all[..|all| - 1] == hrefs + spelled;
  }

  lemma InContextSnoc(plain: Text, found: seq<Links.PlainURL>, i: nat, spelled: seq<RawLink>, raw: RawLink)
    requires i < |found| && InContext(plain, found[..i], spelled) && InContext(plain, [found[i]], [raw])
    ensures InContext(plain, found[..i + 1], spelled + [raw])
  {
    assert [found[i]][0] == found[i] && [raw][0] == raw;
    assert found[..i + 1] == found[..i] + [found[i]];
  }

  // ----- The link worth opening -----

  predicate Openable(l: Link, kind: LinkKind) { l.actionable && l.kind == kind }

  ghost predicate FirstOpenable(links: seq<Link>, kind: LinkKind, url: Text) {
    exists i :: 0 <= i < |links| && Openable(links[i], kind) && links[i].url == url && forall k :: 0 <= k < i ==> !Openable(links[k], kind)
  }

  ghost predicate NoneOpenable(links: seq<Link>, kind: LinkKind) { forall i :: 0 <= i < |links| ==> !Openable(links[i], kind) }

  /** The first verify link, or else the first magic link, or else nothing; never a reset. */
  method VerifyLinkBest(links: seq<Link>) returns (best: Text)
    requires forall i :: 0 <= i < |links| ==> links[i].url != []
    ensures !NoneOpenable(links, Verify) ==> FirstOpenable(links, Verify, best)
    ensures NoneOpenable(links, Verify) && !NoneOpenable(links, Magic) ==> FirstOpenable(links, Magic, best)
    ensures best == [] <==> NoneOpenable(links, Verify) && NoneOpenable(links, Magic)
  {
    var kinds := [Verify, Magic];
    for k := 0 to 2
      invariant kinds == [Verify, Magic]
      invariant forall j :: 0 <= j < k ==> NoneOpenable(links, kinds[j])
    {
      for i := 0 to |links|
        invariant forall j :: 0 <= j < i ==> !Openable(links[j], kinds[k])
      {
        if links[i].actionable && links[i].kind == kinds[k] {
          assert FirstOpenable(links, kinds[k], links[i].url);
          assert Openable(links[i], kinds[k]);
          if k == 1 { assert NoneOpenable(links, kinds[0]); }
          return links[i].url;
        }
      }
    }
    assert NoneOpenable(links, kinds[0]) && NoneOpenable(links, kinds[1]);
    return [];
  }

  /** No link may be opened exactly when no followable URL of the message has verify or
      magic for its first telling kind. */
  lemma NoLinkMeaning(judge: Judge, raws: seq<RawLink>, links: seq<Link>)
    requires EachOnce(judge, raws, links)
    ensures NoneOpenable(links, Verify) && NoneOpenable(links, Magic)
            <==> forall i :: 0 <= i < |raws| && raws[i].url != [] ==> !WorthOpening(judge, raws, raws[i].url)
  {
    if NoneOpenable(links, Verify) && NoneOpenable(links, Magic) {
      forall i | 0 <= i < |raws| && raws[i].url != [] ensures !WorthOpening(judge, raws, raws[i].url) {
        var k :| 0 <= k < |links| && links[k].url == raws[i].url;
        assert !Openable(links[k], Verify) && !Openable(links[k], Magic);
      }
    } else {
      var kind := if NoneOpenable(links, Verify) then Magic else Verify;
      var k :| 0 <= k < |links| && Openable(links[k], kind);
      OpenableIsWorth(judge, raws, links, k, kind);
    }
  }

  lemma OpenableIsWorth(judge: Judge, raws: seq<RawLink>, links: seq<Link>, k: nat, kind: LinkKind)
    requires EachOnce(judge, raws, links) && k < |links| && Openable(links[k], kind) && (kind.Verify? || kind.Magic?)
    ensures exists i :: 0 <= i < |raws| && raws[i].url != [] && WorthOpening(judge, raws, raws[i].url)
  {
    var url := links[k].url;
    assert links[k].kind == TellingKind(judge, raws, url) && links[k].actionable == judge.actionable(url);
    assert raws[FirstAt(raws, url)].url == url;
  }

  predicate WorthOpening(judge: Judge, raws: seq<RawLink>, url: Text) {
    judge.actionable(url) && (TellingKind(judge, raws, url).Verify? || TellingKind(judge, raws, url).Magic?)
  }
}
