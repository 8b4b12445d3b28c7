/** The URL scanners of internal/extract/links.go: the tail trim with running bracket
    tallies, the "://" scanner, the "www." scanner, and the list both callers share. */
module Links {
  import opened Base
  import opened Runes
  import opened Spans

  // ----- Trimming the end of a URL -----

  /** One of . , ; : ! ? */
  predicate IsPunctuation(b: byte) { b in {46, 44, 59, 58, 33, 63} }

  /** The bracket kinds, in tally order: ( ) then [ ] then { }. */
  function Kind(b: byte): int {
    if b == 40 || b == 41 then 0 else if b == 91 || b == 93 then 1 else if b == 123 || b == 125 then 2 else -1
  }

  function Opener(kind: nat): byte { if kind == 0 then 40 else if kind == 1 then 91 else 123 }

  function Closer(kind: nat): byte { if kind == 0 then 41 else if kind == 1 then 93 else 125 }

  predicate IsCloser(b: byte) { b in {41, 93, 125} }

  function Count(raw: Text, b: byte): nat {
    if raw == [] then 0
    else Count(raw[..|raw| - 1], b) + if raw[|raw| - 1] == b then 1 else 0
  }

  /** The last byte ends the sentence rather than the URL. Brackets are counted afresh. */
  predicate Droppable(raw: Text) {
    raw != [] &&
    var last := raw[|raw| - 1];
    IsPunctuation(last)
    || (IsCloser(last) && Count(raw, Opener(Kind(last))) < Count(raw, last))
  }

  /** The simple trim, which recounts the brackets after every dropped character. */
  function TrimRecounting(raw: Text): Text {
    if Droppable(raw) then TrimRecounting(raw[..|raw| - 1]) else raw
  }

  /** The result is the longest prefix whose last byte may not be dropped; every longer
      prefix ends in a droppable byte, and trimming again changes nothing. */
  lemma {:induction false} TrimMeaning(raw: Text)
    ensures TrimRecounting(raw) <= raw
    ensures !Droppable(TrimRecounting(raw))
    ensures forall k :: |TrimRecounting(raw)| < k <= |raw| ==> Droppable(raw[..k])
    ensures TrimRecounting(TrimRecounting(raw)) == TrimRecounting(raw)
  {
    assert raw[..|raw|] == raw;
    if Droppable(raw) {
      var front := raw[..|raw| - 1];
      TrimMeaning(front);
      assert forall k :: 0 <= k < |raw| ==> front[..k] == raw[..k];
    }
  }

  /** A byte that is neither punctuation nor a closing bracket stops the trim. */
  lemma {:induction false} TrimKeeps(raw: Text, k: nat)
    requires 0 < k <= |raw| && !IsPunctuation(raw[k - 1]) && !IsCloser(raw[k - 1])
    ensures |TrimRecounting(raw)| >= k
  {
    if Droppable(raw) { TrimKeeps(raw[..|raw| - 1], k); }
  }

  lemma {:induction false} CountMeaning(raw: Text, b: byte)
    ensures Count(raw, b) == multiset(raw)[b]
  {
    if raw != [] {
      CountMeaning(raw[..|raw| - 1], b);
      assert raw == raw[..|raw| - 1] + [raw[|raw| - 1]];
    }
  }

  predicate EndsIn(raw: Text, c: char) { raw != [] && raw[|raw| - 1] as char == c }

  function Brackets(raw: Text, c: char): nat
    requires c as int < 128
  {
    multiset(raw)[c as int as byte]
  }

  /** A URL keeps its last byte exactly when that is no sentence mark and, if it is a closing
      bracket, the URL holds at least as many openers of its kind. What is not kept comes off,
      and the rest is trimmed the same way. */
  lemma TrimEnds(raw: Text)
    ensures TrimRecounting(raw) == raw <==>
            && !(exists c :: c in ".,;:!?" && EndsIn(raw, c))
            && (EndsIn(raw, ')') ==> Brackets(raw, '(') >= Brackets(raw, ')'))
            && (EndsIn(raw, ']') ==> Brackets(raw, '[') >= Brackets(raw, ']'))
            && (EndsIn(raw, '}') ==> Brackets(raw, '{') >= Brackets(raw, '}'))
    ensures TrimRecounting(raw) != raw ==> TrimRecounting(raw) == TrimRecounting(raw[..|raw| - 1])
  {
    forall b: byte ensures Count(raw, b) == multiset(raw)[b] { CountMeaning(raw, b); }
    TrimStops(raw);
    if raw != [] { MarksAreChars(raw[|raw| - 1]); }
  }

  lemma TrimStops(raw: Text)
    ensures TrimRecounting(raw) == raw <==> !Droppable(raw)
  {
    if Droppable(raw) { TrimMeaning(raw[..|raw| - 1]); }
  }

  lemma MarksAreChars(b: byte)
    ensures IsPunctuation(b) <==> b as char in ".,;:!?"
    ensures IsCloser(b) <==> b as char in ")]}"
    ensures b as char == ')' ==> Kind(b) == 0 && b == 41
    ensures b as char == ']' ==> Kind(b) == 1 && b == 93
    ensures b as char == '}' ==> Kind(b) == 2 && b == 125
  {
  }

  /** One pass of counting, then tallies kept up to date while characters come off. */
  method TrimURLTail(raw: Text) returns (r: Text)
    ensures r == TrimRecounting(raw)
  {
    var openers, closers := [0, 0, 0], [0, 0, 0];
    for i := 0 to |raw|
      invariant |openers| == |closers| == 3
      invariant forall k :: 0 <= k < 3 ==> openers[k] == Count(raw[..i], Opener(k)) && closers[k] == Count(raw[..i], Closer(k))
    {
      assert raw[..i + 1][..i] == raw[..i];
      var kind := Kind(raw[i]);
      if kind >= 0 {
        if IsCloser(raw[i]) {
          closers := closers[kind := closers[kind] + 1];
        } else {
          openers := openers[kind := openers[kind] + 1];
        }
      }
    }
    r := raw;
    assert raw[..|raw|] == raw;
    while r != []
      invariant |openers| == |closers| == 3
      invariant forall k :: 0 <= k < 3 ==> openers[k] == Count(r, Opener(k)) && closers[k] == Count(r, Closer(k))
      invariant TrimRecounting(r) == TrimRecounting(raw)
    {
      var last := r[|r| - 1];
      if IsPunctuation(last) {
        r := r[..|r| - 1];
        continue;
      }
      if !IsCloser(last) { return; }
      var bracket := Kind(last);
      if openers[bracket] >= closers[bracket] { return; }
      closers := closers[bracket := closers[bracket] - 1];
      r := r[..|r| - 1];
    }
  }

  // ----- Tokens -----

  predicate IsTerminator(b: byte) {
    b in {32, 9, 13, 10, 11, 12, 60, 62, 34, 39, 96} || b < 32 || b == 127
  }

  predicate IsSchemeByte(b: byte) {
    97 <= b <= 122 || 65 <= b <= 90 || 48 <= b <= 57 || b in {43, 45, 46}
  }

  /** What ends a URL in running text, and what its scheme is spelled with (section 3.1 of
      RFC 3986). */
  lemma ByteClasses(b: byte)
    ensures IsTerminator(b) <==> b <= 32 || b == 127 || b as char in "<>\"'`"
    ensures IsSchemeByte(b) <==>
            'a' <= b as char <= 'z' || 'A' <= b as char <= 'Z' || '0' <= b as char <= '9' || b as char in "+-."
  {
  }

  ghost predicate NoTerminator(s: Text, lo: nat, hi: nat) {
    forall k :: lo <= k < hi <= |s| ==> !IsTerminator(s[k])
  }

  ghost predicate IsTokenEnd(s: Text, from: nat, end: nat) {
    from <= end <= |s| && NoTerminator(s, from, end) && (end < |s| ==> IsTerminator(s[end]))
  }

  function TokenEnd(s: Text, from: nat): (end: nat)
    requires from <= |s|
    ensures IsTokenEnd(s, from, end)
    decreases |s| - from
  {
    if from < |s| && !IsTerminator(s[from]) then TokenEnd(s, from + 1) else from
  }

  method WalkForward(s: Text, from: nat) returns (end: nat)
    requires from <= |s|
    ensures end == TokenEnd(s, from)
  {
    end := from;
    while end < |s| && !IsTerminator(s[end])
      invariant from <= end <= |s| && TokenEnd(s, end) == TokenEnd(s, from)
    {
      end := end + 1;
    }
  }

  datatype PlainURL = PlainURL(url: Text, at: Span)

  function At(urls: seq<PlainURL>): seq<Span> { seq(|urls|, i requires 0 <= i < |urls| => urls[i].at) }

  /** Every URL is the text at its span, and no span is empty. */
  ghost predicate Spelled(s: Text, urls: seq<PlainURL>) {
    forall i :: 0 <= i < |urls| ==>
      urls[i].at.start < urls[i].at.end <= |s| && urls[i].url == s[urls[i].at.start..urls[i].at.end]
  }

  ghost predicate Disjoint(urls: seq<PlainURL>) {
    forall i, j :: 0 <= i < j < |urls| ==> urls[i].at.end <= urls[j].at.start
  }

  /** The URLs reported so far, all of them before `from`. */
  ghost predicate Listed(s: Text, urls: seq<PlainURL>, from: nat) {
    Spelled(s, urls) && Disjoint(urls) && forall i :: 0 <= i < |urls| ==> urls[i].at.end <= from
  }

  lemma ListedMore(s: Text, urls: seq<PlainURL>, from: nat, p: PlainURL, end: nat)
    requires Listed(s, urls, from) && from <= p.at.start < p.at.end <= end <= |s|
    requires p.url == s[p.at.start..p.at.end]
    ensures Listed(s, urls + [p], end)
  {
  }

  // ----- URLs with a scheme -----

  const MARK: Text := [58, 47, 47]

  predicate MarkAt(s: Text, m: nat) { OccursAt(s, MARK, m) }

  /** The first "://" of its token. */
  ghost predicate FirstMark(s: Text, m: nat) {
    MarkAt(s, m) && forall k: nat :: k < m && MarkAt(s, k) ==> !NoTerminator(s, k, m)
  }

  /** Where the run of scheme bytes ending at m begins. */
  function SchemeStart(s: Text, m: nat): (start: nat)
    requires m <= |s|
    ensures start <= m && forall k :: start <= k < m ==> IsSchemeByte(s[k])
    ensures start > 0 ==> !IsSchemeByte(s[start - 1])
  {
    if m > 0 && IsSchemeByte(s[m - 1]) then SchemeStart(s, m - 1) else m
  }

  function SchemeURL(s: Text, m: nat): PlainURL
    requires MarkAt(s, m)
  {
    var start := SchemeStart(s, m);
    var raw := TrimRecounting(s[start..TokenEnd(s, m + 3)]);
    PlainURL(raw, Span(start, start + |raw|))
  }

  ghost predicate IsSchemeURL(s: Text, p: PlainURL) {
    exists m: nat :: SchemeURLFrom(s, m, p)
  }

  ghost predicate SchemeURLFrom(s: Text, m: nat, p: PlainURL) {
    FirstMark(s, m) && SchemeStart(s, m) < m && p == SchemeURL(s, m) && p.url != []
  }

  /** The trim never reaches the mark, so a URL with a scheme is never trimmed to nothing. */
  lemma SchemeURLKeepsMark(s: Text, m: nat)
    requires MarkAt(s, m)
    ensures SchemeURL(s, m).at.start + 3 <= m + 3 <= SchemeURL(s, m).at.end <= TokenEnd(s, m + 3)
    ensures SchemeURL(s, m).url == s[SchemeURL(s, m).at.start..SchemeURL(s, m).at.end]
  {
    var start, end := SchemeStart(s, m), TokenEnd(s, m + 3);
    var raw := s[start..end];
    assert raw[m + 2 - start] == s[m..m + 3][2];
    TrimKeeps(raw, m + 3 - start);
    TrimMeaning(raw);
    assert TrimRecounting(raw) == raw[..|TrimRecounting(raw)|];
  }

  /** What the trim drops: sentence marks and closing brackets. */
  lemma DroppedBytes(raw: Text, k: nat)
    requires |TrimRecounting(raw)| <= k < |raw|
    ensures raw[k] as char in ".,;:!?)]}"
  {
    TrimMeaning(raw);
    assert Droppable(raw[..k + 1]) && raw[..k + 1][k] == raw[k];
  }

  /** A URL at p hangs on the mark at m: its scheme is all there is of one in front of the mark,
      it runs on to the end of its token, and only its tail may be left off. */
  ghost predicate HangsOn(s: Text, p: PlainURL, m: nat, end: nat) {
    && p.at.start < m && m + 3 <= p.at.end <= end <= |s| && p.url == s[p.at.start..p.at.end]
    && s[m] as char == ':' && s[m + 1] as char == '/' && s[m + 2] as char == '/'
    && (forall k :: p.at.start <= k < m ==> IsSchemeByte(s[k])) && (p.at.start == 0 || !IsSchemeByte(s[p.at.start - 1]))
    && (forall k :: m <= k < end ==> !IsTerminator(s[k])) && (end == |s| || IsTerminator(s[end]))
    && (forall k :: p.at.end <= k < end ==> s[k] as char in ".,;:!?)]}")
  }

  lemma SchemeURLHangs(s: Text, m: nat, p: PlainURL)
    requires SchemeURLFrom(s, m, p)
    ensures HangsOn(s, p, m, TokenEnd(s, m + 3))
  {
    var start, end := SchemeStart(s, m), TokenEnd(s, m + 3);
    var raw := s[start..end];
    SchemeURLKeepsMark(s, m);
    MarkHasNoTerminator(s, m);
    assert s[m] == s[m..m + 3][0] && s[m + 1] == s[m..m + 3][1] && s[m + 2] == s[m..m + 3][2];
    forall k | p.at.end <= k < end ensures s[k] as char in ".,;:!?)]}" {
      DroppedBytes(raw, k - start);
      assert raw[k - start] == s[k];
    }
  }

  /** Every URL the scan reports for a mark has that shape. */
  lemma SchemeURLShape(s: Text, p: PlainURL)
    requires IsSchemeURL(s, p)
    ensures exists m: nat, end: nat :: HangsOn(s, p, m, end)
  {
    var m: nat :| SchemeURLFrom(s, m, p);
    SchemeURLHangs(s, m, p);
  }

  lemma MarkHasNoTerminator(s: Text, m: nat)
    requires MarkAt(s, m)
    ensures NoTerminator(s, m, m + 3)
  {
    assert s[m] == s[m..m + 3][0] && s[m + 1] == s[m..m + 3][1] && s[m + 2] == s[m..m + 3][2];
  }

  /** Scanning resumes at a token end, so the next mark found is the first of its token
      and its scheme starts behind everything already reported. */
  lemma NextMarkIsFirst(s: Text, from: nat, m: nat)
    requires from <= m && MarkAt(s, m)
    requires 0 < from < |s| ==> IsTerminator(s[from])
    requires forall k: nat :: from <= k && MarkAt(s, k) ==> m <= k
    ensures FirstMark(s, m)
    ensures from > 0 ==> from < SchemeStart(s, m)
    ensures forall k: nat :: from <= k < TokenEnd(s, m + 3) && FirstMark(s, k) ==> k == m
  {
    MarkHasNoTerminator(s, m);
    assert 0 < from ==> from < m;
    forall k: nat | m < k < TokenEnd(s, m + 3) && MarkAt(s, k) ensures !FirstMark(s, k) {
      assert NoTerminator(s, m, k);
    }
  }

  ghost predicate SchemeURLBefore(s: Text, limit: nat, p: PlainURL) {
    exists m: nat :: m < limit && SchemeURLFrom(s, m, p)
  }

  lemma SchemeStep(s: Text, from: nat, m: nat, p: PlainURL)
    requires from <= m && MarkAt(s, m)
    requires forall k: nat :: from <= k < TokenEnd(s, m + 3) && FirstMark(s, k) ==> k == m
    ensures SchemeURLBefore(s, TokenEnd(s, m + 3), p) <==> SchemeURLBefore(s, from, p) || SchemeURLFrom(s, m, p)
  {
    if SchemeURLBefore(s, from, p) {
      var k: nat :| k < from && SchemeURLFrom(s, k, p);
      assert k < TokenEnd(s, m + 3);
    }
  }

  /** Walks outwards from a mark to the ends of the URL it hangs on. */
  method Bounds(s: Text, mark: nat) returns (start: nat, end: nat)
    requires MarkAt(s, mark)
    ensures start == SchemeStart(s, mark) && end == TokenEnd(s, mark + 3)
  {
    start := mark;
    while start > 0 && IsSchemeByte(s[start - 1])
      invariant start <= mark && SchemeStart(s, start) == SchemeStart(s, mark)
    {
      start := start - 1;
    }
    end := WalkForward(s, mark + 3);
  }

  /** Reports exactly the URLs that hang on the first mark of a token, in order. */
  method FindSchemeURLs(s: Text) returns (out: seq<PlainURL>)
    ensures forall p :: p in out <==> IsSchemeURL(s, p)
    ensures Spelled(s, out) && Disjoint(out)
  {
    out := [];
    var from := 0;
    while true
      invariant from <= |s| && (0 < from < |s| ==> IsTerminator(s[from]))
      invariant forall p :: p in out <==> SchemeURLBefore(s, from, p)
      invariant Listed(s, out, from)
      decreases |s| - from
    {
      var found := IndexFrom(s, MARK, from);
      if found.None? {
        assert forall m: nat :: FirstMark(s, m) ==> m < from;
        break;
      }
      var mark := found.value;
      var start, end := Bounds(s, mark);
      NextMarkIsFirst(s, from, mark);
      SchemeURLKeepsMark(s, mark);
      forall p ensures SchemeURLBefore(s, end, p) <==> p in out || SchemeURLFrom(s, mark, p) {
        SchemeStep(s, from, mark, p);
      }
      ghost var resumed := from;
      from := end;
      if start == mark { continue; }
      var raw := TrimURLTail(s[start..end]);
      if raw == [] { continue; }
      var url := PlainURL(raw, Span(start, start + |raw|));
      assert url == SchemeURL(s, mark);
      ListedMore(s, out, resumed, url, end);
      out := out + [url];
    }
  }

  // ----- Hosts without a scheme -----

  function LowerASCII(b: byte): byte { if 65 <= b <= 90 then b + 32 else b }

  predicate WwwAt(s: Text, k: nat) {
    k + 4 <= |s| && s[k + 3] == 46
    && LowerASCII(s[k]) == 119 && LowerASCII(s[k + 1]) == 119 && LowerASCII(s[k + 2]) == 119
  }

  lemma WwwSpelled(s: Text, k: nat)
    ensures WwwAt(s, k) <==>
            k + 4 <= |s| && s[k] as char in "wW" && s[k + 1] as char in "wW" && s[k + 2] as char in "wW" && s[k + 3] as char == '.'
  {
  }

  /** The next "www." in any casing, or -1. */
  method IndexBareHostPrefix(s: Text, from: nat) returns (i: int)
    requires from <= |s|
    ensures i == -1 || (from <= i && WwwAt(s, i))
    ensures forall k: nat :: from <= k && WwwAt(s, k) ==> 0 <= i <= k
  {
    i := from;
    while i + 4 <= |s|
      invariant from <= i
      invariant forall k: nat :: from <= k < i ==> !WwwAt(s, k)
    {
      if WwwAt(s, i) { return; }
      i := i + 1;
    }
    return -1;
  }

  /** The prefix starts a word: no letter, digit, '.' or '@' in front of it. */
  predicate StartsToken(u: Decoder, s: Text, at: nat)
    requires at <= |s|
  {
    at == 0 || (!u.lastIsWord(s[..at]) && s[at - 1] != 46 && s[at - 1] != 64)
  }

  /** The host ends at the first of / ? # and needs a non-empty label before a dot. */
  predicate IsBareHost(raw: Text) {
    |raw| > 4 &&
    exists dot :: 5 <= dot < |raw| && raw[dot] == 46 && forall k :: 4 <= k < dot ==> raw[k] !in {46, 47, 63, 35}
  }

  /** No letter, digit, dot or at sign goes before. */
  lemma TokenStarts(u: Decoder, s: Text, at: nat)
    requires at <= |s|
    ensures StartsToken(u, s, at) <==> at == 0 || !(u.lastIsWord(s[..at]) || s[at - 1] as char in ".@")
  {
  }

  lemma {:induction false} FirstDot(raw: Text, dot: nat) returns (first: nat)
    requires 4 <= dot < |raw| && raw[dot] == 46
    ensures 4 <= first <= dot && raw[first] == 46 && forall k :: 4 <= k < first ==> raw[k] != 46
    decreases dot
  {
    first := dot;
    if k: nat :| 4 <= k < dot && raw[k] == 46 { first := FirstDot(raw, k); }
  }

  lemma FirstLabel(raw: Text, end: nat, dot: nat)
    requires 4 <= dot < end <= |raw| && raw[dot] == 46 && raw[4] != 46 && forall k :: 4 <= k < end ==> raw[k] !in {47, 63, 35}
    ensures IsBareHost(raw)
  {
    var first := FirstDot(raw, dot);
    assert forall k :: 4 <= k < first ==> raw[k] !in {46, 47, 63, 35};
  }

  lemma HostMarks(b: byte)
    ensures b as char in "/?#" <==> b in {47, 63, 35}
    ensures b as char == '.' <==> b == 46
  {
  }

  /** The host runs to the first / ? or #, and it is one when its first label is not empty and
      another follows. */
  lemma BareHostIs(raw: Text, end: nat)
    requires 4 < |raw| && 4 <= end <= |raw| && (end < |raw| ==> raw[end] as char in "/?#")
    requires forall k :: 4 <= k < end ==> raw[k] as char !in "/?#"
    ensures IsBareHost(raw) <==> raw[4] as char != '.' && exists dot :: 4 <= dot < end && raw[dot] as char == '.'
  {
    forall k | 4 <= k < |raw| ensures (raw[k] as char in "/?#" <==> raw[k] in {47, 63, 35}) && (raw[k] as char == '.' <==> raw[k] == 46) {
      HostMarks(raw[k]);
    }
    if dot: nat :| 4 <= dot < end && raw[dot] as char == '.' && raw[4] != 46 { FirstLabel(raw, end, dot); }
    if IsBareHost(raw) {
      var dot :| 5 <= dot < |raw| && raw[dot] == 46 && forall k :: 4 <= k < dot ==> raw[k] !in {46, 47, 63, 35};
      assert dot < end;
    }
  }

  ghost predicate FirstWww(s: Text, m: nat) {
    WwwAt(s, m) && forall k: nat :: k < m && WwwAt(s, k) ==> !NoTerminator(s, k, m)
  }

  function BareURL(s: Text, m: nat): PlainURL
    requires m <= |s|
  {
    var raw := TrimRecounting(s[m..TokenEnd(s, m)]);
    PlainURL(raw, Span(m, m + |raw|))
  }

  ghost predicate BareURLFrom(u: Decoder, s: Text, exclude: seq<Span>, m: nat, p: PlainURL) {
    && FirstWww(s, m) && StartsToken(u, s, m)
    && !OverlapsSome(exclude, Span(m, TokenEnd(s, m)))
    && p == BareURL(s, m) && IsBareHost(p.url)
  }

  lemma WwwHasNoTerminator(s: Text, m: nat)
    requires WwwAt(s, m)
    ensures NoTerminator(s, m, m + 4) && TokenEnd(s, m) >= m + 4
  {
    assert NoTerminator(s, m, m + 4);
  }

  lemma NextWwwIsFirst(s: Text, from: nat, m: nat)
    requires from <= m && WwwAt(s, m)
    requires 0 < from < |s| ==> IsTerminator(s[from])
    requires forall k: nat :: from <= k && WwwAt(s, k) ==> m <= k
    ensures FirstWww(s, m)
    ensures from > 0 ==> from < m
    ensures forall k: nat :: from <= k < TokenEnd(s, m) && FirstWww(s, k) ==> k == m
  {
    WwwHasNoTerminator(s, m);
    forall k: nat | m < k < TokenEnd(s, m) && WwwAt(s, k) ensures !FirstWww(s, k) {
      assert NoTerminator(s, m, k);
    }
  }

  lemma BareURLIsText(s: Text, m: nat)
    requires WwwAt(s, m)
    ensures BareURL(s, m).at.end <= TokenEnd(s, m)
    ensures BareURL(s, m).url == s[m..BareURL(s, m).at.end]
  {
    var raw := s[m..TokenEnd(s, m)];
    TrimMeaning(raw);
    assert TrimRecounting(raw) == raw[..|TrimRecounting(raw)|];
  }

  ghost predicate BareURLBefore(u: Decoder, s: Text, exclude: seq<Span>, limit: nat, p: PlainURL) {
    exists m: nat :: m < limit && BareURLFrom(u, s, exclude, m, p)
  }

  lemma BareStep(u: Decoder, s: Text, exclude: seq<Span>, from: nat, m: nat, p: PlainURL)
    requires from <= m && WwwAt(s, m)
    requires forall k: nat :: from <= k < TokenEnd(s, m) && FirstWww(s, k) ==> k == m
    ensures BareURLBefore(u, s, exclude, TokenEnd(s, m), p)
            <==> BareURLBefore(u, s, exclude, from, p) || BareURLFrom(u, s, exclude, m, p)
  {
    WwwHasNoTerminator(s, m);
    if BareURLBefore(u, s, exclude, from, p) {
      var k: nat :| k < from && BareURLFrom(u, s, exclude, k, p);
      assert k < TokenEnd(s, m);
    }
  }

  /** Reports exactly the "www." hosts that start a token outside the excluded spans. */
  method FindBareHostURLs(u: Decoder, s: Text, exclude: seq<Span>) returns (out: seq<PlainURL>)
    requires Ascending(exclude) && NonEmpty(exclude)
    ensures forall p :: p in out <==> exists m: nat :: BareURLFrom(u, s, exclude, m, p)
    ensures Spelled(s, out) && Disjoint(out)
  {
    out := [];
    var from := 0;
    while true
      invariant from <= |s| && (0 < from < |s| ==> IsTerminator(s[from]))
      invariant forall p :: p in out <==> BareURLBefore(u, s, exclude, from, p)
      invariant Listed(s, out, from)
      decreases |s| - from
    {
      var start := IndexBareHostPrefix(s, from);
      if start < 0 {
        assert forall m: nat :: FirstWww(s, m) ==> m < from;
        break;
      }
      var end := WalkForward(s, start);
      NextWwwIsFirst(s, from, start);
      WwwHasNoTerminator(s, start);
      BareURLIsText(s, start);
      InSpansMeaning(exclude, Span(start, end));
      forall p ensures BareURLBefore(u, s, exclude, end, p) <==> p in out || BareURLFrom(u, s, exclude, start, p) {
        BareStep(u, s, exclude, from, start, p);
      }
      ghost var resumed := from;
      from := end;
      if !StartsToken(u, s, start) || InSpans(exclude, Span(start, end)) { continue; }
      var raw := TrimURLTail(s[start..end]);
      if !IsBareHost(raw) { continue; }
      var url := PlainURL(raw, Span(start, start + |raw|));
      assert url == BareURL(s, start);
      ListedMore(s, out, resumed, url, end);
      out := out + [url];
    }
  }

  // ----- The list both callers share -----

  predicate UrlLe(a: PlainURL, b: PlainURL) { a.at.start <= b.at.start }

  ghost predicate PairwiseApart(urls: seq<PlainURL>) {
    forall i, j :: 0 <= i < j < |urls| ==> !Overlap(urls[i].at, urls[j].at)
  }

  lemma {:induction false} InsertKeepsApart(x: PlainURL, urls: seq<PlainURL>)
    requires PairwiseApart(urls) && forall i :: 0 <= i < |urls| ==> !Overlap(x.at, urls[i].at)
    ensures PairwiseApart(Insert(x, urls, UrlLe))
    ensures forall p :: p in Insert(x, urls, UrlLe) ==> p == x || p in urls
  {
    if urls != [] && !UrlLe(x, urls[0]) {
      InsertKeepsApart(x, urls[1..]);
      var rest := Insert(x, urls[1..], UrlLe);
      forall j | 0 <= j < |rest| ensures !Overlap(urls[0].at, rest[j].at) {
        assert rest[j] == x || rest[j] in urls[1..];
      }
    }
  }

  lemma {:induction false} SortKeepsApart(urls: seq<PlainURL>)
    requires PairwiseApart(urls)
    ensures PairwiseApart(Sort(urls, UrlLe))
    ensures forall p :: p in Sort(urls, UrlLe) ==> p in urls
  {
    if urls != [] {
      SortKeepsApart(urls[1..]);
      var rest := Sort(urls[1..], UrlLe);
      forall i | 0 <= i < |rest| ensures !Overlap(urls[0].at, rest[i].at) {
        assert rest[i] in urls[1..];
      }
      InsertKeepsApart(urls[0], rest);
    }
  }

  lemma SortedApartIsDisjoint(s: Text, urls: seq<PlainURL>)
    requires Spelled(s, urls) && PairwiseApart(urls)
    ensures Spelled(s, Sort(urls, UrlLe)) && Disjoint(Sort(urls, UrlLe))
    ensures forall p :: p in Sort(urls, UrlLe) <==> p in urls
  {
    SortKeepsApart(urls);
    SortSorts(urls, UrlLe);
    var sorted := Sort(urls, UrlLe);
    forall i | 0 <= i < |sorted|
      ensures sorted[i].at.start < sorted[i].at.end <= |s| && sorted[i].url == s[sorted[i].at.start..sorted[i].at.end]
    {
      assert sorted[i] in urls;
    }
    forall i, j | 0 <= i < j < |sorted| ensures sorted[i].at.end <= sorted[j].at.start {
      assert UrlLe(sorted[i], sorted[j]) && !Overlap(sorted[i].at, sorted[j].at);
    }
  }

  /** A host the second scanner reports lies clear of everything the first one reported. */
  lemma BareIsApart(u: Decoder, s: Text, schemes: seq<PlainURL>, p: PlainURL)
    requires Spelled(s, schemes)
    requires exists m: nat :: BareURLFrom(u, s, At(schemes), m, p)
    ensures forall i :: 0 <= i < |schemes| ==> !Overlap(schemes[i].at, p.at)
  {
    var m: nat :| BareURLFrom(u, s, At(schemes), m, p);
    BareURLIsText(s, m);
    forall i | 0 <= i < |schemes| ensures !Overlap(schemes[i].at, p.at) {
      assert !Overlap(At(schemes)[i], Span(m, TokenEnd(s, m)));
    }
  }

  /** A "www." host that starts a token which overlaps no URL with a scheme. */
  ghost predicate BareHostFrom(u: Decoder, s: Text, m: nat, p: PlainURL) {
    && FirstWww(s, m) && StartsToken(u, s, m)
    && (forall q :: IsSchemeURL(s, q) ==> !Overlap(q.at, Span(m, TokenEnd(s, m))))
    && p == BareURL(s, m) && IsBareHost(p.url)
  }

  ghost predicate IsPlainURL(u: Decoder, s: Text, p: PlainURL) {
    IsSchemeURL(s, p) || exists m: nat :: BareHostFrom(u, s, m, p)
  }

  lemma ExcludedMeaning(u: Decoder, s: Text, schemes: seq<PlainURL>, m: nat, p: PlainURL)
    requires forall q :: q in schemes <==> IsSchemeURL(s, q)
    ensures BareURLFrom(u, s, At(schemes), m, p) <==> BareHostFrom(u, s, m, p)
  {
    if FirstWww(s, m) {
      var token := Span(m, TokenEnd(s, m));
      if OverlapsSome(At(schemes), token) {
        var i :| 0 <= i < |At(schemes)| && Overlap(At(schemes)[i], token);
        assert IsSchemeURL(s, schemes[i]);
      }
      if q :| IsSchemeURL(s, q) && Overlap(q.at, token) {
        var i :| 0 <= i < |schemes| && schemes[i] == q;
        assert Overlap(At(schemes)[i], token);
      }
    }
  }

  /** Every URL printed in the text, strictly ascending and disjoint, each spelled as the
      text spells it. */
  method FindPlainURLs(u: Decoder, s: Text) returns (out: seq<PlainURL>)
    ensures forall p :: p in out <==> IsPlainURL(u, s, p)
    ensures Spelled(s, out) && Disjoint(out)
  {
    out := FindSchemeURLs(s);
    var spans := At(out);
    assert Ascending(spans) && NonEmpty(spans);
    var bare := FindBareHostURLs(u, s, spans);
    forall p ensures p in out || p in bare <==> IsPlainURL(u, s, p) {
      forall m: nat ensures BareURLFrom(u, s, spans, m, p) <==> BareHostFrom(u, s, m, p) {
        ExcludedMeaning(u, s, out, m, p);
      }
    }
    if bare == [] { return; }
    forall i, j | 0 <= i < |out| && 0 <= j < |bare| ensures !Overlap(out[i].at, bare[j].at) {
      assert bare[j] in bare;
      BareIsApart(u, s, out, bare[j]);
    }
    out := out + bare;
    assert Spelled(s, out) && PairwiseApart(out);
    SortedApartIsDisjoint(s, out);
    out := Sort(out, UrlLe);
  }

  ghost predicate IsURLSpan(u: Decoder, s: Text, at: Span) { exists p :: IsPlainURL(u, s, p) && p.at == at }

  /** The ranges the code scan must ignore: exactly those of the plain URLs. */
  method UrlSpans(u: Decoder, folded: Text) returns (out: seq<Span>)
    ensures NonEmpty(out) && Ascending(out)
    ensures forall at :: at in out <==> IsURLSpan(u, folded, at)
  {
    var urls := FindPlainURLs(u, folded);
    out := [];
    for i := 0 to |urls|
      invariant out == At(urls)[..i]
    {
      out := out + [urls[i].at];
    }
    assert out == At(urls);
    forall at ensures at in out <==> IsURLSpan(u, folded, at) {
      if at in out {
        var i :| 0 <= i < |out| && out[i] == at;
        assert urls[i] in urls && IsPlainURL(u, folded, urls[i]);
      }
      if p :| IsPlainURL(u, folded, p) && p.at == at {
        assert p in urls;
        var i :| 0 <= i < |urls| && urls[i] == p;
        assert out[i] == at;
      }
    }
  }
}
