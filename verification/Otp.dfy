/** The one-time-code scanner of internal/extract/otp.go: digit runs, context words,
    windowed scoring, and the ranking a message's best code is chosen from. */
module Otp {
  import opened Base
  import opened Runes
  import opened Spans

  // ----- Vocabulary and weights -----

  const ENGLISH_WORDS: seq<Text> := [
    Ascii("code"), Ascii("codes"), Ascii("otp"), Ascii("passcode"), Ascii("pin"),
    Ascii("verification"), Ascii("verify"), Ascii("confirmation"), Ascii("confirm"),
    Ascii("one time"), Ascii("one-time"), Ascii("onetime"), Ascii("security"), Ascii("token")]

  const VIETNAMESE_WORDS: seq<Text> := [
    Ascii("ma xac thuc"), Ascii("ma xac nhan"), Ascii("ma xac minh"), Ascii("ma otp"),
    Ascii("ma bao mat"), Ascii("ma kich hoat"), Ascii("ma dang nhap"), Ascii("ma pin"),
    Ascii("ma so"), Ascii("xac thuc"), Ascii("xac nhan")]

  const OTP_CONTEXT_WORDS: seq<Text> := ENGLISH_WORDS + VIETNAMESE_WORDS

  const SCORE_NEAR := 100
  const SCORE_MEDIUM := 60
  const SCORE_FAR := 30
  const NEAR_WINDOW: nat := 40
  const MEDIUM_WINDOW: nat := 80
  const FAR_WINDOW: nat := 160
  const SCORE_LEADING_WORD := 15
  const LEADING_WINDOW: nat := 24
  const SCORE_SIX_DIGITS := 10
  const SCORE_EIGHT_DIGITS := 4
  const PENALTY_YEAR := -120
  const MIN_OTP_LEN: nat := 4
  const MAX_OTP_LEN: nat := 8

  function Longest(words: seq<Text>): (n: nat)
    ensures forall w :: w in words ==> |w| <= n
  {
    if words == [] then 0 else Max(|words[0]|, Longest(words[1..]))
  }

  // ----- Digit runs -----

  /** A maximal run of ASCII digits. */
  predicate IsRun(s: Text, at: Span) {
    && at.start < at.end <= |s|
    && (forall k :: at.start <= k < at.end ==> IsDigit(s[k]))
    && (at.start > 0 ==> !IsDigit(s[at.start - 1]))
    && (at.end < |s| ==> !IsDigit(s[at.end]))
  }

  predicate Standalone(u: Decoder, s: Text, at: Span) { IsRun(s, at) && u.Boundary(s, at) }

  lemma RunsAgree(s: Text, a: Span, b: Span)
    requires IsRun(s, a) && IsRun(s, b) && a.start <= b.start < a.end
    ensures a == b
  {
  }

  /** The bytes of a rune that is not a digit start no run. */
  lemma RuneStartsNoRun(u: Decoder, s: Text, i: nat)
    requires u.Valid() && i < |s| && !IsDigit(s[i])
    ensures 1 <= u.size(s[i..]) <= |s| - i
    ensures forall k :: i <= k < i + u.size(s[i..]) ==> !IsDigit(s[k])
    ensures forall at :: Standalone(u, s, at) ==> !(i <= at.start < i + u.size(s[i..]))
  {
    forall k | i <= k < i + u.size(s[i..]) ensures !IsDigit(s[k]) {
      if i < k { assert s[k] == s[i..][k - i]; }
    }
    forall at | Standalone(u, s, at) ensures !(i <= at.start < i + u.size(s[i..])) { assert IsDigit(s[at.start]); }
  }

  method SkipDigits(s: Text, start: nat) returns (end: nat)
    requires start < |s| && IsDigit(s[start]) && (start > 0 ==> !IsDigit(s[start - 1]))
    ensures start < end <= |s| && IsRun(s, Span(start, end))
  {
    end := start;
    while end < |s| && IsDigit(s[end])
      invariant start <= end <= |s|
      invariant forall k :: start <= k < end ==> IsDigit(s[k])
    {
      end := end + 1;
    }
  }

  /** Every standalone run, in order, and nothing else. */
  method DigitRuns(u: Decoder, s: Text) returns (out: seq<Span>)
    requires u.Valid()
    ensures forall at :: at in out <==> Standalone(u, s, at)
    ensures Ascending(out)
  {
    out := [];
    var i := 0;
    while i < |s|
      invariant 0 <= i <= |s|
      invariant 0 < i < |s| ==> !IsDigit(s[i - 1]) || !IsDigit(s[i])
      invariant forall at :: at in out <==> Standalone(u, s, at) && at.start < i
      invariant forall k :: 0 <= k < |out| ==> out[k].end <= i
      invariant Ascending(out)
    {
      if !IsDigit(s[i]) {
        RuneStartsNoRun(u, s, i);
        i := i + u.size(s[i..]);
        continue;
      }
      var end := SkipDigits(s, i);
      var at := Span(i, end);
      forall other | Standalone(u, s, other) && i <= other.start < end ensures other == at {
        RunsAgree(s, at, other);
      }
      if u.Boundary(s, at) {
        out := out + [at];
      }
      i := end;
    }
  }

  // ----- Context words -----

  predicate WordAt(u: Decoder, hay: Text, w: Text, at: Span) {
    at.start + |w| == at.end && OccursAt(hay, w, at.start) && u.Boundary(hay, at)
  }

  ghost predicate ContextWordAt(u: Decoder, hay: Text, words: seq<Text>, at: Span) {
    exists w :: w in words && WordAt(u, hay, w, at)
  }

  /** Every whole-word occurrence of every word, overlapping ones included. */
  method FindWords(u: Decoder, hay: Text, words: seq<Text>) returns (out: seq<Span>)
    requires forall w :: w in words ==> w != []
    ensures forall at :: at in out <==> ContextWordAt(u, hay, words, at)
  {
    out := [];
    for i := 0 to |words|
      invariant forall at :: at in out <==> ContextWordAt(u, hay, words[..i], at)
    {
      var w := words[i];
      assert w in words;
      ghost var before := out;
      var from := 0;
      while true
        invariant from <= |hay|
        invariant forall at :: at in out <==> at in before || (WordAt(u, hay, w, at) && at.start < from)
        decreases |hay| - from
      {
        var found := IndexFrom(hay, w, from);
        if found.None? { break; }
        var at := Span(found.value, found.value + |w|);
        if u.Boundary(hay, at) {
          out := out + [at];
        }
        from := found.value + 1;
      }
      assert words[..i + 1] == words[..i] + [w];
      forall at ensures at in out <==> ContextWordAt(u, hay, words[..i + 1], at) {
        if WordAt(u, hay, w, at) { assert w in words[..i + 1]; }
        if ContextWordAt(u, hay, words[..i], at) {
          var v :| v in words[..i] && WordAt(u, hay, v, at);
          assert v in words[..i + 1];
        }
      }
    }
    assert words[..|words|] == words;
  }

  // ----- Scoring -----

  function Distance(digits: Span, w: Span): nat {
    if w.end <= digits.start then digits.start - w.end
    else if w.start >= digits.end then w.start - digits.end
    else 0
  }

  predicate Leads(digits: Span, w: Span) {
    w.end <= digits.start && digits.start - w.end <= LEADING_WINDOW
  }

  /** The distance to the closest of words[lo..hi], or -1 when there is none. */
  function Nearest(digits: Span, words: seq<Span>, lo: nat, hi: nat): (n: int)
    requires lo <= hi <= |words|
    ensures n >= -1
    decreases hi
  {
    if lo == hi then -1
    else
      var n := Nearest(digits, words, lo, hi - 1);
      var d := Distance(digits, words[hi - 1]);
      if n < 0 || d < n then d else n
  }

  predicate LooksLikeYear(code: Text) {
    |code| == 4 && (forall k :: 0 <= k < 4 ==> IsDigit(code[k])) && 1900 <= Value(code) <= 2099
  }

  function Value(code: Text): int {
    if code == [] then 0 else 10 * Value(code[..|code| - 1]) + code[|code| - 1] as int - 48
  }

  function Weigh(code: Text, nearest: int, leading: bool): int {
    (if nearest < 0 then 0
     else if nearest <= NEAR_WINDOW then SCORE_NEAR
     else if nearest <= MEDIUM_WINDOW then SCORE_MEDIUM
     else if nearest <= FAR_WINDOW then SCORE_FAR
     else 0)
    + (if leading then SCORE_LEADING_WORD else 0)
    + (if |code| == 6 then SCORE_SIX_DIGITS else if |code| == 8 then SCORE_EIGHT_DIGITS else 0)
    + (if LooksLikeYear(code) then PENALTY_YEAR else 0)
  }

  /** Whether one of words[lo..hi] stands right in front of the digits. */
  predicate Led(digits: Span, words: seq<Span>, lo: nat, hi: nat)
    requires lo <= hi <= |words|
    decreases hi
  {
    lo < hi && (Led(digits, words, lo, hi - 1) || Leads(digits, words[hi - 1]))
  }

  /** The obvious score: look at every word of the message. */
  function FullScore(code: Text, digits: Span, words: seq<Span>): int {
    Weigh(code, Nearest(digits, words, 0, |words|), Led(digits, words, 0, |words|))
  }

  lemma {:induction false} NearestMeaning(digits: Span, words: seq<Span>, lo: nat, hi: nat, limit: nat)
    requires lo <= hi <= |words|
    ensures 0 <= Nearest(digits, words, lo, hi) <= limit
            <==> exists k :: lo <= k < hi && Distance(digits, words[k]) <= limit
    decreases hi
  {
    if lo < hi {
      NearestMeaning(digits, words, lo, hi - 1, limit);
      if 0 <= Nearest(digits, words, lo, hi - 1) <= limit {
        var k :| lo <= k < hi - 1 && Distance(digits, words[k]) <= limit;
      }
      if Distance(digits, words[hi - 1]) <= limit { assert lo <= hi - 1 < hi; }
    }
  }

  lemma {:induction false} LedMeaning(digits: Span, words: seq<Span>, lo: nat, hi: nat)
    requires lo <= hi <= |words|
    ensures Led(digits, words, lo, hi) <==> exists k :: lo <= k < hi && Leads(digits, words[k])
    decreases hi
  {
    if lo < hi {
      LedMeaning(digits, words, lo, hi - 1);
      if Leads(digits, words[hi - 1]) { assert lo <= hi - 1 < hi; }
    }
  }

  ghost predicate FarOutside(digits: Span, words: seq<Span>, lo: nat, hi: nat) {
    forall k :: 0 <= k < |words| && !(lo <= k < hi) ==> Distance(digits, words[k]) > FAR_WINDOW
  }

  lemma BandsAgree(digits: Span, words: seq<Span>, lo: nat, hi: nat, limit: nat)
    requires lo <= hi <= |words| && limit <= FAR_WINDOW && FarOutside(digits, words, lo, hi)
    ensures 0 <= Nearest(digits, words, lo, hi) <= limit <==> 0 <= Nearest(digits, words, 0, |words|) <= limit
  {
    NearestMeaning(digits, words, lo, hi, limit);
    NearestMeaning(digits, words, 0, |words|, limit);
  }

  /** Looking only at words[lo..hi] is enough when every other word is out of range. */
  lemma WindowSuffices(code: Text, digits: Span, words: seq<Span>, lo: nat, hi: nat)
    requires lo <= hi <= |words| && FarOutside(digits, words, lo, hi)
    ensures Weigh(code, Nearest(digits, words, lo, hi), Led(digits, words, lo, hi))
            == FullScore(code, digits, words)
  {
    BandsAgree(digits, words, lo, hi, NEAR_WINDOW);
    BandsAgree(digits, words, lo, hi, MEDIUM_WINDOW);
    BandsAgree(digits, words, lo, hi, FAR_WINDOW);
    LedMeaning(digits, words, lo, hi);
    LedMeaning(digits, words, 0, |words|);
    if Led(digits, words, 0, |words|) {
      var k :| 0 <= k < |words| && Leads(digits, words[k]);
      assert Distance(digits, words[k]) <= LEADING_WINDOW;
    }
  }

  ghost predicate WordsInOrder(words: seq<Span>, maxWordLen: nat) {
    && (forall i, j :: 0 <= i < j < |words| ==> words[i].start <= words[j].start)
    && (forall i :: 0 <= i < |words| ==> words[i].start <= words[i].end <= words[i].start + maxWordLen)
  }

  /** The first word that starts late enough to matter to these digits. */
  function FirstInReach(digits: Span, words: seq<Span>, maxWordLen: nat): (from: nat)
    ensures from <= |words|
  {
    Search(|words|, (k: nat) => InReach(digits, words, maxWordLen, k))
  }

  predicate InReach(digits: Span, words: seq<Span>, maxWordLen: nat, k: nat) {
    k < |words| && words[k].start as int >= digits.start - FAR_WINDOW - maxWordLen
  }

  lemma BeforeReachIsFar(digits: Span, words: seq<Span>, maxWordLen: nat)
    requires WordsInOrder(words, maxWordLen)
    ensures forall k :: 0 <= k < FirstInReach(digits, words, maxWordLen) ==>
              Distance(digits, words[k]) > FAR_WINDOW
  {
    var f := (k: nat) => InReach(digits, words, maxWordLen, k);
    assert Monotone(|words|, f);
    forall k: nat | k < Search(|words|, f) ensures Distance(digits, words[k]) > FAR_WINDOW {
      assert !f(k);
    }
  }

  lemma AfterBreakIsFar(digits: Span, words: seq<Span>, maxWordLen: nat, i: nat)
    requires WordsInOrder(words, maxWordLen)
    requires i <= |words| && (i < |words| ==> words[i].start > digits.end + FAR_WINDOW)
    requires digits.start <= digits.end
    ensures forall k :: i <= k < |words| ==> Distance(digits, words[k]) > FAR_WINDOW
  {
  }

  ghost predicate Scanned(digits: Span, words: seq<Span>, from: nat, to: nat, nearest: int, leading: bool) {
    && from <= to <= |words| && FarOutside(digits, words, from, to)
    && nearest == Nearest(digits, words, from, to) && leading == Led(digits, words, from, to)
  }

  /** Walks the words from the binary-searched start to the early break. What it leaves out
      on either side is out of range. */
  method ScanWords(digits: Span, words: seq<Span>, maxWordLen: nat) returns (nearest: int, leading: bool)
    requires digits.start <= digits.end && WordsInOrder(words, maxWordLen)
    ensures exists from: nat, to: nat :: Scanned(digits, words, from, to, nearest, leading)
  {
    nearest, leading := -1, false;
    var from := FirstInReach(digits, words, maxWordLen);
    var i := from;
    BeforeReachIsFar(digits, words, maxWordLen);
    var limit := digits.end + FAR_WINDOW;
    while i < |words| && words[i].start <= limit
      invariant from <= i <= |words|
      invariant nearest == Nearest(digits, words, from, i)
      invariant leading == Led(digits, words, from, i)
    {
      nearest, leading := Weighed(digits, words[i], nearest, leading);
      i := i + 1;
    }
    AfterBreakIsFar(digits, words, maxWordLen, i);
    assert Scanned(digits, words, from, i, nearest, leading);
  }

  /** What one more word does to the distance and to the leading mark. */
  method Weighed(digits: Span, w: Span, nearest: int, leading: bool) returns (n: int, l: bool)
    ensures n == (if nearest < 0 || Distance(digits, w) < nearest then Distance(digits, w) else nearest)
    ensures l == (leading || Leads(digits, w))
  {
    n, l := nearest, leading;
    var distance := 0;
    if w.end <= digits.start {
      distance := digits.start - w.end;
      if distance <= LEADING_WINDOW { l := true; }
    } else if w.start >= digits.end {
      distance := w.start - digits.end;
    }
    if nearest < 0 || distance < nearest { n := distance; }
  }

  /** The windowed score equals the full one: the binary-searched start and the early
      break leave out only words that score nothing. */
  method ScoreCandidate(code: Text, digits: Span, words: seq<Span>, maxWordLen: nat) returns (score: int)
    requires digits.start <= digits.end && WordsInOrder(words, maxWordLen)
    ensures score == FullScore(code, digits, words)
  {
    var nearest, leading := ScanWords(digits, words, maxWordLen);
    ghost var from: nat, to: nat :| Scanned(digits, words, from, to, nearest, leading);
    WindowSuffices(code, digits, words, from, to);
    score := Weigh(code, nearest, leading);
  }

  // ----- The score without a word list -----

  ghost predicate WordWithin(u: Decoder, hay: Text, vocabulary: seq<Text>, at: Span, limit: nat) {
    exists w: Span :: ContextWordAt(u, hay, vocabulary, w) && Distance(at, w) <= limit
  }

  ghost predicate WordLeads(u: Decoder, hay: Text, vocabulary: seq<Text>, at: Span) {
    exists w: Span :: ContextWordAt(u, hay, vocabulary, w) && Leads(at, w)
  }

  /** What a code at `at` is worth, said about the text alone. */
  ghost function TrueScore(u: Decoder, hay: Text, vocabulary: seq<Text>, at: Span): int
    requires at.start <= at.end <= |hay|
  {
    Weigh(hay[at.start..at.end],
          if WordWithin(u, hay, vocabulary, at, NEAR_WINDOW) then NEAR_WINDOW
          else if WordWithin(u, hay, vocabulary, at, MEDIUM_WINDOW) then MEDIUM_WINDOW
          else if WordWithin(u, hay, vocabulary, at, FAR_WINDOW) then FAR_WINDOW
          else -1,
          WordLeads(u, hay, vocabulary, at))
  }

  lemma FullScoreIsTrue(u: Decoder, hay: Text, vocabulary: seq<Text>, at: Span, words: seq<Span>)
    requires at.start <= at.end <= |hay|
    requires forall w :: w in words <==> ContextWordAt(u, hay, vocabulary, w)
    ensures FullScore(hay[at.start..at.end], at, words) == TrueScore(u, hay, vocabulary, at)
  {
    WithinMeaning(u, hay, vocabulary, at, words, NEAR_WINDOW);
    WithinMeaning(u, hay, vocabulary, at, words, MEDIUM_WINDOW);
    WithinMeaning(u, hay, vocabulary, at, words, FAR_WINDOW);
    LedMeaning(at, words, 0, |words|);
    if WordLeads(u, hay, vocabulary, at) {
      var w :| ContextWordAt(u, hay, vocabulary, w) && Leads(at, w);
      assert w in words;
    }
  }

  lemma WithinMeaning(u: Decoder, hay: Text, vocabulary: seq<Text>, at: Span, words: seq<Span>, limit: nat)
    requires forall w :: w in words <==> ContextWordAt(u, hay, vocabulary, w)
    ensures WordWithin(u, hay, vocabulary, at, limit) <==> 0 <= Nearest(at, words, 0, |words|) <= limit
  {
    NearestMeaning(at, words, 0, |words|, limit);
    if WordWithin(u, hay, vocabulary, at, limit) {
      var w :| ContextWordAt(u, hay, vocabulary, w) && Distance(at, w) <= limit;
      assert w in words;
    }
    if k :| 0 <= k < |words| && Distance(at, words[k]) <= limit {
      assert words[k] in words;
    }
  }

  // ----- Ranking -----

  datatype Candidate = Candidate(code: Text, pos: nat, score: int) {
    function At(): Span { Span(pos, pos + |code|) }
  }

  predicate RanksFirst(a: Candidate, b: Candidate) {
    if a.score != b.score then a.score > b.score else a.pos <= b.pos
  }

  /** A run the scan may report: standalone, four to eight digits, outside every excluded span. */
  ghost predicate Eligible(u: Decoder, hay: Text, exclude: seq<Span>, at: Span) {
    && Standalone(u, hay, at)
    && MIN_OTP_LEN <= at.end - at.start <= MAX_OTP_LEN
    && !OverlapsSome(exclude, at)
  }

  ghost predicate Genuine(u: Decoder, hay: Text, vocabulary: seq<Text>, exclude: seq<Span>, c: Candidate) {
    && Eligible(u, hay, exclude, c.At())
    && hay[c.pos..c.pos + |c.code|] == c.code
    && c.score == TrueScore(u, hay, vocabulary, c.At())
  }

  ghost function CandidateAt(u: Decoder, hay: Text, vocabulary: seq<Text>, at: Span): Candidate
    requires at.start <= at.end <= |hay|
  {
    Candidate(hay[at.start..at.end], at.start, TrueScore(u, hay, vocabulary, at))
  }

  /** The list the scan promises: each eligible code once, at its best and then earliest
      place, ordered by score and then by position. */
  ghost predicate IsRanking(u: Decoder, hay: Text, vocabulary: seq<Text>, exclude: seq<Span>, out: seq<Candidate>) {
    && DistinctCodes(out)
    && (forall i, j :: 0 <= i < j < |out| ==>
          out[i].score > out[j].score || (out[i].score == out[j].score && out[i].pos < out[j].pos))
    && (forall i :: 0 <= i < |out| ==> Genuine(u, hay, vocabulary, exclude, out[i]))
    && (forall at :: Eligible(u, hay, exclude, at) ==>
          Represented(out, CandidateAt(u, hay, vocabulary, at)))
  }

  predicate SameCode(a: Candidate, b: Candidate) { a.code == b.code }

  ghost predicate Represented(out: seq<Candidate>, c: Candidate) {
    exists i :: 0 <= i < |out| && SameCode(out[i], c) && RanksFirst(out[i], c)
  }

  ghost predicate DistinctCodes(out: seq<Candidate>) {
    forall i, j :: 0 <= i < j < |out| ==> !SameCode(out[i], out[j])
  }

  /** Keeps the first of every group of equal codes. */
  function Firsts(sorted: seq<Candidate>): seq<Candidate> {
    if sorted == [] then []
    else
      var front := Firsts(sorted[..|sorted| - 1]);
      var c := sorted[|sorted| - 1];
      if HasCode(front, c.code) then front else front + [c]
  }

  predicate HasCode(out: seq<Candidate>, code: Text) {
    exists i :: 0 <= i < |out| && out[i].code == code
  }

  lemma HasCodeSnoc(out: seq<Candidate>, c: Candidate, code: Text)
    ensures HasCode(out + [c], code) <==> HasCode(out, code) || c.code == code
  {
    if HasCode(out, code) {
      var i :| 0 <= i < |out| && out[i].code == code;
      assert (out + [c])[i] == out[i];
    }
    assert (out + [c])[|out|] == c;
  }

  lemma {:induction false} FirstsMeaning(sorted: seq<Candidate>)
    requires SortedBy(sorted, RanksFirst)
    ensures forall c :: c in Firsts(sorted) ==> c in sorted
    ensures SortedBy(Firsts(sorted), RanksFirst)
    ensures DistinctCodes(Firsts(sorted))
    ensures forall c :: c in sorted ==> Represented(Firsts(sorted), c)
  {
    if sorted != [] {
      var shorter := sorted[..|sorted| - 1];
      var front, c := Firsts(shorter), sorted[|sorted| - 1];
      FirstsMeaning(shorter);
      assert sorted == shorter + [c];
      LastRanksLast(front, shorter, c);
      forall d | d in sorted ensures Represented(Firsts(sorted), d) {
        if d in shorter { FrontRepresents(front, c, d); } else { LastRepresented(front, c); }
      }
    }
  }

  lemma LastRanksLast(front: seq<Candidate>, shorter: seq<Candidate>, c: Candidate)
    requires SortedBy(shorter + [c], RanksFirst) && forall d :: d in front ==> d in shorter
    ensures forall i :: 0 <= i < |front| ==> RanksFirst(front[i], c)
  {
    forall i | 0 <= i < |front| ensures RanksFirst(front[i], c) {
      assert front[i] in shorter;
      var m :| 0 <= m < |shorter| && shorter[m] == front[i];
      assert (shorter + [c])[m] == front[i] && (shorter + [c])[|shorter|] == c;
    }
  }

  lemma FrontRepresents(front: seq<Candidate>, c: Candidate, d: Candidate)
    requires Represented(front, d)
    ensures Represented(if HasCode(front, c.code) then front else front + [c], d)
  {
    var i :| 0 <= i < |front| && SameCode(front[i], d) && RanksFirst(front[i], d);
    assert (front + [c])[i] == front[i];
  }

  lemma LastRepresented(front: seq<Candidate>, c: Candidate)
    requires forall i :: 0 <= i < |front| ==> RanksFirst(front[i], c)
    ensures Represented(if HasCode(front, c.code) then front else front + [c], c)
  {
    if HasCode(front, c.code) {
      var i :| 0 <= i < |front| && front[i].code == c.code;
      assert SameCode(front[i], c) && RanksFirst(front[i], c);
    } else {
      assert (front + [c])[|front|] == c;
    }
  }

  /** Drops repeated codes with a set of the codes seen so far. */
  method Dedup(sorted: seq<Candidate>) returns (out: seq<Candidate>)
    ensures out == Firsts(sorted)
  {
    out := [];
    var seen: set<Text> := {};
    for k := 0 to |sorted|
      invariant out == Firsts(sorted[..k])
      invariant forall code :: code in seen <==> HasCode(out, code)
    {
      var c := sorted[k];
      assert sorted[..k + 1][..k] == sorted[..k];
      if c.code !in seen {
        forall code ensures HasCode(out + [c], code) <==> code in seen + {c.code} {
          HasCodeSnoc(out, c, code);
        }
        seen := seen + {c.code};
        out := out + [c];
      }
    }
    assert sorted[..|sorted|] == sorted;
  }

  predicate StartLe(a: Span, b: Span) { a.start <= b.start }

  /** The context words of a text, sorted by where they start. */
  method ContextWords(u: Decoder, hay: Text, vocabulary: seq<Text>) returns (words: seq<Span>, maxWordLen: nat)
    requires forall w :: w in vocabulary ==> w != []
    ensures forall w :: w in words <==> ContextWordAt(u, hay, vocabulary, w)
    ensures WordsInOrder(words, maxWordLen)
  {
    var unsorted := FindWords(u, hay, vocabulary);
    words := Sort(unsorted, StartLe);
    SortSorts(unsorted, StartLe);
    maxWordLen := Longest(vocabulary);
    forall i, j | 0 <= i < j < |words| ensures words[i].start <= words[j].start {
      assert StartLe(words[i], words[j]);
    }
    forall i | 0 <= i < |words| ensures words[i].start <= words[i].end <= words[i].start + maxWordLen {
      assert words[i] in unsorted;
    }
  }

  method MergedCopy(spans: seq<Span>) returns (merged: seq<Span>)
    ensures merged == Merged(spans)
  {
    var a := new Span[|spans|](i requires 0 <= i < |spans| => spans[i]);
    assert a[..] == spans;
    var n := MergeSpans(a);
    merged := a[..n];
  }

  ghost predicate AllGenuine(u: Decoder, hay: Text, vocabulary: seq<Text>, exclude: seq<Span>, found: seq<Candidate>) {
    forall i :: 0 <= i < |found| ==> Genuine(u, hay, vocabulary, exclude, found[i])
  }

  ghost predicate Reported(u: Decoder, hay: Text, vocabulary: seq<Text>, found: seq<Candidate>, at: Span) {
    at.start <= at.end <= |hay| && CandidateAt(u, hay, vocabulary, at) in found
  }

  /** Scores one run, or says why it is no code: too short, too long, or inside a URL. */
  method ScoreRun(u: Decoder, hay: Text, vocabulary: seq<Text>, exclude: seq<Span>, digits: Span,
                  merged: seq<Span>, words: seq<Span>, maxWordLen: nat) returns (c: Option<Candidate>)
    requires NonEmpty(exclude) && merged == Merged(exclude)
    requires Standalone(u, hay, digits) && WordsInOrder(words, maxWordLen)
    requires forall w :: w in words <==> ContextWordAt(u, hay, vocabulary, w)
    ensures c.Some? <==> Eligible(u, hay, exclude, digits)
    ensures c.Some? ==> c.value == CandidateAt(u, hay, vocabulary, digits) && c.value.At() == digits
  {
    MergedOverlap(exclude, digits);
    var code := hay[digits.start..digits.end];
    if |code| < MIN_OTP_LEN || |code| > MAX_OTP_LEN || InSpans(merged, digits) {
      return None;
    }
    var score := ScoreCandidate(code, digits, words, maxWordLen);
    FullScoreIsTrue(u, hay, vocabulary, digits, words);
    c := Some(Candidate(code, digits.start, score));
  }

  ghost predicate Scored(u: Decoder, hay: Text, vocabulary: seq<Text>, exclude: seq<Span>, runs: seq<Span>, found: seq<Candidate>) {
    && AllGenuine(u, hay, vocabulary, exclude, found)
    && (forall at :: at in runs && Eligible(u, hay, exclude, at) ==> Reported(u, hay, vocabulary, found, at))
  }

  lemma ScoredMore(u: Decoder, hay: Text, vocabulary: seq<Text>, exclude: seq<Span>, runs: seq<Span>, found: seq<Candidate>,
                   at: Span, c: Option<Candidate>)
    requires Scored(u, hay, vocabulary, exclude, runs, found) && Standalone(u, hay, at)
    requires c.Some? <==> Eligible(u, hay, exclude, at)
    requires c.Some? ==> c.value == CandidateAt(u, hay, vocabulary, at) && c.value.At() == at
    ensures Scored(u, hay, vocabulary, exclude, runs + [at], if c.Some? then found + [c.value] else found)
  {
  }

  /** All eligible runs with their scores, in text order. */
  method ScoreRuns(u: Decoder, hay: Text, vocabulary: seq<Text>, exclude: seq<Span>) returns (found: seq<Candidate>)
    requires u.Valid() && (forall w :: w in vocabulary ==> w != []) && NonEmpty(exclude)
    ensures AllGenuine(u, hay, vocabulary, exclude, found)
    ensures forall at :: Eligible(u, hay, exclude, at) ==> Reported(u, hay, vocabulary, found, at)
  {
    var words, maxWordLen := ContextWords(u, hay, vocabulary);
    var merged := MergedCopy(exclude);
    var runs := DigitRuns(u, hay);
    found := [];
    for k := 0 to |runs|
      invariant Scored(u, hay, vocabulary, exclude, runs[..k], found)
    {
      assert runs[k] in runs;
      var c := ScoreRun(u, hay, vocabulary, exclude, runs[k], merged, words, maxWordLen);
      ScoredMore(u, hay, vocabulary, exclude, runs[..k], found, runs[k], c);
      assert runs[..k + 1] == runs[..k] + [runs[k]];
      if c.Some? {
        found := found + [c.value];
      }
    }
    assert runs[..|runs|] == runs;
    forall at | Eligible(u, hay, exclude, at) ensures Reported(u, hay, vocabulary, found, at) {
      assert at in runs;
    }
  }

  lemma GenuineOrderIsStrict(u: Decoder, hay: Text, vocabulary: seq<Text>, exclude: seq<Span>, a: Candidate, b: Candidate)
    requires Genuine(u, hay, vocabulary, exclude, a) && Genuine(u, hay, vocabulary, exclude, b)
    requires RanksFirst(a, b) && !SameCode(a, b)
    ensures a.score > b.score || (a.score == b.score && a.pos < b.pos)
  {
    if a.pos == b.pos { RunsAgree(hay, a.At(), b.At()); }
  }

  lemma FirstsStayGenuine(u: Decoder, hay: Text, vocabulary: seq<Text>, exclude: seq<Span>, found: seq<Candidate>)
    requires AllGenuine(u, hay, vocabulary, exclude, found)
    ensures AllGenuine(u, hay, vocabulary, exclude, Firsts(Sort(found, RanksFirst)))
  {
    var out := Firsts(Sort(found, RanksFirst));
    SortSorts(found, RanksFirst);
    FirstsMeaning(Sort(found, RanksFirst));
    forall i | 0 <= i < |out| ensures Genuine(u, hay, vocabulary, exclude, out[i]) {
      assert out[i] in found;
      var m :| 0 <= m < |found| && found[m] == out[i];
    }
  }

  lemma FirstsRepresent(found: seq<Candidate>, c: Candidate)
    requires c in found
    ensures Represented(Firsts(Sort(found, RanksFirst)), c)
  {
    SortSorts(found, RanksFirst);
    FirstsMeaning(Sort(found, RanksFirst));
    assert c in Sort(found, RanksFirst);
  }

  lemma GenuineOrder(u: Decoder, hay: Text, vocabulary: seq<Text>, exclude: seq<Span>, out: seq<Candidate>)
    requires AllGenuine(u, hay, vocabulary, exclude, out) && SortedBy(out, RanksFirst) && DistinctCodes(out)
    ensures forall i, j :: 0 <= i < j < |out| ==> out[i].score > out[j].score || (out[i].score == out[j].score && out[i].pos < out[j].pos)
  {
    forall i, j | 0 <= i < j < |out|
      ensures out[i].score > out[j].score || (out[i].score == out[j].score && out[i].pos < out[j].pos)
    {
      GenuineOrderIsStrict(u, hay, vocabulary, exclude, out[i], out[j]);
    }
  }

  lemma AllRepresented(u: Decoder, hay: Text, vocabulary: seq<Text>, exclude: seq<Span>, found: seq<Candidate>)
    requires forall at :: Eligible(u, hay, exclude, at) ==> Reported(u, hay, vocabulary, found, at)
    ensures forall at :: Eligible(u, hay, exclude, at) ==>
              Represented(Firsts(Sort(found, RanksFirst)), CandidateAt(u, hay, vocabulary, at))
  {
    forall at | Eligible(u, hay, exclude, at)
      ensures Represented(Firsts(Sort(found, RanksFirst)), CandidateAt(u, hay, vocabulary, at))
    {
      assert Reported(u, hay, vocabulary, found, at);
      FirstsRepresent(found, CandidateAt(u, hay, vocabulary, at));
    }
  }

  lemma FirstsOfGenuineIsRanking(u: Decoder, hay: Text, vocabulary: seq<Text>, exclude: seq<Span>, found: seq<Candidate>)
    requires AllGenuine(u, hay, vocabulary, exclude, found)
    requires forall at :: Eligible(u, hay, exclude, at) ==> Reported(u, hay, vocabulary, found, at)
    ensures IsRanking(u, hay, vocabulary, exclude, Firsts(Sort(found, RanksFirst)))
  {
    SortSorts(found, RanksFirst);
    FirstsMeaning(Sort(found, RanksFirst));
    FirstsStayGenuine(u, hay, vocabulary, exclude, found);
    GenuineOrder(u, hay, vocabulary, exclude, Firsts(Sort(found, RanksFirst)));
    AllRepresented(u, hay, vocabulary, exclude, found);
  }

  /** Finds and ranks every candidate code of a text. */
  method OtpCandidates(u: Decoder, hay: Text, vocabulary: seq<Text>, exclude: seq<Span>) returns (out: seq<Candidate>)
    requires u.Valid() && (forall w :: w in vocabulary ==> w != []) && NonEmpty(exclude)
    ensures IsRanking(u, hay, vocabulary, exclude, out)
  {
    var found := ScoreRuns(u, hay, vocabulary, exclude);
    out := Dedup(Sort(found, RanksFirst));
    FirstsOfGenuineIsRanking(u, hay, vocabulary, exclude, found);
  }

  /** The best code: the first candidate with a positive score, or none. */
  method OtpBest(candidates: seq<Candidate>) returns (best: Text)
    requires forall c :: c in candidates ==> c.code != []
    ensures best == BestOf(candidates)
  {
    best := [];
    for k := 0 to |candidates|
      invariant best == BestOf(candidates[..k])
    {
      assert candidates[k] in candidates;
      assert candidates[..k + 1][..k] == candidates[..k];
      if best == [] && candidates[k].score > 0 {
        best := candidates[k].code;
      }
    }
    assert candidates[..|candidates|] == candidates;
  }

  function BestOf(candidates: seq<Candidate>): Text {
    if candidates == [] then []
    else
      var front := BestOf(candidates[..|candidates| - 1]);
      var c := candidates[|candidates| - 1];
      if front == [] && c.score > 0 then c.code else front
  }

  lemma {:induction false} BestIsFirstPositive(candidates: seq<Candidate>)
    requires forall c :: c in candidates ==> c.code != []
    ensures BestOf(candidates) == [] <==> forall c :: c in candidates ==> c.score <= 0
    ensures BestOf(candidates) != [] ==>
              exists i :: 0 <= i < |candidates| && candidates[i].score > 0 && candidates[i].code == BestOf(candidates)
                          && forall j :: 0 <= j < i ==> candidates[j].score <= 0
  {
    if candidates != [] {
      var front := candidates[..|candidates| - 1];
      BestIsFirstPositive(front);
      assert candidates == front + [candidates[|candidates| - 1]];
      if BestOf(front) != [] {
        var i :| 0 <= i < |front| && front[i].score > 0 && front[i].code == BestOf(front)
                 && forall j :: 0 <= j < i ==> front[j].score <= 0;
        assert candidates[i] == front[i] && candidates[i] in candidates;
      } else {
        assert candidates[|candidates| - 1] in candidates;
        assert forall j :: 0 <= j < |front| ==> front[j] in front;
      }
    }
  }

  ghost predicate Worthless(u: Decoder, hay: Text, vocabulary: seq<Text>, at: Span)
    requires at.start <= at.end <= |hay|
  {
    && at.end - at.start !in {6, 8}
    && (LooksLikeYear(hay[at.start..at.end]) || !WordWithin(u, hay, vocabulary, at, FAR_WINDOW))
  }

  lemma PositiveScore(u: Decoder, hay: Text, vocabulary: seq<Text>, at: Span)
    requires at.start <= at.end <= |hay|
    ensures TrueScore(u, hay, vocabulary, at) <= 0 <==> Worthless(u, hay, vocabulary, at)
  {
    assert |hay[at.start..at.end]| == at.end - at.start;
    if WordWithin(u, hay, vocabulary, at, NEAR_WINDOW) {
      var w :| ContextWordAt(u, hay, vocabulary, w) && Distance(at, w) <= NEAR_WINDOW;
      assert Distance(at, w) <= FAR_WINDOW;
    }
    if WordWithin(u, hay, vocabulary, at, MEDIUM_WINDOW) {
      var w :| ContextWordAt(u, hay, vocabulary, w) && Distance(at, w) <= MEDIUM_WINDOW;
      assert Distance(at, w) <= FAR_WINDOW;
    }
    if WordLeads(u, hay, vocabulary, at) {
      var w :| ContextWordAt(u, hay, vocabulary, w) && Leads(at, w);
      assert Distance(at, w) <= NEAR_WINDOW;
    }
  }

  lemma GenuineWorth(u: Decoder, hay: Text, vocabulary: seq<Text>, exclude: seq<Span>, c: Candidate)
    requires Genuine(u, hay, vocabulary, exclude, c)
    ensures c.code != []
    ensures c.score <= 0 <==> Worthless(u, hay, vocabulary, c.At())
  {
    PositiveScore(u, hay, vocabulary, c.At());
  }

  lemma RepresentedWorth(u: Decoder, hay: Text, vocabulary: seq<Text>, ranking: seq<Candidate>, at: Span)
    requires at.start <= at.end <= |hay|
    requires Represented(ranking, CandidateAt(u, hay, vocabulary, at))
    requires forall c :: c in ranking ==> c.score <= 0
    ensures Worthless(u, hay, vocabulary, at)
  {
    PositiveScore(u, hay, vocabulary, at);
    var i :| 0 <= i < |ranking| && RanksFirst(ranking[i], CandidateAt(u, hay, vocabulary, at));
    assert ranking[i] in ranking;
  }

  /** No code is chosen exactly when every eligible run is of a length that earns nothing
      by itself and is a year or has no context word within 160 bytes. */
  lemma NoBestMeaning(u: Decoder, hay: Text, vocabulary: seq<Text>, exclude: seq<Span>, ranking: seq<Candidate>)
    requires IsRanking(u, hay, vocabulary, exclude, ranking)
    ensures BestOf(ranking) == [] <==>
            forall at :: Eligible(u, hay, exclude, at) ==> Worthless(u, hay, vocabulary, at)
  {
    forall c | c in ranking ensures c.code != [] && Eligible(u, hay, exclude, c.At())
      && (c.score <= 0 <==> Worthless(u, hay, vocabulary, c.At()))
    {
      var i :| 0 <= i < |ranking| && ranking[i] == c;
      GenuineWorth(u, hay, vocabulary, exclude, c);
    }
    BestIsFirstPositive(ranking);
    if BestOf(ranking) == [] {
      forall at | Eligible(u, hay, exclude, at) ensures Worthless(u, hay, vocabulary, at) {
        RepresentedWorth(u, hay, vocabulary, ranking, at);
      }
    }
  }
}
